/**
 * The text normalizer `normalize(str)` shared, character for character,
 * by the three search handlers: lower-case, decompose (NFD) and drop the
 * combining marks, turn Unicode dashes into '-', blank out everything
 * outside [a-z0-9], white space and '-', collapse white space runs into
 * one space and trim.
 */
module Normalizer {
  import opened JsString
  import opened JsValue

  /** A combining diacritical mark, U+0300 to U+036F. */
  predicate IsMark(c: char) {
    '\U{300}' <= c <= '\U{36F}'
  }

  /** The marks grave, acute, circumflex, tilde and diaeresis, in that order. */
  const FiveMarks: string := "\U{300}\U{301}\U{302}\U{303}\U{308}"

  /** The marks grave, acute, circumflex and diaeresis, in that order. */
  const FourMarks: string := "\U{300}\U{301}\U{302}\U{308}"

  /**
   * The canonical decomposition of a Latin-1 lower-case letter that has
   * one: its base letter and its combining mark (U+00E0 to U+00FF, except
   * the letters without a decomposition, æ ð ø þ, and the division sign).
   */
  function Decompose(c: char): (r: Option<(char, char)>)
    ensures r.Some? ==> c >= '\U{E0}' && 'a' <= r.value.0 <= 'z' && IsMark(r.value.1)
  {
    if '\U{E0}' <= c <= '\U{E4}' then Some(('a', FiveMarks[c as int - 0xE0]))
    else if c == '\U{E5}' then Some(('a', '\U{30A}'))
    else if c == '\U{E7}' then Some(('c', '\U{327}'))
    else if '\U{E8}' <= c <= '\U{EB}' then Some(('e', FourMarks[c as int - 0xE8]))
    else if '\U{EC}' <= c <= '\U{EF}' then Some(('i', FourMarks[c as int - 0xEC]))
    else if c == '\U{F1}' then Some(('n', '\U{303}'))
    else if '\U{F2}' <= c <= '\U{F6}' then Some(('o', FiveMarks[c as int - 0xF2]))
    else if '\U{F9}' <= c <= '\U{FC}' then Some(('u', FourMarks[c as int - 0xF9]))
    else if c == '\U{FD}' then Some(('y', '\U{301}'))
    else if c == '\U{FF}' then Some(('y', '\U{308}'))
    else None
  }

  /** `c.normalize("NFD")` on one character: a letter of the table splits in two, others stay. */
  function Nfd(c: char): (r: string)
    ensures c < '\U{C0}' ==> r == [c]
  {
    match Decompose(c)
    case Some((base, mark)) => [base, mark]
    case None => [c]
  }

  /** `.toLowerCase().normalize("NFD")` */
  function Fold(s: string): string {
    if s == [] then [] else Nfd(LowerChar(s[0])) + Fold(s[1..])
  }

  /** `.replace(/[̀-ͯ]/g, "")` */
  function StripMarks(s: string): (r: string)
    ensures forall i :: 0 <= i < |r| ==> !IsMark(r[i])
    ensures |s| == 1 ==> r == if IsMark(s[0]) then [] else s
  {
    if s == [] then [] else (if IsMark(s[0]) then [] else [s[0]]) + StripMarks(s[1..])
  }

  /** The dashes of the class `[‐-‒–—−]`: U+2010 to U+2014 and U+2212. */
  predicate IsUnicodeDash(c: char) {
    ('\U{2010}' <= c <= '\U{2014}') || c == '\U{2212}'
  }

  /** `.replace(/[‐-‒–—−]/g, "-")` */
  function MapDashes(s: string): (r: string)
    ensures |r| == |s|
    ensures forall i :: 0 <= i < |s| ==> r[i] == if IsUnicodeDash(s[i]) then '-' else s[i]
  {
    if s == [] then [] else [if IsUnicodeDash(s[0]) then '-' else s[0]] + MapDashes(s[1..])
  }

  /** The characters `[a-z0-9\s-]` lets through. */
  predicate IsKept(c: char) {
    ('a' <= c <= 'z') || ('0' <= c <= '9') || IsSpace(c) || c == '-'
  }

  /** `.replace(/[^a-z0-9\s-]/g, " ")` */
  function BlankOthers(s: string): (r: string)
    ensures |r| == |s|
    ensures forall i :: 0 <= i < |s| ==> r[i] == if IsKept(s[i]) then s[i] else ' '
  {
    if s == [] then [] else [if IsKept(s[0]) then s[0] else ' '] + BlankOthers(s[1..])
  }

  /**
   * `.replace(/\s+/g, " ")`: each maximal run of white space becomes one
   * space; `afterSpace` says the run began before `s`.
   */
  function CollapseSpaces(s: string, afterSpace: bool): string {
    if s == [] then []
    else if IsSpace(s[0]) then (if afterSpace then [] else [' ']) + CollapseSpaces(s[1..], true)
    else [s[0]] + CollapseSpaces(s[1..], false)
  }

  /** The characters a normalized string is made of. */
  predicate IsNormalChar(c: char) {
    ('a' <= c <= 'z') || ('0' <= c <= '9') || c == ' ' || c == '-'
  }

  /** The form `normalize` produces: over [a-z0-9 -], trimmed, no two spaces in a row. */
  predicate IsNormalized(s: string) {
    && (forall i :: 0 <= i < |s| ==> IsNormalChar(s[i]))
    && (s == [] || (s[0] != ' ' && s[|s| - 1] != ' '))
    && (forall i :: 0 <= i < |s| - 1 ==> !(s[i] == ' ' && s[i + 1] == ' '))
  }

  /** `normalize(str)` applied to a string. */
  function Normalize(s: string): string {
    Trim(CollapseSpaces(BlankOthers(MapDashes(StripMarks(Fold(s)))), false))
  }

  /** `normalize(str)` as the handlers call it: `String(str || "")` first. */
  function NormalizeValue(v: Value): (r: string)
    ensures !Truthy(v) ==> r == ""
  {
    Normalize(TextOf(v))
  }

  // ---------------------------------------------------------------------
  // What normalize produces

  /** Every character is one a normalized string may contain. */
  predicate AllNormalChars(s: string) {
    forall i :: 0 <= i < |s| ==> IsNormalChar(s[i])
  }

  /** No two spaces follow each other. */
  predicate NoDoubleSpace(s: string) {
    forall i :: 0 <= i < |s| - 1 ==> !(s[i] == ' ' && s[i + 1] == ' ')
  }

  /** After collapsing, the string's only white space is single spaces. */
  lemma {:induction false} CollapseShape(s: string, afterSpace: bool)
    requires forall i :: 0 <= i < |s| ==> IsKept(s[i])
    ensures AllNormalChars(CollapseSpaces(s, afterSpace))
    ensures NoDoubleSpace(CollapseSpaces(s, afterSpace))
    ensures afterSpace && CollapseSpaces(s, afterSpace) != [] ==> CollapseSpaces(s, afterSpace)[0] != ' '
  {
    if s != [] {
      var rest := CollapseSpaces(s[1..], IsSpace(s[0]));
      CollapseShape(s[1..], IsSpace(s[0]));
      var head: string := if IsSpace(s[0]) then (if afterSpace then [] else [' ']) else [s[0]];
      assert CollapseSpaces(s, afterSpace) == head + rest;
      assert forall i :: 0 <= i < |head| ==> IsNormalChar(head[i]);
      assert forall i :: |head| <= i < |head + rest| ==> (head + rest)[i] == rest[i - |head|];
    }
  }

  /** Trimming keeps the characters and the absence of double spaces. */
  lemma TrimKeepsShape(s: string)
    requires AllNormalChars(s) && NoDoubleSpace(s)
    ensures IsNormalized(Trim(s))
  {
    var t := TrimStart(s);
    SuffixKeepsShape(s, |s| - |t|);
    PrefixKeepsShape(t, |TrimEnd(t)|);
  }

  lemma SuffixKeepsShape(s: string, k: nat)
    requires k <= |s| && AllNormalChars(s) && NoDoubleSpace(s)
    ensures AllNormalChars(s[k..]) && NoDoubleSpace(s[k..])
  {
    assert forall i :: 0 <= i < |s| - k ==> s[k..][i] == s[k + i];
  }

  lemma PrefixKeepsShape(s: string, k: nat)
    requires k <= |s| && AllNormalChars(s) && NoDoubleSpace(s)
    ensures AllNormalChars(s[..k]) && NoDoubleSpace(s[..k])
  {
  }

  /** Every result of normalize is in normal form. */
  lemma NormalizeIsNormalized(s: string)
    ensures IsNormalized(Normalize(s))
  {
    var b := BlankOthers(MapDashes(StripMarks(Fold(s))));
    CollapseShape(b, false);
    TrimKeepsShape(CollapseSpaces(b, false));
  }

  // ---------------------------------------------------------------------
  // Normal form is a fixed point, hence idempotence

  lemma {:induction false} FoldNoop(s: string)
    requires forall i :: 0 <= i < |s| ==> IsNormalChar(s[i])
    ensures Fold(s) == s
  {
    if s != [] {
      FoldNoop(s[1..]);
    }
  }

  lemma {:induction false} StripMarksNoop(s: string)
    requires forall i :: 0 <= i < |s| ==> IsNormalChar(s[i])
    ensures StripMarks(s) == s
  {
    if s != [] {
      StripMarksNoop(s[1..]);
    }
  }

  lemma {:induction false} CollapseNoop(s: string, afterSpace: bool)
    requires forall i :: 0 <= i < |s| ==> IsNormalChar(s[i])
    requires forall i :: 0 <= i < |s| - 1 ==> !(s[i] == ' ' && s[i + 1] == ' ')
    requires afterSpace && s != [] ==> s[0] != ' '
    ensures CollapseSpaces(s, afterSpace) == s
  {
    if s != [] {
      CollapseNoop(s[1..], s[0] == ' ');
    }
  }

  lemma MapDashesNoop(s: string)
    requires forall i :: 0 <= i < |s| ==> IsNormalChar(s[i])
    ensures MapDashes(s) == s
  {
    assert forall i :: 0 <= i < |s| ==> MapDashes(s)[i] == s[i];
  }

  lemma BlankOthersNoop(s: string)
    requires forall i :: 0 <= i < |s| ==> IsNormalChar(s[i])
    ensures BlankOthers(s) == s
  {
    assert forall i :: 0 <= i < |s| ==> BlankOthers(s)[i] == s[i];
  }

  /** A string already in normal form is left alone. */
  lemma NormalizeFixesNormalForm(s: string)
    requires IsNormalized(s)
    ensures Normalize(s) == s
  {
    assert StripMarks(Fold(s)) == s by {
      FoldNoop(s);
      StripMarksNoop(s);
    }
    assert BlankOthers(MapDashes(s)) == s by {
      MapDashesNoop(s);
      BlankOthersNoop(s);
    }
    assert CollapseSpaces(s, false) == s by {
      CollapseNoop(s, false);
    }
    TrimNoop(s);
  }

  /** `normalize(normalize(x)) == normalize(x)` */
  lemma NormalizeIdempotent(s: string)
    ensures Normalize(Normalize(s)) == Normalize(s)
  {
    NormalizeIsNormalized(s);
    NormalizeFixesNormalForm(Normalize(s));
  }

  // ---------------------------------------------------------------------
  // Case and accents do not matter

  /** What one input character contributes once folded and stripped of marks. */
  function FoldedChar(c: char): string {
    StripMarks(Nfd(LowerChar(c)))
  }

  /**
   * Removing marks works character by character: with the one-character
   * case of `StripMarks`, every other character is kept, in order.
   */
  lemma {:induction false} StripMarksAppend(a: string, b: string)
    ensures StripMarks(a + b) == StripMarks(a) + StripMarks(b)
  {
    if a != [] {
      var head: string := if IsMark(a[0]) then [] else [a[0]];
      assert (a + b)[0] == a[0];
      assert (a + b)[1..] == a[1..] + b;
      StripMarksAppend(a[1..], b);
      calc {
        StripMarks(a + b);
        head + StripMarks(a[1..] + b);
        head + (StripMarks(a[1..]) + StripMarks(b));
        (head + StripMarks(a[1..])) + StripMarks(b);
        StripMarks(a) + StripMarks(b);
      }
    } else {
      assert a + b == b;
    }
  }

  lemma {:induction false} StripFoldCons(s: string)
    requires s != []
    ensures StripMarks(Fold(s)) == FoldedChar(s[0]) + StripMarks(Fold(s[1..]))
  {
    StripMarksAppend(Nfd(LowerChar(s[0])), Fold(s[1..]));
  }

  /** Two strings whose characters fold alike normalize alike. */
  lemma {:induction false} FoldsAlike(s: string, t: string)
    requires |s| == |t|
    requires forall i :: 0 <= i < |s| ==> FoldedChar(s[i]) == FoldedChar(t[i])
    ensures StripMarks(Fold(s)) == StripMarks(Fold(t))
    ensures Normalize(s) == Normalize(t)
  {
    if s != [] {
      FoldsAlike(s[1..], t[1..]);
      StripFoldCons(s);
      StripFoldCons(t);
    }
  }

  lemma LowerCharIdempotent(c: char)
    ensures LowerChar(LowerChar(c)) == LowerChar(c)
  {
  }

  /** Case does not matter: `normalize(s.toLowerCase()) == normalize(s)`. */
  lemma NormalizeIgnoresCase(s: string)
    ensures Normalize(Lower(s)) == Normalize(s)
  {
    forall i | 0 <= i < |s|
      ensures FoldedChar(Lower(s)[i]) == FoldedChar(s[i])
    {
      LowerCharIdempotent(s[i]);
    }
    FoldsAlike(Lower(s), s);
  }

  /** A letter of the table folds to its base letter, which folds to itself. */
  lemma TableLetterFolds(c: char)
    requires Decompose(c).Some?
    ensures FoldedChar(c) == [Decompose(c).value.0] == FoldedChar(Decompose(c).value.0)
  {
  }

  /** An accented letter of the table normalizes like its base letter. */
  lemma AccentInsensitive(a: string, b: string, c: char)
    requires Decompose(c).Some?
    ensures Normalize(a + [c] + b) == Normalize(a + [Decompose(c).value.0] + b)
  {
    var base := Decompose(c).value.0;
    var s, t := a + [c] + b, a + [base] + b;
    TableLetterFolds(c);
    forall i | 0 <= i < |s|
      ensures FoldedChar(s[i]) == FoldedChar(t[i])
    {
      if i < |a| {
        assert s[i] == a[i] == t[i];
      } else if i > |a| {
        assert s[i] == b[i - |a| - 1] == t[i];
      }
    }
    FoldsAlike(s, t);
  }

  /** "Día" and "dia" normalize alike. */
  lemma DiaExample()
    ensures Normalize("D\U{ED}a") == Normalize("dia")
  {
    var s, t := "D\U{ED}a", "dia";
    forall i | 0 <= i < |s|
      ensures FoldedChar(s[i]) == FoldedChar(t[i])
    {
      if i == 0 {
        assert FoldedChar('D') == "d" == FoldedChar('d');
      } else if i == 1 {
        TableLetterFolds('\U{ED}');
      }
    }
    FoldsAlike(s, t);
  }

  /** `normalize("")` is "". */
  lemma NormalizeEmpty()
    ensures Normalize("") == ""
  {
    assert Fold("") == "";
    assert CollapseSpaces("", false) == "";
  }
}
