/** The string operations filters and keys are made with, on ASCII text. */
module Text {

  predicate IsSpace(c: char) {
    c in {' ', '\t', '\n', '\U{0B}', '\U{0C}', '\r'}
  }

  function Trim(s: string): string {
    if |s| > 0 && IsSpace(s[0]) then Trim(s[1..])
    else if |s| > 0 && IsSpace(s[|s| - 1]) then Trim(s[..|s| - 1])
    else s
  }

  function LowerChar(c: char): char {
    if 'A' <= c <= 'Z' then (c as int + 32) as char else c
  }

  function UpperChar(c: char): char {
    if 'a' <= c <= 'z' then (c as int - 32) as char else c
  }

  function Lower(s: string): (r: string)
    ensures |r| == |s|
  {
    seq(|s|, i requires 0 <= i < |s| => LowerChar(s[i]))
  }

  function Upper(s: string): (r: string)
    ensures |r| == |s|
  {
    seq(|s|, i requires 0 <= i < |s| => UpperChar(s[i]))
  }

  /** strings.EqualFold. */
  predicate EqualFold(a: string, b: string) {
    Lower(a) == Lower(b)
  }

  /** The same letter, in upper or lower case, or the same character. */
  predicate SameLetter(a: char, b: char) {
    || a == b
    || ('A' <= a <= 'Z' && b as int - a as int == 'a' as int - 'A' as int)
    || ('A' <= b <= 'Z' && a as int - b as int == 'a' as int - 'A' as int)
  }

  /** The same text but for case. */
  predicate SameText(a: string, b: string) {
    |a| == |b| && forall i :: 0 <= i < |a| ==> SameLetter(a[i], b[i])
  }

  lemma EqualFoldExactly(a: string, b: string)
    ensures EqualFold(a, b) <==> SameText(a, b)
  {
    if EqualFold(a, b) {
      assert |Lower(a)| == |Lower(b)|;
      forall i | 0 <= i < |a| ensures SameLetter(a[i], b[i]) { assert Lower(a)[i] == Lower(b)[i]; }
    }
    if |a| == |b| && forall i :: 0 <= i < |a| ==> SameLetter(a[i], b[i]) {
      forall i | 0 <= i < |a| ensures Lower(a)[i] == Lower(b)[i] { assert SameLetter(a[i], b[i]); }
      assert Lower(a) == Lower(b);
    }
  }

  /** Casing leaves no letter of the other case, and nothing but case changes. */
  lemma CasingMeaning(s: string)
    ensures forall i :: 0 <= i < |s| ==> !('A' <= Lower(s)[i] <= 'Z') && SameLetter(s[i], Lower(s)[i])
    ensures forall i :: 0 <= i < |s| ==> !('a' <= Upper(s)[i] <= 'z') && SameLetter(s[i], Upper(s)[i])
  {
  }

  /** Blank, or one of the five control characters from tab to carriage return. */
  predicate IsWhite(c: char) {
    c == ' ' || 9 <= c as int <= 13
  }

  predicate AllWhite(s: string) {
    forall c :: c in s ==> IsWhite(c)
  }

  lemma IsSpaceExactly(c: char)
    ensures IsSpace(c) <==> IsWhite(c)
  {
    assert c as int == 9 <==> c == '\t';
    assert c as int == 10 <==> c == '\n';
    assert c as int == 11 <==> c == '\U{0B}';
    assert c as int == 12 <==> c == '\U{0C}';
    assert c as int == 13 <==> c == '\r';
  }

  /** Trimming takes off white space at both ends, as much as there is, and nothing else. */
  lemma {:induction false} TrimMeaning(s: string) returns (before: string, after: string)
    ensures s == before + Trim(s) + after && AllWhite(before) && AllWhite(after)
    ensures Trim(s) != "" ==> !IsWhite(Trim(s)[0]) && !IsWhite(Trim(s)[|Trim(s)| - 1])
    decreases |s|
  {
    before, after := "", "";
    if |s| > 0 {
      var n := |s| - 1;
      IsSpaceExactly(s[0]);
      IsSpaceExactly(s[n]);
      if IsSpace(s[0]) {
        var rest;
        rest, after := TrimMeaning(s[1..]);
        before := [s[0]] + rest;
        assert s == [s[0]] + (rest + Trim(s[1..]) + after) == before + Trim(s[1..]) + after;
      } else if IsSpace(s[n]) {
        var rest;
        before, rest := TrimMeaning(s[..n]);
        after := rest + [s[n]];
        assert s == (before + Trim(s[..n]) + rest) + [s[n]] == before + Trim(s[..n]) + after;
      }
    }
  }

  /** What is trimmed away entirely is white space. */
  lemma TrimIsBlankExactly(s: string)
    ensures Trim(s) == "" <==> AllWhite(s)
  {
    var before, after := TrimMeaning(s);
    if Trim(s) != "" { assert Trim(s)[0] in s; }
  }
}
