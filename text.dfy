/**
 * The Kotlin string operations the token store relies on: `lowercase()`,
 * `uppercase()` and `replace(c, d)` for one-character strings. Case mapping
 * is modelled on ASCII letters only.
 */
module Text {

  predicate IsUpperAscii(c: char) { 'A' <= c <= 'Z' }

  predicate IsLowerAscii(c: char) { 'a' <= c <= 'z' }

  function LowerChar(c: char): (r: char)
    ensures !IsUpperAscii(r)
    ensures IsUpperAscii(c) <==> IsLowerAscii(r) && r != c
  {
    if IsUpperAscii(c) then (c as int + 32) as char else c
  }

  function UpperChar(c: char): (r: char)
    ensures !IsLowerAscii(r)
    ensures IsLowerAscii(c) <==> IsUpperAscii(r) && r != c
  {
    if IsLowerAscii(c) then (c as int - 32) as char else c
  }

  /** `s.lowercase()`: every character mapped through LowerChar. */
  function Lower(s: string): (r: string)
    ensures |r| == |s|
    ensures forall i :: 0 <= i < |s| ==> r[i] == LowerChar(s[i])
  {
    if s == [] then [] else [LowerChar(s[0])] + Lower(s[1..])
  }

  /** `s.uppercase()`: every character mapped through UpperChar. */
  function Upper(s: string): (r: string)
    ensures |r| == |s|
    ensures forall i :: 0 <= i < |s| ==> r[i] == UpperChar(s[i])
  {
    if s == [] then [] else [UpperChar(s[0])] + Upper(s[1..])
  }

  /** `s.replace("<from>", "<to>")`: every occurrence of `from` becomes `to`, all else is kept. */
  function Replace(s: string, from: char, to: char): (r: string)
    ensures |r| == |s|
    ensures forall i :: 0 <= i < |s| ==> r[i] == (if s[i] == from then to else s[i])
  {
    if s == [] then [] else [if s[0] == from then to else s[0]] + Replace(s[1..], from, to)
  }

  /** Two strings are equal up to ASCII letter case. */
  predicate EqualIgnoringCase(a: string, b: string)
  {
    |a| == |b| && forall i :: 0 <= i < |a| ==> LowerChar(a[i]) == LowerChar(b[i])
  }

  /** Lowering and then raising a character is the same as raising it. */
  lemma UpperOfLowerChar(c: char)
    ensures UpperChar(LowerChar(c)) == UpperChar(c)
    ensures LowerChar(UpperChar(c)) == LowerChar(c)
  {
  }

  /** Lowering two strings gives the same string exactly when they agree up to case. */
  lemma LowerEqualIff(a: string, b: string)
    ensures Lower(a) == Lower(b) <==> EqualIgnoringCase(a, b)
  {
    if EqualIgnoringCase(a, b) {
      assert forall i :: 0 <= i < |a| ==> Lower(a)[i] == Lower(b)[i];
    }
    if Lower(a) == Lower(b) {
      assert forall i :: 0 <= i < |a| ==> LowerChar(a[i]) == Lower(a)[i] == Lower(b)[i] == LowerChar(b[i]);
    }
  }

  /** Raising a lowered string is the same as raising the string. */
  lemma UpperOfLower(s: string)
    ensures Upper(Lower(s)) == Upper(s)
  {
    forall i | 0 <= i < |s|
      ensures Upper(Lower(s))[i] == Upper(s)[i]
    {
      UpperOfLowerChar(s[i]);
    }
  }

  /** Replacing `from` by `to` is undone by the reverse replacement when `to` did not occur before. */
  lemma ReplaceBack(s: string, from: char, to: char)
    requires forall i :: 0 <= i < |s| ==> s[i] != to
    ensures Replace(Replace(s, from, to), to, from) == s
  {
    var there := Replace(s, from, to);
    forall i | 0 <= i < |s|
      ensures Replace(there, to, from)[i] == s[i]
    {
      assert there[i] == to <==> s[i] == from;
    }
  }
}
