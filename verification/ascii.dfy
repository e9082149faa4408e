/**
 * strcasecmp / _stricmp as the request handler uses them: the two strings
 * are read as C strings (up to the first NUL) and compared one character at
 * a time after ASCII lower-casing.
 */
module Ascii {

  const NUL: char := 0 as char

  /** ASCII tolower: 'A'..'Z' map to 'a'..'z', every other character to itself. */
  function Lower(c: char): (l: char)
    ensures ('A' <= c <= 'Z') ==> l as int == c as int + 32
    ensures !('A' <= c <= 'Z') ==> l == c
    ensures l == NUL <==> c == NUL
  {
    if 'A' <= c <= 'Z' then (c as int + 32) as char else c
  }

  /** Lower applied to every character. */
  function LowerAll(s: string): (r: string)
    ensures |r| == |s|
    ensures forall i :: 0 <= i < |s| ==> r[i] == Lower(s[i])
    decreases |s|
  {
    if |s| == 0 then [] else [Lower(s[0])] + LowerAll(s[1..])
  }

  /** The string as `c_str()` exposes it to C: everything before the first NUL. */
  function CStr(s: string): (r: string)
    ensures |r| <= |s|
    ensures r == s[..|r|]
    ensures NUL !in r
    ensures |r| < |s| ==> s[|r|] == NUL
    decreases |s|
  {
    if |s| == 0 || s[0] == NUL then [] else [s[0]] + CStr(s[1..])
  }

  /** The character at the head of a C string: NUL once the string has ended. */
  function Head(s: string): char {
    if |s| == 0 then NUL else s[0]
  }

  /**
   * strcasecmp(a, b) == 0: walk both strings while the lower-cased
   * characters agree; equal when both reach their terminator together.
   */
  function StrCaseEqual(a: string, b: string): bool
    decreases |a|
  {
    var ca := Lower(Head(a));
    var cb := Lower(Head(b));
    if ca != cb then false
    else if ca == NUL then true
    else StrCaseEqual(a[1..], b[1..])
  }

  /**
   * The walk agrees with the reference definition: two strings compare
   * equal exactly when their C-string prefixes are equal after lower-casing.
   */
  lemma {:induction false} StrCaseEqualMeansLowerEqual(a: string, b: string)
    ensures StrCaseEqual(a, b) <==> LowerAll(CStr(a)) == LowerAll(CStr(b))
    decreases |a|
  {
    var ca := Lower(Head(a));
    var cb := Lower(Head(b));
    if Head(a) == NUL || Head(b) == NUL {
      assert CStr(a) == [] || CStr(b) == [];
      if Head(a) == NUL && Head(b) == NUL {
        assert CStr(a) == [] && CStr(b) == [];
      } else if Head(a) == NUL {
        assert LowerAll(CStr(b))[0] != NUL;
      } else {
        assert LowerAll(CStr(a))[0] != NUL;
      }
    } else {
      assert CStr(a) == [a[0]] + CStr(a[1..]);
      assert CStr(b) == [b[0]] + CStr(b[1..]);
      assert LowerAll(CStr(a)) == [ca] + LowerAll(CStr(a[1..]));
      assert LowerAll(CStr(b)) == [cb] + LowerAll(CStr(b[1..]));
      StrCaseEqualMeansLowerEqual(a[1..], b[1..]);
      if LowerAll(CStr(a)) == LowerAll(CStr(b)) {
        assert LowerAll(CStr(a))[1..] == LowerAll(CStr(b))[1..];
      }
    }
  }
}
