/** Letter-case mapping on strings, as used by the room registry
    (`strings.ToLower`) and by the create handler (`strings.ToUpper`).
    Only the ASCII letters are mapped. */
module Text {

  predicate IsUpperAscii(c: char) { 'A' <= c <= 'Z' }

  predicate IsLowerAscii(c: char) { 'a' <= c <= 'z' }

  /** The lower-case form of one character. */
  function Lower(c: char): (d: char)
    ensures !IsUpperAscii(d)
    ensures IsUpperAscii(c) ==> d as int == c as int + 32
    ensures !IsUpperAscii(c) ==> d == c
  {
    if IsUpperAscii(c) then (c as int + 32) as char else c
  }

  /** The upper-case form of one character. */
  function Upper(c: char): (d: char)
    ensures !IsLowerAscii(d)
    ensures IsLowerAscii(c) ==> d as int == c as int - 32
    ensures !IsLowerAscii(c) ==> d == c
  {
    if IsLowerAscii(c) then (c as int - 32) as char else c
  }

  /** A string with no upper-case letter: the shape of every registry key. */
  ghost predicate IsLowerCase(s: string) {
    forall i :: 0 <= i < |s| ==> !IsUpperAscii(s[i])
  }

  /** `strings.ToLower`: every character is mapped by Lower, in place. */
  function ToLower(s: string): (r: string)
    ensures |r| == |s|
    ensures forall i :: 0 <= i < |s| ==> r[i] == Lower(s[i])
  {
    if s == [] then [] else [Lower(s[0])] + ToLower(s[1..])
  }

  /** `strings.ToUpper`: every character is mapped by Upper, in place. */
  function ToUpper(s: string): (r: string)
    ensures |r| == |s|
    ensures forall i :: 0 <= i < |s| ==> r[i] == Upper(s[i])
  {
    if s == [] then [] else [Upper(s[0])] + ToUpper(s[1..])
  }

  /** Two strings that are equal up to the case of their letters. */
  ghost predicate EqualFold(a: string, b: string) {
    |a| == |b| && forall i :: 0 <= i < |a| ==> Lower(a[i]) == Lower(b[i])
  }

  /** Lower-casing produces a lower-case string and leaves one unchanged:
      it is idempotent. */
  lemma ToLowerNormalizes(s: string)
    ensures IsLowerCase(ToLower(s))
    ensures IsLowerCase(s) ==> ToLower(s) == s
    ensures ToLower(ToLower(s)) == ToLower(s)
  {
  }

  /** Two strings have the same lower-case form exactly when they are
      equal up to letter case. */
  lemma ToLowerEqualIffEqualFold(a: string, b: string)
    ensures ToLower(a) == ToLower(b) <==> EqualFold(a, b)
  {
  }

  /** The upper-case form of an HTTP method is "POST" exactly when the
      method spells "post" in any mixture of cases. */
  lemma ToUpperIsPost(m: string)
    ensures ToUpper(m) == "POST" <==> EqualFold(m, "post")
  {
  }
}
