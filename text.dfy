/** The JavaScript string operations the client relies on: String.prototype.trim,
    String.prototype.toLowerCase (ASCII letters) and String.prototype.includes. */
module Text {

  /** The code points trim removes: ECMAScript's WhiteSpace and LineTerminator. */
  predicate IsSpace(c: char)
  {
    || c == '\t' || c == '\n' || c == '\U{000B}' || c == '\U{000C}' || c == '\r'
    || c == ' ' || c == '\U{00A0}' || c == '\U{1680}'
    || ('\U{2000}' <= c <= '\U{200A}')
    || c == '\U{2028}' || c == '\U{2029}' || c == '\U{202F}' || c == '\U{205F}'
    || c == '\U{3000}' || c == '\U{FEFF}'
  }

  ghost predicate AllSpace(s: string)
  {
    forall k :: 0 <= k < |s| ==> IsSpace(s[k])
  }

  /** The number of white-space characters `s` starts with. */
  function LeadingSpace(s: string): (n: nat)
    ensures n <= |s|
    ensures forall k :: 0 <= k < n ==> IsSpace(s[k])
    ensures n < |s| ==> !IsSpace(s[n])
    decreases |s|
  {
    if s != [] && IsSpace(s[0]) then
      assert forall k :: 1 <= k < |s| ==> s[k] == s[1..][k - 1];
      1 + LeadingSpace(s[1..])
    else
      0
  }

  /** Where `s` ends once the white space it ends with, back to position `lo`, is dropped. */
  function TrimmedEnd(s: string, lo: nat): (m: nat)
    requires lo <= |s|
    ensures lo <= m <= |s|
    ensures forall k :: m <= k < |s| ==> IsSpace(s[k])
    ensures m > lo ==> !IsSpace(s[m - 1])
    decreases |s|
  {
    if |s| > lo && IsSpace(s[|s| - 1]) then TrimmedEnd(s[..|s| - 1], lo) else |s|
  }

  /** `r` is the slice of `s` at offset `i`, and everything around it is white space. */
  ghost predicate IsTrimmedSlice(r: string, s: string, i: int)
  {
    && 0 <= i <= |s| - |r|
    && r == s[i..i + |r|]
    && (forall k :: 0 <= k < i ==> IsSpace(s[k]))
    && (forall k :: i + |r| <= k < |s| ==> IsSpace(s[k]))
  }

  /** String.prototype.trim: drops leading and trailing white space. */
  function Trim(s: string): (r: string)
    ensures r == [] || (!IsSpace(r[0]) && !IsSpace(r[|r| - 1]))
    ensures exists i :: IsTrimmedSlice(r, s, i)
    ensures r == [] <==> AllSpace(s)
  {
    var i := LeadingSpace(s);
    var m := TrimmedEnd(s, i);
    assert i < |s| ==> m > i;
    assert IsTrimmedSlice(s[i..m], s, i);
    s[i..m]
  }

  lemma TrimIdempotent(s: string)
    ensures Trim(Trim(s)) == Trim(s)
  {
  }

  /** A string that neither starts nor ends with white space is its own trim. */
  lemma TrimUnchanged(s: string)
    requires s != [] && !IsSpace(s[0]) && !IsSpace(s[|s| - 1])
    ensures Trim(s) == s
  {
  }

  /** An ASCII upper-case letter. */
  predicate IsUpper(c: char)
  {
    'A' <= c <= 'Z'
  }

  /** An ASCII lower-case letter. */
  predicate IsLower(c: char)
  {
    'a' <= c <= 'z'
  }

  function LowerChar(c: char): (d: char)
    ensures !IsUpper(d)
    ensures IsUpper(c) ==> d as int == c as int + 32
    ensures !IsUpper(c) ==> d == c
  {
    if IsUpper(c) then (c as int + 32) as char else c
  }

  function UpperChar(c: char): (d: char)
    ensures !IsLower(d)
    ensures IsLower(c) ==> d as int == c as int - 32 && LowerChar(d) == c
    ensures !IsLower(c) ==> d == c
  {
    if IsLower(c) then (c as int - 32) as char else c
  }

  /** String.prototype.toLowerCase on the ASCII letters. */
  function ToLower(s: string): (r: string)
  {
    seq(|s|, k requires 0 <= k < |s| => LowerChar(s[k]))
  }

  /** Each ASCII capital becomes its lower-case letter; every other character is kept. */
  lemma ToLowerSpec(s: string)
    ensures |ToLower(s)| == |s|
    ensures forall k :: 0 <= k < |s| ==> !IsUpper(ToLower(s)[k])
    ensures forall k :: 0 <= k < |s| && IsUpper(s[k]) ==> ToLower(s)[k] as int == s[k] as int + 32
    ensures forall k :: 0 <= k < |s| && !IsUpper(s[k]) ==> ToLower(s)[k] == s[k]
    ensures ToLower(ToLower(s)) == ToLower(s)
  {
  }

  /** `term` occurs in `text` starting at position `k`. */
  predicate OccursAt(term: string, text: string, k: int)
  {
    0 <= k && k + |term| <= |text| && text[k..k + |term|] == term
  }

  /** String.prototype.includes. */
  function Contains(text: string, term: string): (b: bool)
    ensures b <==> exists k :: OccursAt(term, text, k)
    decreases |text|
  {
    if |term| > |text| then
      false
    else if term == text[..|term|] then
      assert OccursAt(term, text, 0);
      true
    else
      assert forall k :: OccursAt(term, text[1..], k) <==> OccursAt(term, text, k + 1) by {
        forall k | OccursAt(term, text[1..], k) || OccursAt(term, text, k + 1)
          ensures text[1..][k..k + |term|] == text[k + 1..k + 1 + |term|] { }
      }
      assert forall k :: OccursAt(term, text, k) ==> k >= 1 && OccursAt(term, text[1..], k - 1);
      Contains(text[1..], term)
  }
}
