/** String operations the bounce job applies to provider fields: Python's
    `str.lower()`, `str.strip()`, `str.startswith()` and the `in` substring
    test, restricted to ASCII letters and ASCII whitespace. */
module Text {

  /** Python's `str.isspace()` on ASCII: space, tab, line feed, vertical tab,
      form feed, carriage return and the four separators 0x1C-0x1F. */
  predicate IsSpace(c: char) {
    c == ' ' || ('\U{9}' <= c <= '\U{D}') || ('\U{1C}' <= c <= '\U{1F}')
  }

  predicate IsUpper(c: char) {
    'A' <= c <= 'Z'
  }

  function LowerChar(c: char): (d: char)
    ensures !IsUpper(d)
    ensures !IsUpper(c) ==> d == c
  {
    if IsUpper(c) then (c as int - 'A' as int + 'a' as int) as char else c
  }

  /** `s.lower()`: every character folded on its own, length preserved. */
  function Lower(s: string): (r: string)
    ensures |r| == |s|
    ensures forall i :: 0 <= i < |s| ==> r[i] == LowerChar(s[i])
  {
    if |s| == 0 then "" else [LowerChar(s[0])] + Lower(s[1..])
  }

  lemma LowerAppend(a: string, b: string)
    ensures Lower(a + b) == Lower(a) + Lower(b)
  {
    assert forall i :: 0 <= i < |a + b| ==> Lower(a + b)[i] == (Lower(a) + Lower(b))[i];
  }

  predicate StartsWith(s: string, prefix: string) {
    |prefix| <= |s| && s[..|prefix|] == prefix
  }

  /** Python's `sub in s`. */
  predicate Contains(s: string, sub: string)
    decreases |s|
  {
    StartsWith(s, sub) || (|s| > 0 && Contains(s[1..], sub))
  }

  /** Any occurrence of `sub` at any position is found. */
  lemma {:induction false} ContainsInfix(pre: string, sub: string, post: string)
    ensures Contains(pre + sub + post, sub)
  {
    if |pre| == 0 {
      assert pre + sub + post == sub + post;
      assert (sub + post)[..|sub|] == sub;
    } else {
      ContainsInfix(pre[1..], sub, post);
      assert (pre + sub + post)[1..] == pre[1..] + sub + post;
    }
  }

  /** `s.lstrip()`: the longest suffix of `s` not starting with whitespace. */
  function TrimStart(s: string): (r: string)
    ensures |r| <= |s| && r == s[|s| - |r|..]
    ensures forall i :: 0 <= i < |s| - |r| ==> IsSpace(s[i])
    ensures |r| > 0 ==> !IsSpace(r[0])
  {
    if |s| > 0 && IsSpace(s[0]) then TrimStart(s[1..]) else s
  }

  /** `s.rstrip()`: the longest prefix of `s` not ending in whitespace. */
  function TrimEnd(s: string): (r: string)
    ensures |r| <= |s| && r == s[..|r|]
    ensures forall i :: |r| <= i < |s| ==> IsSpace(s[i])
    ensures |r| > 0 ==> !IsSpace(r[|r| - 1])
  {
    if |s| > 0 && IsSpace(s[|s| - 1]) then TrimEnd(s[..|s| - 1]) else s
  }

  /** `s.strip()`. */
  function Strip(s: string): string {
    TrimEnd(TrimStart(s))
  }

  predicate AllSpace(s: string) {
    forall i :: 0 <= i < |s| ==> IsSpace(s[i])
  }

  /** Leading whitespace is dropped and a non-blank first character survives
      stripping together with everything up to the next non-blank one. */
  lemma StripKeepsNonBlankPrefix(ws: string, p: string, rest: string)
    requires AllSpace(ws)
    requires forall i :: 0 <= i < |p| ==> !IsSpace(p[i])
    ensures StartsWith(Strip(ws + p + rest), p)
  {
    var s := ws + p + rest;
    if |p| > 0 {
      assert forall k :: 0 <= k < |ws| ==> s[k] == ws[k];
      assert forall k :: 0 <= k < |p| ==> s[|ws| + k] == p[k];
      assert !IsSpace(s[|ws|]);
      var t := TrimStart(s);
      assert t[0] == s[|s| - |t|];
      assert |s| - |t| == |ws|;
      assert t == p + rest;
      var u := TrimEnd(t);
      assert !IsSpace(t[|p| - 1]);
      assert |u| >= |p|;
      assert u[..|p|] == t[..|p|] == p;
    }
  }
}
