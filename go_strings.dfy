/** Go's `strings.TrimSpace`, as the interceptor uses it on the access-token parameter. */
module GoStrings {

  /** Go's `unicode.IsSpace`: the six ASCII spaces, NEL, NBSP, and the other Unicode White_Space characters. */
  predicate IsSpace(c: char)
  {
    || c == '\t' || c == '\n' || c == '\U{B}' || c == '\U{C}' || c == '\r' || c == ' '
    || c == '\U{85}' || c == '\U{A0}' || c == '\U{1680}'
    || c == '\U{2000}' || c == '\U{2001}' || c == '\U{2002}' || c == '\U{2003}' || c == '\U{2004}' || c == '\U{2005}'
    || c == '\U{2006}' || c == '\U{2007}' || c == '\U{2008}' || c == '\U{2009}' || c == '\U{200A}'
    || c == '\U{2028}' || c == '\U{2029}' || c == '\U{202F}' || c == '\U{205F}' || c == '\U{3000}'
  }

  /**
   * Where `strings.TrimLeftFunc` cuts: the index of the first character not satisfying f
   * (Go's `indexFunc(s, f, false)`), or |s| when every character satisfies f.
   */
  function FirstNot(s: string, f: char -> bool): (i: nat)
    ensures i <= |s|
    ensures forall k :: 0 <= k < i ==> f(s[k])
    ensures i < |s| ==> !f(s[i])
  {
    if s == [] || !f(s[0]) then 0 else 1 + FirstNot(s[1..], f)
  }

  /**
   * Where `strings.TrimRightFunc` cuts: one past the last character not satisfying f
   * (Go's `lastIndexFunc(s, f, false) + 1`), or 0 when every character satisfies f.
   */
  function EndOfLastNot(s: string, f: char -> bool): (j: nat)
    ensures j <= |s|
    ensures forall k :: j <= k < |s| ==> f(s[k])
    ensures j > 0 ==> !f(s[j - 1])
  {
    if s == [] || !f(s[|s| - 1]) then |s| else EndOfLastNot(s[..|s| - 1], f)
  }

  /** `strings.TrimLeftFunc`. */
  function TrimLeftFunc(s: string, f: char -> bool): string
  {
    s[FirstNot(s, f)..]
  }

  /** `strings.TrimRightFunc`. */
  function TrimRightFunc(s: string, f: char -> bool): string
  {
    s[..EndOfLastNot(s, f)]
  }

  /**
   * `strings.TrimFunc`: the contiguous piece of s, starting at FirstNot(s, f), left once the
   * characters satisfying f are removed from both ends. It is empty exactly when every
   * character of s satisfies f.
   */
  function TrimFunc(s: string, f: char -> bool): (r: string)
    ensures r == [] <==> forall k :: 0 <= k < |s| ==> f(s[k])
    ensures r != [] ==> !f(r[0]) && !f(r[|r| - 1])
    ensures var i := FirstNot(s, f);
      && i + |r| <= |s| && r == s[i..i + |r|]
      && (forall k :: 0 <= k < i ==> f(s[k]))
      && (forall k :: i + |r| <= k < |s| ==> f(s[k]))
  {
    var i := FirstNot(s, f);
    var left := s[i..];
    var j := EndOfLastNot(left, f);
    var r := left[..j];
    assert r == s[i..i + j];
    assert forall k :: i + j <= k < |s| ==> s[k] == left[k - i];
    assert j > 0 ==> r[0] == s[i] && r[j - 1] == left[j - 1];
    assert r == TrimRightFunc(TrimLeftFunc(s, f), f);
    TrimRightFunc(TrimLeftFunc(s, f), f)
  }

  /** `strings.TrimSpace`: s without its leading and trailing white space. */
  function TrimSpace(s: string): (r: string)
    ensures r == [] <==> forall k :: 0 <= k < |s| ==> IsSpace(s[k])
    ensures r != [] ==> !IsSpace(r[0]) && !IsSpace(r[|r| - 1])
    ensures var i := FirstNot(s, IsSpace);
      && i + |r| <= |s| && r == s[i..i + |r|]
      && (forall k :: 0 <= k < i ==> IsSpace(s[k]))
      && (forall k :: i + |r| <= k < |s| ==> IsSpace(s[k]))
  {
    TrimFunc(s, IsSpace)
  }

  /** A string with no surrounding white space comes back from TrimSpace unchanged. */
  lemma {:induction false} TrimSpaceKeepsTrimmed(s: string)
    requires s == [] || (!IsSpace(s[0]) && !IsSpace(s[|s| - 1]))
    ensures TrimSpace(s) == s
  {
  }

  /** Trimming twice is trimming once. */
  lemma TrimSpaceIdempotent(s: string)
    ensures TrimSpace(TrimSpace(s)) == TrimSpace(s)
  {
    TrimSpaceKeepsTrimmed(TrimSpace(s));
  }
}
