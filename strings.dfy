/**
 * The few functions of Go's `strings` and `unicode` packages that the
 * repository helpers rely on, over `string` (a sequence of code points).
 */
module Strings {

  /** Go's `unicode.IsSpace`: the Latin-1 spaces plus Unicode White_Space. */
  predicate IsSpace(c: char) {
    || c == ' ' || c == '\t' || c == '\n' || c == '\U{0B}' || c == '\U{0C}' || c == '\r'
    || c == '\U{85}' || c == '\U{A0}' || c == '\U{1680}'
    || ('\U{2000}' <= c <= '\U{200A}')
    || c == '\U{2028}' || c == '\U{2029}' || c == '\U{202F}' || c == '\U{205F}' || c == '\U{3000}'
  }

  predicate HasPrefix(s: string, prefix: string) {
    prefix <= s
  }

  predicate HasSuffix(s: string, suffix: string) {
    |suffix| <= |s| && s[|s| - |suffix|..] == suffix
  }

  /** `strings.TrimPrefix`: drops `prefix` once when `s` starts with it. */
  function TrimPrefix(s: string, prefix: string): (r: string)
    ensures HasPrefix(s, prefix) ==> prefix + r == s
    ensures !HasPrefix(s, prefix) ==> r == s
  {
    if HasPrefix(s, prefix) then s[|prefix|..] else s
  }

  /** A string with no leading and no trailing white space. */
  predicate Trimmed(s: string) {
    s == [] || (!IsSpace(s[0]) && !IsSpace(s[|s| - 1]))
  }

  /** Drops the leading white space. */
  function TrimLeftSpace(s: string): (r: string)
    ensures |r| <= |s| && r == s[|s| - |r|..]
    ensures forall i :: 0 <= i < |s| - |r| ==> IsSpace(s[i])
    ensures r != [] ==> !IsSpace(r[0])
    decreases |s|
  {
    if s != [] && IsSpace(s[0]) then TrimLeftSpace(s[1..]) else s
  }

  /** Drops the trailing white space. */
  function TrimRightSpace(s: string): (r: string)
    ensures |r| <= |s| && r == s[..|r|]
    ensures forall i :: |r| <= i < |s| ==> IsSpace(s[i])
    ensures r != [] ==> !IsSpace(r[|r| - 1])
    decreases |s|
  {
    if s != [] && IsSpace(s[|s| - 1]) then TrimRightSpace(s[..|s| - 1]) else s
  }

  /** `strings.TrimSpace`: the slice of `s` left once white space is cut off at both ends. */
  function TrimSpace(s: string): (r: string)
    ensures Trimmed(r)
    ensures Trimmed(s) ==> r == s
    ensures exists i, j ::
              && 0 <= i <= j <= |s| && r == s[i..j]
              && (forall k :: 0 <= k < i ==> IsSpace(s[k]))
              && (forall k :: j <= k < |s| ==> IsSpace(s[k]))
  {
    var left := TrimLeftSpace(s);
    var r := TrimRightSpace(left);
    SpaceCutAtBothEnds(s, left, r);
    assert r != [] ==> r[0] == left[0];
    r
  }

  /**
   * A suffix of `s` with only white space before it, cut to a prefix with
   * only white space after it, is a slice of `s` with only white space
   * outside it.
   */
  lemma SpaceCutAtBothEnds(s: string, left: string, r: string)
    requires |left| <= |s| && left == s[|s| - |left|..]
    requires forall k :: 0 <= k < |s| - |left| ==> IsSpace(s[k])
    requires |r| <= |left| && r == left[..|r|]
    requires forall k :: |r| <= k < |left| ==> IsSpace(left[k])
    ensures exists i, j ::
              && 0 <= i <= j <= |s| && r == s[i..j]
              && (forall k :: 0 <= k < i ==> IsSpace(s[k]))
              && (forall k :: j <= k < |s| ==> IsSpace(s[k]))
  {
    var i := |s| - |left|;
    var j := i + |r|;
    assert r == s[i..j] by {
      assert s[i..][..|r|] == s[i..j];
    }
    forall k | j <= k < |s|
      ensures IsSpace(s[k])
    {
      assert s[k] == left[k - i];
    }
  }

  /** White space around a trimmed, non-empty string is exactly what `TrimSpace` cuts off. */
  lemma TrimSpaceOfPadded(pre: string, s: string, post: string)
    requires forall k :: 0 <= k < |pre| ==> IsSpace(pre[k])
    requires forall k :: 0 <= k < |post| ==> IsSpace(post[k])
    requires s != [] && Trimmed(s)
    ensures TrimSpace(pre + s + post) == s
  {
    assert pre + s + post == pre + (s + post);
    TrimLeftOfPadded(pre, s + post);
    TrimRightOfPadded(s, post);
  }

  lemma {:induction false} TrimLeftOfPadded(pre: string, s: string)
    requires forall k :: 0 <= k < |pre| ==> IsSpace(pre[k])
    requires s != [] && !IsSpace(s[0])
    ensures TrimLeftSpace(pre + s) == s
    decreases |pre|
  {
    var padded := pre + s;
    if pre == [] {
      assert padded == s;
    } else {
      assert padded[0] == pre[0] && IsSpace(padded[0]);
      assert padded[1..] == pre[1..] + s;
      TrimLeftOfPadded(pre[1..], s);
      assert TrimLeftSpace(padded) == TrimLeftSpace(padded[1..]);
    }
  }

  lemma {:induction false} TrimRightOfPadded(s: string, post: string)
    requires forall k :: 0 <= k < |post| ==> IsSpace(post[k])
    requires s != [] && !IsSpace(s[|s| - 1])
    ensures TrimRightSpace(s + post) == s
    decreases |post|
  {
    if post == [] {
      assert s + post == s;
    } else {
      var padded := s + post;
      var shorter := post[..|post| - 1];
      assert padded[|padded| - 1] == post[|post| - 1] && IsSpace(padded[|padded| - 1]);
      assert padded[..|padded| - 1] == s + shorter;
      TrimRightOfPadded(s, shorter);
      assert TrimRightSpace(padded) == TrimRightSpace(padded[..|padded| - 1]);
    }
  }

  /** ASCII letter lower-casing; every other code point is kept. */
  function LowerChar(c: char): (d: char)
    ensures IsSpace(d) <==> IsSpace(c)
    ensures 'A' <= c <= 'Z' ==> 'a' <= d <= 'z'
    ensures !('A' <= c <= 'Z') ==> d == c
  {
    if 'A' <= c <= 'Z' then (c as int + 32) as char else c
  }

  /** `strings.ToLower`, restricted to ASCII letters. */
  function ToLower(s: string): (r: string)
    ensures |r| == |s|
    decreases |s|
  {
    if s == [] then [] else [LowerChar(s[0])] + ToLower(s[1..])
  }

  lemma {:induction false} ToLowerAt(s: string, i: nat)
    requires i < |s|
    ensures ToLower(s)[i] == LowerChar(s[i])
    decreases |s|
  {
    if i > 0 {
      ToLowerAt(s[1..], i - 1);
    }
  }

  lemma {:induction false} ToLowerConcat(a: string, b: string)
    ensures ToLower(a + b) == ToLower(a) + ToLower(b)
    decreases |a|
  {
    if a != [] {
      assert (a + b)[1..] == a[1..] + b;
      ToLowerConcat(a[1..], b);
    } else {
      assert a + b == b;
    }
  }

  lemma {:induction false} ToLowerIdempotent(s: string)
    ensures ToLower(ToLower(s)) == ToLower(s)
    decreases |s|
  {
    if s != [] {
      ToLowerIdempotent(s[1..]);
    }
  }

  /** Lower-casing never creates or removes white space at either end. */
  lemma ToLowerKeepsTrimmed(s: string)
    requires Trimmed(s)
    ensures Trimmed(ToLower(s))
  {
    if s != [] {
      ToLowerAt(s, 0);
      ToLowerAt(s, |s| - 1);
    }
  }

  /** A string without ASCII capitals. */
  predicate NoUpper(s: string) {
    forall i :: 0 <= i < |s| ==> !('A' <= s[i] <= 'Z')
  }

  lemma {:induction false} ToLowerOfNoUpper(s: string)
    requires NoUpper(s)
    ensures ToLower(s) == s
    decreases |s|
  {
    if s != [] {
      ToLowerOfNoUpper(s[1..]);
    }
  }

  /** Lower-casing a string whose ends have no capitals only changes its middle. */
  lemma ToLowerOfMiddle(pre: string, mid: string, post: string)
    requires NoUpper(pre) && NoUpper(post)
    ensures ToLower(pre + mid + post) == pre + ToLower(mid) + post
  {
    ToLowerConcat(pre + mid, post);
    ToLowerConcat(pre, mid);
    ToLowerOfNoUpper(pre);
    ToLowerOfNoUpper(post);
  }

  /** Lower-casing keeps a prefix that has no capitals. */
  lemma ToLowerKeepsPrefix(s: string, prefix: string)
    requires HasPrefix(s, prefix) && NoUpper(prefix)
    ensures HasPrefix(ToLower(s), prefix)
  {
    assert s == prefix + s[|prefix|..];
    ToLowerConcat(prefix, s[|prefix|..]);
    ToLowerOfNoUpper(prefix);
  }

  /** Lower-casing never makes a character into a dot, so it cannot create a `.git` suffix. */
  lemma NoGitSuffixAfterLower(s: string)
    requires |s| >= 4 && s[|s| - 4] != '.'
    ensures !HasSuffix(ToLower(s), ".git")
  {
    ToLowerAt(s, |s| - 4);
  }
}
