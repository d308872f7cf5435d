/** Python's `str.strip()` with no argument, as used on city names. */
module Text {

  /** The characters for which Python's `str.isspace()` holds. */
  predicate IsSpace(c: char) {
    var n := c as int;
    || (0x09 <= n <= 0x0D) || (0x1C <= n <= 0x20)
    || n == 0x85 || n == 0xA0 || n == 0x1680
    || (0x2000 <= n <= 0x200A)
    || n == 0x2028 || n == 0x2029 || n == 0x202F || n == 0x205F || n == 0x3000
  }

  /** The length of the whitespace run at the start of `s`. */
  function LeadingSpaces(s: string): (k: nat)
    ensures k <= |s|
    ensures forall i :: 0 <= i < k ==> IsSpace(s[i])
    ensures k == |s| || !IsSpace(s[k])
  {
    if s != [] && IsSpace(s[0]) then 1 + LeadingSpaces(s[1..]) else 0
  }

  /** The length of the whitespace run at the end of `s`. */
  function TrailingSpaces(s: string): (k: nat)
    ensures k <= |s|
    ensures forall i :: |s| - k <= i < |s| ==> IsSpace(s[i])
    ensures k == |s| || !IsSpace(s[|s| - 1 - k])
  {
    if s != [] && IsSpace(s[|s| - 1]) then 1 + TrailingSpaces(s[..|s| - 1]) else 0
  }

  /**
   * `s` without its leading and trailing whitespace: a contiguous slice of
   * `s`, everything cut away is whitespace, and what remains neither starts
   * nor ends with whitespace.
   */
  function Strip(s: string): (r: string)
    ensures |r| <= |s|
    ensures exists i, j ::
              && 0 <= i <= j <= |s| && r == s[i..j]
              && (forall k :: 0 <= k < i ==> IsSpace(s[k]))
              && (forall k :: j <= k < |s| ==> IsSpace(s[k]))
    ensures Stripped(r)
  {
    var i := LeadingSpaces(s);
    var j := |s| - TrailingSpaces(s[i..]);
    assert s[i..][..j - i] == s[i..j];
    s[i..j]
  }

  /** `s` has no whitespace at either end, so stripping leaves it as it is. */
  predicate Stripped(s: string) {
    s == [] || (!IsSpace(s[0]) && !IsSpace(s[|s| - 1]))
  }

  /** The strings `Strip` leaves unchanged are exactly the stripped ones. */
  lemma StrippedIsFixpoint(s: string)
    ensures Stripped(s) <==> Strip(s) == s
  {
  }

  /** Stripping twice is stripping once. */
  lemma StripIdempotent(s: string)
    ensures Strip(Strip(s)) == Strip(s)
  {
  }

  /** Whitespace around a stripped name does not change what it strips to. */
  lemma {:induction false} StripPadded(pre: string, name: string, post: string)
    requires forall k :: 0 <= k < |pre| ==> IsSpace(pre[k])
    requires forall k :: 0 <= k < |post| ==> IsSpace(post[k])
    requires Stripped(name)
    ensures Strip(pre + name + post) == name
  {
    var s := pre + name + post;
    if name == [] {
      assert forall k :: 0 <= k < |s| ==> IsSpace(s[k]) by {
        assert s == pre + post;
      }
      assert LeadingSpaces(s) == |s|;
    } else {
      assert LeadingSpaces(s) == |pre| by { LeadingOf(pre, name + post); assert s == pre + (name + post); }
      var rest := s[|pre|..];
      assert rest == name + post;
      assert TrailingSpaces(rest) == |post| by { TrailingOf(name, post); }
      assert s[|pre|..|s| - |post|] == name;
    }
  }

  lemma {:induction false} LeadingOf(pre: string, t: string)
    requires forall k :: 0 <= k < |pre| ==> IsSpace(pre[k])
    requires t != [] && !IsSpace(t[0])
    ensures LeadingSpaces(pre + t) == |pre|
  {
    if pre != [] {
      assert (pre + t)[1..] == pre[1..] + t;
      LeadingOf(pre[1..], t);
    } else {
      assert pre + t == t;
    }
  }

  lemma {:induction false} TrailingOf(t: string, post: string)
    requires forall k :: 0 <= k < |post| ==> IsSpace(post[k])
    requires t != [] && !IsSpace(t[|t| - 1])
    ensures TrailingSpaces(t + post) == |post|
  {
    if post != [] {
      assert (t + post)[..|t + post| - 1] == t + post[..|post| - 1];
      TrailingOf(t, post[..|post| - 1]);
    } else {
      assert t + post == t;
    }
  }
}
