/** Small wrapper datatypes shared by the other modules. */
module Wrappers {
  datatype Option<+T> = None | Some(value: T)
}

/**
 * Go strings as byte sequences, and the parts of Go's `strings` package the
 * receipt processor relies on: `TrimSpace` (ASCII whitespace only) and `Split`.
 */
module Text {

  newtype byte = x: int | 0 <= x < 256

  /** A Go string: an immutable sequence of bytes (UTF-8 by convention). */
  type Bytes = seq<byte>

  /** The bytes of an ASCII string literal; used to write concrete examples. */
  function Ascii(s: string): (b: Bytes)
    requires forall i :: 0 <= i < |s| ==> s[i] as int < 128
    ensures |b| == |s|
    ensures forall i :: 0 <= i < |s| ==> b[i] as int == s[i] as int
  {
    seq(|s|, i requires 0 <= i < |s| => s[i] as byte)
  }

  /** The ASCII whitespace bytes Go's `strings.TrimSpace` removes: '\t', '\n', '\v', '\f', '\r' and ' '. */
  predicate IsSpace(b: byte)
  {
    b == ' ' as byte || ('\t' as byte <= b <= '\r' as byte)
  }

  predicate AllSpace(s: Bytes)
  {
    forall i :: 0 <= i < |s| ==> IsSpace(s[i])
  }

  /** Drops leading whitespace. */
  function TrimLeft(s: Bytes): (t: Bytes)
    ensures |t| <= |s|
  {
    if s != [] && IsSpace(s[0]) then TrimLeft(s[1..]) else s
  }

  /** TrimLeft keeps a suffix, drops only whitespace, and stops at the first other byte. */
  lemma {:induction false} TrimLeftFacts(s: Bytes)
    ensures var t := TrimLeft(s);
      t == s[|s| - |t|..] && AllSpace(s[..|s| - |t|]) && (t == [] || !IsSpace(t[0]))
  {
    if s != [] && IsSpace(s[0]) {
      TrimLeftFacts(s[1..]);
      var t := TrimLeft(s);
      assert s[1..][..|s| - 1 - |t|] == s[1..|s| - |t|];
    }
  }

  /** Drops trailing whitespace. */
  function TrimRight(s: Bytes): (t: Bytes)
    ensures |t| <= |s|
  {
    if s != [] && IsSpace(s[|s| - 1]) then TrimRight(s[..|s| - 1]) else s
  }

  /** TrimRight keeps a prefix, drops only whitespace, and stops at the last other byte. */
  lemma {:induction false} TrimRightFacts(s: Bytes)
    ensures var t := TrimRight(s);
      t == s[..|t|] && AllSpace(s[|t|..]) && (t == [] || !IsSpace(t[|t| - 1]))
  {
    if s != [] && IsSpace(s[|s| - 1]) {
      var init := s[..|s| - 1];
      TrimRightFacts(init);
      var t := TrimRight(s);
      assert t == TrimRight(init);
      assert init[|t|..] == s[|t|..|s| - 1];
      assert s[|t|..] == init[|t|..] + [s[|s| - 1]];
      assert forall k :: |t| <= k < |s| - 1 ==> s[k] == init[k];
    }
  }

  /** `strings.TrimSpace` restricted to ASCII whitespace: leading, then trailing whitespace dropped. */
  function TrimSpace(s: Bytes): (t: Bytes)
    ensures |t| <= |s|
  {
    TrimRight(TrimLeft(s))
  }

  /**
   * What TrimSpace leaves: nothing exactly when the input is all whitespace,
   * and otherwise a string that neither starts nor ends with whitespace.
   */
  lemma TrimSpaceEdges(s: Bytes)
    ensures TrimSpace(s) == [] <==> AllSpace(s)
    ensures var t := TrimSpace(s); t != [] ==> !IsSpace(t[0]) && !IsSpace(t[|t| - 1])
  {
    var l := TrimLeft(s);
    var t := TrimRight(l);
    TrimLeftFacts(s);
    TrimRightFacts(l);
    assert l != [] ==> l[0] == s[|s| - |l|];
    assert l[0..] == l;
    assert s[..|s|] == s;
  }

  /** Leading whitespace is exactly what TrimLeft drops. */
  lemma {:induction false} TrimLeftPadding(pre: Bytes, rest: Bytes)
    requires AllSpace(pre)
    requires rest == [] || !IsSpace(rest[0])
    ensures TrimLeft(pre + rest) == rest
  {
    if pre != [] {
      assert (pre + rest)[1..] == pre[1..] + rest;
      TrimLeftPadding(pre[1..], rest);
    } else {
      assert pre + rest == rest;
    }
  }

  /** Trailing whitespace is exactly what TrimRight drops. */
  lemma {:induction false} TrimRightPadding(rest: Bytes, post: Bytes)
    requires AllSpace(post)
    requires rest == [] || !IsSpace(rest[|rest| - 1])
    ensures TrimRight(rest + post) == rest
  {
    if post != [] {
      var n := |rest + post|;
      assert (rest + post)[..n - 1] == rest + post[..|post| - 1];
      TrimRightPadding(rest, post[..|post| - 1]);
    } else {
      assert rest + post == rest;
    }
  }

  /**
   * TrimSpace removes exactly the surrounding whitespace: a core that neither
   * starts nor ends with whitespace comes back unchanged from any padding.
   */
  lemma TrimSpacePadding(pre: Bytes, core: Bytes, post: Bytes)
    requires AllSpace(pre) && AllSpace(post)
    requires core != [] ==> !IsSpace(core[0]) && !IsSpace(core[|core| - 1])
    ensures TrimSpace(pre + core + post) == core
  {
    if core == [] {
      assert AllSpace(pre + core + post) by {
        assert pre + core + post == pre + post;
      }
      TrimSpaceEdges(pre + core + post);
    } else {
      assert pre + core + post == pre + (core + post);
      TrimLeftPadding(pre, core + post);
      TrimRightPadding(core, post);
    }
  }

  /** Trimming twice is trimming once. */
  lemma TrimSpaceIdempotent(s: Bytes)
    ensures TrimSpace(TrimSpace(s)) == TrimSpace(s)
  {
    TrimSpaceEdges(s);
    TrimSpaceIdempotentOn(TrimSpace(s));
  }

  /** A string with no whitespace at either end is its own trim. */
  lemma TrimSpaceIdempotentOn(s: Bytes)
    requires s != [] ==> !IsSpace(s[0]) && !IsSpace(s[|s| - 1])
    ensures TrimSpace(s) == s
  {
    assert TrimLeft(s) == s;
    assert TrimRight(s) == s;
  }

  /** The position of the first occurrence of `b` in `s`. */
  function IndexOf(s: Bytes, b: byte): (i: nat)
    requires b in s
    ensures i < |s| && s[i] == b && b !in s[..i]
  {
    if s[0] == b then 0 else 1 + IndexOf(s[1..], b)
  }

  /** Any occurrence with no earlier one is the first. */
  lemma {:induction false} IndexOfFirst(s: Bytes, b: byte, k: nat)
    requires k < |s| && s[k] == b && b !in s[..k]
    ensures IndexOf(s, b) == k
  {
    if k > 0 {
      assert s[0] == s[..k][0];
      assert s[1..][..k - 1] == s[1..k];
      IndexOfFirst(s[1..], b, k - 1);
    }
  }

  /**
   * `strings.Split(s, sep)` for a one-byte separator: the pieces between the
   * separators, so one more piece than there are separators.
   */
  function Split(s: Bytes, sep: byte): (parts: seq<Bytes>)
    ensures |parts| >= 1
    ensures forall k :: 0 <= k < |parts| ==> sep !in parts[k]
    decreases |s|
  {
    if sep !in s then [s]
    else
      var i := IndexOf(s, sep);
      [s[..i]] + Split(s[i + 1..], sep)
  }

  /** `strings.Join(parts, sep)`, the inverse of Split. */
  function Join(parts: seq<Bytes>, sep: byte): Bytes
    requires |parts| >= 1
  {
    if |parts| == 1 then parts[0] else parts[0] + [sep] + Join(parts[1..], sep)
  }

  /** Splitting a join of separator-free pieces gives the pieces back. */
  lemma {:induction false} SplitJoin(parts: seq<Bytes>, sep: byte)
    requires |parts| >= 1
    requires forall k :: 0 <= k < |parts| ==> sep !in parts[k]
    ensures Split(Join(parts, sep), sep) == parts
  {
    if |parts| > 1 {
      var s := Join(parts, sep);
      var p := parts[0];
      assert s == p + [sep] + Join(parts[1..], sep);
      assert s[|p|] == sep;
      assert s[..|p|] == p;
      IndexOfFirst(s, sep, |p|);
      assert s[|p| + 1..] == Join(parts[1..], sep);
      SplitJoin(parts[1..], sep);
    }
  }
}
