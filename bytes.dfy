/**
  Little-endian fixed-width integers, wide (UTF-16 code unit) strings and
  block padding: the primitive encodings every structure of the trace file
  is built from.
*/
module Bytes {
  import opened Common

  type byte = x: int | 0 <= x < 0x100
  type u16 = x: int | 0 <= x < 0x1_0000
  type u32 = x: int | 0 <= x < 0x1_0000_0000
  type u64 = x: int | 0 <= x < 0x1_0000_0000_0000_0000

  /** A wide character (`wchar_t` is a 16-bit code unit on this platform). */
  type wchar = u16

  // ---------------------------------------------------------------- integers

  function EncodeU16(x: u16): (r: seq<byte>)
    ensures |r| == 2
  {
    [x % 0x100, x / 0x100]
  }

  function DecodeU16(s: seq<byte>): u16
    requires |s| == 2
  {
    s[0] as int + 0x100 * s[1] as int
  }

  lemma U16RoundTrip(x: u16)
    ensures DecodeU16(EncodeU16(x)) == x
  {
  }

  lemma U16Canonical(s: seq<byte>)
    requires |s| == 2
    ensures EncodeU16(DecodeU16(s)) == s
  {
  }

  function EncodeU32(x: u32): (r: seq<byte>)
    ensures |r| == 4
  {
    EncodeU16(x % 0x1_0000) + EncodeU16(x / 0x1_0000)
  }

  function DecodeU32(s: seq<byte>): u32
    requires |s| == 4
  {
    DecodeU16(s[..2]) + 0x1_0000 * DecodeU16(s[2..])
  }

  lemma U32RoundTrip(x: u32)
    ensures DecodeU32(EncodeU32(x)) == x
  {
    var e := EncodeU32(x);
    assert e[..2] == EncodeU16(x % 0x1_0000);
    assert e[2..] == EncodeU16(x / 0x1_0000);
    U16RoundTrip(x % 0x1_0000);
    U16RoundTrip(x / 0x1_0000);
  }

  lemma U32Canonical(s: seq<byte>)
    requires |s| == 4
    ensures EncodeU32(DecodeU32(s)) == s
  {
    var lo, hi := DecodeU16(s[..2]), DecodeU16(s[2..]);
    SplitWord(lo, hi, 0x1_0000);
    U16Canonical(s[..2]);
    U16Canonical(s[2..]);
    assert s == s[..2] + s[2..];
  }

  /** The low and high halves of `lo + base * hi` are `lo` and `hi`. */
  lemma SplitWord(lo: nat, hi: nat, base: nat)
    requires lo < base
    ensures (lo + base * hi) % base == lo && (lo + base * hi) / base == hi
  {
    ModUnique(lo + base * hi, base, hi, lo);
  }

  function EncodeU64(x: u64): (r: seq<byte>)
    ensures |r| == 8
  {
    EncodeU32(x % 0x1_0000_0000) + EncodeU32(x / 0x1_0000_0000)
  }

  function DecodeU64(s: seq<byte>): u64
    requires |s| == 8
  {
    DecodeU32(s[..4]) + 0x1_0000_0000 * DecodeU32(s[4..])
  }

  lemma U64RoundTrip(x: u64)
    ensures DecodeU64(EncodeU64(x)) == x
  {
    var e := EncodeU64(x);
    assert e[..4] == EncodeU32(x % 0x1_0000_0000);
    assert e[4..] == EncodeU32(x / 0x1_0000_0000);
    U32RoundTrip(x % 0x1_0000_0000);
    U32RoundTrip(x / 0x1_0000_0000);
  }

  /** The 32-bit little-endian value stored at byte offset `off` of `s`. */
  function ReadU32(s: seq<byte>, off: nat): u32
    requires off + 4 <= |s|
  {
    DecodeU32(s[off..off + 4])
  }

  /** The 64-bit little-endian value stored at byte offset `off` of `s`. */
  function ReadU64(s: seq<byte>, off: nat): u64
    requires off + 8 <= |s|
  {
    DecodeU64(s[off..off + 8])
  }

  /** A 32-bit value encoded after `a` is read back at offset |a|. */
  lemma ReadU32Of(a: seq<byte>, x: u32, b: seq<byte>)
    ensures ReadU32(a + EncodeU32(x) + b, |a|) == x
  {
    assert (a + EncodeU32(x) + b)[|a|..|a| + 4] == EncodeU32(x);
    U32RoundTrip(x);
  }

  lemma ReadU64Of(a: seq<byte>, x: u64, b: seq<byte>)
    ensures ReadU64(a + EncodeU64(x) + b, |a|) == x
  {
    assert (a + EncodeU64(x) + b)[|a|..|a| + 8] == EncodeU64(x);
    U64RoundTrip(x);
  }

  // ------------------------------------------------------ arrays of integers

  /** Back-to-back 32-bit values, as in `FuncCall calls[]`. */
  function EncodeU32s(xs: seq<u32>): (r: seq<byte>)
    ensures |r| == 4 * |xs|
  {
    if xs == [] then [] else EncodeU32(xs[0]) + EncodeU32s(xs[1..])
  }

  /** The `n` 32-bit values stored back to back at the front of `s`. */
  function DecodeU32s(s: seq<byte>, n: nat): (r: seq<u32>)
    requires 4 * n <= |s|
    ensures |r| == n
    ensures forall i :: 0 <= i < n ==> r[i] == ReadU32(s, 4 * i)
  {
    if n == 0 then []
    else
      var tail := DecodeU32s(s[4..], n - 1);
      assert forall i :: 1 <= i < n ==> s[4..][4 * (i - 1)..4 * (i - 1) + 4] == s[4 * i..4 * i + 4];
      [ReadU32(s, 0)] + tail
  }

  lemma {:induction false} U32sRoundTrip(xs: seq<u32>, rest: seq<byte>)
    ensures DecodeU32s(EncodeU32s(xs) + rest, |xs|) == xs
  {
    if xs != [] {
      var s := EncodeU32s(xs) + rest;
      assert s[..4] == EncodeU32(xs[0]);
      assert s[4..] == EncodeU32s(xs[1..]) + rest;
      U32RoundTrip(xs[0]);
      U32sRoundTrip(xs[1..], rest);
    }
  }

  lemma {:induction false} U32sCanonical(s: seq<byte>, n: nat)
    requires 4 * n <= |s|
    ensures EncodeU32s(DecodeU32s(s, n)) == s[..4 * n]
  {
    if n > 0 {
      U32sCanonical(s[4..], n - 1);
      U32Canonical(s[..4]);
      assert s[..4 * n] == s[..4] + s[4..][..4 * (n - 1)];
    }
  }

  lemma ReadU32Shift(s: seq<byte>, d: nat, off: nat)
    requires d + off + 4 <= |s|
    ensures ReadU32(s, d + off) == ReadU32(s[d..], off)
  {
    assert s[d..][off..off + 4] == s[d + off..d + off + 4];
  }

  /** The k-th value of an encoded array sits at byte offset 4 * k. */
  lemma {:induction false} U32sAt(xs: seq<u32>, rest: seq<byte>, k: nat)
    requires k < |xs|
    ensures ReadU32(EncodeU32s(xs) + rest, 4 * k) == xs[k]
  {
    var s := EncodeU32s(xs) + rest;
    if k == 0 {
      assert s[..4] == EncodeU32(xs[0]);
      U32RoundTrip(xs[0]);
    } else {
      assert s[4..] == EncodeU32s(xs[1..]) + rest;
      U32sAt(xs[1..], rest, k - 1);
      ReadU32Shift(s, 4, 4 * (k - 1));
    }
  }

  /** Bytes whose 32-bit words read as `xs` are the encoding of `xs`. */
  lemma {:induction false} U32sFromReads(s: seq<byte>, xs: seq<u32>)
    requires 4 * |xs| <= |s|
    requires forall k :: 0 <= k < |xs| ==> ReadU32(s, 4 * k) == xs[k]
    ensures EncodeU32s(xs) == s[..4 * |xs|]
  {
    if xs != [] {
      forall k | 0 <= k < |xs| - 1
        ensures ReadU32(s[4..], 4 * k) == xs[1..][k]
      {
        ReadU32Shift(s, 4, 4 * k);
        assert ReadU32(s, 4 * (k + 1)) == xs[k + 1];
      }
      U32sFromReads(s[4..], xs[1..]);
      U32Canonical(s[..4]);
      assert s[..4 * |xs|] == s[..4] + s[4..][..4 * (|xs| - 1)];
    }
  }

  // ------------------------------------------------------------ wide strings

  function WideToBytes(w: seq<wchar>): (r: seq<byte>)
    ensures |r| == 2 * |w|
  {
    if w == [] then [] else EncodeU16(w[0]) + WideToBytes(w[1..])
  }

  lemma WideToBytesEven(w: seq<wchar>)
    ensures |WideToBytes(w)| % 2 == 0
  {
    Double(|w|);
  }

  lemma Double(n: nat)
    ensures (2 * n) % 2 == 0
  {
  }

  function BytesToWide(s: seq<byte>): (w: seq<wchar>)
    requires |s| % 2 == 0
    ensures 2 * |w| == |s|
  {
    if s == [] then [] else [DecodeU16(s[..2])] + BytesToWide(s[2..])
  }

  lemma {:induction false} WideRoundTrip(w: seq<wchar>)
    ensures BytesToWide(WideToBytes(w)) == w
  {
    if w != [] {
      var s := WideToBytes(w);
      assert s[..2] == EncodeU16(w[0]);
      assert s[2..] == WideToBytes(w[1..]);
      U16RoundTrip(w[0]);
      WideRoundTrip(w[1..]);
    }
  }

  lemma {:induction false} WideCanonical(s: seq<byte>)
    requires |s| % 2 == 0
    ensures WideToBytes(BytesToWide(s)) == s
  {
    if s != [] {
      WideCanonical(s[2..]);
      U16Canonical(s[..2]);
      assert s == s[..2] + s[2..];
    }
  }

  /** True when the string holds no NUL terminator. */
  predicate NulFree(w: seq<int>)
  {
    forall i :: 0 <= i < |w| ==> w[i] != 0
  }

  /**
    Splits `w` at its first NUL: the part before it and the part after it,
    or None when `w` has no NUL at all.
  */
  function SplitAtNul(w: seq<wchar>): (r: Option<(seq<wchar>, seq<wchar>)>)
    ensures r.Some? ==> w == r.value.0 + [0] + r.value.1 && NulFree(r.value.0)
    ensures r.None? <==> NulFree(w)
  {
    if w == [] then None
    else if w[0] == 0 then Some(([], w[1..]))
    else
      match SplitAtNul(w[1..])
      case None => None
      case Some((a, b)) => Some(([w[0]] + a, b))
  }

  lemma {:induction false} SplitAtNulOf(a: seq<wchar>, b: seq<wchar>)
    requires NulFree(a)
    ensures SplitAtNul(a + [0] + b) == Some((a, b))
  {
    var w := a + [0] + b;
    if a == [] {
      assert w[0] == 0 && w[1..] == b;
    } else {
      assert w[0] == a[0] != 0;
      assert w[1..] == a[1..] + [0] + b;
      SplitAtNulOf(a[1..], b);
      assert [a[0]] + a[1..] == a;
    }
  }

  /**
    The characters of a fixed-size, NUL-padded field up to its first NUL
    (all of them when the field is not terminated).
  */
  function TruncateAtNul(w: seq<int>): (r: seq<int>)
    ensures r <= w && NulFree(r)
    ensures |r| < |w| ==> w[|r|] == 0
  {
    if w == [] || w[0] == 0 then [] else [w[0]] + TruncateAtNul(w[1..])
  }

  lemma {:induction false} TruncateAtNulPadded(w: seq<int>, k: nat)
    requires NulFree(w)
    ensures TruncateAtNul(w + seq(k, _ => 0)) == w
  {
    if w == [] {
      assert k > 0 ==> (w + seq(k, _ => 0))[0] == 0;
    } else {
      assert (w + seq(k, _ => 0))[1..] == w[1..] + seq(k, _ => 0);
      TruncateAtNulPadded(w[1..], k);
    }
  }

  /** A NUL-free string followed by a terminator, then anything, truncates to itself. */
  lemma {:induction false} TruncateAtNulOf(a: seq<int>, b: seq<int>)
    requires NulFree(a)
    ensures TruncateAtNul(a + [0] + b) == a
  {
    var w := a + [0] + b;
    if a == [] {
      assert w[0] == 0;
    } else {
      assert w[0] == a[0] != 0;
      assert w[1..] == a[1..] + [0] + b;
      TruncateAtNulOf(a[1..], b);
    }
  }

  function Zeros(n: nat): (r: seq<byte>)
    ensures |r| == n && forall i :: 0 <= i < n ==> r[i] == 0
  {
    seq(n, _ => 0)
  }

  // ----------------------------------------------------------------- padding

  /**
    The length `n` rounded up to the next multiple of `block`: the header and
    every segment occupy this many bytes on disk.
  */
  function PaddedLength(n: nat, block: nat): (r: nat)
    requires block > 0
    ensures r % block == 0
    ensures n <= r < n + block
  {
    var q := (n + block - 1) / block;
    DivisionBounds(n + block - 1, block);
    MultipleMod(q, block);
    q * block
  }

  /** A non-empty sequence is its head followed by its tail. */
  lemma HeadTail<T>(s: seq<T>)
    requires s != []
    ensures s == [s[0]] + s[1..]
  {
  }

  lemma AppendAssoc<T>(a: seq<T>, b: seq<T>, c: seq<T>)
    ensures a + (b + c) == (a + b) + c
  {
  }

  /** A prefix of `a + b` elements is the first `a`, then `b` more. */
  lemma PrefixSplit<T>(s: seq<T>, a: nat, b: nat)
    requires a + b <= |s|
    ensures s[..a + b] == s[..a] + s[a..][..b]
  {
  }

  lemma DivisionBounds(x: nat, d: nat)
    requires d > 0
    ensures x - d < (x / d) * d <= x
  {
  }

  lemma MulSign(m: int, d: int)
    requires d > 0
    ensures m >= 1 ==> m * d >= d
    ensures m <= -1 ==> m * d <= -d
  {
    if m >= 1 {
      assert m * d == (m - 1) * d + d;
      assert (m - 1) * d >= 0;
    } else if m <= -1 {
      assert m * d == (m + 1) * d - d;
      assert (m + 1) * d <= 0;
    }
  }

  /** Euclidean remainders are unique. */
  lemma ModUnique(a: nat, d: nat, k: nat, r: nat)
    requires d > 0 && r < d && a == k * d + r
    ensures a % d == r
  {
    var q := a / d;
    assert q * d + a % d == k * d + r;
    assert (q - k) * d == r - a % d;
    MulSign(q - k, d);
  }

  lemma MultipleMod(q: nat, d: nat)
    requires d > 0
    ensures (q * d) % d == 0
  {
    ModUnique(q * d, d, q, 0);
  }
}
