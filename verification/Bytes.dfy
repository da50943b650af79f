/**
  Byte strings, fixed-width integers and big-endian numbers: the vocabulary
  shared by the codec, the framing and the transport.

  Shifts and masks of the source are written as division and remainder:
  `ib >> 5` is `ib / 32`, `ib & 0x1f` is `ib % 32`, `byte(n >> 8)` is
  `n / 256 % 256`, and `hi | lo` on disjoint bits is `hi + lo`.
 */
module Bytes {
  type byte = x: int | 0 <= x < 256
  type u64 = x: int | 0 <= x < 0x1_0000_0000_0000_0000
  type u32 = x: int | 0 <= x < 0x1_0000_0000
  type u16 = x: int | 0 <= x < 0x1_0000
  type i64 = x: int | -0x8000_0000_0000_0000 <= x < 0x8000_0000_0000_0000

  type bytes = seq<byte>

  const MAX_INT64: u64 := 0x7fff_ffff_ffff_ffff
  const MAX_UINT64: u64 := 0xffff_ffff_ffff_ffff

  function Max(a: nat, b: nat): nat { if a >= b then a else b }

  datatype Option<+T> = None | Some(value: T) {
    predicate IsFailure() { None? }

    function PropagateFailure<U>(): Option<U>
      requires None?
    {
      None
    }

    function Extract(): T
      requires Some?
    {
      value
    }
  }

  /** 256 to the power `k`. */
  function Pow256(k: nat): (r: nat)
    ensures r >= 1
  {
    if k == 0 then 1 else 256 * Pow256(k - 1)
  }

  /** The `k` low-order bytes of `n`, most significant first. */
  function ToBigEndian(n: nat, k: nat): (s: bytes)
    ensures |s| == k
  {
    if k == 0 then [] else ToBigEndian(n / 256, k - 1) + [n % 256]
  }

  /** The number whose base-256 digits are `s`, most significant first. */
  function BigEndian(s: bytes): nat {
    if s == [] then 0 else BigEndian(s[..|s| - 1]) * 256 + s[|s| - 1]
  }

  lemma {:induction false} BigEndianBound(s: bytes)
    ensures BigEndian(s) < Pow256(|s|)
  {
    if s != [] {
      BigEndianBound(s[..|s| - 1]);
    }
  }

  /** Reading back a number that fits in `k` bytes gives the number. */
  lemma {:induction false} BigEndianOfBytes(n: nat, k: nat)
    requires n < Pow256(k)
    ensures BigEndian(ToBigEndian(n, k)) == n
  {
    if k > 0 {
      BigEndianOfBytes(n / 256, k - 1);
      assert ToBigEndian(n, k)[..k - 1] == ToBigEndian(n / 256, k - 1);
    }
  }

  /** Writing a number that was read from `s` gives `s` again. */
  lemma {:induction false} BytesOfBigEndian(s: bytes)
    ensures ToBigEndian(BigEndian(s), |s|) == s
  {
    if s != [] {
      var init := s[..|s| - 1];
      BytesOfBigEndian(init);
      assert BigEndian(s) / 256 == BigEndian(init) && BigEndian(s) % 256 == s[|s| - 1];
      assert s == init + [s[|s| - 1]];
    }
  }

  /** Byte `j` of `n`, counted from the least significant: `byte(n >> 8*j)`. */
  function ByteAt(n: nat, j: nat): byte {
    if j == 0 then n % 256 else ByteAt(n / 256, j - 1)
  }

  /** The big-endian form lists the bytes of `n` from `k - 1` down to 0. */
  lemma {:induction false} Digits(n: nat, k: nat)
    ensures forall i :: 0 <= i < k ==> ToBigEndian(n, k)[i] == ByteAt(n, k - 1 - i)
  {
    if k > 0 {
      Digits(n / 256, k - 1);
    }
  }

  lemma Pow256Values()
    ensures Pow256(1) == 0x100 && Pow256(2) == 0x1_0000
    ensures Pow256(4) == 0x1_0000_0000 && Pow256(8) == 0x1_0000_0000_0000_0000
  {
    assert Pow256(0) == 1;
    assert Pow256(1) == 0x100;
    assert Pow256(2) == 0x1_0000;
    assert Pow256(3) == 0x100_0000;
    assert Pow256(4) == 0x1_0000_0000;
    assert Pow256(5) == 0x100_0000_0000;
    assert Pow256(6) == 0x1_0000_0000_0000;
    assert Pow256(7) == 0x100_0000_0000_0000;
  }

  /** `s` occurs in `b` at offset `p`. */
  predicate At(b: bytes, p: nat, s: bytes) {
    p + |s| <= |b| && b[p..p + |s|] == s
  }

  lemma AtConcat(b: bytes, p: nat, s: bytes, t: bytes)
    ensures At(b, p, s + t) <==> At(b, p, s) && At(b, p + |s|, t)
  {
    if p + |s| + |t| <= |b| {
      assert b[p..p + |s + t|] == b[p..p + |s|] + b[p + |s|..p + |s| + |t|];
      if At(b, p, s + t) {
        assert b[p..p + |s|] == (s + t)[..|s|];
        assert b[p + |s|..p + |s| + |t|] == (s + t)[|s|..];
      }
    }
  }

  lemma Associative(a: bytes, b: bytes, c: bytes)
    ensures a + b + c == a + (b + c)
  {
  }

  /** `s` and `t` differ at some offset that both have. */
  ghost predicate Diverge(s: bytes, t: bytes) {
    exists k: nat :: k < |s| && k < |t| && s[k] != t[k]
  }

  lemma DivergeAtFirst(s: bytes, b: bytes, p: nat, q: nat)
    requires |s| > 0 && p < q <= |b| && s[0] != b[p]
    ensures Diverge(s, b[p..q])
  {
    var t := b[p..q];
    assert t[0] == b[p];
  }

  lemma DivergeExtend(s: bytes, t: bytes, s': bytes, t': bytes)
    requires Diverge(s, t)
    ensures Diverge(s + s', t + t')
  {
    var k: nat :| k < |s| && k < |t| && s[k] != t[k];
    assert (s + s')[k] != (t + t')[k];
  }

  lemma DivergePrepend(u: bytes, s: bytes, t: bytes)
    requires Diverge(s, t)
    ensures Diverge(u + s, u + t)
  {
    var k: nat :| k < |s| && k < |t| && s[k] != t[k];
    assert (u + s)[|u| + k] != (u + t)[|u| + k];
  }
}
