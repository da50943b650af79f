/**
  UTF-8 as section 4 of RFC 3629 defines it, and the byte-level validator that
  the C codec runs on every text string.
 */
module Utf8 {
  import opened Bytes

  /** A Unicode scalar value: any code point that is not a surrogate. */
  type Scalar = c: int | 0 <= c < 0xD800 || 0xE000 <= c <= 0x10FFFF

  /** The UTF-8 octets of one scalar value (the table in section 3 of RFC 3629). */
  function EncodeScalar(c: Scalar): (s: bytes)
    ensures 1 <= |s| <= 4
  {
    if c < 0x80 then [c]
    else if c < 0x800 then [0xC0 + c / 64, 0x80 + c % 64]
    else if c < 0x1_0000 then [0xE0 + c / 4096, 0x80 + c / 64 % 64, 0x80 + c % 64]
    else [0xF0 + c / 262144, 0x80 + c / 4096 % 64, 0x80 + c / 64 % 64, 0x80 + c % 64]
  }

  function Encode(cs: seq<Scalar>): bytes {
    if cs == [] then [] else EncodeScalar(cs[0]) + Encode(cs[1..])
  }

  /** `s` is the UTF-8 encoding of some sequence of scalar values. */
  ghost predicate WellFormed(s: bytes) {
    exists cs: seq<Scalar> :: Encode(cs) == s
  }

  predicate IsTail(b: byte) { b / 64 == 2 }

  predicate AllTails(t: bytes) { forall k :: 0 <= k < |t| ==> IsTail(t[k]) }

  /** The number built from the lead bits `cp` and the six-bit groups of `t`. */
  function Continue(cp: nat, t: bytes): nat {
    if t == [] then cp else Continue(cp, t[..|t| - 1]) * 64 + t[|t| - 1] % 64
  }

  /** How many tail octets follow the lead octet `c`; 0 when `c` cannot lead a longer form. */
  function TailCount(c: byte): nat {
    if 0xC2 <= c <= 0xDF then 1 else if 0xE0 <= c <= 0xEF then 2 else if 0xF0 <= c <= 0xF4 then 3 else 0
  }

  function LeadBits(c: byte): nat {
    if TailCount(c) == 1 then c % 32 else if TailCount(c) == 2 then c % 16 else c % 8
  }

  /** The ranges that the `need`-tail form may not take. */
  predicate Forbidden(need: nat, cp: nat) {
    (need == 2 && cp < 0x800) || (need == 3 && cp < 0x1_0000) || 0xD800 <= cp <= 0xDFFF || cp > 0x10FFFF
  }

  lemma ContinueUnfold(cp: nat, t: bytes)
    requires 1 <= |t| <= 3
    ensures |t| == 1 ==> Continue(cp, t) == cp * 64 + t[0] % 64
    ensures |t| == 2 ==> Continue(cp, t) == (cp * 64 + t[0] % 64) * 64 + t[1] % 64
    ensures |t| == 3 ==> Continue(cp, t) == ((cp * 64 + t[0] % 64) * 64 + t[1] % 64) * 64 + t[2] % 64
  {
    assert Continue(cp, t[..|t| - 1][..0]) == cp;
    if |t| == 2 {
      assert t[..1][..0] == [];
    } else if |t| == 3 {
      assert t[..2][..1] == [t[0]] && [t[0]][..0] == [];
      assert Continue(cp, [t[0]]) == cp * 64 + t[0] % 64;
    }
  }

  /** Splitting a number into six-bit groups and marking the last group as a tail octet. */
  lemma SixBits(c: nat)
    ensures IsTail(0x80 + c % 64) && (0x80 + c % 64) % 64 == c % 64
    ensures c == c / 64 * 64 + c % 64
  {
  }

  lemma LeadTwo(h: nat)
    requires 2 <= h < 32
    ensures TailCount(0xC0 + h) == 1 && LeadBits(0xC0 + h) == h
  {
  }

  lemma LeadThree(h: nat)
    requires h < 16
    ensures TailCount(0xE0 + h) == 2 && LeadBits(0xE0 + h) == h
  {
  }

  lemma LeadFour(h: nat)
    requires h <= 4
    ensures TailCount(0xF0 + h) == 3 && LeadBits(0xF0 + h) == h
  {
  }

  /** The unit that the validator sees at the front of `t` encodes `c` in `need` tail octets. */
  ghost predicate Unit(t: bytes, need: nat, c: nat) {
    && t != [] && t[0] >= 0x80
    && need == TailCount(t[0])
    && 1 <= need < |t|
    && AllTails(t[1..1 + need])
    && Continue(LeadBits(t[0]), t[1..1 + need]) == c
    && !Forbidden(need, c)
  }

  lemma UnitOfTwo(c: Scalar, t: bytes)
    requires 0x80 <= c < 0x800 && EncodeScalar(c) <= t
    ensures Unit(t, 1, c)
  {
    var h := c / 64;
    assert 2 <= h < 32;
    assert t[0] == EncodeScalar(c)[0] == 0xC0 + h && t[1] == EncodeScalar(c)[1] == 0x80 + c % 64;
    LeadTwo(h);
    SixBits(c);
    ContinueUnfold(h, t[1..2]);
  }

  lemma UnitOfThree(c: Scalar, t: bytes)
    requires 0x800 <= c < 0x1_0000 && EncodeScalar(c) <= t
    ensures Unit(t, 2, c)
  {
    var m := c / 64;
    var h := m / 64;
    assert h == c / 4096 < 16;
    var e := EncodeScalar(c);
    assert t[0] == e[0] == 0xE0 + h && t[1] == e[1] == 0x80 + m % 64 && t[2] == e[2] == 0x80 + c % 64;
    LeadThree(h);
    SixBits(c);
    SixBits(m);
    ContinueUnfold(h, t[1..3]);
  }

  lemma UnitOfFour(c: Scalar, t: bytes)
    requires 0x1_0000 <= c && EncodeScalar(c) <= t
    ensures Unit(t, 3, c)
  {
    var l := c / 64;
    var m := l / 64;
    var h := m / 64;
    assert m == c / 4096 && h == c / 262144 <= 4;
    var e := EncodeScalar(c);
    assert t[0] == e[0] == 0xF0 + h && t[1] == e[1] == 0x80 + m % 64;
    assert t[2] == e[2] == 0x80 + l % 64 && t[3] == e[3] == 0x80 + c % 64;
    LeadFour(h);
    SixBits(c);
    SixBits(l);
    SixBits(m);
    ContinueUnfold(h, t[1..4]);
  }

  /** What the octets of `c` look like to the validator. */
  lemma ShapeOfScalar(c: Scalar, t: bytes)
    requires EncodeScalar(c) <= t
    ensures if c < 0x80 then t[0] == c else Unit(t, |EncodeScalar(c)| - 1, c)
  {
    if c < 0x80 {
      assert t[0] == EncodeScalar(c)[0];
    } else if c < 0x800 {
      UnitOfTwo(c, t);
    } else if c < 0x1_0000 {
      UnitOfThree(c, t);
    } else {
      UnitOfFour(c, t);
    }
  }

  /** The groups that `Continue` glued together come apart again. */
  lemma Ungroup(hi: nat, lo: byte)
    requires IsTail(lo)
    ensures (hi * 64 + lo % 64) / 64 == hi && (hi * 64 + lo % 64) % 64 == lo % 64 && 0x80 + lo % 64 == lo
  {
  }

  lemma LeadBack(b: byte)
    requires TailCount(b) >= 1
    ensures TailCount(b) == 1 ==> 0xC0 + LeadBits(b) == b && 2 <= LeadBits(b) < 32
    ensures TailCount(b) == 2 ==> 0xE0 + LeadBits(b) == b && LeadBits(b) < 16
    ensures TailCount(b) == 3 ==> 0xF0 + LeadBits(b) == b && LeadBits(b) <= 4
  {
  }

  /** Octets the validator accepts as one unit are the encoding of the number it computed. */
  lemma UnitIsScalar(t: bytes, need: nat, c: nat)
    requires Unit(t, need, c)
    ensures c >= 0x80 && !(0xD800 <= c <= 0xDFFF) && c <= 0x10FFFF
    ensures EncodeScalar(c) == t[..1 + need]
  {
    var tail := t[1..1 + need];
    LeadBack(t[0]);
    ContinueUnfold(LeadBits(t[0]), tail);
    assert t[..1 + need] == [t[0]] + tail;
    if need == 1 {
      ScalarOfTwo(LeadBits(t[0]), tail[0]);
    } else if need == 2 {
      ScalarOfThree(LeadBits(t[0]), tail[0], tail[1]);
    } else {
      ScalarOfFour(LeadBits(t[0]), tail[0], tail[1], tail[2]);
    }
  }

  lemma ScalarOfTwo(h: nat, x: byte)
    requires 2 <= h < 32 && IsTail(x)
    ensures var c := h * 64 + x % 64; 0x80 <= c < 0x800 && EncodeScalar(c) == [0xC0 + h, x]
  {
    Ungroup(h, x);
  }

  lemma ScalarOfThree(h: nat, x: byte, y: byte)
    requires h < 16 && IsTail(x) && IsTail(y)
    requires var c := (h * 64 + x % 64) * 64 + y % 64; 0x800 <= c < 0x1_0000 && !(0xD800 <= c <= 0xDFFF)
    ensures var c := (h * 64 + x % 64) * 64 + y % 64; EncodeScalar(c) == [0xE0 + h, x, y]
  {
    var c1 := h * 64 + x % 64;
    var c := c1 * 64 + y % 64;
    Ungroup(h, x);
    Ungroup(c1, y);
    assert c / 4096 == c / 64 / 64;
  }

  lemma ScalarOfFour(h: nat, x: byte, y: byte, z: byte)
    requires h <= 4 && IsTail(x) && IsTail(y) && IsTail(z)
    requires var c := ((h * 64 + x % 64) * 64 + y % 64) * 64 + z % 64; 0x1_0000 <= c <= 0x10FFFF
    ensures var c := ((h * 64 + x % 64) * 64 + y % 64) * 64 + z % 64; EncodeScalar(c) == [0xF0 + h, x, y, z]
  {
    var c1 := h * 64 + x % 64;
    var c2 := c1 * 64 + y % 64;
    var c := c2 * 64 + z % 64;
    Ungroup(h, x);
    Ungroup(c1, y);
    Ungroup(c2, z);
    assert c / 4096 == c / 64 / 64 && c / 262144 == c / 64 / 64 / 64;
  }

  /** Two scalar encodings at the front of the same string are the same scalar. */
  lemma PrefixFree(c: Scalar, d: Scalar, t: bytes)
    requires EncodeScalar(c) <= t && EncodeScalar(d) <= t
    ensures c == d
  {
    ShapeOfScalar(c, t);
    ShapeOfScalar(d, t);
  }

  lemma AcceptUnit(t: bytes, c: Scalar)
    requires EncodeScalar(c) <= t
    ensures WellFormed(t) <==> WellFormed(t[|EncodeScalar(c)|..])
  {
    var k := |EncodeScalar(c)|;
    if WellFormed(t[k..]) {
      var cs :| Encode(cs) == t[k..];
      assert ([c] + cs)[1..] == cs;
      assert Encode([c] + cs) == t[..k] + t[k..] == t;
    }
    if WellFormed(t) {
      var cs :| Encode(cs) == t;
      PrefixFree(c, cs[0], t);
      assert Encode(cs[1..]) == t[k..];
    }
  }

  lemma EmptyWellFormed()
    ensures WellFormed([])
  {
    assert Encode([]) == [];
  }

  /** The validator's inner loop: gathers the tail octets, or stops at the first that is not one. */
  method ReadTails(s: bytes, i: nat, need: nat, lead: nat) returns (ok: bool, cp: nat)
    requires i + need <= |s|
    ensures ok <==> AllTails(s[i..i + need])
    ensures ok ==> cp == Continue(lead, s[i..i + need])
  {
    cp := lead;
    var j := 0;
    while j < need
      invariant 0 <= j <= need
      invariant AllTails(s[i..i + j])
      invariant cp == Continue(lead, s[i..i + j])
    {
      var d := s[i + j];
      if d / 64 != 2 {
        assert s[i..i + need][j] == d && !IsTail(d);
        return false, cp;
      }
      assert s[i..i + j + 1] == s[i..i + j] + [d];
      assert s[i..i + j + 1][..j] == s[i..i + j];
      cp := cp * 64 + d % 64;
      j := j + 1;
    }
    ok := true;
  }

  /** The C validator: accepts exactly the well-formed strings, whatever their length. */
  method Validate(s: bytes) returns (ok: bool)
    ensures ok <==> WellFormed(s)
  {
    hide WellFormed, Encode, Continue, AllTails;
    var n := |s|;
    var i := 0;
    while i < n
      invariant 0 <= i <= n
      invariant WellFormed(s) <==> WellFormed(s[i..])
    {
      ghost var t := s[i..];
      var c := s[i];
      i := i + 1;
      if c < 0x80 {
        assert EncodeScalar(c) == t[..1];
        AcceptUnit(t, c);
        assert t[1..] == s[i..];
        continue;
      }
      var need: nat;
      var cp: nat;
      if 0xC2 <= c <= 0xDF {
        need, cp := 1, c % 32;
      } else if 0xE0 <= c <= 0xEF {
        need, cp := 2, c % 16;
      } else if 0xF0 <= c <= 0xF4 {
        need, cp := 3, c % 8;
      } else {
        NoUnit(t);
        return false;
      }
      assert need == TailCount(c) && cp == LeadBits(c);
      if need > n - i {
        NoUnit(t);
        return false;
      }
      var tails: bool;
      tails, cp := ReadTails(s, i, need, cp);
      assert t[1..1 + need] == s[i..i + need];
      if !tails || Forbidden(need, cp) {
        NoUnit(t);
        return false;
      }
      i := i + need;
      UnitIsScalar(t, need, cp);
      AcceptUnit(t, cp);
      assert t[1 + need..] == s[i..];
    }
    assert s[n..] == [];
    EmptyWellFormed();
    ok := true;
  }

  /** Each reason the validator has to reject rules out every scalar encoding at the front. */
  lemma NoUnit(t: bytes)
    requires t != [] && t[0] >= 0x80
    requires var need := TailCount(t[0]);
             || need == 0
             || need >= |t|
             || !AllTails(t[1..1 + need])
             || Forbidden(need, Continue(LeadBits(t[0]), t[1..1 + need]))
    ensures !WellFormed(t)
  {
    if WellFormed(t) {
      var cs :| Encode(cs) == t;
      assert EncodeScalar(cs[0]) <= t;
      ShapeOfScalar(cs[0], t);
    }
  }

  /** ASCII text is well formed; every key of every record is. */
  lemma {:induction false} AsciiWellFormed(s: bytes)
    requires forall k :: 0 <= k < |s| ==> s[k] < 0x80
    ensures WellFormed(s)
  {
    if s == [] {
      assert Encode([]) == [];
    } else {
      AsciiWellFormed(s[1..]);
      assert EncodeScalar(s[0]) == [s[0]] <= s;
      AcceptUnit(s, s[0]);
    }
  }
}
