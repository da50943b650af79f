/**
  The deterministic key order of section 4.2.1 of RFC 8949: keys sorted by the
  bytewise lexicographic order of their encodings. For text keys this is the
  same as sorting by length first and then bytewise.
 */
module KeyOrder {
  import opened Bytes
  import opened Cbor

  /** Strict bytewise lexicographic order; a proper prefix comes first. */
  predicate LexLess(s: bytes, t: bytes)
    decreases |s|
  {
    t != [] && (s == [] || s[0] < t[0] || (s[0] == t[0] && LexLess(s[1..], t[1..])))
  }

  /** Shorter keys first, keys of one length bytewise. */
  predicate KeyLess(s: bytes, t: bytes) {
    |s| < |t| || (|s| == |t| && LexLess(s, t))
  }

  lemma {:induction false} LexAsymmetric(s: bytes, t: bytes)
    requires LexLess(s, t)
    ensures !LexLess(t, s) && s != t
    decreases |s|
  {
    if s != [] && s[0] == t[0] {
      LexAsymmetric(s[1..], t[1..]);
    }
  }

  lemma {:induction false} LexTransitive(s: bytes, t: bytes, u: bytes)
    requires LexLess(s, t) && LexLess(t, u)
    ensures LexLess(s, u)
    decreases |s|
  {
    if s != [] && s[0] == t[0] == u[0] {
      LexTransitive(s[1..], t[1..], u[1..]);
    }
  }

  lemma {:induction false} LexPrefix(u: bytes, s: bytes, t: bytes)
    ensures LexLess(u + s, u + t) <==> LexLess(s, t)
  {
    if u == [] {
      assert u + s == s && u + t == t;
    } else {
      LexPrefix(u[1..], s, t);
      assert (u + s)[1..] == u[1..] + s && (u + t)[1..] == u[1..] + t;
    }
  }

  /** Numbers of one width compare as their big-endian bytes do, whatever follows them. */
  lemma {:induction false} LexBigEndian(n: nat, m: nat, k: nat, x: bytes, y: bytes)
    requires n < m < Pow256(k)
    ensures LexLess(ToBigEndian(n, k) + x, ToBigEndian(m, k) + y)
  {
    if k > 0 {
      var a, c := ToBigEndian(n / 256, k - 1), ToBigEndian(m / 256, k - 1);
      assert ToBigEndian(n, k) + x == a + ([n % 256] + x);
      assert ToBigEndian(m, k) + y == c + ([m % 256] + y);
      if n / 256 < m / 256 {
        LexBigEndian(n / 256, m / 256, k - 1, [n % 256] + x, [m % 256] + y);
      } else {
        LexPrefix(a, [n % 256] + x, [m % 256] + y);
      }
    }
  }

  /** The shorter length has the smaller head, whatever follows the heads. */
  lemma HeadOrder(m: major, n: u64, n': u64, x: bytes, y: bytes)
    requires n < n'
    ensures LexLess(Head(m, n) + x, Head(m, n') + y)
  {
    hide ToBigEndian, Pow256;
    var k, k' := Width(n), Width(n');
    if k == k' && k > 0 {
      LexBigEndian(n, n', k, x, y);
      assert Head(m, n) + x == [m * 32 + Info(k)] + (ToBigEndian(n, k) + x);
      assert Head(m, n') + y == [m * 32 + Info(k)] + (ToBigEndian(n', k) + y);
      LexPrefix([m * 32 + Info(k)], ToBigEndian(n, k) + x, ToBigEndian(n', k) + y);
    } else {
      assert (Head(m, n) + x)[0] < (Head(m, n') + y)[0];
    }
  }

  /** The encoding of a text key of any length that a head can carry. */
  function KeyBytes(s: bytes): bytes
    requires |s| <= MAX_UINT64
  {
    Head(3, |s|) + s
  }

  /** Bytewise order of the encodings of two text keys is length-first order of the keys. */
  lemma KeyBytesOrder(s: bytes, t: bytes)
    requires |s| <= MAX_UINT64 && |t| <= MAX_UINT64
    ensures LexLess(KeyBytes(s), KeyBytes(t)) <==> KeyLess(s, t)
  {
    hide Head;
    if |s| < |t| {
      HeadOrder(3, |s|, |t|, s, t);
    } else if |t| < |s| {
      HeadOrder(3, |t|, |s|, t, s);
      LexAsymmetric(KeyBytes(t), KeyBytes(s));
    } else {
      LexPrefix(Head(3, |s|), s, t);
    }
  }

  /** The same, of what the encoder writes. */
  lemma EncodedKeyOrder(s: bytes, t: bytes)
    requires |s| <= MAX_INT64 && |t| <= MAX_INT64
    ensures LexLess(Encode(Text(s)), Encode(Text(t))) <==> KeyLess(s, t)
  {
    hide Head;
    KeyBytesOrder(s, t);
  }

  lemma KeyTransitive(s: bytes, t: bytes, u: bytes)
    requires KeyLess(s, t) && KeyLess(t, u)
    ensures KeyLess(s, u)
  {
    if |s| == |u| {
      LexTransitive(s, t, u);
    }
  }

  lemma KeyIrreflexive(s: bytes, t: bytes)
    requires KeyLess(s, t)
    ensures s != t
  {
    if |s| == |t| {
      LexAsymmetric(s, t);
    }
  }

  /** The keys of a map are text and strictly increase in the order of their encodings. */
  ghost predicate Deterministic(es: seq<Entry>) {
    && (forall i :: 0 <= i < |es| ==> es[i].key.Text? && |es[i].key.text| <= MAX_INT64)
    && (forall i, j :: 0 <= i < j < |es| ==> LexLess(Encode(es[i].key), Encode(es[j].key)))
  }
}
