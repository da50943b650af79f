/**
  Canonicalisation: what decoding and encoding again does to an accepted input.

  The input is also read as a flat run of tokens (a head, together with the
  payload when it is a string), with no tree and no recursion. Whether re-encoding
  changes anything is decided by looking at each token on its own.
 */
module CborCanonical {
  import opened Bytes
  import opened Cbor
  import opened CborDecode
  import opened CborRoundTrip
  import opened CborLaws

  /** Where the token at `p` ends. */
  ghost function TokenEnd(b: bytes, p: nat): (r: Option<nat>)
    requires p < |b|
    ensures r.Some? ==> p < r.value <= |b|
  {
    var a :- ReadArg(b, p, b[p] % 32);
    if b[p] / 32 == 2 || b[p] / 32 == 3 then
      if a.arg > |b| - a.next then None else Some(a.next + a.arg)
    else Some(a.next)
  }

  /** The offsets at which the tokens of `b[p..q]` start. */
  ghost function Tokens(b: bytes, p: nat, q: nat): seq<nat>
    requires q <= |b|
    decreases if p < q then q - p else 0
  {
    if p >= q then []
    else if TokenEnd(b, p) == None then [p]
    else [p] + Tokens(b, TokenEnd(b, p).value, q)
  }

  /** `b[p..q]` is a whole number of tokens. */
  ghost predicate Walk(b: bytes, p: nat, q: nat)
    requires q <= |b|
    decreases if p < q then q - p else 0
  {
    p == q || (p < q && TokenEnd(b, p).Some? && Walk(b, TokenEnd(b, p).value, q))
  }

  /** The head is as short as it can be; a simple value is not `undefined` and a float is double. */
  ghost predicate CanonicalAt(b: bytes, p: nat)
    requires p < |b|
  {
    var low := b[p] % 32;
    if b[p] / 32 == 7 then b[p] != 0xf7 && b[p] != 0xfa
    else ReadArg(b, p, low).Some? && HeadLength(low) == 1 + Width(ReadArg(b, p, low).value.arg)
  }

  ghost predicate AllCanonical(b: bytes, p: nat, q: nat)
    requires q <= |b|
  {
    forall t :: t in Tokens(b, p, q) ==> t < |b| && CanonicalAt(b, t)
  }

  /** No single-precision float between `p` and `q`. */
  ghost predicate NoSingle(b: bytes, p: nat, q: nat)
    requires q <= |b|
  {
    forall t :: t in Tokens(b, p, q) ==> t < |b| && b[t] != 0xfa
  }

  lemma {:induction false} TokensSplit(b: bytes, p: nat, q: nat, r: nat)
    requires q <= r <= |b| && Walk(b, p, q)
    ensures p <= q
    ensures Tokens(b, p, r) == Tokens(b, p, q) + Tokens(b, q, r)
    ensures Walk(b, q, r) ==> Walk(b, p, r)
    decreases if p < q then q - p else 0
  {
    hide TokenEnd;
    if p < q {
      TokensSplit(b, TokenEnd(b, p).value, q, r);
    }
  }

  lemma OneToken(b: bytes, p: nat, q: nat)
    requires p < |b| && TokenEnd(b, p) == Some(q)
    ensures Walk(b, p, q) && Tokens(b, p, q) == [p]
  {
    hide TokenEnd;
    assert Walk(b, q, q) && Tokens(b, q, q) == [];
  }

  /** `s` is what re-encoding makes of `b[p..q]`: the same bytes, or different ones, as the tokens say. */
  ghost predicate Reencodes(b: bytes, p: nat, q: nat, s: bytes) {
    && p <= q <= |b|
    && Walk(b, p, q)
    && (if AllCanonical(b, p, q) then s == b[p..q] else Diverge(s, b[p..q]))
    && (NoSingle(b, p, q) ==> |s| <= q - p)
  }

  lemma ReencodesConcat(b: bytes, p: nat, q: nat, r: nat, s: bytes, u: bytes)
    requires Reencodes(b, p, q, s) && Reencodes(b, q, r, u)
    ensures Reencodes(b, p, r, s + u)
  {
    hide CanonicalAt, Diverge, Walk, Tokens;
    TokensSplit(b, p, q, r);
    assert forall t :: t in Tokens(b, p, r) <==> t in Tokens(b, p, q) || t in Tokens(b, q, r);
    assert b[p..r] == b[p..q] + b[q..r];
    if !AllCanonical(b, p, q) {
      DivergeExtend(s, b[p..q], u, b[q..r]);
    } else if !AllCanonical(b, q, r) {
      DivergePrepend(s, u, b[q..r]);
    }
  }

  /** A head in the input against the shortest head with the same content. */
  lemma HeadAgainstShortest(b: bytes, p: nat)
    requires p < |b| && b[p] / 32 < 7 && ReadArg(b, p, b[p] % 32).Some?
    ensures var a := ReadArg(b, p, b[p] % 32).value;
            var h := Head(b[p] / 32, a.arg);
            && |h| <= a.next - p
            && if CanonicalAt(b, p) then h == b[p..a.next] else Diverge(h, b[p..a.next])
  {
    hide ReadArg, Head, ToBigEndian, BigEndian, Pow256;
    var m, low := b[p] / 32, b[p] % 32;
    var a := ReadArg(b, p, low).value;
    assert b[p] == m * 32 + low;
    ArgWidth(b, p);
    HeadIs(m, a.arg);
    if low < 24 {
      assert b[p..a.next] == [b[p]];
    } else if CanonicalAt(b, p) {
      var s := b[p + 1..a.next];
      BytesOfBigEndian(s);
      assert b[p..a.next] == [b[p]] + s;
    } else {
      DivergeAtFirst(Head(m, a.arg), b, p, a.next);
    }
  }

  /** An argument is never wider in its shortest form than in the input. */
  lemma ArgWidth(b: bytes, p: nat)
    requires p < |b| && ReadArg(b, p, b[p] % 32).Some?
    ensures var low := b[p] % 32;
            var a := ReadArg(b, p, low).value;
            && a.next == p + HeadLength(low)
            && (if low < 24 then a.arg == low else a.arg == BigEndian(b[p + 1..a.next]))
            && 1 + Width(a.arg) <= HeadLength(low)
  {
    var low := b[p] % 32;
    if low >= 24 {
      BigEndianBound(b[p + 1..p + HeadLength(low)]);
      Pow256Values();
    }
  }

  lemma ReencodesHead(b: bytes, p: nat)
    requires p < |b| && b[p] / 32 < 7 && b[p] / 32 != 2 && b[p] / 32 != 3 && ReadArg(b, p, b[p] % 32).Some?
    ensures var a := ReadArg(b, p, b[p] % 32).value; Reencodes(b, p, a.next, Head(b[p] / 32, a.arg))
  {
    hide ReadArg, Head, CanonicalAt, Diverge;
    var a := ReadArg(b, p, b[p] % 32).value;
    OneToken(b, p, a.next);
    HeadAgainstShortest(b, p);
  }

  lemma ReencodesString(b: bytes, p: nat)
    requires p < |b| && (b[p] / 32 == 2 || b[p] / 32 == 3) && ReadArg(b, p, b[p] % 32).Some?
    requires var a := ReadArg(b, p, b[p] % 32).value; a.arg <= |b| - a.next
    ensures var a := ReadArg(b, p, b[p] % 32).value;
            var q := a.next + a.arg;
            Reencodes(b, p, q, Head(b[p] / 32, a.arg) + b[a.next..q])
  {
    hide ReadArg, Head, CanonicalAt, Diverge;
    var a := ReadArg(b, p, b[p] % 32).value;
    var q := a.next + a.arg;
    OneToken(b, p, q);
    HeadAgainstShortest(b, p);
    assert b[p..q] == b[p..a.next] + b[a.next..q];
    if !CanonicalAt(b, p) {
      DivergeExtend(Head(b[p] / 32, a.arg), b[p..a.next], b[a.next..q], b[a.next..q]);
    }
  }

  lemma ReencodesSimple(widen: Widen, b: bytes, p: nat)
    requires p < |b| && b[p] / 32 == 7 && DecSimple(widen, b, p, b[p] % 32).Some?
    ensures var x := DecSimple(widen, b, p, b[p] % 32).value;
            Fits(x.v) && Reencodes(b, p, x.next, Encode(x.v))
  {
    hide Tokens, Walk, ToBigEndian, BigEndian, Pow256, Diverge;
    var x := DecSimple(widen, b, p, b[p] % 32).value;
    OneToken(b, p, x.next);
    var e := Encode(x.v);
    if b[p] == 0xfb {
      BytesOfBigEndian(b[p + 1..p + 9]);
      assert b[p..p + 9] == [b[p]] + b[p + 1..p + 9];
    } else if CanonicalAt(b, p) {
      assert b[p..p + 1] == [b[p]];
    }
    if !CanonicalAt(b, p) {
      assert (b[p] == 0xf7 && e[0] == 0xf6) || (b[p] == 0xfa && e[0] == 0xfb);
      DivergeAtFirst(e, b, p, x.next);
    }
  }

  /** Every accepted item is a run of tokens, and re-encoding it goes token by token. */
  lemma {:induction false} DecReencodes(widen: Widen, b: bytes, p: nat, depth: nat)
    requires |b| <= MAX_INT64 && Dec(widen, b, p, depth).Some?
    ensures var x := Dec(widen, b, p, depth).value;
            Fits(x.v) && Reencodes(b, p, x.next, Encode(x.v))
    decreases Room(depth), 0
  {
    hide ReadArg, DecSimple, DecItems, DecEntries, Reencodes, Head, EncodeItems, EncodeEntries, FitsItems, FitsEntries;
    var m := b[p] / 32;
    var x := Dec(widen, b, p, depth).value;
    if m == 7 {
      ReencodesSimple(widen, b, p);
    } else {
      var a := ReadArg(b, p, b[p] % 32).value;
      if m == 2 || m == 3 {
        ReencodesString(b, p);
      } else {
        ReencodesHead(b, p);
        if m == 4 {
          ItemsReencode(widen, b, a.next, a.arg, depth + 1);
          ReencodesConcat(b, p, a.next, x.next, Head(4, a.arg), EncodeItems(x.v.items));
        } else if m == 5 {
          EntriesReencode(widen, b, a.next, a.arg, depth + 1);
          ReencodesConcat(b, p, a.next, x.next, Head(5, a.arg), EncodeEntries(x.v.entries));
        } else if m == 6 {
          DecReencodes(widen, b, a.next, depth + 1);
          ReencodesConcat(b, p, a.next, x.next, Head(6, a.arg), Encode(x.v.inner));
        }
      }
    }
  }

  lemma ReencodesNothing(b: bytes, p: nat)
    requires p <= |b|
    ensures Reencodes(b, p, p, [])
  {
    assert b[p..p] == [] && Tokens(b, p, p) == [];
  }

  lemma {:induction false} ItemsReencode(widen: Widen, b: bytes, p: nat, n: nat, depth: nat)
    requires p <= |b| <= MAX_INT64 && DecItems(widen, b, p, n, depth).Some?
    ensures var x := DecItems(widen, b, p, n, depth).value;
            FitsItems(x.vs) && Reencodes(b, p, x.next, EncodeItems(x.vs))
    decreases Room(depth), n + 1
  {
    hide Dec, Reencodes, Encode, Fits;
    if n == 0 {
      ReencodesNothing(b, p);
    } else {
      var all := DecItems(widen, b, p, n, depth).value;
      var x := Dec(widen, b, p, depth).value;
      DecReencodes(widen, b, p, depth);
      ItemsReencode(widen, b, x.next, n - 1, depth);
      assert all.vs[1..] == DecItems(widen, b, x.next, n - 1, depth).value.vs;
      ReencodesConcat(b, p, x.next, all.next, Encode(x.v), EncodeItems(all.vs[1..]));
    }
  }

  lemma {:induction false} EntriesReencode(widen: Widen, b: bytes, p: nat, n: nat, depth: nat)
    requires p <= |b| <= MAX_INT64 && DecEntries(widen, b, p, n, depth).Some?
    ensures var x := DecEntries(widen, b, p, n, depth).value;
            FitsEntries(x.es) && Reencodes(b, p, x.next, EncodeEntries(x.es))
    decreases Room(depth), n + 1
  {
    hide Dec, Reencodes, Encode, Fits;
    if n == 0 {
      ReencodesNothing(b, p);
    } else {
      var all := DecEntries(widen, b, p, n, depth).value;
      var k := Dec(widen, b, p, depth).value;
      var v := Dec(widen, b, k.next, depth).value;
      DecReencodes(widen, b, p, depth);
      DecReencodes(widen, b, k.next, depth);
      ReencodesConcat(b, p, k.next, v.next, Encode(k.v), Encode(v.v));
      EntriesReencode(widen, b, v.next, n - 1, depth);
      assert all.es[1..] == DecEntries(widen, b, v.next, n - 1, depth).value.es;
      ReencodesConcat(b, p, v.next, all.next, EncodeEntry(all.es[0]), EncodeEntries(all.es[1..]));
    }
  }

  /**
    Canonicalisation. For every accepted input `b` and `c = encode(decode(b))`:
    `c` decodes to the same tree, encoding again changes nothing more, `c` equals
    `b` exactly when every token of `b` is canonical, and `c` is no longer than
    `b` unless `b` holds a single-precision float.
   */
  lemma Canonicalisation(widen: Widen, b: bytes)
    requires |b| <= MAX_INT64 && Decode(widen, b).Some?
    ensures var v := Decode(widen, b).value;
            && Fits(v)
            && var c := Encode(v);
            && Decode(widen, c) == Some(v)
            && (c == b <==> AllCanonical(b, 0, |b|))
            && (NoSingle(b, 0, |b|) ==> |c| <= |b|)
  {
    hide Dec, AllCanonical, NoSingle, Walk;
    var v := Decode(widen, b).value;
    DecodedIsBounded(widen, b);
    RoundTrip(widen, v);
    DecReencodes(widen, b, 0, 0);
    assert b[0..|b|] == b;
  }

  /** What the encoder writes is canonical, for every tree the decoder accepts. */
  lemma EncodingIsCanonical(widen: Widen, v: Value)
    requires Fits(v) && Depth(v) <= MAX_DEPTH && TextsValid(v) && |Encode(v)| <= MAX_INT64
    ensures AllCanonical(Encode(v), 0, |Encode(v)|)
  {
    hide Dec, AllCanonical, Encode, Norm;
    RoundTrip(widen, v);
    Canonicalisation(widen, Encode(v));
    NormEncodes(v);
  }

  /** Normalising integers does not change the encoding. */
  lemma {:induction false} NormEncodes(v: Value)
    requires Fits(v)
    ensures Fits(Norm(v)) && Encode(Norm(v)) == Encode(v)
    decreases v
  {
    match v
    case Array(xs) =>
      hide FitsItems, EncodeItems, FitsEntries, EncodeEntries;
      NormEncodesItems(xs);
    case Map(es) =>
      hide FitsItems, EncodeItems, FitsEntries, EncodeEntries;
      NormEncodesEntries(es);
    case Tag(_, x) => NormEncodes(x);
    case _ =>
  }

  lemma {:induction false} NormEncodesItems(xs: seq<Value>)
    requires FitsItems(xs)
    ensures FitsItems(NormItems(xs)) && EncodeItems(NormItems(xs)) == EncodeItems(xs)
    decreases xs
  {
    hide Fits, Encode, Norm;
    if xs != [] {
      NormEncodes(xs[0]);
      NormEncodesItems(xs[1..]);
      assert NormItems(xs)[1..] == NormItems(xs[1..]);
    }
  }

  lemma {:induction false} NormEncodesEntries(es: seq<Entry>)
    requires FitsEntries(es)
    ensures FitsEntries(NormEntries(es)) && EncodeEntries(NormEntries(es)) == EncodeEntries(es)
    decreases es
  {
    hide FitsEntry, EncodeEntry, NormEntry;
    if es != [] {
      NormEncodesEntry(es[0]);
      NormEncodesEntries(es[1..]);
      assert NormEntries(es)[1..] == NormEntries(es[1..]);
    }
  }

  lemma {:induction false} NormEncodesEntry(e: Entry)
    requires FitsEntry(e)
    ensures FitsEntry(NormEntry(e)) && EncodeEntry(NormEntry(e)) == EncodeEntry(e)
    decreases e
  {
    hide Fits, Encode, Norm;
    NormEncodes(e.key);
    NormEncodes(e.val);
  }
}
