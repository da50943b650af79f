/**
  Encoding then decoding: which trees survive, and what comes back.
 */
module CborRoundTrip {
  import opened Bytes
  import opened Cbor
  import opened CborDecode
  import Utf8

  /** `v` as the decoder builds it: an integer is a `Uint` exactly when it is not negative. */
  function Norm(v: Value): Value
    decreases v
  {
    match v
    case Int(x) => if x >= 0 then Uint(x) else v
    case Array(xs) => Array(NormItems(xs))
    case Map(es) => Map(NormEntries(es))
    case Tag(n, x) => Tag(n, Norm(x))
    case _ => v
  }

  function NormItems(xs: seq<Value>): (ys: seq<Value>)
    ensures |ys| == |xs|
    decreases xs
  {
    if xs == [] then [] else [Norm(xs[0])] + NormItems(xs[1..])
  }

  function NormEntries(es: seq<Entry>): (fs: seq<Entry>)
    ensures |fs| == |es|
    decreases es
  {
    if es == [] then [] else [NormEntry(es[0])] + NormEntries(es[1..])
  }

  function NormEntry(e: Entry): Entry
    decreases e
  {
    Entry(Norm(e.key), Norm(e.val))
  }

  /** All text is UTF-8, and no item lies deeper than the limit when `v` is at level `depth`. */
  ghost predicate Decodable(v: Value, depth: nat)
    decreases v
  {
    && depth <= MAX_DEPTH
    && match v
       case Text(s) => Utf8.WellFormed(s)
       case Array(xs) => DecodableItems(xs, depth + 1)
       case Map(es) => DecodableEntries(es, depth + 1)
       case Tag(_, x) => Decodable(x, depth + 1)
       case _ => true
  }

  ghost predicate DecodableItems(xs: seq<Value>, depth: nat)
    decreases xs
  {
    xs == [] || (Decodable(xs[0], depth) && DecodableItems(xs[1..], depth))
  }

  ghost predicate DecodableEntries(es: seq<Entry>, depth: nat)
    decreases es
  {
    es == [] || (DecodableEntry(es[0], depth) && DecodableEntries(es[1..], depth))
  }

  ghost predicate DecodableEntry(e: Entry, depth: nat)
    decreases e
  {
    Decodable(e.key, depth) && Decodable(e.val, depth)
  }

  /** The shortest head reads back as its major type and argument. */
  lemma ReadHead(b: bytes, p: nat, m: major, n: u64)
    requires At(b, p, Head(m, n))
    ensures p < |b| && b[p] / 32 == m
    ensures ReadArg(b, p, b[p] % 32) == Some(Arg(n, p + |Head(m, n)|))
  {
    hide ToBigEndian, BigEndian, Pow256;
    var h := Head(m, n);
    var k := Width(n);
    assert b[p] == b[p..p + |h|][0] == h[0];
    if k > 0 {
      assert b[p] % 32 == Info(k);
      assert b[p + 1..p + 1 + k] == b[p..p + |h|][1..] == h[1..] == ToBigEndian(n, k);
      BigEndianOfBytes(n, k);
    }
  }

  /** The head of a container or string, and what follows it. */
  lemma SplitHead(b: bytes, p: nat, m: major, n: u64, rest: bytes)
    requires At(b, p, Head(m, n) + rest)
    ensures p < |b| && b[p] / 32 == m
    ensures ReadArg(b, p, b[p] % 32) == Some(Arg(n, p + |Head(m, n)|))
    ensures At(b, p + |Head(m, n)|, rest)
    ensures var q := p + |Head(m, n)|; q + |rest| <= |b| && b[q..q + |rest|] == rest
  {
    AtConcat(b, p, Head(m, n), rest);
    ReadHead(b, p, m, n);
  }

  /**
    Wherever the encoding of `v` occurs in the input, the decoder reads it back,
    or fails because `v` lies too deep or holds bad text, and for no other reason.
   */
  lemma {:induction false} DecEncode(widen: Widen, b: bytes, p: nat, depth: nat, v: Value)
    requires Fits(v) && At(b, p, Encode(v))
    ensures Dec(widen, b, p, depth) ==
            if Decodable(v, depth) then Some(Item(Norm(v), p + |Encode(v)|)) else None
    decreases v, 1
  {
    hide Dec, Decodable, Norm, Encode, Fits, At;
    if depth > MAX_DEPTH {
      TooDeep(widen, b, p, depth, v);
    } else if v.Array? {
      DecEncodeArray(widen, b, p, depth, v);
    } else if v.Map? {
      DecEncodeMap(widen, b, p, depth, v);
    } else if v.Tag? {
      DecEncodeTag(widen, b, p, depth, v);
    } else {
      DecEncodeLeaf(widen, b, p, depth, v);
    }
  }

  lemma TooDeep(widen: Widen, b: bytes, p: nat, depth: nat, v: Value)
    requires depth > MAX_DEPTH
    ensures Dec(widen, b, p, depth) == None && !Decodable(v, depth)
  {
  }

  lemma DecEncodeLeaf(widen: Widen, b: bytes, p: nat, depth: nat, v: Value)
    requires Fits(v) && At(b, p, Encode(v)) && depth <= MAX_DEPTH
    requires !v.Array? && !v.Map? && !v.Tag?
    ensures Dec(widen, b, p, depth) ==
            if Decodable(v, depth) then Some(Item(Norm(v), p + |Encode(v)|)) else None
  {
    hide At, Head, ReadArg, DecSimple, DecItems, DecEntries, EncodeItems, EncodeEntries,
         DecodableItems, DecodableEntries, NormItems, NormEntries;
    match v
    case Uint(n) => ReadHead(b, p, 0, n);
    case Int(x) => ReadHead(b, p, if x >= 0 then 0 else 1, if x >= 0 then x else -(x + 1));
    case Bool(q) => DecEncodeSimple(widen, b, p, if q then 21 else 20);
    case Null => DecEncodeSimple(widen, b, p, 22);
    case Float(bits) => DecEncodeFloat(widen, b, p, bits);
    case _ => DecEncodeString(widen, b, p, depth, v);
  }

  lemma DecEncodeString(widen: Widen, b: bytes, p: nat, depth: nat, v: Value)
    requires Fits(v) && At(b, p, Encode(v)) && depth <= MAX_DEPTH && (v.Text? || v.Bytes?)
    ensures Dec(widen, b, p, depth) ==
            if Decodable(v, depth) then Some(Item(Norm(v), p + |Encode(v)|)) else None
  {
    hide At, Head, ReadArg, DecSimple, DecItems, DecEntries;
    if v.Text? {
      SplitHead(b, p, 3, |v.text|, v.text);
    } else {
      SplitHead(b, p, 2, |v.data|, v.data);
    }
  }

  lemma {:induction false} DecEncodeArray(widen: Widen, b: bytes, p: nat, depth: nat, v: Value)
    requires v.Array? && Fits(v) && At(b, p, Encode(v)) && depth <= MAX_DEPTH
    ensures Dec(widen, b, p, depth) ==
            if Decodable(v, depth) then Some(Item(Norm(v), p + |Encode(v)|)) else None
    decreases v, 0
  {
    hide At, Head, ReadArg, DecSimple, DecItems, DecEntries, EncodeItems, EncodeEntries;
    SplitHead(b, p, 4, |v.items|, EncodeItems(v.items));
    DecEncodeItems(widen, b, p + |Head(4, |v.items|)|, depth + 1, v.items);
  }

  lemma {:induction false} DecEncodeMap(widen: Widen, b: bytes, p: nat, depth: nat, v: Value)
    requires v.Map? && Fits(v) && At(b, p, Encode(v)) && depth <= MAX_DEPTH
    ensures Dec(widen, b, p, depth) ==
            if Decodable(v, depth) then Some(Item(Norm(v), p + |Encode(v)|)) else None
    decreases v, 0
  {
    hide At, Head, ReadArg, DecSimple, DecItems, DecEntries, EncodeItems, EncodeEntries;
    SplitHead(b, p, 5, |v.entries|, EncodeEntries(v.entries));
    DecEncodeEntries(widen, b, p + |Head(5, |v.entries|)|, depth + 1, v.entries);
  }

  lemma {:induction false} DecEncodeTag(widen: Widen, b: bytes, p: nat, depth: nat, v: Value)
    requires v.Tag? && Fits(v) && At(b, p, Encode(v)) && depth <= MAX_DEPTH
    ensures Dec(widen, b, p, depth) ==
            if Decodable(v, depth) then Some(Item(Norm(v), p + |Encode(v)|)) else None
    decreases v, 0
  {
    hide At, Head, ReadArg, Dec, Encode, Decodable, Norm, Fits;
    TagParts(v, depth);
    SplitHead(b, p, 6, v.num, Encode(v.inner));
    DecEncode(widen, b, p + |Head(6, v.num)|, depth + 1, v.inner);
    DecTag(widen, b, p, depth);
  }

  lemma TagParts(v: Value, depth: nat)
    requires v.Tag? && Fits(v) && depth <= MAX_DEPTH
    ensures Fits(v.inner) && Encode(v) == Head(6, v.num) + Encode(v.inner)
    ensures Norm(v) == Tag(v.num, Norm(v.inner)) && (Decodable(v, depth) <==> Decodable(v.inner, depth + 1))
  {
    hide Head;
  }

  lemma DecTag(widen: Widen, b: bytes, p: nat, depth: nat)
    requires p < |b| && b[p] / 32 == 6 && depth <= MAX_DEPTH
    requires ReadArg(b, p, b[p] % 32).Some?
    ensures var a := ReadArg(b, p, b[p] % 32).value;
            a.next <= |b| &&
            var x := Dec(widen, b, a.next, depth + 1);
            Dec(widen, b, p, depth) == if x.None? then None else Some(Item(Tag(a.arg, x.value.v), x.value.next))
  {
    hide ReadArg, DecSimple, DecItems, DecEntries;
  }

  lemma DecEncodeSimple(widen: Widen, b: bytes, p: nat, low: nat)
    requires 20 <= low <= 22 && At(b, p, [0xe0 + low])
    ensures p < |b| && b[p] == 0xe0 + low
    ensures DecSimple(widen, b, p, low) == Some(Item(if low == 22 then Null else Bool(low == 21), p + 1))
  {
    assert b[p] == b[p..p + 1][0];
  }

  lemma DecEncodeFloat(widen: Widen, b: bytes, p: nat, bits: u64)
    requires At(b, p, [0xfb] + ToBigEndian(bits, 8))
    ensures p + 9 <= |b| && b[p] == 0xfb && DecSimple(widen, b, p, 27) == Some(Item(Float(bits), p + 9))
  {
    var e := [0xfb] + ToBigEndian(bits, 8);
    assert b[p] == b[p..p + 9][0] == e[0];
    assert b[p + 1..p + 9] == b[p..p + 9][1..] == e[1..] == ToBigEndian(bits, 8);
    Pow256Values();
    BigEndianOfBytes(bits, 8);
  }

  lemma {:induction false} DecEncodeItems(widen: Widen, b: bytes, p: nat, depth: nat, xs: seq<Value>)
    requires FitsItems(xs) && At(b, p, EncodeItems(xs))
    ensures DecItems(widen, b, p, |xs|, depth) ==
            if DecodableItems(xs, depth) then Some(Items(NormItems(xs), p + |EncodeItems(xs)|)) else None
    decreases xs
  {
    hide Dec, Encode, Norm, Decodable, Fits, At;
    if xs != [] {
      AtConcat(b, p, Encode(xs[0]), EncodeItems(xs[1..]));
      DecEncode(widen, b, p, depth, xs[0]);
      DecEncodeItems(widen, b, p + |Encode(xs[0])|, depth, xs[1..]);
    }
  }

  lemma {:induction false} DecEncodeEntries(widen: Widen, b: bytes, p: nat, depth: nat, es: seq<Entry>)
    requires FitsEntries(es) && At(b, p, EncodeEntries(es))
    ensures DecEntries(widen, b, p, |es|, depth) ==
            if DecodableEntries(es, depth) then Some(Entries(NormEntries(es), p + |EncodeEntries(es)|)) else None
    decreases es
  {
    hide Dec, Encode, Norm, Decodable, Fits, At;
    if es != [] {
      AtConcat(b, p, EncodeEntry(es[0]), EncodeEntries(es[1..]));
      DecEncodeEntry(widen, b, p, depth, es[0]);
      DecEncodeEntries(widen, b, p + |EncodeEntry(es[0])|, depth, es[1..]);
    }
  }

  lemma {:induction false} DecEncodeEntry(widen: Widen, b: bytes, p: nat, depth: nat, e: Entry)
    requires FitsEntry(e) && At(b, p, EncodeEntry(e))
    ensures Dec(widen, b, p, depth) ==
            if Decodable(e.key, depth) then Some(Item(Norm(e.key), p + |Encode(e.key)|)) else None
    ensures Dec(widen, b, p + |Encode(e.key)|, depth) ==
            if Decodable(e.val, depth) then Some(Item(Norm(e.val), p + |EncodeEntry(e)|)) else None
    decreases e
  {
    hide Dec, Encode, Norm, Decodable, Fits, At;
    AtConcat(b, p, Encode(e.key), Encode(e.val));
    DecEncode(widen, b, p, depth, e.key);
    DecEncode(widen, b, p + |Encode(e.key)|, depth, e.val);
  }

  /** The nesting of `v`: 0 for a leaf and an empty container. */
  function Depth(v: Value): nat
    decreases v
  {
    match v
    case Array(xs) => DepthItems(xs)
    case Map(es) => DepthEntries(es)
    case Tag(_, x) => 1 + Depth(x)
    case _ => 0
  }

  function DepthItems(xs: seq<Value>): nat
    decreases xs
  {
    if xs == [] then 0 else Max(1 + Depth(xs[0]), DepthItems(xs[1..]))
  }

  function DepthEntries(es: seq<Entry>): nat
    decreases es
  {
    if es == [] then 0 else Max(1 + DepthEntry(es[0]), DepthEntries(es[1..]))
  }

  function DepthEntry(e: Entry): nat
    decreases e
  {
    Max(Depth(e.key), Depth(e.val))
  }

  /** Every text string in `v` is UTF-8. */
  ghost predicate TextsValid(v: Value)
    decreases v
  {
    match v
    case Text(s) => Utf8.WellFormed(s)
    case Array(xs) => TextsValidItems(xs)
    case Map(es) => TextsValidEntries(es)
    case Tag(_, x) => TextsValid(x)
    case _ => true
  }

  ghost predicate TextsValidItems(xs: seq<Value>)
    decreases xs
  {
    xs == [] || (TextsValid(xs[0]) && TextsValidItems(xs[1..]))
  }

  ghost predicate TextsValidEntries(es: seq<Entry>)
    decreases es
  {
    es == [] || (TextsValidEntry(es[0]) && TextsValidEntries(es[1..]))
  }

  ghost predicate TextsValidEntry(e: Entry)
    decreases e
  {
    TextsValid(e.key) && TextsValid(e.val)
  }

  lemma {:induction false} DecodableIff(v: Value, depth: nat)
    ensures Decodable(v, depth) <==> depth + Depth(v) <= MAX_DEPTH && TextsValid(v)
    decreases v
  {
    match v
    case Array(xs) => DecodableItemsIff(xs, depth);
    case Map(es) => DecodableEntriesIff(es, depth);
    case Tag(_, x) => DecodableIff(x, depth + 1);
    case _ =>
  }

  lemma {:induction false} DecodableItemsIff(xs: seq<Value>, depth: nat)
    ensures depth <= MAX_DEPTH ==>
              (DecodableItems(xs, depth + 1) <==> depth + DepthItems(xs) <= MAX_DEPTH && TextsValidItems(xs))
    decreases xs
  {
    if xs != [] {
      DecodableIff(xs[0], depth + 1);
      DecodableItemsIff(xs[1..], depth);
    }
  }

  lemma {:induction false} DecodableEntriesIff(es: seq<Entry>, depth: nat)
    ensures depth <= MAX_DEPTH ==>
              (DecodableEntries(es, depth + 1) <==> depth + DepthEntries(es) <= MAX_DEPTH && TextsValidEntries(es))
    decreases es
  {
    if es != [] {
      DecodableEntryIff(es[0], depth + 1);
      DecodableEntriesIff(es[1..], depth);
    }
  }

  lemma {:induction false} DecodableEntryIff(e: Entry, depth: nat)
    ensures DecodableEntry(e, depth) <==> depth + DepthEntry(e) <= MAX_DEPTH && TextsValidEntry(e)
    decreases e
  {
    DecodableIff(e.key, depth);
    DecodableIff(e.val, depth);
  }

  /**
    The round trip, with both directions: decoding the encoding of `v` gives `v`
    with its integers normalised if `v` nests at most 64 deep and holds only UTF-8
    text, and is an error otherwise.
   */
  lemma RoundTrip(widen: Widen, v: Value)
    requires Fits(v)
    ensures Decode(widen, Encode(v)) ==
            if Depth(v) <= 64 && TextsValid(v) then Some(Norm(v)) else None
  {
    assert At(Encode(v), 0, Encode(v)) by {
      assert Encode(v)[0..|Encode(v)|] == Encode(v);
    }
    DecEncode(widen, Encode(v), 0, 0, v);
    DecodableIff(v, 0);
  }
}
