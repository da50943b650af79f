/**
  A reference for the wire format that names neither the encoder nor the decoder: the
  definite-length items of section 3 of RFC 8949, each with the width its head was given.

  The Go decoder accepts exactly these, and gives each the value it stands for; the
  encoder writes the one whose every head is as short as possible.
 */
module CborGrammar {
  import opened Bytes
  import opened Cbor
  import opened CborDecode
  import opened CborRoundTrip
  import Utf8

  type u63 = x: int | 0 <= x <= 0x7fff_ffff_ffff_ffff

  /** An item as it is written; `w` is the number of argument bytes that follow the initial byte. */
  datatype Raw =
    | RawUint(w: nat, n: u64)
    | RawNegative(w: nat, less: u63)      // stands for -1 - less
    | RawBytes(w: nat, s: bytes)
    | RawText(w: nat, s: bytes)
    | RawArray(w: nat, items: seq<Raw>)
    | RawMap(w: nat, entries: seq<RawEntry>)
    | RawTag(w: nat, num: u64, inner: Raw)
    | RawFalse
    | RawTrue
    | RawNull
    | RawUndefined
    | RawSingle(single: u32)
    | RawDouble(double: u64)

  datatype RawEntry = RawEntry(key: Raw, val: Raw)

  /** An argument of `w` bytes can be `n`. */
  predicate Holds(w: nat, n: nat) {
    || (w == 0 && n < 24) || (w == 1 && n < 0x100) || (w == 2 && n < 0x1_0000)
    || (w == 4 && n < 0x1_0000_0000) || (w == 8 && n < 0x1_0000_0000_0000_0000)
  }

  /** The initial byte: major type `m` in the high three bits, the argument or its width in the low five. */
  function Initial(m: nat, w: nat, n: nat): byte
    requires m < 8
  {
    m * 32 + if w == 0 then n % 32 else if w == 1 then 24 else if w == 2 then 25 else if w == 4 then 26 else 27
  }

  function RawHead(m: nat, w: nat, n: nat): (h: bytes)
    requires m < 8
    ensures |h| == 1 + w
  {
    [Initial(m, w, n)] + ToBigEndian(n, w)
  }

  function WriteRaw(r: Raw): (s: bytes)
    ensures s != []
    decreases r
  {
    match r
    case RawUint(w, n) => RawHead(0, w, n)
    case RawNegative(w, n) => RawHead(1, w, n)
    case RawBytes(w, s) => RawHead(2, w, |s|) + s
    case RawText(w, s) => RawHead(3, w, |s|) + s
    case RawArray(w, xs) => RawHead(4, w, |xs|) + WriteItems(xs)
    case RawMap(w, es) => RawHead(5, w, |es|) + WriteEntries(es)
    case RawTag(w, n, x) => RawHead(6, w, n) + WriteRaw(x)
    case RawFalse => [0xf4]
    case RawTrue => [0xf5]
    case RawNull => [0xf6]
    case RawUndefined => [0xf7]
    case RawSingle(bits) => [0xfa] + ToBigEndian(bits, 4)
    case RawDouble(bits) => [0xfb] + ToBigEndian(bits, 8)
  }

  function WriteItems(xs: seq<Raw>): (s: bytes)
    ensures |s| >= |xs|
    decreases xs
  {
    if xs == [] then [] else WriteRaw(xs[0]) + WriteItems(xs[1..])
  }

  function WriteEntries(es: seq<RawEntry>): (s: bytes)
    ensures |s| >= 2 * |es|
    decreases es
  {
    if es == [] then [] else WriteEntry(es[0]) + WriteEntries(es[1..])
  }

  function WriteEntry(e: RawEntry): (s: bytes)
    ensures |s| >= 2
    decreases e
  {
    WriteRaw(e.key) + WriteRaw(e.val)
  }

  /** Arguments fit their widths, text is UTF-8, and nothing below `depth` lies deeper than 64. */
  ghost predicate Proper(r: Raw, depth: nat)
    decreases r
  {
    && depth <= 64
    && match r
       case RawUint(w, n) => Holds(w, n)
       case RawNegative(w, n) => Holds(w, n)
       case RawBytes(w, s) => Holds(w, |s|)
       case RawText(w, s) => Holds(w, |s|) && Utf8.WellFormed(s)
       case RawArray(w, xs) => Holds(w, |xs|) && ProperItems(xs, depth + 1)
       case RawMap(w, es) => Holds(w, |es|) && ProperEntries(es, depth + 1)
       case RawTag(w, n, x) => Holds(w, n) && Proper(x, depth + 1)
       case _ => true
  }

  ghost predicate ProperItems(xs: seq<Raw>, depth: nat)
    decreases xs
  {
    xs == [] || (Proper(xs[0], depth) && ProperItems(xs[1..], depth))
  }

  ghost predicate ProperEntries(es: seq<RawEntry>, depth: nat)
    decreases es
  {
    es == [] || (ProperEntry(es[0], depth) && ProperEntries(es[1..], depth))
  }

  ghost predicate ProperEntry(e: RawEntry, depth: nat)
    decreases e
  {
    Proper(e.key, depth) && Proper(e.val, depth)
  }

  /** The value an item stands for. */
  function Meaning(widen: Widen, r: Raw): Value
    decreases r
  {
    match r
    case RawUint(_, n) => Uint(n)
    case RawNegative(_, n) => Int(-1 - n)
    case RawBytes(_, s) => Bytes(s)
    case RawText(_, s) => Text(s)
    case RawArray(_, xs) => Array(MeaningItems(widen, xs))
    case RawMap(_, es) => Map(MeaningEntries(widen, es))
    case RawTag(_, n, x) => Tag(n, Meaning(widen, x))
    case RawFalse => Bool(false)
    case RawTrue => Bool(true)
    case RawNull => Null
    case RawUndefined => Null
    case RawSingle(bits) => Float(widen(bits))
    case RawDouble(bits) => Float(bits)
  }

  function MeaningItems(widen: Widen, xs: seq<Raw>): (vs: seq<Value>)
    ensures |vs| == |xs|
    decreases xs
  {
    if xs == [] then [] else [Meaning(widen, xs[0])] + MeaningItems(widen, xs[1..])
  }

  function MeaningEntries(widen: Widen, es: seq<RawEntry>): (vs: seq<Entry>)
    ensures |vs| == |es|
    decreases es
  {
    if es == [] then [] else [MeaningEntry(widen, es[0])] + MeaningEntries(widen, es[1..])
  }

  function MeaningEntry(widen: Widen, e: RawEntry): Entry
    decreases e
  {
    Entry(Meaning(widen, e.key), Meaning(widen, e.val))
  }

  // ----- Heads -----

  lemma HoldsBound(w: nat, n: nat)
    requires Holds(w, n) && w > 0
    ensures n < Pow256(w)
  {
    Pow256Values();
  }

  /** A head of any width reads back. */
  lemma ReadRawHead(b: bytes, p: nat, m: nat, w: nat, n: nat)
    requires m < 8 && Holds(w, n) && At(b, p, RawHead(m, w, n))
    ensures p < |b| && b[p] / 32 == m && p + 1 + w <= |b|
    ensures ReadArg(b, p, b[p] % 32) == Some(Arg(n, p + 1 + w))
    ensures m == 7 ==> b[p] % 32 == Initial(0, w, n)
  {
    hide ToBigEndian, BigEndian, Pow256;
    var h := RawHead(m, w, n);
    assert b[p] == b[p..p + |h|][0] == h[0];
    if w > 0 {
      HoldsBound(w, n);
      assert b[p + 1..p + 1 + w] == b[p..p + |h|][1..] == h[1..] == ToBigEndian(n, w);
      BigEndianOfBytes(n, w);
    }
  }

  lemma SplitRawHead(b: bytes, p: nat, m: nat, w: nat, n: nat, rest: bytes)
    requires m < 8 && Holds(w, n) && At(b, p, RawHead(m, w, n) + rest)
    ensures p < |b| && b[p] / 32 == m
    ensures ReadArg(b, p, b[p] % 32) == Some(Arg(n, p + 1 + w))
    ensures At(b, p + 1 + w, rest)
    ensures var q := p + 1 + w; q + |rest| <= |b| && b[q..q + |rest|] == rest
  {
    hide ReadArg, RawHead;
    AtConcat(b, p, RawHead(m, w, n), rest);
    ReadRawHead(b, p, m, w, n);
  }

  /** What was read as a head is the head of that width. */
  lemma HeadWasRaw(b: bytes, p: nat)
    requires p < |b| && ReadArg(b, p, b[p] % 32).Some?
    ensures var a := ReadArg(b, p, b[p] % 32).value;
            var w := HeadLength(b[p] % 32) - 1;
            && w >= 0 && Holds(w, a.arg) && a.next == p + 1 + w
            && At(b, p, RawHead(b[p] / 32, w, a.arg))
  {
    hide ToBigEndian, BigEndian, Pow256, Initial;
    var low := b[p] % 32;
    var a := ReadArg(b, p, low).value;
    var w := HeadLength(low) - 1;
    InitialOf(b[p], w, a.arg);
    FrontByte(b, p, w);
    var s := b[p + 1..p + 1 + w];
    if low < 24 {
      NoBytes(low);
    } else {
      BigEndianBound(s);
      Pow256Values();
      BytesOfBigEndian(s);
    }
    assert [Initial(b[p] / 32, w, a.arg)] + ToBigEndian(a.arg, w) == [b[p]] + s;
  }

  /** A byte is the initial byte that its high and low bits say. */
  lemma InitialOf(x: byte, w: int, n: nat)
    requires w == HeadLength(x % 32) - 1 && w >= 0 && (w == 0 ==> n == x % 32)
    ensures Initial(x / 32, w, n) == x
  {
    var m, low := x / 32, x % 32;
    assert x == m * 32 + low;
  }

  lemma FrontByte(b: bytes, p: nat, w: nat)
    requires p + 1 + w <= |b|
    ensures b[p..p + 1 + w] == [b[p]] + b[p + 1..p + 1 + w]
  {
  }

  lemma NoBytes(n: nat)
    ensures ToBigEndian(n, 0) == []
  {
  }

  // ----- Whatever is written is read -----

  /** Wherever a proper item occurs in the input, the decoder reads the value it stands for and stops at its end. */
  lemma {:induction false} ReadsRaw(widen: Widen, b: bytes, p: nat, depth: nat, r: Raw)
    requires Proper(r, depth) && At(b, p, WriteRaw(r))
    ensures Dec(widen, b, p, depth) == Some(Item(Meaning(widen, r), p + |WriteRaw(r)|))
    decreases r
  {
    hide Dec, WriteRaw, Meaning, At;
    match r
    case RawArray(_, _) => ReadsArray(widen, b, p, depth, r);
    case RawMap(_, _) => ReadsMap(widen, b, p, depth, r);
    case RawTag(_, _, _) => ReadsTag(widen, b, p, depth, r);
    case RawUint(_, _) => ReadsNumber(widen, b, p, depth, r);
    case RawNegative(_, _) => ReadsNumber(widen, b, p, depth, r);
    case RawBytes(_, _) => ReadsString(widen, b, p, depth, r);
    case RawText(_, _) => ReadsString(widen, b, p, depth, r);
    case RawSingle(_) => ReadsFloat(widen, b, p, depth, r);
    case RawDouble(_) => ReadsFloat(widen, b, p, depth, r);
    case _ => ReadsSimple(widen, b, p, depth, r);
  }

  lemma ReadsNumber(widen: Widen, b: bytes, p: nat, depth: nat, r: Raw)
    requires (r.RawUint? || r.RawNegative?) && Proper(r, depth) && At(b, p, WriteRaw(r))
    ensures Dec(widen, b, p, depth) == Some(Item(Meaning(widen, r), p + |WriteRaw(r)|))
  {
    hide ReadArg, DecSimple, DecItems, DecEntries, At, RawHead;
    if r.RawUint? {
      ReadRawHead(b, p, 0, r.w, r.n);
    } else {
      ReadRawHead(b, p, 1, r.w, r.less);
    }
  }

  lemma ReadsString(widen: Widen, b: bytes, p: nat, depth: nat, r: Raw)
    requires (r.RawBytes? || r.RawText?) && Proper(r, depth) && At(b, p, WriteRaw(r))
    ensures Dec(widen, b, p, depth) == Some(Item(Meaning(widen, r), p + |WriteRaw(r)|))
  {
    hide ReadArg, DecSimple, DecItems, DecEntries, At, RawHead;
    SplitRawHead(b, p, if r.RawBytes? then 2 else 3, r.w, |r.s|, r.s);
  }

  lemma ReadsSimple(widen: Widen, b: bytes, p: nat, depth: nat, r: Raw)
    requires r.RawFalse? || r.RawTrue? || r.RawNull? || r.RawUndefined?
    requires depth <= 64 && At(b, p, WriteRaw(r))
    ensures Dec(widen, b, p, depth) == Some(Item(Meaning(widen, r), p + |WriteRaw(r)|))
  {
    hide ReadArg, DecItems, DecEntries;
    assert b[p] == b[p..p + 1][0] == WriteRaw(r)[0];
  }

  lemma ReadsFloat(widen: Widen, b: bytes, p: nat, depth: nat, r: Raw)
    requires (r.RawSingle? || r.RawDouble?) && depth <= 64 && At(b, p, WriteRaw(r))
    ensures Dec(widen, b, p, depth) == Some(Item(Meaning(widen, r), p + |WriteRaw(r)|))
  {
    hide ReadArg, DecItems, DecEntries, ToBigEndian, BigEndian, RawHead;
    var w, n := if r.RawSingle? then 4 else 8, if r.RawSingle? then r.single else r.double;
    FloatHead(w, n);
    ReadRawHead(b, p, 7, w, n);
    if r.RawSingle? {
      WidenedIs(widen, b, p, n);
    }
  }

  lemma FloatHead(w: nat, n: nat)
    requires w == 4 || w == 8
    ensures RawHead(7, w, n) == [if w == 4 then 0xfa else 0xfb] + ToBigEndian(n, w)
  {
  }

  lemma WidenedIs(widen: Widen, b: bytes, p: nat, n: u32)
    requires p < |b| && b[p] % 32 == 26 && ReadArg(b, p, 26) == Some(Arg(n, p + 5)) && p + 5 <= |b|
    ensures Widened(widen, b, p) == widen(n)
  {
  }

  lemma {:induction false} ReadsArray(widen: Widen, b: bytes, p: nat, depth: nat, r: Raw)
    requires r.RawArray? && Proper(r, depth) && At(b, p, WriteRaw(r))
    ensures Dec(widen, b, p, depth) == Some(Item(Meaning(widen, r), p + |WriteRaw(r)|))
    decreases r, 0
  {
    hide ReadArg, DecSimple, DecItems, DecEntries, At, RawHead, WriteItems, MeaningItems;
    SplitRawHead(b, p, 4, r.w, |r.items|, WriteItems(r.items));
    ReadsItems(widen, b, p + 1 + r.w, depth + 1, r.items);
  }

  lemma {:induction false} ReadsMap(widen: Widen, b: bytes, p: nat, depth: nat, r: Raw)
    requires r.RawMap? && Proper(r, depth) && At(b, p, WriteRaw(r))
    ensures Dec(widen, b, p, depth) == Some(Item(Meaning(widen, r), p + |WriteRaw(r)|))
    decreases r, 0
  {
    hide ReadArg, DecSimple, DecItems, DecEntries, At, RawHead, WriteEntries, MeaningEntries;
    SplitRawHead(b, p, 5, r.w, |r.entries|, WriteEntries(r.entries));
    ReadsEntries(widen, b, p + 1 + r.w, depth + 1, r.entries);
  }

  lemma {:induction false} ReadsTag(widen: Widen, b: bytes, p: nat, depth: nat, r: Raw)
    requires r.RawTag? && Proper(r, depth) && At(b, p, WriteRaw(r))
    ensures Dec(widen, b, p, depth) == Some(Item(Meaning(widen, r), p + |WriteRaw(r)|))
    decreases r, 0
  {
    hide ReadArg, Dec, At, RawHead;
    SplitRawHead(b, p, 6, r.w, r.num, WriteRaw(r.inner));
    ReadsRaw(widen, b, p + 1 + r.w, depth + 1, r.inner);
    DecTag(widen, b, p, depth);
  }

  lemma {:induction false} ReadsItems(widen: Widen, b: bytes, p: nat, depth: nat, xs: seq<Raw>)
    requires ProperItems(xs, depth) && At(b, p, WriteItems(xs))
    ensures p <= |b|
    ensures DecItems(widen, b, p, |xs|, depth) == Some(Items(MeaningItems(widen, xs), p + |WriteItems(xs)|))
    decreases xs
  {
    hide Dec, DecItems, WriteRaw, Meaning, Proper;
    DecItemsStep(widen, b, p, |xs|, depth);
    if xs != [] {
      AtConcat(b, p, WriteRaw(xs[0]), WriteItems(xs[1..]));
      ReadsRaw(widen, b, p, depth, xs[0]);
      ReadsItems(widen, b, p + |WriteRaw(xs[0])|, depth, xs[1..]);
    }
  }

  lemma {:induction false} ReadsEntries(widen: Widen, b: bytes, p: nat, depth: nat, es: seq<RawEntry>)
    requires ProperEntries(es, depth) && At(b, p, WriteEntries(es))
    ensures p <= |b|
    ensures DecEntries(widen, b, p, |es|, depth) == Some(Entries(MeaningEntries(widen, es), p + |WriteEntries(es)|))
    decreases es
  {
    hide Dec, DecEntries, WriteRaw, Meaning, Proper;
    DecEntriesStep(widen, b, p, |es|, depth);
    if es != [] {
      AtConcat(b, p, WriteEntry(es[0]), WriteEntries(es[1..]));
      ReadsEntry(widen, b, p, depth, es[0]);
      ReadsEntries(widen, b, p + |WriteEntry(es[0])|, depth, es[1..]);
    }
  }

  lemma {:induction false} ReadsEntry(widen: Widen, b: bytes, p: nat, depth: nat, e: RawEntry)
    requires ProperEntry(e, depth) && At(b, p, WriteEntry(e))
    ensures Dec(widen, b, p, depth) == Some(Item(Meaning(widen, e.key), p + |WriteRaw(e.key)|))
    ensures Dec(widen, b, p + |WriteRaw(e.key)|, depth) == Some(Item(Meaning(widen, e.val), p + |WriteEntry(e)|))
    decreases e
  {
    hide Dec, WriteRaw, Meaning, Proper, At;
    AtConcat(b, p, WriteRaw(e.key), WriteRaw(e.val));
    ReadsRaw(widen, b, p, depth, e.key);
    ReadsRaw(widen, b, p + |WriteRaw(e.key)|, depth, e.val);
  }

  // ----- Whatever is read was written -----

  /** The proper item `r` is in the input at `p`. */
  ghost predicate Lies(b: bytes, p: nat, depth: nat, r: Raw) { Proper(r, depth) && At(b, p, WriteRaw(r)) }

  /** `r` is what the decoder read at `p`. */
  ghost predicate Read(widen: Widen, b: bytes, p: nat, depth: nat, r: Raw) {
    && Lies(b, p, depth, r)
    && Dec(widen, b, p, depth) == Some(Item(Meaning(widen, r), p + |WriteRaw(r)|))
  }

  /** Whatever the decoder accepts, anywhere and at any depth, is a proper item, and its value is what it stands for. */
  lemma {:induction false} WasRaw(widen: Widen, b: bytes, p: nat, depth: nat) returns (r: Raw)
    requires Dec(widen, b, p, depth).Some?
    ensures Read(widen, b, p, depth, r)
    decreases Room(depth), 1
  {
    hide WriteRaw, Meaning, At, Proper;
    var m := b[p] / 32;
    if m < 2 {
      r := WasNumber(widen, b, p, depth);
    } else if m < 4 {
      r := WasString(widen, b, p, depth);
    } else if m == 4 {
      r := WasArray(widen, b, p, depth);
    } else if m == 5 {
      r := WasMap(widen, b, p, depth);
    } else if m == 6 {
      r := WasTag(widen, b, p, depth);
    } else {
      r := WasSimple(widen, b, p, depth);
    }
    ReadsRaw(widen, b, p, depth, r);
  }

  lemma WasNumber(widen: Widen, b: bytes, p: nat, depth: nat) returns (r: Raw)
    requires Dec(widen, b, p, depth).Some? && b[p] / 32 < 2
    ensures Lies(b, p, depth, r)
  {
    hide ReadArg, DecSimple, DecItems, DecEntries, At, RawHead;
    HeadWasRaw(b, p);
    var a := ReadArg(b, p, b[p] % 32).value;
    var w := HeadLength(b[p] % 32) - 1;
    r := if b[p] / 32 == 0 then RawUint(w, a.arg) else RawNegative(w, a.arg);
  }

  lemma WasString(widen: Widen, b: bytes, p: nat, depth: nat) returns (r: Raw)
    requires Dec(widen, b, p, depth).Some? && 2 <= b[p] / 32 < 4
    ensures Lies(b, p, depth, r)
  {
    StringFits(widen, b, p, depth);
    hide Dec, ReadArg, RawHead, Utf8.WellFormed, At, HeadLength, Lies;
    HeadWasRaw(b, p);
    var m, a := b[p] / 32, ReadArg(b, p, b[p] % 32).value;
    var w := HeadLength(b[p] % 32) - 1;
    var s := b[a.next..a.next + a.arg];
    SliceIsAt(b, a.next, a.next + a.arg);
    AtConcat(b, p, RawHead(m, w, a.arg), s);
    r := StringLies(b, p, depth, m, w, s);
  }

  lemma StringLies(b: bytes, p: nat, depth: nat, m: nat, w: nat, s: bytes) returns (r: Raw)
    requires (m == 2 || m == 3) && Holds(w, |s|) && depth <= 64 && (m == 3 ==> Utf8.WellFormed(s))
    requires At(b, p, RawHead(m, w, |s|) + s)
    ensures Lies(b, p, depth, r)
  {
    hide RawHead, At, Utf8.WellFormed;
    r := if m == 2 then RawBytes(w, s) else RawText(w, s);
  }

  lemma SliceIsAt(b: bytes, p: nat, q: nat)
    requires p <= q <= |b|
    ensures At(b, p, b[p..q])
  {
  }

  lemma StringFits(widen: Widen, b: bytes, p: nat, depth: nat)
    requires Dec(widen, b, p, depth).Some? && 2 <= b[p] / 32 < 4
    ensures depth <= 64 && ReadArg(b, p, b[p] % 32).Some?
    ensures var a := ReadArg(b, p, b[p] % 32).value;
            a.arg <= |b| - a.next && (b[p] / 32 == 3 ==> Utf8.WellFormed(b[a.next..a.next + a.arg]))
  {
    hide ReadArg, DecSimple, DecItems, DecEntries, Utf8.WellFormed;
  }

  lemma WasSimple(widen: Widen, b: bytes, p: nat, depth: nat) returns (r: Raw)
    requires Dec(widen, b, p, depth).Some? && b[p] / 32 == 7
    ensures Lies(b, p, depth, r)
  {
    var low := b[p] % 32;
    if low < 24 {
      assert b[p..p + 1] == [b[p]];
      r := if low == 20 then RawFalse else if low == 21 then RawTrue else if low == 22 then RawNull else RawUndefined;
    } else {
      r := WasFloat(widen, b, p, depth);
    }
  }

  lemma WasFloat(widen: Widen, b: bytes, p: nat, depth: nat) returns (r: Raw)
    requires Dec(widen, b, p, depth).Some? && b[p] / 32 == 7 && b[p] % 32 >= 24
    ensures Lies(b, p, depth, r)
  {
    hide ReadArg, DecItems, DecEntries, ToBigEndian, BigEndian, RawHead;
    HeadWasRaw(b, p);
    var n := ReadArg(b, p, b[p] % 32).value.arg;
    var w := HeadLength(b[p] % 32) - 1;
    FloatHead(w, n);
    r := if w == 4 then RawSingle(n) else RawDouble(n);
  }

  lemma {:induction false} WasArray(widen: Widen, b: bytes, p: nat, depth: nat) returns (r: Raw)
    requires Dec(widen, b, p, depth).Some? && b[p] / 32 == 4
    ensures Lies(b, p, depth, r)
    decreases Room(depth), 0
  {
    hide ReadArg, DecSimple, DecItems, DecEntries, At, RawHead, WriteItems, MeaningItems, ProperItems;
    HeadWasRaw(b, p);
    var a := ReadArg(b, p, b[p] % 32).value;
    var w := HeadLength(b[p] % 32) - 1;
    var xs := WereItems(widen, b, a.next, a.arg, depth + 1);
    AtConcat(b, p, RawHead(4, w, a.arg), WriteItems(xs));
    r := RawArray(w, xs);
  }

  lemma {:induction false} WereItems(widen: Widen, b: bytes, p: nat, n: nat, depth: nat) returns (xs: seq<Raw>)
    requires p <= |b| && DecItems(widen, b, p, n, depth).Some?
    ensures |xs| == n && ProperItems(xs, depth) && At(b, p, WriteItems(xs))
    ensures DecItems(widen, b, p, n, depth) == Some(Items(MeaningItems(widen, xs), p + |WriteItems(xs)|))
    decreases Room(depth), n + 2
  {
    hide Dec, DecItems, WriteRaw, Meaning, Proper;
    DecItemsStep(widen, b, p, n, depth);
    if n == 0 {
      xs := [];
    } else {
      var x := WasRaw(widen, b, p, depth);
      var rest := WereItems(widen, b, p + |WriteRaw(x)|, n - 1, depth);
      AtConcat(b, p, WriteRaw(x), WriteItems(rest));
      xs := [x] + rest;
    }
  }

  lemma {:induction false} WasMap(widen: Widen, b: bytes, p: nat, depth: nat) returns (r: Raw)
    requires Dec(widen, b, p, depth).Some? && b[p] / 32 == 5
    ensures Lies(b, p, depth, r)
    decreases Room(depth), 0
  {
    hide ReadArg, DecSimple, DecItems, DecEntries, At, RawHead, WriteEntries, MeaningEntries, ProperEntries;
    HeadWasRaw(b, p);
    var a := ReadArg(b, p, b[p] % 32).value;
    var w := HeadLength(b[p] % 32) - 1;
    var es := WereEntries(widen, b, a.next, a.arg, depth + 1);
    AtConcat(b, p, RawHead(5, w, a.arg), WriteEntries(es));
    r := RawMap(w, es);
  }

  lemma {:induction false} WereEntries(widen: Widen, b: bytes, p: nat, n: nat, depth: nat) returns (es: seq<RawEntry>)
    requires p <= |b| && DecEntries(widen, b, p, n, depth).Some?
    ensures |es| == n && ProperEntries(es, depth) && At(b, p, WriteEntries(es))
    ensures DecEntries(widen, b, p, n, depth) == Some(Entries(MeaningEntries(widen, es), p + |WriteEntries(es)|))
    decreases Room(depth), n + 2
  {
    hide Dec, DecEntries, WriteRaw, Meaning, Proper;
    DecEntriesStep(widen, b, p, n, depth);
    if n == 0 {
      es := [];
    } else {
      var k := WasRaw(widen, b, p, depth);
      var v := WasRaw(widen, b, p + |WriteRaw(k)|, depth);
      var e := RawEntry(k, v);
      AtConcat(b, p, WriteRaw(k), WriteRaw(v));
      var rest := WereEntries(widen, b, p + |WriteEntry(e)|, n - 1, depth);
      AtConcat(b, p, WriteEntry(e), WriteEntries(rest));
      es := [e] + rest;
    }
  }

  lemma {:induction false} WasTag(widen: Widen, b: bytes, p: nat, depth: nat) returns (r: Raw)
    requires Dec(widen, b, p, depth).Some? && b[p] / 32 == 6
    ensures Lies(b, p, depth, r)
    decreases Room(depth), 0
  {
    TagReadsInner(widen, b, p, depth);
    hide ReadArg, Dec, At, RawHead, Meaning;
    HeadWasRaw(b, p);
    var a := ReadArg(b, p, b[p] % 32).value;
    var w := HeadLength(b[p] % 32) - 1;
    var x := WasRaw(widen, b, a.next, depth + 1);
    AtConcat(b, p, RawHead(6, w, a.arg), WriteRaw(x));
    r := RawTag(w, a.arg, x);
  }

  lemma TagReadsInner(widen: Widen, b: bytes, p: nat, depth: nat)
    requires Dec(widen, b, p, depth).Some? && b[p] / 32 == 6
    ensures depth <= 64 && ReadArg(b, p, b[p] % 32).Some?
    ensures var a := ReadArg(b, p, b[p] % 32).value;
            Dec(widen, b, a.next, depth + 1).Some?
  {
    hide ReadArg, DecSimple, DecItems, DecEntries;
  }

  /** `b` is the proper item `r`, and stands for `v`. */
  ghost predicate Denotes(widen: Widen, b: bytes, r: Raw, v: Value) {
    Proper(r, 0) && WriteRaw(r) == b && Meaning(widen, r) == v
  }

  /**
    The decoder accepts exactly the definite-length items with UTF-8 text, 64-bit
    negative numbers and nesting of at most 64, whatever widths their heads have, and
    gives each the value it stands for.
   */
  lemma AcceptsExactly(widen: Widen, b: bytes, v: Value)
    ensures Decode(widen, b) == Some(v) <==> exists r :: Denotes(widen, b, r, v)
  {
    hide Dec, Proper, WriteRaw, Meaning;
    if Decode(widen, b) == Some(v) {
      var r := WasRaw(widen, b, 0, 0);
      assert b[0..|b|] == b;
      assert Denotes(widen, b, r, v);
    }
    if r :| Denotes(widen, b, r, v) {
      assert At(b, 0, WriteRaw(r)) by { assert b[0..|b|] == b; }
      ReadsRaw(widen, b, 0, 0, r);
    }
  }

  // ----- The encoder -----

  /** The least width whose argument can be `n`. */
  function Least(n: nat): nat {
    if n < 24 then 0 else if n < 0x100 then 1 else if n < 0x1_0000 then 2 else if n < 0x1_0000_0000 then 4 else 8
  }

  lemma LeastIsLeast(n: u64, w: nat)
    ensures Holds(Least(n), n) && (Holds(w, n) ==> Least(n) <= w)
  {
  }

  /** `v` with every head as short as possible. */
  ghost function Shortest(v: Value): Raw
    requires Fits(v)
    decreases v
  {
    match v
    case Uint(n) => RawUint(Least(n), n)
    case Int(x) => if x >= 0 then RawUint(Least(x), x) else RawNegative(Least(-1 - x), -1 - x)
    case Bool(p) => if p then RawTrue else RawFalse
    case Null => RawNull
    case Float(bits) => RawDouble(bits)
    case Text(s) => RawText(Least(|s|), s)
    case Bytes(s) => RawBytes(Least(|s|), s)
    case Array(xs) => RawArray(Least(|xs|), ShortestItems(xs))
    case Map(es) => RawMap(Least(|es|), ShortestEntries(es))
    case Tag(n, x) => RawTag(Least(n), n, Shortest(x))
  }

  ghost function ShortestItems(xs: seq<Value>): (rs: seq<Raw>)
    requires FitsItems(xs)
    ensures |rs| == |xs|
    decreases xs
  {
    if xs == [] then [] else [Shortest(xs[0])] + ShortestItems(xs[1..])
  }

  ghost function ShortestEntries(es: seq<Entry>): (rs: seq<RawEntry>)
    requires FitsEntries(es)
    ensures |rs| == |es|
    decreases es
  {
    if es == [] then [] else [ShortestEntry(es[0])] + ShortestEntries(es[1..])
  }

  ghost function ShortestEntry(e: Entry): RawEntry
    requires FitsEntry(e)
    decreases e
  {
    RawEntry(Shortest(e.key), Shortest(e.val))
  }

  lemma ShortestHead(m: major, n: u64)
    ensures Head(m, n) == RawHead(m, Least(n), n)
  {
    hide ToBigEndian, Pow256, Head;
    HeadIs(m, n);
    NoBytes(n);
    var w := Least(n);
    assert w == Width(n);
    assert Initial(m, w, n) == m * 32 + if w == 0 then n else Info(w);
  }

  /** The encoder writes the item of `v` whose every head is as short as possible. */
  lemma {:induction false} EncodeIsShortest(v: Value)
    requires Fits(v)
    ensures Encode(v) == WriteRaw(Shortest(v))
    decreases v
  {
    hide Head, RawHead, ToBigEndian, Least, EncodeItems, EncodeEntries, WriteItems, WriteEntries;
    match v
    case Array(xs) =>
      ShortestHead(4, |xs|);
      EncodeItemsIsShortest(xs);
    case Map(es) =>
      ShortestHead(5, |es|);
      EncodeEntriesIsShortest(es);
    case Tag(n, x) =>
      ShortestHead(6, n);
      EncodeIsShortest(x);
    case _ => EncodeLeafIsShortest(v);
  }

  lemma EncodeLeafIsShortest(v: Value)
    requires Fits(v) && !v.Array? && !v.Map? && !v.Tag?
    ensures Encode(v) == WriteRaw(Shortest(v))
  {
    hide Head, RawHead, ToBigEndian, Least, EncodeItems, EncodeEntries, WriteItems, WriteEntries;
    match v
    case Uint(n) => ShortestHead(0, n);
    case Int(x) =>
      if x >= 0 {
        ShortestHead(0, x);
      } else {
        ShortestHead(1, -1 - x);
      }
    case Text(s) => ShortestHead(3, |s|);
    case Bytes(s) => ShortestHead(2, |s|);
    case _ =>
  }

  lemma {:induction false} EncodeItemsIsShortest(xs: seq<Value>)
    requires FitsItems(xs)
    ensures EncodeItems(xs) == WriteItems(ShortestItems(xs))
    decreases xs
  {
    hide Encode, WriteRaw, Shortest, Fits;
    if xs != [] {
      EncodeIsShortest(xs[0]);
      EncodeItemsIsShortest(xs[1..]);
      assert ShortestItems(xs)[1..] == ShortestItems(xs[1..]);
    }
  }

  lemma {:induction false} EncodeEntriesIsShortest(es: seq<Entry>)
    requires FitsEntries(es)
    ensures EncodeEntries(es) == WriteEntries(ShortestEntries(es))
    decreases es
  {
    hide EncodeEntry, WriteEntry, ShortestEntry, FitsEntry;
    if es != [] {
      EncodeEntryIsShortest(es[0]);
      EncodeEntriesIsShortest(es[1..]);
      assert ShortestEntries(es)[1..] == ShortestEntries(es[1..]);
    }
  }

  lemma {:induction false} EncodeEntryIsShortest(e: Entry)
    requires FitsEntry(e)
    ensures EncodeEntry(e) == WriteEntry(ShortestEntry(e))
    decreases e
  {
    hide Encode, WriteRaw, Shortest, Fits;
    EncodeIsShortest(e.key);
    EncodeIsShortest(e.val);
  }
}
