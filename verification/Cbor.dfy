/**
  The CBOR value tree and the encoder of the Go codec.

  `Encode` says which bytes a tree stands for; `Encoder` is the source's
  recursive writer, which appends to one growing output.
 */
module Cbor {
  import opened Bytes

  /** A CBOR item. Text is its UTF-8 octets; a float is its IEEE 754 bit pattern. */
  datatype Value =
    | Uint(u: u64)
    | Int(i: i64)
    | Bool(b: bool)
    | Float(bits: u64)
    | Null
    | Text(text: bytes)
    | Bytes(data: bytes)
    | Array(items: seq<Value>)
    | Map(entries: seq<Entry>)
    | Tag(num: u64, inner: Value)

  datatype Entry = Entry(key: Value, val: Value)

  type major = m: int | 0 <= m < 7

  /** How many argument bytes follow the initial byte in the shortest form of `n`. */
  function Width(n: u64): (k: nat)
    ensures k == 0 || k == 1 || k == 2 || k == 4 || k == 8
    ensures k > 0 ==> n < Pow256(k)
  {
    Pow256Values();
    if n < 24 then 0 else if n < 0x100 then 1 else if n < 0x1_0000 then 2 else if n < 0x1_0000_0000 then 4 else 8
  }

  /** The additional information that announces `k` argument bytes. */
  function Info(k: nat): nat
    requires k == 1 || k == 2 || k == 4 || k == 8
  {
    if k == 1 then 24 else if k == 2 then 25 else if k == 4 then 26 else 27
  }

  /** The shortest head for major type `m` and argument `n` (section 4.2.1 of RFC 8949). */
  function Head(m: major, n: u64): (h: bytes)
    ensures |h| == 1 + Width(n)
  {
    var k := Width(n);
    if k == 0 then [m * 32 + n] else [m * 32 + Info(k)] + ToBigEndian(n, k)
  }

  lemma HeadIs(m: major, n: u64)
    ensures var k := Width(n);
            Head(m, n) == if k == 0 then [m * 32 + n] else [m * 32 + Info(k)] + ToBigEndian(n, k)
  {
  }

  /** All lengths in `v` can be written in a 64-bit argument, as Go's `len` always can. */
  ghost predicate Fits(v: Value)
    decreases v
  {
    match v
    case Text(s) => |s| <= MAX_INT64
    case Bytes(s) => |s| <= MAX_INT64
    case Array(xs) => |xs| <= MAX_INT64 && FitsItems(xs)
    case Map(es) => |es| <= MAX_INT64 && FitsEntries(es)
    case Tag(_, x) => Fits(x)
    case _ => true
  }

  ghost predicate FitsItems(xs: seq<Value>)
    decreases xs
  {
    xs == [] || (Fits(xs[0]) && FitsItems(xs[1..]))
  }

  ghost predicate FitsEntries(es: seq<Entry>)
    decreases es
  {
    es == [] || (FitsEntry(es[0]) && FitsEntries(es[1..]))
  }

  ghost predicate FitsEntry(e: Entry)
    decreases e
  {
    Fits(e.key) && Fits(e.val)
  }

  ghost function Encode(v: Value): (s: bytes)
    requires Fits(v)
    ensures s != []
    decreases v
  {
    match v
    case Uint(n) => Head(0, n)
    case Int(x) => if x >= 0 then Head(0, x) else Head(1, -(x + 1))
    case Bool(p) => [if p then 0xf5 else 0xf4]
    case Null => [0xf6]
    case Float(bits) => [0xfb] + ToBigEndian(bits, 8)
    case Text(s) => Head(3, |s|) + s
    case Bytes(s) => Head(2, |s|) + s
    case Array(xs) => Head(4, |xs|) + EncodeItems(xs)
    case Map(es) => Head(5, |es|) + EncodeEntries(es)
    case Tag(n, x) => Head(6, n) + Encode(x)
  }

  ghost function EncodeItems(xs: seq<Value>): (s: bytes)
    requires FitsItems(xs)
    ensures |s| >= |xs|
    decreases xs
  {
    if xs == [] then [] else Encode(xs[0]) + EncodeItems(xs[1..])
  }

  ghost function EncodeEntries(es: seq<Entry>): (s: bytes)
    requires FitsEntries(es)
    ensures |s| >= 2 * |es|
    decreases es
  {
    if es == [] then [] else EncodeEntry(es[0]) + EncodeEntries(es[1..])
  }

  ghost function EncodeEntry(e: Entry): (s: bytes)
    requires FitsEntry(e)
    ensures |s| >= 2
    decreases e
  {
    Encode(e.key) + Encode(e.val)
  }

  lemma {:induction false} FitsItemsSplit(xs: seq<Value>, i: nat)
    requires i < |xs| && FitsItems(xs)
    ensures FitsItems(xs[..i]) && Fits(xs[i]) && FitsItems(xs[..i + 1])
    ensures EncodeItems(xs[..i + 1]) == EncodeItems(xs[..i]) + Encode(xs[i])
  {
    hide Encode, Fits;
    if i == 0 {
      assert xs[..1][1..] == [];
    } else {
      FitsItemsSplit(xs[1..], i - 1);
      assert xs[..i][1..] == xs[1..][..i - 1] && xs[..i + 1][1..] == xs[1..][..i];
    }
  }

  lemma {:induction false} FitsEntriesSplit(es: seq<Entry>, i: nat)
    requires i < |es| && FitsEntries(es)
    ensures FitsEntries(es[..i]) && FitsEntry(es[i]) && FitsEntries(es[..i + 1])
    ensures EncodeEntries(es[..i + 1]) == EncodeEntries(es[..i]) + EncodeEntry(es[i])
  {
    hide EncodeEntry, FitsEntry;
    if i == 0 {
      assert es[..1][1..] == [];
    } else {
      FitsEntriesSplit(es[1..], i - 1);
      assert es[..i][1..] == es[1..][..i - 1] && es[..i + 1][1..] == es[1..][..i];
    }
  }

  /** The output that `cborHead` and `cborEnc` append to through a pointer. */
  class Encoder {
    var out: bytes

    constructor ()
      ensures out == []
    {
      out := [];
    }

    method WriteHead(m: major, n: u64)
      modifies this
      ensures out == old(out) + Head(m, n)
    {
      hide ToBigEndian, Pow256, ByteAt;
      Digits(n, Width(n));
      var mt := m * 32;
      if n < 24 {
        out := out + [mt + n];
      } else if n < 0x100 {
        out := out + [mt + 24, ByteAt(n, 0)];
      } else if n < 0x1_0000 {
        out := out + [mt + 25, ByteAt(n, 1), ByteAt(n, 0)];
      } else if n < 0x1_0000_0000 {
        out := out + [mt + 26, ByteAt(n, 3), ByteAt(n, 2), ByteAt(n, 1), ByteAt(n, 0)];
      } else {
        out := out + [mt + 27,
                      ByteAt(n, 7), ByteAt(n, 6), ByteAt(n, 5), ByteAt(n, 4),
                      ByteAt(n, 3), ByteAt(n, 2), ByteAt(n, 1), ByteAt(n, 0)];
      }
    }

    method WriteFloat(bits: u64)
      modifies this
      ensures out == old(out) + ([0xfb] + ToBigEndian(bits, 8))
    {
      Digits(bits, 8);
      out := out + [0xfb,
                    ByteAt(bits, 7), ByteAt(bits, 6), ByteAt(bits, 5), ByteAt(bits, 4),
                    ByteAt(bits, 3), ByteAt(bits, 2), ByteAt(bits, 1), ByteAt(bits, 0)];
    }

    method Write(v: Value)
      requires Fits(v)
      modifies this
      ensures out == old(out) + Encode(v)
      decreases v
    {
      hide Head, ToBigEndian, EncodeItems, EncodeEntries, FitsItems, FitsEntries;
      match v
      case Array(xs) =>
        WriteHead(4, |xs|);
        WriteItems(xs);
        Associative(old(out), Head(4, |xs|), EncodeItems(xs));
      case Map(es) =>
        WriteHead(5, |es|);
        WriteEntries(es);
        Associative(old(out), Head(5, |es|), EncodeEntries(es));
      case Tag(n, x) =>
        WriteHead(6, n);
        Write(x);
        Associative(old(out), Head(6, n), Encode(x));
      case _ => WriteLeaf(v);
    }

    method WriteLeaf(v: Value)
      requires Fits(v) && !v.Array? && !v.Map? && !v.Tag?
      modifies this
      ensures out == old(out) + Encode(v)
    {
      hide Head, ToBigEndian, EncodeItems, EncodeEntries, FitsItems, FitsEntries;
      match v
      case Uint(n) => WriteHead(0, n);
      case Int(x) =>
        if x >= 0 {
          WriteHead(0, x);
        } else {
          WriteHead(1, -(x + 1));
        }
      case Bool(p) => out := out + [if p then 0xf5 else 0xf4];
      case Null => out := out + [0xf6];
      case Float(bits) =>
        WriteFloat(bits);
      case Text(s) =>
        WriteHead(3, |s|);
        out := out + s;
        Associative(old(out), Head(3, |s|), s);
      case Bytes(s) =>
        WriteHead(2, |s|);
        out := out + s;
        Associative(old(out), Head(2, |s|), s);
    }

    method WriteItems(xs: seq<Value>)
      requires FitsItems(xs)
      modifies this
      ensures out == old(out) + EncodeItems(xs)
      decreases xs, 0
    {
      hide Encode, Fits;
      var i := 0;
      while i < |xs|
        invariant 0 <= i <= |xs| && FitsItems(xs[..i])
        invariant out == old(out) + EncodeItems(xs[..i])
      {
        FitsItemsSplit(xs, i);
        Write(xs[i]);
        i := i + 1;
      }
      assert xs[..i] == xs;
    }

    method WriteEntries(es: seq<Entry>)
      requires FitsEntries(es)
      modifies this
      ensures out == old(out) + EncodeEntries(es)
      decreases es, 0
    {
      hide Encode, EncodeEntry, FitsEntry;
      var i := 0;
      while i < |es|
        invariant 0 <= i <= |es| && FitsEntries(es[..i])
        invariant out == old(out) + EncodeEntries(es[..i])
      {
        FitsEntriesSplit(es, i);
        WriteEntry(es[i]);
        i := i + 1;
      }
      assert es[..i] == es;
    }

    method WriteEntry(e: Entry)
      requires FitsEntry(e)
      modifies this
      ensures out == old(out) + EncodeEntry(e)
      decreases e
    {
      Write(e.key);
      Write(e.val);
    }
  }
}
