/**
  Laws of the decoder that hold for every input: its result depends only on the
  bytes it consumes, encodings are prefix-free, and the tree it builds is no
  larger than the bytes it read and no deeper than the limit.
 */
module CborLaws {
  import opened Bytes
  import opened Cbor
  import opened CborDecode
  import opened CborRoundTrip

  /** `b` and `c` start with the same `n` bytes. */
  predicate Agree(b: bytes, c: bytes, n: nat) {
    n <= |b| && n <= |c| && b[..n] == c[..n]
  }

  lemma AgreeSlice(b: bytes, c: bytes, n: nat, i: nat, j: nat)
    requires Agree(b, c, n) && i <= j <= n
    ensures b[i..j] == c[i..j] && Agree(b, c, j)
    ensures i < n ==> b[i] == c[i]
  {
    assert b[i..j] == b[..n][i..j] && c[i..j] == c[..n][i..j];
    assert b[..j] == b[..n][..j] && c[..j] == c[..n][..j];
    if i < n {
      assert b[i] == b[..n][i] && c[i] == c[..n][i];
    }
  }

  lemma ReadArgAgree(b: bytes, c: bytes, n: nat, p: nat, low: nat)
    requires p < n && Agree(b, c, n)
    requires ReadArg(b, p, low).Some? && ReadArg(b, p, low).value.next <= n
    ensures ReadArg(c, p, low) == ReadArg(b, p, low)
  {
    if low >= 24 {
      AgreeSlice(b, c, n, p + 1, p + HeadLength(low));
    }
  }

  /** Decoding looks only at the bytes it consumes. */
  lemma {:induction false} DecAgree(widen: Widen, b: bytes, c: bytes, p: nat, depth: nat)
    requires var x := Dec(widen, b, p, depth); x.Some? && Agree(b, c, x.value.next)
    ensures Dec(widen, c, p, depth) == Dec(widen, b, p, depth)
    decreases Room(depth), 0
  {
    hide DecItems, DecEntries, DecSimple, ReadArg, Agree;
    var n := Dec(widen, b, p, depth).value.next;
    AgreeSlice(b, c, n, p, p);
    assert p < |c| by { AgreeLength(b, c, n); }
    if b[p] / 32 == 7 {
      SimpleAgree(widen, b, c, p, b[p] % 32);
    } else {
      ReadArgAgree(b, c, n, p, b[p] % 32);
      var a := ReadArg(b, p, b[p] % 32).value;
      AgreeLength(b, c, n);
      AgreeSlice(b, c, n, a.next, n);
      if b[p] / 32 == 4 {
        ItemsAgree(widen, b, c, a.next, a.arg, depth + 1);
      } else if b[p] / 32 == 5 {
        EntriesAgree(widen, b, c, a.next, a.arg, depth + 1);
      } else if b[p] / 32 == 6 {
        DecAgree(widen, b, c, a.next, depth + 1);
      }
    }
  }

  lemma AgreeLength(b: bytes, c: bytes, n: nat)
    requires Agree(b, c, n)
    ensures n <= |b| && n <= |c|
  {
  }

  lemma SimpleAgree(widen: Widen, b: bytes, c: bytes, p: nat, low: nat)
    requires p < |b| && p < |c| && DecSimple(widen, b, p, low).Some?
    requires Agree(b, c, DecSimple(widen, b, p, low).value.next)
    ensures DecSimple(widen, c, p, low) == DecSimple(widen, b, p, low)
  {
    if low == 26 || low == 27 {
      var n := DecSimple(widen, b, p, low).value.next;
      AgreeSlice(b, c, n, p + 1, n);
    }
  }

  lemma {:induction false} ItemsAgree(widen: Widen, b: bytes, c: bytes, p: nat, n: nat, depth: nat)
    requires p <= |b| && p <= |c|
    requires var x := DecItems(widen, b, p, n, depth); x.Some? && Agree(b, c, x.value.next)
    ensures DecItems(widen, c, p, n, depth) == DecItems(widen, b, p, n, depth)
    decreases Room(depth), n + 1
  {
    hide Dec, Agree;
    if n > 0 {
      var end := DecItems(widen, b, p, n, depth).value.next;
      var i := Dec(widen, b, p, depth).value.next;
      AgreeSlice(b, c, end, i, i);
      AgreeLength(b, c, end);
      DecAgree(widen, b, c, p, depth);
      ItemsAgree(widen, b, c, i, n - 1, depth);
    }
  }

  lemma {:induction false} EntriesAgree(widen: Widen, b: bytes, c: bytes, p: nat, n: nat, depth: nat)
    requires p <= |b| && p <= |c|
    requires var x := DecEntries(widen, b, p, n, depth); x.Some? && Agree(b, c, x.value.next)
    ensures DecEntries(widen, c, p, n, depth) == DecEntries(widen, b, p, n, depth)
    decreases Room(depth), n + 1
  {
    hide Dec, Agree;
    if n > 0 {
      var end := DecEntries(widen, b, p, n, depth).value.next;
      var i := Dec(widen, b, p, depth).value.next;
      var j := Dec(widen, b, i, depth).value.next;
      AgreeSlice(b, c, end, i, i);
      AgreeSlice(b, c, end, j, j);
      AgreeLength(b, c, end);
      DecAgree(widen, b, c, p, depth);
      DecAgree(widen, b, c, i, depth);
      EntriesAgree(widen, b, c, j, n - 1, depth);
    }
  }

  /** Bytes after an item do not change how the item decodes. */
  lemma DecExtend(widen: Widen, b: bytes, s: bytes, p: nat, depth: nat)
    requires Dec(widen, b, p, depth).Some?
    ensures Dec(widen, b + s, p, depth) == Dec(widen, b, p, depth)
  {
    hide Dec;
    var n := Dec(widen, b, p, depth).value.next;
    assert b[..n] == (b + s)[..n];
    DecAgree(widen, b, b + s, p, depth);
  }

  /** An accepted payload is never followed by more bytes of another accepted payload. */
  lemma PrefixFree(widen: Widen, x: bytes, s: bytes)
    requires Decode(widen, x).Some? && Decode(widen, x + s).Some?
    ensures s == []
  {
    hide Dec;
    DecExtend(widen, x, s, 0, 0);
  }

  lemma NotEmpty(widen: Widen, x: bytes)
    requires Decode(widen, x).Some?
    ensures |x| > 0
  {
  }

  /** The concatenation of payloads. */
  function Concat(xs: seq<bytes>): bytes {
    if xs == [] then [] else xs[0] + Concat(xs[1..])
  }

  /** A concatenation of accepted payloads comes apart in only one way. */
  lemma {:induction false} UniqueSplit(widen: Widen, xs: seq<bytes>, ys: seq<bytes>)
    requires forall x :: x in xs ==> Decode(widen, x).Some?
    requires forall y :: y in ys ==> Decode(widen, y).Some?
    requires Concat(xs) == Concat(ys)
    ensures xs == ys
  {
    hide Dec;
    if xs == [] && ys != [] {
      NotEmpty(widen, ys[0]);
    } else if xs != [] && ys == [] {
      NotEmpty(widen, xs[0]);
    } else if xs != [] {
      var x, y := xs[0], ys[0];
      assert x in xs && y in ys;
      DecExtend(widen, x, Concat(xs[1..]), 0, 0);
      DecExtend(widen, y, Concat(ys[1..]), 0, 0);
      assert |x| == |y|;
      assert x == Concat(xs)[..|x|] && y == Concat(ys)[..|y|];
      assert Concat(xs[1..]) == Concat(xs)[|x|..] && Concat(ys[1..]) == Concat(ys)[|y|..];
      UniqueSplit(widen, xs[1..], ys[1..]);
      assert xs == [x] + xs[1..] && ys == [y] + ys[1..];
    }
  }

  /** Nodes of the tree plus the bytes of its strings: what a decoded value occupies. */
  function Cost(v: Value): (n: nat)
    ensures n >= 1
    decreases v
  {
    match v
    case Text(s) => 1 + |s|
    case Bytes(s) => 1 + |s|
    case Array(xs) => 1 + CostItems(xs)
    case Map(es) => 1 + CostEntries(es)
    case Tag(_, x) => 1 + Cost(x)
    case _ => 1
  }

  function CostItems(xs: seq<Value>): nat
    decreases xs
  {
    if xs == [] then 0 else Cost(xs[0]) + CostItems(xs[1..])
  }

  function CostEntries(es: seq<Entry>): nat
    decreases es
  {
    if es == [] then 0 else CostEntry(es[0]) + CostEntries(es[1..])
  }

  function CostEntry(e: Entry): nat
    decreases e
  {
    Cost(e.key) + Cost(e.val)
  }

  /** What is true of every tree the decoder builds at level `depth` from `n` bytes. */
  ghost predicate Built(v: Value, depth: nat, n: nat) {
    Fits(v) && Decodable(v, depth) && Norm(v) == v && Cost(v) <= n
  }

  /**
    Whatever lengths the input declares, a decoded tree costs no more than the
    bytes consumed, nests within the limit, and is already in normal form.
   */
  lemma {:induction false} DecBuilt(widen: Widen, b: bytes, p: nat, depth: nat)
    requires |b| <= MAX_INT64 && Dec(widen, b, p, depth).Some?
    ensures var x := Dec(widen, b, p, depth).value; Built(x.v, depth, x.next - p)
    decreases Room(depth), 0
  {
    hide ReadArg, DecSimple, DecItems, DecEntries, Built;
    if b[p] / 32 < 4 || b[p] / 32 == 7 {
      LeafBuilt(widen, b, p, depth);
    } else {
      var a := ReadArg(b, p, b[p] % 32).value;
      if b[p] / 32 == 4 {
        ItemsBuilt(widen, b, a.next, a.arg, depth + 1);
        var vs := DecItems(widen, b, a.next, a.arg, depth + 1).value.vs;
        BuiltArray(vs, depth, Dec(widen, b, p, depth).value.next - p);
      } else if b[p] / 32 == 5 {
        EntriesBuilt(widen, b, a.next, a.arg, depth + 1);
        var es := DecEntries(widen, b, a.next, a.arg, depth + 1).value.es;
        BuiltMap(es, depth, Dec(widen, b, p, depth).value.next - p);
      } else {
        DecBuilt(widen, b, a.next, depth + 1);
        var x := Dec(widen, b, a.next, depth + 1).value;
        BuiltTag(a.arg, x.v, depth, x.next - a.next, Dec(widen, b, p, depth).value.next - p);
      }
    }
  }

  lemma LeafBuilt(widen: Widen, b: bytes, p: nat, depth: nat)
    requires |b| <= MAX_INT64 && Dec(widen, b, p, depth).Some?
    requires b[p] / 32 < 4 || b[p] / 32 == 7
    ensures var x := Dec(widen, b, p, depth).value; Built(x.v, depth, x.next - p)
  {
    hide ReadArg, DecItems, DecEntries;
  }

  lemma BuiltArray(xs: seq<Value>, depth: nat, n: nat)
    requires depth <= MAX_DEPTH && |xs| <= MAX_INT64
    requires FitsItems(xs) && DecodableItems(xs, depth + 1) && NormItems(xs) == xs && CostItems(xs) < n
    ensures Built(Array(xs), depth, n)
  {
  }

  lemma BuiltMap(es: seq<Entry>, depth: nat, n: nat)
    requires depth <= MAX_DEPTH && |es| <= MAX_INT64
    requires FitsEntries(es) && DecodableEntries(es, depth + 1) && NormEntries(es) == es && CostEntries(es) < n
    ensures Built(Map(es), depth, n)
  {
  }

  lemma BuiltTag(num: u64, x: Value, depth: nat, k: nat, n: nat)
    requires depth <= MAX_DEPTH && k < n && Built(x, depth + 1, k)
    ensures Built(Tag(num, x), depth, n)
  {
  }

  lemma {:induction false} ItemsBuilt(widen: Widen, b: bytes, p: nat, n: nat, depth: nat)
    requires p <= |b| <= MAX_INT64 && DecItems(widen, b, p, n, depth).Some?
    ensures var x := DecItems(widen, b, p, n, depth).value;
            && FitsItems(x.vs) && DecodableItems(x.vs, depth) && NormItems(x.vs) == x.vs
            && CostItems(x.vs) <= x.next - p
    decreases Room(depth), n + 1
  {
    hide Dec, Fits, Decodable, Norm, Cost;
    if n > 0 {
      var x := Dec(widen, b, p, depth).value;
      DecBuilt(widen, b, p, depth);
      ItemsBuilt(widen, b, x.next, n - 1, depth);
      assert DecItems(widen, b, p, n, depth).value.vs[1..] == DecItems(widen, b, x.next, n - 1, depth).value.vs;
    }
  }

  lemma {:induction false} EntriesBuilt(widen: Widen, b: bytes, p: nat, n: nat, depth: nat)
    requires p <= |b| <= MAX_INT64 && DecEntries(widen, b, p, n, depth).Some?
    ensures var x := DecEntries(widen, b, p, n, depth).value;
            && FitsEntries(x.es) && DecodableEntries(x.es, depth) && NormEntries(x.es) == x.es
            && CostEntries(x.es) <= x.next - p
    decreases Room(depth), n + 1
  {
    hide Dec, Fits, Decodable, Norm, Cost;
    if n > 0 {
      var k := Dec(widen, b, p, depth).value;
      var v := Dec(widen, b, k.next, depth).value;
      DecBuilt(widen, b, p, depth);
      DecBuilt(widen, b, k.next, depth);
      EntriesBuilt(widen, b, v.next, n - 1, depth);
      assert DecEntries(widen, b, p, n, depth).value.es[1..] == DecEntries(widen, b, v.next, n - 1, depth).value.es;
    }
  }

  /** The bounds, for a whole payload. */
  lemma DecodedIsBounded(widen: Widen, b: bytes)
    requires |b| <= MAX_INT64 && Decode(widen, b).Some?
    ensures var v := Decode(widen, b).value;
            Fits(v) && Cost(v) <= |b| && Depth(v) <= 64 && TextsValid(v) && Norm(v) == v
  {
    hide Dec;
    DecBuilt(widen, b, 0, 0);
    DecodableIff(Decode(widen, b).value, 0);
  }
}
