/**
  The C decoder, as a function of the sub-slice it is handed, and its agreement
  with the Go decoder.
 */
module CDecode {
  import opened Bytes
  import opened Cbor
  import opened CborDecode
  import opened CborLaws
  import opened CborCanonical
  import opened CStorage
  import Utf8

  /** How half-precision bits become double-precision bits. */
  type Half = u16 -> u64

  const SIZEOF_VALUE: nat := 24
  const SIZEOF_PAIR: nat := 16

  /** Slices no larger than this never meet the decoder's overflow checks; a frame is at most 1025 MiB. */
  const SLICE_LIMIT: nat := 0x400_0000_0000_0000

  /**
    Decodes the item at the front of `b`; `next` is the number of bytes consumed.
    The head is read before the major type is looked at.
   */
  ghost function CDec(widen: Widen, half: Half, b: bytes, depth: nat): (r: Option<Item>)
    ensures r.Some? ==> 0 < r.value.next <= |b|
    decreases Room(depth), 0
  {
    if depth > MAX_DEPTH || |b| == 0 then None
    else
      var m, low := b[0] / 32, b[0] % 32;
      var a :- ReadArg(b, 0, low);
      if m == 0 then Some(Item(Uint(a.arg), a.next))
      else if m == 1 then
        if a.arg > MAX_INT64 then None else Some(Item(Int(-1 - a.arg), a.next))
      else if m == 2 || m == 3 then
        if a.arg > |b| - a.next then None
        else if m == 3 && !Utf8.WellFormed(b[a.next..a.next + a.arg]) then None
        else
          var s := b[a.next..a.next + a.arg];
          Some(Item(if m == 3 then Text(s) else Bytes(s), a.next + a.arg))
      else if m == 4 then
        if a.arg > |b| - a.next || a.arg > SIZE_MAX / SIZEOF_VALUE then None
        else
          var xs :- CItems(widen, half, b[a.next..], a.arg, depth + 1);
          Some(Item(Array(xs.vs), a.next + xs.next))
      else if m == 5 then
        if a.arg > |b| - a.next || a.arg > SIZE_MAX / SIZEOF_PAIR then None
        else
          var es :- CEntries(widen, half, b[a.next..], a.arg, depth + 1);
          Some(Item(Map(es.es), a.next + es.next))
      else if m == 6 then
        var x :- CDec(widen, half, b[a.next..], depth + 1);
        Some(Item(Tag(a.arg, x.v), a.next + x.next))
      else CSimple(widen, half, b)
  }

  /** Major type 7, after its head was read: as in Go, and half-precision floats too. */
  ghost function CSimple(widen: Widen, half: Half, b: bytes): (r: Option<Item>)
    requires |b| > 0 && ReadArg(b, 0, b[0] % 32).Some?
    ensures r.Some? ==> 0 < r.value.next <= |b|
  {
    var low := b[0] % 32;
    var a := ReadArg(b, 0, low).value;
    if low == 20 || low == 21 then Some(Item(Bool(low == 21), a.next))
    else if low == 22 || low == 23 then Some(Item(Null, a.next))
    else if low == 25 then Some(Item(Float(Halved(half, b)), a.next))
    else if low == 26 then Some(Item(Float(Widened(widen, b, 0)), a.next))
    else if low == 27 then Some(Item(Float(a.arg), a.next))
    else None
  }

  ghost function Halved(half: Half, b: bytes): u64
    requires 3 <= |b|
  {
    var s := b[1..3];
    BigEndianBound(s);
    Pow256Values();
    half(BigEndian(s))
  }

  /** A half-precision float, which only the C decoder reads. */
  lemma ReadsHalf(widen: Widen, half: Half, x: byte, y: byte, rest: bytes, depth: nat)
    requires depth <= 64
    ensures CDec(widen, half, [0xf9, x, y] + rest, depth) == Some(Item(Float(half(256 * x + y)), 3))
    ensures Dec(widen, [0xf9, x, y] + rest, 0, depth) == None
  {
    hide CItems, CEntries, DecItems, DecEntries;
    var b := [0xf9, x, y] + rest;
    assert b[1..3] == [x, y];
    TwoBytes(x, y);
  }

  ghost function CItems(widen: Widen, half: Half, b: bytes, n: nat, depth: nat): (r: Option<Items>)
    ensures r.Some? ==> n <= r.value.next <= |b| && |r.value.vs| == n
    decreases Room(depth), n + 1
  {
    if n == 0 then Some(Items([], 0))
    else
      var x :- CDec(widen, half, b, depth);
      var xs :- CItems(widen, half, b[x.next..], n - 1, depth);
      Some(Items([x.v] + xs.vs, x.next + xs.next))
  }

  ghost function CEntries(widen: Widen, half: Half, b: bytes, n: nat, depth: nat): (r: Option<Entries>)
    ensures r.Some? ==> 2 * n <= r.value.next <= |b| && |r.value.es| == n
    decreases Room(depth), n + 1
  {
    if n == 0 then Some(Entries([], 0))
    else
      var k :- CDec(widen, half, b, depth);
      var v :- CDec(widen, half, b[k.next..], depth);
      var es :- CEntries(widen, half, b[k.next + v.next..], n - 1, depth);
      Some(Entries([Entry(k.v, v.v)] + es.es, k.next + v.next + es.next))
  }

  /** `csilc_decode`: the item must fill the input. */
  ghost function CDecodeAll(widen: Widen, half: Half, b: bytes): Option<Value> {
    var x :- CDec(widen, half, b, 0);
    if x.next == |b| then Some(x.v) else None
  }

  /** No half-precision float between `p` and `q`. */
  ghost predicate NoHalf(b: bytes, p: nat, q: nat)
    requires q <= |b|
  {
    forall t :: t in Tokens(b, p, q) ==> t < |b| && b[t] != 0xf9
  }

  lemma NoHalfSplit(b: bytes, p: nat, q: nat, r: nat)
    requires q <= r <= |b| && Walk(b, p, q) && Walk(b, q, r)
    ensures Walk(b, p, r)
    ensures NoHalf(b, p, r) <==> NoHalf(b, p, q) && NoHalf(b, q, r)
  {
    hide Walk, Tokens;
    TokensSplit(b, p, q, r);
    assert forall t :: t in Tokens(b, p, r) <==> t in Tokens(b, p, q) || t in Tokens(b, q, r);
  }

  /** The `n` bytes at `p` are a whole number of tokens. */
  ghost predicate Covers(b: bytes, p: nat, n: nat) {
    p + n <= |b| && Walk(b, p, p + n)
  }

  /** Reading a head in the slice or at the position is the same thing. */
  lemma ReadArgSlice(b: bytes, p: nat, low: nat)
    requires p < |b|
    ensures var s, a := ReadArg(b[p..], 0, low), ReadArg(b, p, low);
            if s.None? then a.None? else a == Some(Arg(s.value.arg, p + s.value.next))
  {
    var k := HeadLength(low);
    if low >= 24 && k > 0 && k <= |b| - p {
      assert b[p..][1..k] == b[p + 1..p + k];
    }
  }

  /**
    Go agrees with C at `p`: it fails where C fails, and where C succeeds it
    builds the same value from the same bytes unless a half-precision float is
    among them, in which case it fails.
   */
  ghost predicate Agrees(b: bytes, p: nat, g: Option<Item>, c: Option<Item>) {
    if c.None? then g.None?
    else
      && Covers(b, p, c.value.next)
      && g == if NoHalf(b, p, p + c.value.next) then Some(Item(c.value.v, p + c.value.next)) else None
  }

  lemma {:induction false} GoAgreesWithC(widen: Widen, half: Half, b: bytes, p: nat, depth: nat)
    requires p <= |b| <= SLICE_LIMIT
    ensures Agrees(b, p, Dec(widen, b, p, depth), CDec(widen, half, b[p..], depth))
    decreases Room(depth), 1
  {
    hide Dec, CDec, Agrees, ItemsAgree, EntriesAgree, Walk, Covers, NoHalf, ReadArg;
    if depth > MAX_DEPTH || p == |b| {
      NothingToRead(widen, half, b, p, depth);
    } else if b[p] / 32 == 7 {
      SimpleAgreesWithC(widen, half, b, p, depth);
    } else if b[p] / 32 < 4 {
      LeafAgreesWithC(widen, half, b, p, depth);
    } else {
      NestedAgreesWithC(widen, half, b, p, depth);
    }
  }

  lemma {:induction false} NestedAgreesWithC(widen: Widen, half: Half, b: bytes, p: nat, depth: nat)
    requires p < |b| <= SLICE_LIMIT && depth <= MAX_DEPTH && 4 <= b[p] / 32 < 7
    ensures Agrees(b, p, Dec(widen, b, p, depth), CDec(widen, half, b[p..], depth))
    decreases Room(depth), 0
  {
    hide Dec, CDec, Agrees, ItemsAgree, EntriesAgree, Walk, NoHalf, ReadArg;
    ReadArgSlice(b, p, b[p] % 32);
    if ReadArg(b[p..], 0, b[p] % 32).None? {
      NoHead(widen, half, b, p, depth);
    } else {
      var a := ReadArg(b[p..], 0, b[p] % 32).value;
      HeadToken(b, p);
      if b[p] / 32 == 4 {
        ItemsAgreeWithC(widen, half, b, p + a.next, a.arg, depth + 1);
        ArrayAgreesWithC(widen, half, b, p, depth);
      } else if b[p] / 32 == 5 {
        EntriesAgreeWithC(widen, half, b, p + a.next, a.arg, depth + 1);
        MapAgreesWithC(widen, half, b, p, depth);
      } else {
        GoAgreesWithC(widen, half, b, p + a.next, depth + 1);
        TagAgreesWithC(widen, half, b, p, depth);
      }
    }
  }

  lemma NothingToRead(widen: Widen, half: Half, b: bytes, p: nat, depth: nat)
    requires p <= |b| && (depth > MAX_DEPTH || p == |b|)
    ensures Agrees(b, p, Dec(widen, b, p, depth), CDec(widen, half, b[p..], depth))
  {
  }

  lemma NoHead(widen: Widen, half: Half, b: bytes, p: nat, depth: nat)
    requires p < |b| && b[p] / 32 < 7
    requires ReadArg(b[p..], 0, b[p] % 32).None? && ReadArg(b, p, b[p] % 32).None?
    ensures Agrees(b, p, Dec(widen, b, p, depth), CDec(widen, half, b[p..], depth))
  {
    hide ReadArg, DecItems, DecEntries, CItems, CEntries;
    assert b[p..][0] == b[p];
  }

  /** The head of a number, a container or a tag is one token, and is no half-precision float. */
  lemma HeadToken(b: bytes, p: nat)
    requires p < |b| && b[p] / 32 < 7 && b[p] / 32 != 2 && b[p] / 32 != 3
    requires ReadArg(b, p, b[p] % 32).Some?
    ensures var q := ReadArg(b, p, b[p] % 32).value.next; Walk(b, p, q) && NoHalf(b, p, q)
  {
    hide ReadArg, Walk, Tokens;
    OneToken(b, p, ReadArg(b, p, b[p] % 32).value.next);
  }

  lemma SimpleAgreesWithC(widen: Widen, half: Half, b: bytes, p: nat, depth: nat)
    requires p < |b| && b[p] / 32 == 7 && depth <= MAX_DEPTH
    ensures Agrees(b, p, Dec(widen, b, p, depth), CDec(widen, half, b[p..], depth))
  {
    hide Walk, Tokens, DecItems, DecEntries, CItems, CEntries;
    var s, low := b[p..], b[p] % 32;
    assert s[0] == b[p];
    ReadArgSlice(b, p, low);
    if ReadArg(s, 0, low).Some? {
      OneToken(b, p, ReadArg(b, p, low).value.next);
      if low == 26 {
        assert s[1..5] == b[p + 1..p + 5];
      }
    }
  }

  lemma LeafAgreesWithC(widen: Widen, half: Half, b: bytes, p: nat, depth: nat)
    requires p < |b| && b[p] / 32 < 4 && depth <= MAX_DEPTH
    ensures Agrees(b, p, Dec(widen, b, p, depth), CDec(widen, half, b[p..], depth))
  {
    hide ReadArg, Walk, Tokens, DecItems, DecEntries, CItems, CEntries, DecSimple, CSimple;
    var s, m, low := b[p..], b[p] / 32, b[p] % 32;
    assert s[0] == b[p];
    ReadArgSlice(b, p, low);
    if ReadArg(s, 0, low).Some? {
      var a := ReadArg(s, 0, low).value;
      if m < 2 {
        OneToken(b, p, p + a.next);
      } else if a.arg <= |s| - a.next {
        assert s[a.next..a.next + a.arg] == b[p + a.next..p + a.next + a.arg];
        OneToken(b, p, p + a.next + a.arg);
      }
    }
  }

  ghost predicate ItemsAgree(b: bytes, p: nat, g: Option<Items>, c: Option<Items>) {
    if c.None? then g.None?
    else
      && Covers(b, p, c.value.next)
      && g == if NoHalf(b, p, p + c.value.next) then Some(Items(c.value.vs, p + c.value.next)) else None
  }

  ghost predicate EntriesAgree(b: bytes, p: nat, g: Option<Entries>, c: Option<Entries>) {
    if c.None? then g.None?
    else
      && Covers(b, p, c.value.next)
      && g == if NoHalf(b, p, p + c.value.next) then Some(Entries(c.value.es, p + c.value.next)) else None
  }

  lemma ArrayAgreesWithC(widen: Widen, half: Half, b: bytes, p: nat, depth: nat)
    requires p < |b| <= SLICE_LIMIT && b[p] / 32 == 4 && depth <= MAX_DEPTH
    requires ReadArg(b[p..], 0, b[p] % 32).Some?
    requires var a := ReadArg(b[p..], 0, b[p] % 32).value;
             && p + a.next <= |b| && ReadArg(b, p, b[p] % 32) == Some(Arg(a.arg, p + a.next))
             && Walk(b, p, p + a.next) && NoHalf(b, p, p + a.next)
             && ItemsAgree(b, p + a.next, DecItems(widen, b, p + a.next, a.arg, depth + 1),
                           CItems(widen, half, b[p + a.next..], a.arg, depth + 1))
    ensures Agrees(b, p, Dec(widen, b, p, depth), CDec(widen, half, b[p..], depth))
  {
    hide ReadArg, Walk, NoHalf, DecItems, CItems;
    var s := b[p..];
    assert s[0] == b[p];
    var a := ReadArg(s, 0, b[p] % 32).value;
    assert s[a.next..] == b[p + a.next..];
    var c := CItems(widen, half, b[p + a.next..], a.arg, depth + 1);
    if c.Some? {
      NoHalfSplit(b, p, p + a.next, p + a.next + c.value.next);
    }
  }

  lemma MapAgreesWithC(widen: Widen, half: Half, b: bytes, p: nat, depth: nat)
    requires p < |b| <= SLICE_LIMIT && b[p] / 32 == 5 && depth <= MAX_DEPTH
    requires ReadArg(b[p..], 0, b[p] % 32).Some?
    requires var a := ReadArg(b[p..], 0, b[p] % 32).value;
             && p + a.next <= |b| && ReadArg(b, p, b[p] % 32) == Some(Arg(a.arg, p + a.next))
             && Walk(b, p, p + a.next) && NoHalf(b, p, p + a.next)
             && EntriesAgree(b, p + a.next, DecEntries(widen, b, p + a.next, a.arg, depth + 1),
                             CEntries(widen, half, b[p + a.next..], a.arg, depth + 1))
    ensures Agrees(b, p, Dec(widen, b, p, depth), CDec(widen, half, b[p..], depth))
  {
    hide ReadArg, Walk, NoHalf, DecEntries, CEntries;
    var s := b[p..];
    assert s[0] == b[p];
    var a := ReadArg(s, 0, b[p] % 32).value;
    assert s[a.next..] == b[p + a.next..];
    var c := CEntries(widen, half, b[p + a.next..], a.arg, depth + 1);
    if c.Some? {
      NoHalfSplit(b, p, p + a.next, p + a.next + c.value.next);
    }
  }

  lemma TagAgreesWithC(widen: Widen, half: Half, b: bytes, p: nat, depth: nat)
    requires p < |b| <= SLICE_LIMIT && b[p] / 32 == 6 && depth <= MAX_DEPTH
    requires ReadArg(b[p..], 0, b[p] % 32).Some?
    requires var a := ReadArg(b[p..], 0, b[p] % 32).value;
             && p + a.next <= |b| && ReadArg(b, p, b[p] % 32) == Some(Arg(a.arg, p + a.next))
             && Walk(b, p, p + a.next) && NoHalf(b, p, p + a.next)
             && Agrees(b, p + a.next, Dec(widen, b, p + a.next, depth + 1),
                       CDec(widen, half, b[p + a.next..], depth + 1))
    ensures Agrees(b, p, Dec(widen, b, p, depth), CDec(widen, half, b[p..], depth))
  {
    hide Dec, CDec, ReadArg, Walk, NoHalf;
    var a := ReadArg(b[p..], 0, b[p] % 32).value;
    GoTag(widen, b, p, depth);
    CTag(widen, half, b, p, depth);
    var c := CDec(widen, half, b[p + a.next..], depth + 1);
    if c.Some? {
      NoHalfSplit(b, p, p + a.next, p + a.next + c.value.next);
    }
  }

  lemma GoTag(widen: Widen, b: bytes, p: nat, depth: nat)
    requires p < |b| && b[p] / 32 == 6 && depth <= MAX_DEPTH && ReadArg(b, p, b[p] % 32).Some?
    ensures var a := ReadArg(b, p, b[p] % 32).value;
            var x := Dec(widen, b, a.next, depth + 1);
            Dec(widen, b, p, depth) == if x.None? then None else Some(Item(Tag(a.arg, x.value.v), x.value.next))
  {
    hide ReadArg, DecItems, DecEntries;
  }

  lemma CTag(widen: Widen, half: Half, b: bytes, p: nat, depth: nat)
    requires p < |b| && b[p] / 32 == 6 && depth <= MAX_DEPTH && ReadArg(b[p..], 0, b[p] % 32).Some?
    ensures var a := ReadArg(b[p..], 0, b[p] % 32).value;
            && p + a.next <= |b|
            && var x := CDec(widen, half, b[p + a.next..], depth + 1);
               CDec(widen, half, b[p..], depth) ==
               if x.None? then None else Some(Item(Tag(a.arg, x.value.v), a.next + x.value.next))
  {
    hide ReadArg, CItems, CEntries;
    var s := b[p..];
    assert s[0] == b[p];
    var a := ReadArg(s, 0, b[p] % 32).value;
    assert s[a.next..] == b[p + a.next..];
  }

  lemma NothingCovers(b: bytes, p: nat)
    requires p <= |b|
    ensures Walk(b, p, p) && NoHalf(b, p, p)
  {
    assert Tokens(b, p, p) == [];
  }

  lemma {:induction false} ItemsAgreeWithC(widen: Widen, half: Half, b: bytes, p: nat, n: nat, depth: nat)
    requires p <= |b| <= SLICE_LIMIT
    ensures ItemsAgree(b, p, DecItems(widen, b, p, n, depth), CItems(widen, half, b[p..], n, depth))
    decreases Room(depth), n + 2
  {
    hide Dec, CDec, Walk, NoHalf, Agrees, ItemsAgree;
    if n == 0 {
      NoItemsAgree(widen, half, b, p, depth);
    } else {
      GoAgreesWithC(widen, half, b, p, depth);
      var c := CDec(widen, half, b[p..], depth);
      if c.None? {
        FirstItemFails(widen, half, b, p, n, depth);
      } else {
        ItemsAgreeWithC(widen, half, b, p + c.value.next, n - 1, depth);
        ItemStep(widen, half, b, p, n, depth, c.value);
      }
    }
  }

  lemma NoItemsAgree(widen: Widen, half: Half, b: bytes, p: nat, depth: nat)
    requires p <= |b|
    ensures ItemsAgree(b, p, DecItems(widen, b, p, 0, depth), CItems(widen, half, b[p..], 0, depth))
  {
    NothingCovers(b, p);
  }

  lemma FirstItemFails(widen: Widen, half: Half, b: bytes, p: nat, n: nat, depth: nat)
    requires n > 0 && p <= |b| && CDec(widen, half, b[p..], depth) == None
    requires Agrees(b, p, Dec(widen, b, p, depth), None)
    ensures ItemsAgree(b, p, DecItems(widen, b, p, n, depth), CItems(widen, half, b[p..], n, depth))
  {
    hide Dec, CDec, Walk, NoHalf;
  }

  lemma ItemStep(widen: Widen, half: Half, b: bytes, p: nat, n: nat, depth: nat, x: Item)
    requires n > 0 && p + x.next <= |b| && CDec(widen, half, b[p..], depth) == Some(x)
    requires Agrees(b, p, Dec(widen, b, p, depth), Some(x))
    requires ItemsAgree(b, p + x.next, DecItems(widen, b, p + x.next, n - 1, depth),
                        CItems(widen, half, b[p + x.next..], n - 1, depth))
    ensures ItemsAgree(b, p, DecItems(widen, b, p, n, depth), CItems(widen, half, b[p..], n, depth))
  {
    hide Dec, CDec, Walk, NoHalf;
    var q := p + x.next;
    assert b[p..][x.next..] == b[q..];
    var cs := CItems(widen, half, b[q..], n - 1, depth);
    if cs.Some? {
      NoHalfSplit(b, p, q, q + cs.value.next);
    }
  }

  lemma {:induction false} EntriesAgreeWithC(widen: Widen, half: Half, b: bytes, p: nat, n: nat, depth: nat)
    requires p <= |b| <= SLICE_LIMIT
    ensures EntriesAgree(b, p, DecEntries(widen, b, p, n, depth), CEntries(widen, half, b[p..], n, depth))
    decreases Room(depth), n + 2
  {
    hide Dec, CDec, Walk, NoHalf;
    if n == 0 {
      NothingCovers(b, p);
    } else {
      GoAgreesWithC(widen, half, b, p, depth);
      var k := CDec(widen, half, b[p..], depth);
      if k.Some? {
        var q := p + k.value.next;
        assert b[p..][k.value.next..] == b[q..];
        GoAgreesWithC(widen, half, b, q, depth);
        var v := CDec(widen, half, b[q..], depth);
        if v.Some? {
          var r := q + v.value.next;
          assert b[p..][k.value.next + v.value.next..] == b[r..];
          NoHalfSplit(b, p, q, r);
          EntriesAgreeWithC(widen, half, b, r, n - 1, depth);
          EntryStep(widen, half, b, p, n, depth, k.value, v.value);
        }
      }
    }
  }

  lemma EntryStep(widen: Widen, half: Half, b: bytes, p: nat, n: nat, depth: nat, k: Item, v: Item)
    requires n > 0 && p + k.next + v.next <= |b|
    requires CDec(widen, half, b[p..], depth) == Some(k)
    requires CDec(widen, half, b[p + k.next..], depth) == Some(v)
    requires Walk(b, p, p + k.next + v.next)
    requires NoHalf(b, p, p + k.next + v.next) <==>
             NoHalf(b, p, p + k.next) && NoHalf(b, p + k.next, p + k.next + v.next)
    requires Agrees(b, p, Dec(widen, b, p, depth), Some(k))
    requires Agrees(b, p + k.next, Dec(widen, b, p + k.next, depth), Some(v))
    requires var r := p + k.next + v.next;
             EntriesAgree(b, r, DecEntries(widen, b, r, n - 1, depth), CEntries(widen, half, b[r..], n - 1, depth))
    ensures EntriesAgree(b, p, DecEntries(widen, b, p, n, depth), CEntries(widen, half, b[p..], n, depth))
  {
    hide Dec, CDec, Walk, NoHalf, CEntries, DecEntries, Agrees;
    var r := p + k.next + v.next;
    CEntriesStep(widen, half, b, p, n, depth, k, v);
    GoEntriesStep(widen, b, p, n, depth, k, v);
    var es := CEntries(widen, half, b[r..], n - 1, depth);
    if es.Some? {
      NoHalfSplit(b, p, r, r + es.value.next);
    }
  }

  lemma CEntriesStep(widen: Widen, half: Half, b: bytes, p: nat, n: nat, depth: nat, k: Item, v: Item)
    requires n > 0 && p + k.next + v.next <= |b|
    requires CDec(widen, half, b[p..], depth) == Some(k)
    requires CDec(widen, half, b[p + k.next..], depth) == Some(v)
    ensures var es := CEntries(widen, half, b[p + k.next + v.next..], n - 1, depth);
            CEntries(widen, half, b[p..], n, depth) ==
            if es.None? then None
            else Some(Entries([Entry(k.v, v.v)] + es.value.es, k.next + v.next + es.value.next))
  {
    hide CDec;
    assert b[p..][k.next..] == b[p + k.next..] && b[p..][k.next + v.next..] == b[p + k.next + v.next..];
  }

  lemma GoEntriesStep(widen: Widen, b: bytes, p: nat, n: nat, depth: nat, k: Item, v: Item)
    requires n > 0 && p + k.next + v.next <= |b|
    requires Agrees(b, p, Dec(widen, b, p, depth), Some(k))
    requires Agrees(b, p + k.next, Dec(widen, b, p + k.next, depth), Some(v))
    ensures var r := p + k.next + v.next;
            var es := DecEntries(widen, b, r, n - 1, depth);
            DecEntries(widen, b, p, n, depth) ==
            if es.None? || !NoHalf(b, p, p + k.next) || !NoHalf(b, p + k.next, r) then None
            else Some(Entries([Entry(k.v, v.v)] + es.value.es, es.value.next))
  {
    hide Dec, NoHalf, Walk;
  }

  /**
    The two decoders on a whole payload: whatever Go accepts C accepts with the
    same tree, and what C accepts Go accepts exactly when no half-precision float
    occurs in it.
   */
  lemma SameLanguage(widen: Widen, half: Half, b: bytes)
    requires |b| <= SLICE_LIMIT
    ensures Decode(widen, b).Some? ==> CDecodeAll(widen, half, b) == Decode(widen, b)
    ensures CDecodeAll(widen, half, b).Some? ==>
              Decode(widen, b) == if NoHalf(b, 0, |b|) then CDecodeAll(widen, half, b) else None
  {
    hide Dec, CDec, NoHalf, Walk;
    GoAgreesWithC(widen, half, b, 0, 0);
    assert b[0..] == b;
  }
}
