/**
  The C codec's code: the recursive decoder with arena-backed arrays that grow
  while they are filled, and the encoder that writes a tree into a buffer.

  Each arena allocation of the source is made here too, so what a decode costs
  in arena memory is part of its contract.
 */
module CCodec {
  import opened Bytes
  import opened Cbor
  import opened CborDecode
  import opened CDecode
  import opened CStorage
  import Utf8

  const PREALLOC_LIMIT: nat := 1024

  /** Arena bytes per input byte that a successful decode may take. */
  const PER_BYTE: nat := 160

  /** Arena bytes that a failing decode may strand at each nesting level. */
  const PER_LEVEL: nat := 33792

  /**
    The slots an array or map has asked for in all (`total`), when it can now hold
    `cap` of `n` elements and has read `i`: storage starts at no more than 1024
    slots and doubles only when it is full.
   */
  predicate Grown(total: nat, cap: nat, n: nat, i: nat) {
    && i <= cap <= n
    && (n <= PREALLOC_LIMIT ==> cap == n && total == n)
    && (n > PREALLOC_LIMIT ==> cap >= PREALLOC_LIMIT && cap <= total < 3 * n)
    && (PREALLOC_LIMIT <= cap < n ==> total == 2 * cap - PREALLOC_LIMIT)
    && (total <= PREALLOC_LIMIT || total <= 4 * i)
  }

  function FirstCap(n: nat): nat { if n < PREALLOC_LIMIT then n else PREALLOC_LIMIT }

  function NextCap(cap: nat, n: nat): nat { if cap * 2 < n then cap * 2 else n }

  lemma GrownFirst(n: nat)
    ensures Grown(FirstCap(n), FirstCap(n), n, 0) && Accounted(FirstCap(n), FirstCap(n), n)
  {
  }

  lemma GrownNext(total: nat, cap: nat, n: nat)
    requires Grown(total, cap, n, cap) && cap < n
    ensures cap < NextCap(cap, n) && Grown(total + NextCap(cap, n), NextCap(cap, n), n, cap)
  {
  }

  /** What the slots asked for so far cost, at 32 bytes each. */
  lemma GrownCost(total: nat, cap: nat, n: nat, i: nat)
    requires Grown(total, cap, n, i)
    ensures 32 * total <= 32 * PREALLOC_LIMIT + 128 * i && i <= cap
    ensures i == n ==> cap == n && total <= 3 * n
  {
  }

  /** Reading one more element into a slot that exists. */
  lemma GrownStep(total: nat, cap: nat, n: nat, i: nat)
    requires Grown(total, cap, n, i) && i < cap
    ensures Grown(total, cap, n, i + 1)
  {
  }

  /** Slots that growth leaves behind when the storage goes from `cap` to `n` slots. */
  function Abandoned(cap: nat, n: nat): nat
    requires 0 < cap <= n
    decreases n - cap
  {
    if cap == n then 0 else cap + Abandoned(NextCap(cap, n), n)
  }

  /** `total` accounts for every slot that growth has left behind so far. */
  ghost predicate Accounted(total: nat, cap: nat, n: nat) {
    n > 0 ==> 0 < cap <= n && total - cap + Abandoned(cap, n) == Abandoned(FirstCap(n), n)
  }

  lemma {:induction false} AbandonedBound(total: nat, cap: nat, n: nat)
    requires 0 < cap <= n && Grown(total, cap, n, cap)
    ensures total - cap + Abandoned(cap, n) < 2 * n
    decreases n - cap
  {
    if cap < n {
      var cap' := NextCap(cap, n);
      GrownNext(total, cap, n);
      assert Grown(total + cap', cap', n, cap');
      AbandonedBound(total + cap', cap', n);
    }
  }

  /** Doubling wastes fewer than twice the final number of slots, for every declared length. */
  lemma GrowthWaste(n: nat)
    requires n > 0
    ensures Abandoned(FirstCap(n), n) < 2 * n
  {
    GrownFirst(n);
    assert Grown(FirstCap(n), FirstCap(n), n, FirstCap(n));
    AbandonedBound(FirstCap(n), FirstCap(n), n);
  }

  /** The least of `cap`, `2 * cap`, `4 * cap`, ... that is at least `n`. */
  function RoundedUp(cap: nat, n: nat): (r: nat)
    requires cap > 0
    ensures cap <= r && n <= r
    decreases n - cap
  {
    if cap >= n then cap else RoundedUp(2 * cap, n)
  }

  lemma {:induction false} AbandonedIs(cap: nat, n: nat)
    requires 0 < cap <= n
    ensures Abandoned(cap, n) == RoundedUp(cap, n) - cap
    decreases n - cap
  {
    if 2 * cap < n {
      AbandonedIs(2 * cap, n);
    }
  }

  /**
    The comment beside the code puts the waste below the final size. That holds exactly
    for the lengths that fall short of the next doubling of 1024 by less than 1024.
   */
  lemma GrowthWasteBelowFinalSize(n: nat)
    requires n > 0
    ensures Abandoned(FirstCap(n), n) == RoundedUp(PREALLOC_LIMIT, n) - PREALLOC_LIMIT
    ensures Abandoned(FirstCap(n), n) < n <==> RoundedUp(PREALLOC_LIMIT, n) - n < PREALLOC_LIMIT
  {
    AbandonedIs(FirstCap(n), n);
  }

  /** It fails at 2049 elements, which abandon 3072 slots. */
  lemma GrowthWasteExceedsFinalSize()
    ensures Abandoned(FirstCap(2049), 2049) == 3072 > 2049
  {
    assert Abandoned(2049, 2049) == 0;
    assert Abandoned(2048, 2049) == 2048;
    assert Abandoned(1024, 2049) == 3072;
  }

  lemma FourBytes(x: byte, y: byte, z: byte, w: byte)
    ensures BigEndian([x, y, z, w]) == ((x * 256 + y) * 256 + z) * 256 + w
  {
    TwoBytes(x, y);
    assert [x, y, z, w][..3] == [x, y, z] && [x, y, z][..2] == [x, y];
    assert BigEndian([x, y, z]) == BigEndian([x, y]) * 256 + z;
  }

  /** `csilc_read_arg`: the argument and the length of the head at the front of `b`. */
  method ReadHeadArg(b: bytes, low: nat) returns (r: Option<Arg>)
    requires |b| > 0
    ensures r == ReadArg(b, 0, low)
  {
    if low < 24 {
      return Some(Arg(low, 1));
    }
    if low == 24 {
      if |b| < 2 {
        return None;
      }
      assert b[1..2] == [b[1]] && BigEndian([b[1]][..0]) == 0;
      return Some(Arg(b[1], 2));
    }
    if low == 25 {
      if |b| < 3 {
        return None;
      }
      TwoBytes(b[1], b[2]);
      assert b[1..3] == [b[1], b[2]];
      var hi: int, lo: int := b[1], b[2];
      return Some(Arg(hi * 256 + lo, 3));
    }
    if low == 26 {
      if |b| < 5 {
        return None;
      }
      FourBytes(b[1], b[2], b[3], b[4]);
      assert b[1..5] == [b[1], b[2], b[3], b[4]];
      var x: int, y: int, z: int, w: int := b[1], b[2], b[3], b[4];
      return Some(Arg(x * 0x100_0000 + y * 0x1_0000 + z * 0x100 + w, 5));
    }
    if low == 27 {
      if |b| < 9 {
        return None;
      }
      BigEndianBound(b[1..9]);
      Pow256Values();
      var v := Accumulate(b[1..9]);
      return Some(Arg(v, 9));
    }
    return None;
  }

  /** What one call may take from the arena. */
  ghost predicate Charged(before: nat, after: nat, r: Option<Item>, len: nat, depth: nat) {
    if r.Some? then after + 128 <= before + PER_BYTE * r.value.next
    else after <= before + PER_BYTE * len + PER_LEVEL * Room(depth)
  }

  /**
    `csilc_decode_value`. The result is `CDec`, the arena's regions stay disjoint
    and in bounds, and memory is paid for: a success takes at most 160 bytes for
    each byte it consumed, a failure at most that for the input plus 33 KiB for
    each level it could open.
   */
  method DecodeValue(arena: Arena, widen: Widen, half: Half, b: bytes, depth: nat) returns (r: Option<Item>)
    requires arena.Valid() && |b| <= SLICE_LIMIT
    modifies arena
    ensures arena.Valid()
    ensures r == CDec(widen, half, b, depth)
    ensures Charged(old(arena.Taken()), arena.Taken(), r, |b|, depth)
    decreases Room(depth), 1
  {
    hide Utf8.WellFormed, ReadArg, CItems, CEntries, CSimple, SumUsed, Abandoned, Arena.Valid, Arena.Taken;
    if depth > MAX_DEPTH {
      return None;
    }
    if |b| == 0 {
      return None;
    }
    var m, low := b[0] / 32, b[0] % 32;
    var head := ReadHeadArg(b, low);
    if head == None {
      return None;
    }
    var arg, h := head.value.arg, head.value.next;
    if m == 0 {
      return Some(Item(Uint(arg), h));
    } else if m == 1 {
      if arg > MAX_INT64 {
        return None;
      }
      return Some(Item(Int(-1 - arg), h));
    } else if m == 2 || m == 3 {
      if arg > |b| - h {
        return None;
      }
      var v := DecodeString(arena, b[h..h + arg], m == 3);
      return if v == None then None else Some(Item(v.value, h + arg));
    } else if m < 7 {
      r := DecodeNested(arena, widen, half, b, arg, h, depth);
    } else {
      r := DecodeSimple(widen, half, b, arg, h);
    }
  }

  /** Arrays, maps and tags, after their head was read. */
  method DecodeNested(arena: Arena, widen: Widen, half: Half, b: bytes, arg: u64, h: nat, depth: nat)
    returns (r: Option<Item>)
    requires arena.Valid() && 0 < |b| <= SLICE_LIMIT && depth <= MAX_DEPTH
    requires 4 <= b[0] / 32 < 7 && ReadArg(b, 0, b[0] % 32) == Some(Arg(arg, h))
    modifies arena
    ensures arena.Valid()
    ensures r == CDec(widen, half, b, depth)
    ensures Charged(old(arena.Taken()), arena.Taken(), r, |b|, depth)
    decreases Room(depth), 0
  {
    hide Utf8.WellFormed, ReadArg, CItems, CEntries, CSimple, SumUsed, Abandoned, Arena.Valid, Arena.Taken;
    var m := b[0] / 32;
    if m == 4 {
      if arg > |b| - h || arg > SIZE_MAX / SIZEOF_VALUE {
        return None;
      }
      var xs, total := DecodeArray(arena, widen, half, b[h..], arg, depth + 1);
      return if xs == None then None else Some(Item(Array(xs.value.vs), h + xs.value.next));
    } else if m == 5 {
      if arg > |b| - h || arg > SIZE_MAX / SIZEOF_PAIR {
        return None;
      }
      var es, total := DecodeMap(arena, widen, half, b[h..], arg, depth + 1);
      return if es == None then None else Some(Item(Map(es.value.es), h + es.value.next));
    } else {
      var content := arena.Alloc(SIZEOF_VALUE);
      var x := DecodeValue(arena, widen, half, b[h..], depth + 1);
      return if x == None then None else Some(Item(Tag(arg, x.value.v), h + x.value.next));
    }
  }

  /** A text or byte string: checked, then copied into the arena (text with a trailing NUL). */
  method DecodeString(arena: Arena, s: bytes, asText: bool) returns (r: Option<Value>)
    requires arena.Valid() && |s| <= SLICE_LIMIT
    modifies arena
    ensures arena.Valid() && arena.Taken() <= old(arena.Taken()) + |s| + 16
    ensures r == if asText && !Utf8.WellFormed(s) then None else Some(if asText then Text(s) else Bytes(s))
  {
    hide SumUsed;
    if asText {
      var ok := Utf8.Validate(s);
      if !ok {
        return None;
      }
    }
    var copy := arena.Alloc(if asText then |s| + 1 else if |s| == 0 then 1 else |s|);
    r := Some(if asText then Text(s) else Bytes(s));
  }

  method DecodeSimple(widen: Widen, half: Half, b: bytes, arg: u64, h: nat) returns (r: Option<Item>)
    requires |b| > 0 && ReadArg(b, 0, b[0] % 32) == Some(Arg(arg, h))
    ensures r == CSimple(widen, half, b)
  {
    var low := b[0] % 32;
    if low == 20 || low == 21 {
      return Some(Item(Bool(low == 21), h));
    } else if low == 22 || low == 23 {
      return Some(Item(Null, h));
    } else if low == 25 {
      BigEndianBound(b[1..3]);
      Pow256Values();
      return Some(Item(Float(half(arg)), h));
    } else if low == 26 {
      BigEndianBound(b[1..5]);
      Pow256Values();
      return Some(Item(Float(widen(arg)), h));
    } else if low == 27 {
      return Some(Item(Float(arg), h));
    } else {
      return None;
    }
  }

  /** The array loop has read `vs` from the first `off` bytes and still has `n - |vs|` items to go. */
  ghost predicate ItemsSoFar(widen: Widen, half: Half, b: bytes, n: nat, depth: nat, vs: seq<Value>, off: nat) {
    && |vs| <= n && off <= |b|
    && var rest := CItems(widen, half, b[off..], n - |vs|, depth);
       CItems(widen, half, b, n, depth) ==
       if rest.Some? then Some(Items(vs + rest.value.vs, off + rest.value.next)) else None
  }

  lemma ItemsStart(widen: Widen, half: Half, b: bytes, n: nat, depth: nat)
    ensures ItemsSoFar(widen, half, b, n, depth, [], 0)
  {
    hide CItems;
    assert b[0..] == b;
    var all := CItems(widen, half, b, n, depth);
    assert all.Some? ==> [] + all.value.vs == all.value.vs;
  }

  /** One more item read, or the whole array lost with it. */
  lemma ItemsNext(widen: Widen, half: Half, b: bytes, n: nat, depth: nat, vs: seq<Value>, off: nat)
    requires ItemsSoFar(widen, half, b, n, depth, vs, off) && |vs| < n
    ensures var x := CDec(widen, half, b[off..], depth);
            if x.Some? then ItemsSoFar(widen, half, b, n, depth, vs + [x.value.v], off + x.value.next)
            else CItems(widen, half, b, n, depth) == None
  {
    hide CDec;
    var x := CDec(widen, half, b[off..], depth);
    if x.Some? {
      var next := off + x.value.next;
      assert b[off..][x.value.next..] == b[next..];
      var rest := CItems(widen, half, b[next..], n - |vs| - 1, depth);
      assert rest.Some? ==> vs + ([x.value.v] + rest.value.vs) == vs + [x.value.v] + rest.value.vs;
    }
  }

  lemma ItemsEnd(widen: Widen, half: Half, b: bytes, n: nat, depth: nat, vs: seq<Value>, off: nat)
    requires ItemsSoFar(widen, half, b, n, depth, vs, off) && |vs| == n
    ensures CItems(widen, half, b, n, depth) == Some(Items(vs, off))
  {
    assert vs + [] == vs;
  }

  /**
    Makes sure that slot `i` exists: when the storage is full, takes a larger
    allocation from the arena and keeps the elements already read.
   */
  method MakeRoom<T(0)>(arena: Arena, a: array<T>, n: nat, i: nat, size: nat, ghost total: nat)
    returns (c: array<T>, ghost total': nat)
    requires arena.Valid() && i < n <= SLICE_LIMIT && (size == SIZEOF_VALUE || size == SIZEOF_PAIR)
    requires Grown(total, a.Length, n, i) && Accounted(total, a.Length, n)
    modifies arena
    ensures arena.Valid() && arena.Taken() <= old(arena.Taken()) + 32 * (total' - total)
    ensures i < c.Length && c[..i] == a[..i] && (c == a || fresh(c))
    ensures Grown(total', c.Length, n, i)
    ensures Accounted(total', c.Length, n)
  {
    hide SumUsed;
    c, total' := a, total;
    if i == a.Length {
      var grown := NextCap(a.Length, n);
      GrownNext(total, a.Length, n);
      TakeSlots(arena, grown, size);
      c := new T[grown];
      forall k | 0 <= k < a.Length {
        c[k] := a[k];
      }
      total' := total + grown;
      assert c[..i] == a[..i];
    }
  }

  /** An allocation of `n` elements of `size` bytes, which rounding makes at most 32 bytes each. */
  method TakeSlots(arena: Arena, n: nat, size: nat)
    requires arena.Valid() && n <= SLICE_LIMIT && (size == SIZEOF_VALUE || size == SIZEOF_PAIR)
    modifies arena
    ensures arena.Valid() && arena.Taken() <= old(arena.Taken()) + 32 * n
  {
    hide SumUsed;
    if n > 0 {
      assert n * size <= 24 * n;
      var p := arena.Alloc(n * size);
    }
  }

  /** The array case: `items` is reallocated at double size whenever it is full. */
  method DecodeArray(arena: Arena, widen: Widen, half: Half, b: bytes, n: nat, depth: nat)
    returns (r: Option<Items>, ghost total: nat)
    requires arena.Valid() && n <= |b| <= SLICE_LIMIT
    modifies arena
    ensures arena.Valid()
    ensures r == CItems(widen, half, b, n, depth)
    ensures r.Some? ==> arena.Taken() <= old(arena.Taken()) + PER_BYTE * r.value.next
    ensures r.None? ==> arena.Taken() <= old(arena.Taken()) + PER_BYTE * |b| + PER_LEVEL * (Room(depth) + 1)
    ensures r.Some? && n > 0 ==> total == n + Abandoned(FirstCap(n), n)
    decreases Room(depth), n + 3
  {
    hide CDec, CItems, ItemsSoFar, Abandoned, SumUsed, Grown, Accounted, Arena.Valid, Arena.Taken;
    var items := new Value[FirstCap(n)];
    TakeSlots(arena, FirstCap(n), SIZEOF_VALUE);
    total := FirstCap(n);
    GrownFirst(n);
    var off: nat, i: nat := 0, 0;
    ghost var vs: seq<Value> := [];
    ghost var spent: nat := 0;
    ItemsStart(widen, half, b, n, depth);
    while i < n
      invariant i <= n && i <= items.Length && off <= |b| && arena.Valid()
      invariant fresh(items) && Grown(total, items.Length, n, i) && items[..i] == vs
      invariant Accounted(total, items.Length, n)
      invariant arena.Taken() <= old(arena.Taken()) + 32 * total + spent
      invariant spent + 128 * i <= PER_BYTE * off
      invariant ItemsSoFar(widen, half, b, n, depth, vs, off)
    {
      items, total := MakeRoom(arena, items, n, i, SIZEOF_VALUE, total);
      GrownCost(total, items.Length, n, i);
      GrownStep(total, items.Length, n, i);
      var x := DecodeValue(arena, widen, half, b[off..], depth);
      ItemsNext(widen, half, b, n, depth, vs, off);
      if x == None {
        return None, total;
      }
      items[i] := x.value.v;
      vs := vs + [x.value.v];
      assert items[..i + 1] == vs;
      off := off + x.value.next;
      spent := spent + (PER_BYTE * x.value.next - 128);
      i := i + 1;
    }
    ItemsEnd(widen, half, b, n, depth, vs, off);
    GrownCost(total, items.Length, n, n);
    AllAccounted(total, n);
    assert items[..i] == items[..];
    r := Some(Items(items[..], off));
  }

  lemma AllAccounted(total: nat, n: nat)
    requires n > 0 ==> Accounted(total, n, n)
    ensures n > 0 ==> total == n + Abandoned(FirstCap(n), n)
  {
  }

  /** The map loop has read `es` from the first `off` bytes. */
  ghost predicate EntriesSoFar(widen: Widen, half: Half, b: bytes, n: nat, depth: nat, es: seq<Entry>, off: nat) {
    && |es| <= n && off <= |b|
    && var rest := CEntries(widen, half, b[off..], n - |es|, depth);
       CEntries(widen, half, b, n, depth) ==
       if rest.Some? then Some(Entries(es + rest.value.es, off + rest.value.next)) else None
  }

  lemma EntriesStart(widen: Widen, half: Half, b: bytes, n: nat, depth: nat)
    ensures EntriesSoFar(widen, half, b, n, depth, [], 0)
  {
    hide CEntries;
    assert b[0..] == b;
    var all := CEntries(widen, half, b, n, depth);
    assert all.Some? ==> [] + all.value.es == all.value.es;
  }

  lemma EntriesNext(widen: Widen, half: Half, b: bytes, n: nat, depth: nat, es: seq<Entry>, off: nat)
    requires EntriesSoFar(widen, half, b, n, depth, es, off) && |es| < n
    ensures var k := CDec(widen, half, b[off..], depth);
            if k.None? then CEntries(widen, half, b, n, depth) == None
            else
              var v := CDec(widen, half, b[off + k.value.next..], depth);
              if v.None? then CEntries(widen, half, b, n, depth) == None
              else EntriesSoFar(widen, half, b, n, depth, es + [Entry(k.value.v, v.value.v)],
                                off + k.value.next + v.value.next)
  {
    hide CDec, CEntries, EntriesSoFar;
    EntriesBounds(widen, half, b, n, depth, es, off);
    EntryFails(widen, half, b, off, n - |es|, depth);
    var k := CDec(widen, half, b[off..], depth);
    if k.Some? {
      var v := CDec(widen, half, b[off + k.value.next..], depth);
      if v.Some? {
        CEntriesStep(widen, half, b, off, n - |es|, depth, k.value, v.value);
        EntriesAppend(widen, half, b, n, depth, es, off, Entry(k.value.v, v.value.v), k.value.next + v.value.next);
      }
    }
  }

  lemma EntriesAppend(
    widen: Widen, half: Half, b: bytes, n: nat, depth: nat, es: seq<Entry>, off: nat, e: Entry, len: nat)
    requires EntriesSoFar(widen, half, b, n, depth, es, off) && |es| < n && off + len <= |b|
    requires var rest := CEntries(widen, half, b[off + len..], n - |es| - 1, depth);
             CEntries(widen, half, b[off..], n - |es|, depth) ==
             if rest.None? then None else Some(Entries([e] + rest.value.es, len + rest.value.next))
    ensures EntriesSoFar(widen, half, b, n, depth, es + [e], off + len)
  {
    hide CEntries;
    var rest := CEntries(widen, half, b[off + len..], n - |es| - 1, depth);
    assert rest.Some? ==> es + ([e] + rest.value.es) == es + [e] + rest.value.es;
  }

  lemma EntriesBounds(widen: Widen, half: Half, b: bytes, n: nat, depth: nat, es: seq<Entry>, off: nat)
    requires EntriesSoFar(widen, half, b, n, depth, es, off)
    ensures |es| <= n && off <= |b|
    ensures CEntries(widen, half, b[off..], n - |es|, depth) == None ==> CEntries(widen, half, b, n, depth) == None
  {
    hide CEntries;
  }

  lemma EntryFails(widen: Widen, half: Half, b: bytes, off: nat, n: nat, depth: nat)
    requires n > 0 && off <= |b|
    ensures var k := CDec(widen, half, b[off..], depth);
            k.None? || CDec(widen, half, b[off + k.value.next..], depth).None? ==>
              CEntries(widen, half, b[off..], n, depth) == None
  {
    hide CDec;
    var k := CDec(widen, half, b[off..], depth);
    if k.Some? {
      assert b[off..][k.value.next..] == b[off + k.value.next..];
    }
  }

  lemma EntriesEnd(widen: Widen, half: Half, b: bytes, n: nat, depth: nat, es: seq<Entry>, off: nat)
    requires EntriesSoFar(widen, half, b, n, depth, es, off) && |es| == n
    ensures CEntries(widen, half, b, n, depth) == Some(Entries(es, off))
  {
    assert es + [] == es;
  }

  /** The key and the value of one entry, each in its own arena slot. */
  method DecodePair(arena: Arena, widen: Widen, half: Half, b: bytes, off: nat, depth: nat)
    returns (r: Option<Entry>, next: nat)
    requires arena.Valid() && off <= |b| <= SLICE_LIMIT
    modifies arena
    ensures arena.Valid()
    ensures var k := CDec(widen, half, b[off..], depth);
            if k.None? then r == None
            else
              var v := CDec(widen, half, b[off + k.value.next..], depth);
              if v.None? then r == None
              else r == Some(Entry(k.value.v, v.value.v)) && next == off + k.value.next + v.value.next
    ensures r.Some? ==> off < next <= |b| && arena.Taken() + 192 <= old(arena.Taken()) + PER_BYTE * (next - off)
    ensures r.None? ==> arena.Taken() <= old(arena.Taken()) + 64 + PER_BYTE * (|b| - off) + PER_LEVEL * Room(depth)
    decreases Room(depth), 2
  {
    hide CDec, SumUsed;
    var keySlot := arena.Alloc(SIZEOF_VALUE);
    var valSlot := arena.Alloc(SIZEOF_VALUE);
    var k := DecodeValue(arena, widen, half, b[off..], depth);
    if k == None {
      return None, off;
    }
    next := off + k.value.next;
    var v := DecodeValue(arena, widen, half, b[next..], depth);
    if v == None {
      return None, off;
    }
    next := next + v.value.next;
    r := Some(Entry(k.value.v, v.value.v));
  }

  method DecodeMap(arena: Arena, widen: Widen, half: Half, b: bytes, n: nat, depth: nat)
    returns (r: Option<Entries>, ghost total: nat)
    requires arena.Valid() && n <= |b| <= SLICE_LIMIT
    modifies arena
    ensures arena.Valid()
    ensures r == CEntries(widen, half, b, n, depth)
    ensures r.Some? ==> arena.Taken() <= old(arena.Taken()) + PER_BYTE * r.value.next
    ensures r.None? ==> arena.Taken() <= old(arena.Taken()) + PER_BYTE * |b| + PER_LEVEL * (Room(depth) + 1)
    ensures r.Some? && n > 0 ==> total == n + Abandoned(FirstCap(n), n)
    decreases Room(depth), n + 3
  {
    hide CDec, CEntries, EntriesSoFar, Abandoned, SumUsed, Grown, Accounted, Arena.Valid, Arena.Taken;
    var pairs := new Entry[FirstCap(n)];
    TakeSlots(arena, FirstCap(n), SIZEOF_PAIR);
    total := FirstCap(n);
    GrownFirst(n);
    var off: nat, i: nat := 0, 0;
    ghost var es: seq<Entry> := [];
    ghost var spent: nat := 0;
    EntriesStart(widen, half, b, n, depth);
    while i < n
      invariant i <= n && i <= pairs.Length && off <= |b| && arena.Valid()
      invariant fresh(pairs) && Grown(total, pairs.Length, n, i) && pairs[..i] == es
      invariant Accounted(total, pairs.Length, n)
      invariant arena.Taken() <= old(arena.Taken()) + 32 * total + spent
      invariant spent + 192 * i <= PER_BYTE * off
      invariant EntriesSoFar(widen, half, b, n, depth, es, off)
    {
      pairs, total := MakeRoom(arena, pairs, n, i, SIZEOF_PAIR, total);
      GrownCost(total, pairs.Length, n, i);
      GrownStep(total, pairs.Length, n, i);
      EntriesNext(widen, half, b, n, depth, es, off);
      var e, next := DecodePair(arena, widen, half, b, off, depth);
      if e == None {
        return None, total;
      }
      pairs[i] := e.value;
      es := es + [e.value];
      assert pairs[..i + 1] == es;
      spent := spent + (PER_BYTE * (next - off) - 192);
      off := next;
      i := i + 1;
    }
    EntriesEnd(widen, half, b, n, depth, es, off);
    GrownCost(total, pairs.Length, n, n);
    AllAccounted(total, n);
    assert pairs[..i] == pairs[..];
    r := Some(Entries(pairs[..], off));
  }

  /** `csilc_decode`: a fresh arena, one item, nothing after it; at most 160 arena bytes per input byte. */
  method DecodePayload(widen: Widen, half: Half, b: bytes) returns (r: Option<Value>, arena: Arena)
    requires |b| <= SLICE_LIMIT
    ensures r == CDecodeAll(widen, half, b)
    ensures fresh(arena) && arena.Valid()
    ensures r.Some? ==> arena.Taken() <= PER_BYTE * |b|
    ensures arena.Taken() <= PER_BYTE * |b| + PER_LEVEL * (MAX_DEPTH + 1) + 32
  {
    hide CDec, SumUsed;
    arena := new Arena();
    var root := arena.Alloc(SIZEOF_VALUE);
    var x := DecodeValue(arena, widen, half, b, 0);
    if x == None || x.value.next != |b| {
      return None, arena;
    }
    r := Some(x.value.v);
  }

  /** `csilc_head`: the shortest head, pushed or appended to the buffer. */
  method WriteHead(buf: Buffer, m: major, n: u64) returns (ok: bool)
    requires buf.Valid()
    modifies buf, buf.data
    ensures buf.Valid() && (buf.data == old(buf.data) || fresh(buf.data))
    ensures ok <==> old(buf.len) + |Head(m, n)| <= SIZE_MAX
    ensures ok ==> buf.Contents() == old(buf.Contents()) + Head(m, n)
  {
    hide ToBigEndian, Pow256, ByteAt;
    Digits(n, Width(n));
    var mt := m * 32;
    if n < 24 {
      ok := buf.Push(mt + n);
    } else if n < 0x100 {
      ok := buf.Append([mt + 24, ByteAt(n, 0)]);
      assert [mt + 24, ByteAt(n, 0)] == Head(m, n);
    } else if n < 0x1_0000 {
      ok := buf.Append([mt + 25, ByteAt(n, 1), ByteAt(n, 0)]);
      assert [mt + 25, ByteAt(n, 1), ByteAt(n, 0)] == Head(m, n);
    } else if n < 0x1_0000_0000 {
      ok := buf.Append([mt + 26, ByteAt(n, 3), ByteAt(n, 2), ByteAt(n, 1), ByteAt(n, 0)]);
      assert [mt + 26, ByteAt(n, 3), ByteAt(n, 2), ByteAt(n, 1), ByteAt(n, 0)] == Head(m, n);
    } else {
      var t := [mt + 27,
                ByteAt(n, 7), ByteAt(n, 6), ByteAt(n, 5), ByteAt(n, 4),
                ByteAt(n, 3), ByteAt(n, 2), ByteAt(n, 1), ByteAt(n, 0)];
      assert t == Head(m, n);
      ok := buf.Append(t);
    }
  }

  method WriteHeadAnd(buf: Buffer, m: major, n: u64, s: bytes) returns (ok: bool)
    requires buf.Valid()
    modifies buf, buf.data
    ensures buf.Valid() && (buf.data == old(buf.data) || fresh(buf.data))
    ensures ok <==> old(buf.len) + |Head(m, n) + s| <= SIZE_MAX
    ensures ok ==> buf.Contents() == old(buf.Contents()) + (Head(m, n) + s)
  {
    hide Head;
    ok := WriteHead(buf, m, n);
    if ok {
      ok := buf.Append(s);
    }
  }

  /** `csilc_w_value`: the C encoder writes the same bytes as the Go encoder, or the buffer is at its limit. */
  method WriteValue(buf: Buffer, v: Value) returns (ok: bool)
    requires buf.Valid() && Fits(v)
    modifies buf, buf.data
    ensures buf.Valid() && (buf.data == old(buf.data) || fresh(buf.data))
    ensures ok <==> old(buf.len) + |Encode(v)| <= SIZE_MAX
    ensures ok ==> buf.Contents() == old(buf.Contents()) + Encode(v)
    decreases v
  {
    hide Buffer.Frugal, Head, ToBigEndian, EncodeItems, EncodeEntries, FitsItems, FitsEntries;
    match v
    case Array(_) => ok := WriteArray(buf, v);
    case Map(_) => ok := WriteMap(buf, v);
    case Tag(_, _) => ok := WriteTag(buf, v);
    case _ => ok := WriteLeaf(buf, v);
  }

  method WriteArray(buf: Buffer, v: Value) returns (ok: bool)
    requires buf.Valid() && Fits(v) && v.Array?
    modifies buf, buf.data
    ensures buf.Valid() && (buf.data == old(buf.data) || fresh(buf.data))
    ensures ok <==> old(buf.len) + |Encode(v)| <= SIZE_MAX
    ensures ok ==> buf.Contents() == old(buf.Contents()) + Encode(v)
    decreases v, 0
  {
    hide Buffer.Frugal, Head, EncodeItems, FitsItems;
    ok := WriteHead(buf, 4, |v.items|);
    if ok {
      ok := WriteItems(buf, v.items);
      Associative(old(buf.Contents()), Head(4, |v.items|), EncodeItems(v.items));
    }
  }

  method WriteMap(buf: Buffer, v: Value) returns (ok: bool)
    requires buf.Valid() && Fits(v) && v.Map?
    modifies buf, buf.data
    ensures buf.Valid() && (buf.data == old(buf.data) || fresh(buf.data))
    ensures ok <==> old(buf.len) + |Encode(v)| <= SIZE_MAX
    ensures ok ==> buf.Contents() == old(buf.Contents()) + Encode(v)
    decreases v, 0
  {
    hide Buffer.Frugal, Head, EncodeEntries, FitsEntries;
    ok := WriteHead(buf, 5, |v.entries|);
    if ok {
      ok := WriteEntries(buf, v.entries);
      Associative(old(buf.Contents()), Head(5, |v.entries|), EncodeEntries(v.entries));
    }
  }

  method WriteTag(buf: Buffer, v: Value) returns (ok: bool)
    requires buf.Valid() && Fits(v) && v.Tag?
    modifies buf, buf.data
    ensures buf.Valid() && (buf.data == old(buf.data) || fresh(buf.data))
    ensures ok <==> old(buf.len) + |Encode(v)| <= SIZE_MAX
    ensures ok ==> buf.Contents() == old(buf.Contents()) + Encode(v)
    decreases v, 0
  {
    hide Buffer.Frugal, Head;
    ok := WriteHead(buf, 6, v.num);
    if ok {
      ok := WriteValue(buf, v.inner);
      Associative(old(buf.Contents()), Head(6, v.num), Encode(v.inner));
    }
  }

  method WriteLeaf(buf: Buffer, v: Value) returns (ok: bool)
    requires buf.Valid() && Fits(v) && !v.Array? && !v.Map? && !v.Tag?
    modifies buf, buf.data
    ensures buf.Valid() && (buf.data == old(buf.data) || fresh(buf.data))
    ensures ok <==> old(buf.len) + |Encode(v)| <= SIZE_MAX
    ensures ok ==> buf.Contents() == old(buf.Contents()) + Encode(v)
  {
    hide Buffer.Frugal, Head, ToBigEndian, EncodeItems, EncodeEntries, FitsItems, FitsEntries;
    match v
    case Uint(n) => ok := WriteHead(buf, 0, n);
    case Int(x) =>
      if x >= 0 {
        ok := WriteHead(buf, 0, x);
      } else {
        ok := WriteHead(buf, 1, -(x + 1));
      }
    case Text(s) => ok := WriteHeadAnd(buf, 3, |s|, s);
    case Bytes(s) => ok := WriteHeadAnd(buf, 2, |s|, s);
    case Bool(p) => ok := buf.Push(if p then 0xf5 else 0xf4);
    case Null => ok := buf.Push(0xf6);
    case Float(bits) =>
      var t := FloatBytes(bits);
      ok := buf.Append(t);
  }

  method FloatBytes(bits: u64) returns (t: bytes)
    ensures t == [0xfb] + ToBigEndian(bits, 8)
  {
    Digits(bits, 8);
    t := [0xfb,
          ByteAt(bits, 7), ByteAt(bits, 6), ByteAt(bits, 5), ByteAt(bits, 4),
          ByteAt(bits, 3), ByteAt(bits, 2), ByteAt(bits, 1), ByteAt(bits, 0)];
  }

  method WriteItems(buf: Buffer, xs: seq<Value>) returns (ok: bool)
    requires buf.Valid() && FitsItems(xs)
    modifies buf, buf.data
    ensures buf.Valid() && (buf.data == old(buf.data) || fresh(buf.data))
    ensures ok <==> old(buf.len) + |EncodeItems(xs)| <= SIZE_MAX
    ensures ok ==> buf.Contents() == old(buf.Contents()) + EncodeItems(xs)
    decreases xs, 0
  {
    hide Encode, Fits, EncodeItems, FitsItems;
    var i := 0;
    ItemsPrefix(xs, 0);
    while i < |xs|
      invariant 0 <= i <= |xs| && FitsItems(xs[..i])
      invariant buf.Valid() && (buf.data == old(buf.data) || fresh(buf.data))
      invariant buf.Contents() == old(buf.Contents()) + EncodeItems(xs[..i])
    {
      FitsItemsSplit(xs, i);
      ItemsPrefix(xs, i + 1);
      ok := WriteValue(buf, xs[i]);
      if !ok {
        return;
      }
      i := i + 1;
    }
    assert xs[..i] == xs;
    ok := true;
  }

  lemma {:induction false} ItemsPrefix(xs: seq<Value>, i: nat)
    requires i <= |xs| && FitsItems(xs)
    ensures FitsItems(xs[..i]) && |EncodeItems(xs[..i])| <= |EncodeItems(xs)|
    ensures i == 0 ==> EncodeItems(xs[..i]) == []
    decreases |xs| - i
  {
    hide Encode, Fits;
    if i == |xs| {
      assert xs[..i] == xs;
    } else {
      FitsItemsSplit(xs, i);
      ItemsPrefix(xs, i + 1);
    }
  }

  method WriteEntries(buf: Buffer, es: seq<Entry>) returns (ok: bool)
    requires buf.Valid() && FitsEntries(es)
    modifies buf, buf.data
    ensures buf.Valid() && (buf.data == old(buf.data) || fresh(buf.data))
    ensures ok <==> old(buf.len) + |EncodeEntries(es)| <= SIZE_MAX
    ensures ok ==> buf.Contents() == old(buf.Contents()) + EncodeEntries(es)
    decreases es, 0
  {
    hide Encode, Fits, EncodeEntries, FitsEntries, EncodeEntry, FitsEntry;
    var i := 0;
    EntriesPrefix(es, 0);
    while i < |es|
      invariant 0 <= i <= |es| && FitsEntries(es[..i])
      invariant buf.Valid() && (buf.data == old(buf.data) || fresh(buf.data))
      invariant buf.Contents() == old(buf.Contents()) + EncodeEntries(es[..i])
    {
      FitsEntriesSplit(es, i);
      EntriesPrefix(es, i + 1);
      ok := WriteEntry(buf, es[i]);
      if !ok {
        return;
      }
      i := i + 1;
    }
    assert es[..i] == es;
    ok := true;
  }

  lemma {:induction false} EntriesPrefix(es: seq<Entry>, i: nat)
    requires i <= |es| && FitsEntries(es)
    ensures FitsEntries(es[..i]) && |EncodeEntries(es[..i])| <= |EncodeEntries(es)|
    ensures i == 0 ==> EncodeEntries(es[..i]) == []
    decreases |es| - i
  {
    hide EncodeEntry, FitsEntry;
    if i == |es| {
      assert es[..i] == es;
    } else {
      FitsEntriesSplit(es, i);
      EntriesPrefix(es, i + 1);
    }
  }

  method WriteEntry(buf: Buffer, e: Entry) returns (ok: bool)
    requires buf.Valid() && FitsEntry(e)
    modifies buf, buf.data
    ensures buf.Valid() && (buf.data == old(buf.data) || fresh(buf.data))
    ensures ok <==> old(buf.len) + |EncodeEntry(e)| <= SIZE_MAX
    ensures ok ==> buf.Contents() == old(buf.Contents()) + EncodeEntry(e)
    decreases e
  {
    hide Encode, Fits;
    ok := WriteValue(buf, e.key);
    if ok {
      ok := WriteValue(buf, e.val);
    }
  }
}
