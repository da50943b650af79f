/**
  The decoder of the Go codec: recursive descent over one byte slice with a
  shared position.

  `Dec` gives the result of decoding at a position as a function; `Decoder` is
  the source's code, which advances `pos` and fills its lists in loops. Every
  statement holds for each way `widen` of turning the bits of a float32 into
  the bits of a float64.
 */
module CborDecode {
  import opened Bytes
  import opened Cbor
  import Utf8

  type Widen = u32 -> u64

  const MAX_DEPTH := 64

  datatype Arg = Arg(arg: u64, next: nat)
  datatype Item = Item(v: Value, next: nat)
  datatype Items = Items(vs: seq<Value>, next: nat)
  datatype Entries = Entries(es: seq<Entry>, next: nat)

  /** The head length that additional information `low` calls for; 0 when it is reserved. */
  function HeadLength(low: nat): nat {
    if low < 24 then 1 else if low == 24 then 2 else if low == 25 then 3
    else if low == 26 then 5 else if low == 27 then 9 else 0
  }

  ghost function ReadArg(b: bytes, pos: nat, low: nat): (r: Option<Arg>)
    requires pos < |b|
    ensures r.Some? ==> pos < r.value.next <= |b|
  {
    var k := HeadLength(low);
    if k == 0 || |b| - pos < k then None
    else if low < 24 then Some(Arg(low, pos + 1))
    else
      var s := b[pos + 1..pos + k];
      BigEndianBound(s);
      Pow256Values();
      Some(Arg(BigEndian(s), pos + k))
  }

  /** Levels that may still be opened below `depth`. */
  function Room(depth: nat): nat {
    if depth > MAX_DEPTH then 0 else MAX_DEPTH + 1 - depth
  }

  ghost function Dec(widen: Widen, b: bytes, pos: nat, depth: nat): (r: Option<Item>)
    ensures r.Some? ==> pos < r.value.next <= |b|
    decreases Room(depth), 0
  {
    if depth > MAX_DEPTH || pos >= |b| then None
    else
      var m, low := b[pos] / 32, b[pos] % 32;
      if m == 7 then DecSimple(widen, b, pos, low)
      else
        var a :- ReadArg(b, pos, low);
        if m == 0 then Some(Item(Uint(a.arg), a.next))
        else if m == 1 then
          if a.arg > MAX_INT64 then None else Some(Item(Int(-1 - a.arg), a.next))
        else if m == 2 then
          if a.arg > |b| - a.next then None
          else Some(Item(Bytes(b[a.next..a.next + a.arg]), a.next + a.arg))
        else if m == 3 then
          if a.arg > |b| - a.next || !Utf8.WellFormed(b[a.next..a.next + a.arg]) then None
          else Some(Item(Text(b[a.next..a.next + a.arg]), a.next + a.arg))
        else if m == 4 then
          if a.arg > |b| - a.next then None
          else
            var xs :- DecItems(widen, b, a.next, a.arg, depth + 1);
            Some(Item(Array(xs.vs), xs.next))
        else if m == 5 then
          if a.arg > |b| - a.next then None
          else
            var es :- DecEntries(widen, b, a.next, a.arg, depth + 1);
            Some(Item(Map(es.es), es.next))
        else
          var x :- Dec(widen, b, a.next, depth + 1);
          Some(Item(Tag(a.arg, x.v), x.next))
  }

  /** Major type 7: false, true, null, undefined (read as null) and the two wide floats. */
  ghost function DecSimple(widen: Widen, b: bytes, pos: nat, low: nat): (r: Option<Item>)
    requires pos < |b|
    ensures r.Some? ==> pos < r.value.next <= |b|
  {
    if low == 20 then Some(Item(Bool(false), pos + 1))
    else if low == 21 then Some(Item(Bool(true), pos + 1))
    else if low == 22 || low == 23 then Some(Item(Null, pos + 1))
    else if low == 26 || low == 27 then
      var a :- ReadArg(b, pos, low);
      Some(Item(Float(if low == 26 then Widened(widen, b, pos) else a.arg), a.next))
    else None
  }

  /** The float64 bits of the float32 at `pos`. */
  ghost function Widened(widen: Widen, b: bytes, pos: nat): u64
    requires pos + 5 <= |b|
  {
    var s := b[pos + 1..pos + 5];
    BigEndianBound(s);
    Pow256Values();
    widen(BigEndian(s))
  }

  ghost function DecItems(widen: Widen, b: bytes, pos: nat, n: nat, depth: nat): (r: Option<Items>)
    requires pos <= |b|
    ensures r.Some? ==> pos + n <= r.value.next <= |b| && |r.value.vs| == n
    decreases Room(depth), n + 1
  {
    if n == 0 then Some(Items([], pos))
    else
      var x :- Dec(widen, b, pos, depth);
      var xs :- DecItems(widen, b, x.next, n - 1, depth);
      Some(Items([x.v] + xs.vs, xs.next))
  }

  ghost function DecEntries(widen: Widen, b: bytes, pos: nat, n: nat, depth: nat): (r: Option<Entries>)
    requires pos <= |b|
    ensures r.Some? ==> pos + 2 * n <= r.value.next <= |b| && |r.value.es| == n
    decreases Room(depth), n + 1
  {
    if n == 0 then Some(Entries([], pos))
    else
      var k :- Dec(widen, b, pos, depth);
      var v :- Dec(widen, b, k.next, depth);
      var es :- DecEntries(widen, b, v.next, n - 1, depth);
      Some(Entries([Entry(k.v, v.v)] + es.es, es.next))
  }

  /** A payload is exactly one item: trailing bytes are an error. */
  ghost function Decode(widen: Widen, b: bytes): Option<Value> {
    var x :- Dec(widen, b, 0, 0);
    if x.next == |b| then Some(x.v) else None
  }

  /** The decoder's input slice and the position it shares with its callees. */
  class Decoder {
    const widen: Widen
    const b: bytes
    var pos: nat

    constructor (widen: Widen, b: bytes)
      ensures this.widen == widen && this.b == b && pos == 0
    {
      this.widen := widen;
      this.b := b;
      pos := 0;
    }

    method ReadArgument(low: nat) returns (r: Option<u64>)
      requires pos < |b|
      modifies this`pos
      ensures var a := ReadArg(b, old(pos), low);
              if r.Some? then a == Some(Arg(r.value, pos)) else a == None && pos == old(pos)
    {
      if low < 24 {
        pos := pos + 1;
        return Some(low);
      }
      if low == 24 {
        if |b| - pos < 2 {
          return None;
        }
        assert b[pos + 1..pos + 2] == [b[pos + 1]] && BigEndian([b[pos + 1]][..0]) == 0;
        pos := pos + 2;
        return Some(b[pos - 1]);
      }
      if low == 25 {
        if |b| - pos < 3 {
          return None;
        }
        TwoBytes(b[pos + 1], b[pos + 2]);
        assert b[pos + 1..pos + 3] == [b[pos + 1], b[pos + 2]];
        pos := pos + 3;
        var hi: int, lo: int := b[pos - 2], b[pos - 1];
        return Some(hi * 256 + lo);
      }
      if low != 26 && low != 27 {
        return None;
      }
      var k := if low == 26 then 4 else 8;
      if |b| - pos < k + 1 {
        return None;
      }
      BigEndianBound(b[pos + 1..pos + 1 + k]);
      Pow256Values();
      var v := Accumulate(b[pos + 1..pos + 1 + k]);
      pos := pos + 1 + k;
      r := Some(v);
    }

    method DecodeItem(depth: nat) returns (r: Option<Value>)
      requires pos <= |b|
      modifies this`pos
      ensures pos <= |b|
      ensures var x := Dec(widen, b, old(pos), depth);
              if r.Some? then x == Some(Item(r.value, pos)) else x == None
      decreases Room(depth), 0
    {
      hide DecItems, DecEntries, DecSimple, ReadArg;
      if depth > MAX_DEPTH {
        return None;
      }
      if pos >= |b| {
        return None;
      }
      var m, low := b[pos] / 32, b[pos] % 32;
      if m == 7 {
        r := DecodeSimple(low);
        return;
      }
      var a := ReadArgument(low);
      if a == None {
        return None;
      }
      var arg := a.value;
      if m == 0 {
        return Some(Uint(arg));
      } else if m == 1 {
        if arg > MAX_INT64 {
          return None;
        }
        return Some(Int(-1 - arg));
      } else if m == 2 || m == 3 {
        if arg > |b| - pos {
          return None;
        }
        var s := b[pos..pos + arg];
        if m == 3 {
          var ok := Utf8.Validate(s);
          if !ok {
            return None;
          }
        }
        pos := pos + arg;
        return Some(if m == 2 then Bytes(s) else Text(s));
      } else if m == 4 {
        if arg > |b| - pos {
          return None;
        }
        var items := DecodeItems(arg, depth + 1);
        return if items == None then None else Some(Array(items.value));
      } else if m == 5 {
        if arg > |b| - pos {
          return None;
        }
        var entries := DecodeEntries(arg, depth + 1);
        return if entries == None then None else Some(Map(entries.value));
      } else {
        var inner := DecodeItem(depth + 1);
        return if inner == None then None else Some(Tag(arg, inner.value));
      }
    }

    method DecodeSimple(low: nat) returns (r: Option<Value>)
      requires pos < |b|
      modifies this`pos
      ensures pos <= |b|
      ensures var x := DecSimple(widen, b, old(pos), low);
              if r.Some? then x == Some(Item(r.value, pos)) else x == None
    {
      if low == 20 || low == 21 {
        pos := pos + 1;
        return Some(Bool(low == 21));
      } else if low == 22 || low == 23 {
        pos := pos + 1;
        return Some(Null);
      } else if low == 26 || low == 27 {
        ghost var start := pos;
        var bits := ReadArgument(low);
        if bits == None {
          return None;
        }
        if low == 27 {
          return Some(Float(bits.value));
        }
        BigEndianBound(b[start + 1..start + 5]);
        Pow256Values();
        return Some(Float(widen(bits.value)));
      } else {
        return None;
      }
    }

    /** The array loop: reads `n` items one after another into a growing list. */
    method DecodeItems(n: nat, depth: nat) returns (r: Option<seq<Value>>)
      requires pos <= |b|
      modifies this`pos
      ensures pos <= |b|
      ensures var xs := DecItems(widen, b, old(pos), n, depth);
              if r.Some? then xs == Some(Items(r.value, pos)) else xs == None
      decreases Room(depth), n + 1
    {
      hide Dec, DecItems;
      var items: seq<Value> := [];
      var i := 0;
      ghost var all := DecItems(widen, b, pos, n, depth);
      assert all.Some? ==> items + all.value.vs == all.value.vs;
      while i < n
        invariant 0 <= i <= n && pos <= |b|
        invariant var rest := DecItems(widen, b, pos, n - i, depth);
                  if rest.Some? then all == Some(Items(items + rest.value.vs, rest.value.next)) else all == None
      {
        DecItemsStep(widen, b, pos, n - i, depth);
        var item := DecodeItem(depth);
        if item == None {
          return None;
        }
        ghost var rest := DecItems(widen, b, pos, n - i - 1, depth);
        if rest.Some? {
          assert items + ([item.value] + rest.value.vs) == items + [item.value] + rest.value.vs;
        }
        items := items + [item.value];
        i := i + 1;
      }
      DecItemsStep(widen, b, pos, 0, depth);
      assert items + [] == items;
      r := Some(items);
    }

    method DecodeEntries(n: nat, depth: nat) returns (r: Option<seq<Entry>>)
      requires pos <= |b|
      modifies this`pos
      ensures pos <= |b|
      ensures var es := DecEntries(widen, b, old(pos), n, depth);
              if r.Some? then es == Some(Entries(r.value, pos)) else es == None
      decreases Room(depth), n + 1
    {
      hide Dec, DecEntries;
      var entries: seq<Entry> := [];
      var i := 0;
      ghost var all := DecEntries(widen, b, pos, n, depth);
      assert all.Some? ==> entries + all.value.es == all.value.es;
      while i < n
        invariant 0 <= i <= n && pos <= |b|
        invariant var rest := DecEntries(widen, b, pos, n - i, depth);
                  if rest.Some? then all == Some(Entries(entries + rest.value.es, rest.value.next)) else all == None
      {
        DecEntriesStep(widen, b, pos, n - i, depth);
        var k := DecodeItem(depth);
        if k == None {
          return None;
        }
        var val := DecodeItem(depth);
        if val == None {
          return None;
        }
        var e := Entry(k.value, val.value);
        ghost var rest := DecEntries(widen, b, pos, n - i - 1, depth);
        if rest.Some? {
          assert entries + ([e] + rest.value.es) == entries + [e] + rest.value.es;
        }
        entries := entries + [e];
        i := i + 1;
      }
      DecEntriesStep(widen, b, pos, 0, depth);
      assert entries + [] == entries;
      r := Some(entries);
    }
  }

  lemma DecItemsStep(widen: Widen, b: bytes, p: nat, n: nat, depth: nat)
    requires p <= |b|
    ensures DecItems(widen, b, p, n, depth) ==
            if n == 0 then Some(Items([], p))
            else
              var x := Dec(widen, b, p, depth);
              if x.None? then None
              else
                var xs := DecItems(widen, b, x.value.next, n - 1, depth);
                if xs.None? then None else Some(Items([x.value.v] + xs.value.vs, xs.value.next))
  {
  }

  lemma DecEntriesStep(widen: Widen, b: bytes, p: nat, n: nat, depth: nat)
    requires p <= |b|
    ensures DecEntries(widen, b, p, n, depth) ==
            if n == 0 then Some(Entries([], p))
            else
              var k := Dec(widen, b, p, depth);
              if k.None? then None
              else
                var v := Dec(widen, b, k.value.next, depth);
                if v.None? then None
                else
                  var es := DecEntries(widen, b, v.value.next, n - 1, depth);
                  if es.None? then None
                  else Some(Entries([Entry(k.value.v, v.value.v)] + es.value.es, es.value.next))
  {
  }

  /** `cborDecode`: one item, and nothing after it. */
  method DecodeBytes(widen: Widen, b: bytes) returns (r: Option<Value>)
    ensures r == Decode(widen, b)
  {
    var d := new Decoder(widen, b);
    r := d.DecodeItem(0);
    if r.Some? && d.pos != |b| {
      return None;
    }
  }

  lemma TwoBytes(x: byte, y: byte)
    ensures BigEndian([x, y]) == x * 256 + y
  {
    assert [x, y][..1] == [x] && [x][..0] == [];
    assert BigEndian([x]) == x;
  }

  /** The shift-and-or loop that gathers a wide argument. */
  method Accumulate(s: bytes) returns (v: nat)
    ensures v == BigEndian(s)
  {
    v := 0;
    var i := 0;
    while i < |s|
      invariant 0 <= i <= |s| && v == BigEndian(s[..i])
    {
      assert s[..i + 1][..i] == s[..i];
      v := v * 256 + s[i];
      i := i + 1;
    }
    assert s[..i] == s;
  }
}
