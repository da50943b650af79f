/**
  The two allocators under the C codec: the bump arena that decoded trees live
  in, and the doubling buffer that encoders append to. `size_t` is 64 bits wide.
 */
module CStorage {
  import opened Bytes

  const SIZE_MAX: nat := 0xffff_ffff_ffff_ffff
  const SIZEOF_BLOCK: nat := 24

  /** `size` rounded up to a multiple of 16. */
  function Aligned(size: nat): (n: nat)
    ensures size <= n < size + 16 && n % 16 == 0
  {
    (size + 15) / 16 * 16
  }

  datatype Block = Block(used: nat, cap: nat)

  /** `size` bytes at offset `off` of the data of block `block`. */
  datatype Region = Region(block: nat, off: nat, size: nat) {
    predicate Holds(block: nat, k: nat) {
      this.block == block && off <= k < off + size
    }
  }

  function SumUsed(blocks: seq<Block>): nat {
    if blocks == [] then 0 else SumUsed(blocks[..|blocks| - 1]) + blocks[|blocks| - 1].used
  }

  class Arena {
    /** The blocks in order of creation: the source's list head is the last one. */
    var blocks: seq<Block>
    /** Every region handed out so far. */
    ghost var regions: seq<Region>

    ghost predicate Valid()
      reads this
    {
      && (forall b :: b in blocks ==> b.used <= b.cap <= SIZE_MAX - SIZEOF_BLOCK && b.used % 16 == 0)
      && (forall r :: r in regions ==> InBounds(blocks, r))
      && (forall i, j :: 0 <= i < j < |regions| ==> Before(regions[i], regions[j]))
    }

    /** The bytes taken from the arena, over all blocks. */
    ghost function Taken(): nat
      reads this
    {
      SumUsed(blocks)
    }

    constructor ()
      ensures Valid() && Taken() == 0 && regions == []
    {
      blocks := [];
      regions := [];
    }

    /** The head block has room for `size` more bytes. */
    predicate HasRoom(size: nat)
      reads this
    {
      blocks != [] && blocks[|blocks| - 1].used + Aligned(size) <= blocks[|blocks| - 1].cap
    }

    /** Hands out `size` fresh bytes; fails only for sizes within 31 of the top of the address space. */
    method Alloc(size: nat) returns (r: Option<Region>)
      requires Valid() && size <= SIZE_MAX
      modifies this
      ensures Valid()
      ensures r.None? <==> size > SIZE_MAX - 31
      ensures r.None? ==> blocks == old(blocks) && regions == old(regions)
      ensures r.Some? ==> regions == old(regions) + [r.value] && r.value.size == size
      ensures r.Some? ==> Taken() == old(Taken()) + Aligned(size)
      ensures r.Some? && old(HasRoom(size)) ==> |blocks| == |old(blocks)|
      ensures r.Some? && !old(HasRoom(size)) ==>
                |blocks| == |old(blocks)| + 1 && blocks[|blocks| - 1].cap == Max(4096, Aligned(size))
    {
      hide SumUsed, InBounds, Before;
      Rounding(size);
      var aligned := (size + 15) % (SIZE_MAX + 1) / 16 * 16;
      if aligned < size {
        return None;
      }
      if blocks == [] || blocks[|blocks| - 1].cap - blocks[|blocks| - 1].used < aligned {
        var cap := if aligned > 4096 then aligned else 4096;
        if cap > SIZE_MAX - SIZEOF_BLOCK {
          return None;
        }
        AddBlock(cap);
      }
      var p := Bump(size, aligned);
      r := Some(p);
    }

    /** Puts an empty block at the head of the list. */
    method AddBlock(cap: nat)
      requires Valid() && cap <= SIZE_MAX - SIZEOF_BLOCK
      modifies this`blocks
      ensures Valid() && Taken() == old(Taken())
      ensures blocks == old(blocks) + [Block(0, cap)]
    {
      blocks := blocks + [Block(0, cap)];
      assert blocks[..|blocks| - 1] == old(blocks);
      Keep(old(blocks), blocks, regions);
    }

    /** Takes the next `aligned` bytes of the head block. */
    method Bump(size: nat, aligned: nat) returns (r: Region)
      requires Valid() && aligned == Aligned(size)
      requires blocks != [] && blocks[|blocks| - 1].used + aligned <= blocks[|blocks| - 1].cap
      modifies this
      ensures Valid() && Taken() == old(Taken()) + aligned
      ensures regions == old(regions) + [r] && r.size == size
      ensures |blocks| == |old(blocks)| && blocks[|blocks| - 1].cap == old(blocks)[|blocks| - 1].cap
    {
      hide Aligned;
      var last := |blocks| - 1;
      var head := blocks[last];
      r := Region(last, head.used, size);
      assert forall s :: s in regions ==> InBounds(blocks, s) && Before(s, r);
      blocks := blocks[last := head.(used := head.used + aligned)];
      assert blocks[..last] == old(blocks)[..last];
      Keep(old(blocks), blocks, regions);
      assert InBounds(blocks, r);
      hide InBounds, Before;
      regions := regions + [r];
    }
  }

  /** Rounding up in 64-bit arithmetic gives the aligned size, or wraps to less than `size`. */
  lemma Rounding(size: nat)
    requires size <= SIZE_MAX
    ensures var n := (size + 15) % (SIZE_MAX + 1) / 16 * 16;
            if size <= SIZE_MAX - 15 then n == Aligned(size) else n < size
  {
  }

  /** Blocks only fill up, so regions stay in bounds. */
  lemma Keep(blocks: seq<Block>, blocks': seq<Block>, regions: seq<Region>)
    requires |blocks| <= |blocks'|
    requires forall k :: 0 <= k < |blocks| ==> blocks[k].used <= blocks'[k].used
    requires forall r :: r in regions ==> InBounds(blocks, r)
    ensures forall r :: r in regions ==> InBounds(blocks', r)
  {
  }

  predicate InBounds(blocks: seq<Block>, r: Region) {
    r.block < |blocks| && r.off % 16 == 0 && r.off + Aligned(r.size) <= blocks[r.block].used
  }

  /** `r` was handed out before `s`, so in the same block it lies entirely below `s`. */
  predicate Before(r: Region, s: Region) {
    r.block < s.block || (r.block == s.block && r.off + Aligned(r.size) <= s.off)
  }

  /** No byte of the arena belongs to two regions. */
  lemma RegionsDisjoint(regions: seq<Region>, i: nat, j: nat, block: nat, k: nat)
    requires forall x, y :: 0 <= x < y < |regions| ==> Before(regions[x], regions[y])
    requires i < |regions| && j < |regions| && i != j
    ensures !(regions[i].Holds(block, k) && regions[j].Holds(block, k))
  {
    if i < j {
      assert Before(regions[i], regions[j]);
    } else if j < i {
      assert Before(regions[j], regions[i]);
    }
  }

  /** The output buffer of the C encoders. */
  class Buffer {
    var data: array<byte>
    var len: nat
    /** Capacities of the allocations that growth left behind. */
    ghost var abandoned: nat

    ghost predicate Valid()
      reads this
    {
      && len <= data.Length <= SIZE_MAX && (data.Length == 0 || 64 <= data.Length <= Max(64, 2 * len))
      && Frugal()
    }

    /** Up to half the address space, no more was left behind than is in use. */
    ghost predicate Frugal()
      reads this
    {
      len <= SIZE_MAX / 2 ==> abandoned <= data.Length
    }

    ghost function Contents(): bytes
      reads this, data
      requires Valid()
    {
      data[..len]
    }

    constructor ()
      ensures Valid() && fresh(data) && Contents() == [] && data.Length == 0 && abandoned == 0
    {
      data := new byte[0];
      len := 0;
      abandoned := 0;
    }

    /** Makes room for `extra` more bytes, at less than double what is needed. */
    method Reserve(extra: nat) returns (ok: bool)
      requires Valid()
      modifies this`data, this`abandoned
      ensures ok <==> len + extra <= SIZE_MAX
      ensures ok ==> len + extra <= data.Length <= Max(64, 2 * (len + extra)) && data.Length <= SIZE_MAX
      ensures ok && len + extra > 0 ==> data.Length >= 64
      ensures ok && len + extra <= old(data).Length ==> data == old(data)
      ensures len == old(len) <= data.Length && data[..len] == old(data[..len])
      ensures data == old(data) || fresh(data)
      ensures !ok ==> data == old(data) && abandoned == old(abandoned)
      ensures len + extra <= SIZE_MAX / 2 ==> abandoned <= data.Length
    {
      if extra > SIZE_MAX - len {
        return false;
      }
      var need := len + extra;
      if need <= data.Length {
        return true;
      }
      var cap := if data.Length > 0 then data.Length else 64;
      while cap < need
        invariant 64 <= cap <= SIZE_MAX && cap <= Max(64, 2 * need)
        invariant cap >= data.Length
        invariant need <= SIZE_MAX / 2 ==> cap == data.Length || cap >= 2 * data.Length
        decreases need - cap
      {
        if cap > SIZE_MAX / 2 {
          cap := need;
          break;
        }
        cap := cap * 2;
      }
      var p := new byte[cap];
      forall i | 0 <= i < len {
        p[i] := data[i];
      }
      abandoned := abandoned + data.Length;
      data := p;
      ok := true;
    }

    method Push(x: byte) returns (ok: bool)
      requires Valid()
      modifies this, data
      ensures Valid() && (data == old(data) || fresh(data))
      ensures ok <==> old(len) < SIZE_MAX
      ensures Contents() == if ok then old(Contents()) + [x] else old(Contents())
    {
      ok := Reserve(1);
      if ok {
        data[len] := x;
        len := len + 1;
        assert data[..len - 1] == old(data[..len]);
      }
    }

    method Append(s: bytes) returns (ok: bool)
      requires Valid()
      modifies this, data
      ensures Valid() && (data == old(data) || fresh(data))
      ensures ok <==> old(len) + |s| <= SIZE_MAX
      ensures Contents() == if ok then old(Contents()) + s else old(Contents())
    {
      if |s| == 0 {
        return true;
      }
      ok := Reserve(|s|);
      if ok {
        CopyIn(s);
        len := len + |s|;
        assert data[..len] == data[..old(len)] + data[old(len)..len];
      }
    }

    /** `memcpy` to the end of the contents. */
    method CopyIn(s: bytes)
      requires len + |s| <= data.Length
      modifies data
      ensures data[..len] == old(data[..len]) && data[len..len + |s|] == s
    {
      forall i | 0 <= i < |s| {
        data[len + i] := s[i];
      }
    }
  }
}
