/**
 The list of RAM blocks: where a new block goes in the ram_addr_t space, the order of the list,
 and the lookup with its most recently used block.
 */
module RamList {
  import opened Basics

  /** ram_addr_t is a 64-bit unsigned type; RAM_ADDR_MAX is its largest value. */
  const RAM_ADDR_MAX: nat := 0xffff_ffff_ffff_ffff

  datatype RamBlock = RamBlock(offset: nat, maxLength: nat)

  function End(b: RamBlock): (end: nat)
  {
    b.offset + b.maxLength
  }

  predicate Apart(b: RamBlock, c: RamBlock)
  {
    End(b) <= c.offset || End(c) <= b.offset
  }

  predicate Within(b: RamBlock)
  {
    0 < b.maxLength && End(b) <= RAM_ADDR_MAX
  }

  predicate Disjoint(blocks: seq<RamBlock>)
  {
    forall i, j :: 0 <= i < j < |blocks| ==> Apart(blocks[i], blocks[j])
  }

  predicate Descending(blocks: seq<RamBlock>)
  {
    forall i, j :: 0 <= i < j < |blocks| ==> blocks[i].maxLength >= blocks[j].maxLength
  }

  predicate ListOk(blocks: seq<RamBlock>)
  {
    && (forall i :: 0 <= i < |blocks| ==> Within(blocks[i]))
    && Disjoint(blocks) && Descending(blocks)
  }

  /** addr - offset < max_length, in 64-bit unsigned arithmetic. */
  predicate Hit(b: RamBlock, addr: nat)
  {
    (addr - b.offset) % (RAM_ADDR_MAX + 1) < b.maxLength
  }

  predicate Contains(b: RamBlock, addr: nat)
  {
    b.offset <= addr < End(b)
  }

  /** The wrapped comparison decides membership. */
  lemma HitContains(b: RamBlock, addr: nat)
    requires Within(b) && addr <= RAM_ADDR_MAX
    ensures Hit(b, addr) <==> Contains(b, addr)
  {
    if addr < b.offset {
      assert (addr - b.offset) % (RAM_ADDR_MAX + 1) == addr - b.offset + RAM_ADDR_MAX + 1;
    } else {
      assert (addr - b.offset) % (RAM_ADDR_MAX + 1) == addr - b.offset;
    }
  }

  // ---------- gaps ----------

  /** Least block start from `end` on, or RAM_ADDR_MAX. */
  function NextStart(blocks: seq<RamBlock>, end: nat): (next: nat)
  {
    if blocks == [] then RAM_ADDR_MAX
    else
      var rest, last := NextStart(blocks[..|blocks| - 1], end), blocks[|blocks| - 1];
      if last.offset >= end && last.offset < rest then last.offset else rest
  }

  lemma {:induction false} NextStartIs(blocks: seq<RamBlock>, end: nat)
    ensures NextStart(blocks, end) <= RAM_ADDR_MAX
    ensures forall i :: 0 <= i < |blocks| && blocks[i].offset >= end ==> NextStart(blocks, end) <= blocks[i].offset
    ensures NextStart(blocks, end) == RAM_ADDR_MAX ||
            exists i :: 0 <= i < |blocks| && blocks[i].offset >= end && blocks[i].offset == NextStart(blocks, end)
  {
    if blocks != [] {
      var front := blocks[..|blocks| - 1];
      NextStartIs(front, end);
      forall i | 0 <= i < |blocks| && blocks[i].offset >= end
        ensures NextStart(blocks, end) <= blocks[i].offset
      {
        if i < |front| { assert blocks[i] == front[i]; }
      }
      if NextStart(front, end) != RAM_ADDR_MAX {
        var i :| 0 <= i < |front| && front[i].offset >= end && front[i].offset == NextStart(front, end);
        assert blocks[i] == front[i];
      }
    }
  }

  /** The free space that follows block i. */
  function Gap(blocks: seq<RamBlock>, i: nat): (gap: int)
    requires i < |blocks|
  {
    NextStart(blocks, End(blocks[i])) - End(blocks[i])
  }

  predicate Free(blocks: seq<RamBlock>, start: nat, size: nat)
  {
    start + size <= RAM_ADDR_MAX && forall i :: 0 <= i < |blocks| ==> Apart(blocks[i], RamBlock(start, size))
  }

  /** The gap after a block is just what is free there: a piece fits if and only if it is no
      longer than the gap. */
  lemma GapIsFree(blocks: seq<RamBlock>, i: nat, size: nat)
    requires ListOk(blocks) && i < |blocks| && 0 < size
    ensures Free(blocks, End(blocks[i]), size) <==> size <= Gap(blocks, i)
  {
    var end := End(blocks[i]);
    NextStartIs(blocks, end);
    if size <= Gap(blocks, i) {
      forall j | 0 <= j < |blocks|
        ensures Apart(blocks[j], RamBlock(end, size))
      {
        assert Within(blocks[i]) && Within(blocks[j]);
        assert i < j ==> Apart(blocks[i], blocks[j]);
        assert j < i ==> Apart(blocks[j], blocks[i]);
      }
    } else if NextStart(blocks, end) != RAM_ADDR_MAX {
      var j :| 0 <= j < |blocks| && blocks[j].offset >= end && blocks[j].offset == NextStart(blocks, end);
      assert Within(blocks[j]) && !Apart(blocks[j], RamBlock(end, size));
    }
  }

  /** Block i is followed by a gap that fits, the smallest such, and the first of its size. */
  predicate BestFit(blocks: seq<RamBlock>, size: nat, i: nat)
    requires i < |blocks|
  {
    && size <= Gap(blocks, i)
    && forall j :: 0 <= j < |blocks| && size <= Gap(blocks, j) ==> if j < i then Gap(blocks, i) < Gap(blocks, j)
      else Gap(blocks, i) <= Gap(blocks, j)
  }

  /** The inner loop of find_ram_offset. */
  method FindNext(blocks: seq<RamBlock>, end: nat) returns (next: nat)
    ensures next == NextStart(blocks, end)
  {
    next := RAM_ADDR_MAX;
    var j := 0;
    while j < |blocks|
      invariant 0 <= j <= |blocks| && next == NextStart(blocks[..j], end)
    {
      assert blocks[..j + 1][..j] == blocks[..j];
      if blocks[j].offset >= end {
        next := if next < blocks[j].offset then next else blocks[j].offset;
      }
      j := j + 1;
    }
    assert blocks[..j] == blocks;
  }

  /** Of the first n gaps, number i is the one to take; -1 if none of them fits. */
  ghost predicate BestOf(blocks: seq<RamBlock>, size: nat, n: nat, i: int)
    requires n <= |blocks|
  {
    if i < 0 then
      forall j :: 0 <= j < n ==> Gap(blocks, j) < size
    else
      && i < n && size <= Gap(blocks, i)
      && forall j :: 0 <= j < n && size <= Gap(blocks, j) ==> if j < i then Gap(blocks, i) < Gap(blocks, j)
        else Gap(blocks, i) <= Gap(blocks, j)
  }

  lemma BestOfNext(blocks: seq<RamBlock>, size: nat, n: nat, i: int)
    requires n < |blocks| && BestOf(blocks, size, n, i)
    ensures var better := size <= Gap(blocks, n) && (i >= 0 ==> Gap(blocks, n) < Gap(blocks, i));
            BestOf(blocks, size, n + 1, if better then n else i)
  {
    hide Gap;
  }

  lemma GapBelowMax(blocks: seq<RamBlock>, i: nat)
    requires ListOk(blocks) && i < |blocks|
    ensures Gap(blocks, i) < RAM_ADDR_MAX && (0 < Gap(blocks, i) ==> End(blocks[i]) < RAM_ADDR_MAX)
  {
    NextStartIs(blocks, End(blocks[i]));
    assert Within(blocks[i]);
  }

  /** find_ram_offset: the smallest gap that follows a block and fits; None where the source aborts,
      which is just when no gap that follows a block fits. */
  method FindOffset(blocks: seq<RamBlock>, size: nat) returns (r: Option<nat>)
    requires ListOk(blocks) && 0 < size
    ensures blocks == [] ==> r == Some(0)
    ensures blocks != [] && r.Some? ==>
              exists i :: 0 <= i < |blocks| && r.value == End(blocks[i]) && BestFit(blocks, size, i)
    ensures r.None? ==> blocks != [] && forall i :: 0 <= i < |blocks| ==> Gap(blocks, i) < size
  {
    if blocks == [] { return Some(0); }
    var offset: nat, mingap: nat, i := RAM_ADDR_MAX, RAM_ADDR_MAX, 0;
    ghost var best := -1;
    while i < |blocks|
      invariant 0 <= i <= |blocks| && BestOf(blocks, size, i, best)
      invariant if best < 0 then offset == mingap == RAM_ADDR_MAX
                else offset == End(blocks[best]) < RAM_ADDR_MAX && mingap == Gap(blocks, best)
    {
      BestOfNext(blocks, size, i, best);
      GapBelowMax(blocks, i);
      var end := End(blocks[i]);
      var next := FindNext(blocks, end);
      if next - end >= size && next - end < mingap {
        offset := end;
        mingap := next - end;
        best := i;
      }
      i := i + 1;
    }
    r := if offset == RAM_ADDR_MAX then None else Some(offset);
    assert best >= 0 ==> BestFit(blocks, size, best);
  }

  lemma OneStart(blocks: seq<RamBlock>, i: nat, j: nat)
    requires ListOk(blocks) && i < |blocks| && j < |blocks| && blocks[i].offset == blocks[j].offset
    ensures i == j
  {
    assert Within(blocks[i]) && Within(blocks[j]);
  }

  lemma OnlyOne(blocks: seq<RamBlock>, i: nat, addr: nat)
    requires ListOk(blocks) && i < |blocks| && Contains(blocks[i], addr)
    ensures forall j :: 0 <= j < |blocks| ==> (Contains(blocks[j], addr) <==> blocks[j] == blocks[i])
  {
    forall j | 0 <= j < |blocks| && j != i
      ensures Contains(blocks[j], addr) <==> blocks[j] == blocks[i]
    {
      assert Within(blocks[j]) && Within(blocks[i]);
      assert i < j ==> Apart(blocks[i], blocks[j]);
      assert j < i ==> Apart(blocks[j], blocks[i]);
    }
  }

  lemma Inserted(blocks: seq<RamBlock>, i: nat, b: RamBlock)
    requires ListOk(blocks) && i <= |blocks| && 0 < b.maxLength && Free(blocks, b.offset, b.maxLength)
    requires forall j :: 0 <= j < i ==> blocks[j].maxLength >= b.maxLength
    requires i < |blocks| ==> blocks[i].maxLength < b.maxLength
    ensures ListOk(blocks[..i] + [b] + blocks[i..])
  {
    var new_ := blocks[..i] + [b] + blocks[i..];
    forall k | 0 <= k < |new_|
      ensures new_[k] == b || new_[k] in blocks
    {
    }
    assert Within(b);
    InsertedDescends(blocks, i, b);
    InsertedApart(blocks, i, b);
  }

  lemma InsertedDescends(blocks: seq<RamBlock>, i: nat, b: RamBlock)
    requires Descending(blocks) && i <= |blocks| && (forall j :: 0 <= j < i ==> blocks[j].maxLength >= b.maxLength)
    requires i < |blocks| ==> blocks[i].maxLength < b.maxLength
    ensures Descending(blocks[..i] + [b] + blocks[i..])
  {
  }

  lemma InsertedApart(blocks: seq<RamBlock>, i: nat, b: RamBlock)
    requires Disjoint(blocks) && i <= |blocks| && forall j :: 0 <= j < |blocks| ==> Apart(blocks[j], b)
    ensures Disjoint(blocks[..i] + [b] + blocks[i..])
  {
    var new_ := blocks[..i] + [b] + blocks[i..];
    forall j, k | 0 <= j < k < |new_|
      ensures Apart(new_[j], new_[k])
    {
      var j', k' := if j < i then j else j - 1, if k < i then k else k - 1;
      assert j != i ==> new_[j] == blocks[j'];
      assert k != i ==> new_[k] == blocks[k'];
    }
  }

  lemma Removed(blocks: seq<RamBlock>, i: nat)
    requires ListOk(blocks) && i < |blocks|
    ensures ListOk(blocks[..i] + blocks[i + 1..])
  {
    var new_ := blocks[..i] + blocks[i + 1..];
    assert forall k :: 0 <= k < |new_| ==> new_[k] == if k < i then blocks[k] else blocks[k + 1];
  }

  datatype Op = Add(length: nat, memory: bool) | Release(addr: nat) | Get(addr: nat)

  // ---------- the list ----------

  class Blocks {
    var list: seq<RamBlock>
    var mru: Option<RamBlock>
    var version: nat

    ghost predicate Valid()
      reads this
    {
      ListOk(list) && (mru.Some? ==> mru.value in list)
    }

    constructor ()
      ensures Valid() && list == [] && mru == None
    {
      list, mru, version := [], None, 0;
    }

    /** Where ram_block_add puts a block of this length: before the first shorter one. */
    method Position(length: nat) returns (i: nat)
      ensures i <= |list| && (forall j :: 0 <= j < i ==> list[j].maxLength >= length)
      ensures i < |list| ==> list[i].maxLength < length
    {
      i := 0;
      while i < |list| && list[i].maxLength >= length
        invariant 0 <= i <= |list|
        invariant forall j :: 0 <= j < i ==> list[j].maxLength >= length
      {
        i := i + 1;
      }
    }

    /** ram_block_add: `memory` says whether the host could allocate.  The new block is free space
        of the smallest fitting gap, and the list stays ordered. */
    method Add(length: nat, memory: bool) returns (r: Option<nat>)
      requires Valid() && 0 < length <= RAM_ADDR_MAX
      modifies this
      ensures Valid()
      ensures r.None? ==> list == old(list) && mru == old(mru) && version == old(version)
      ensures r.None? <==>
                !memory || (old(list) != [] && forall i :: 0 <= i < |old(list)| ==> Gap(old(list), i) < length)
      ensures r.Some? ==>
        && Free(old(list), r.value, length) && mru == None && version == old(version) + 1
        && (if old(list) == [] then r.value == 0
            else exists i :: 0 <= i < |old(list)| && r.value == End(old(list)[i]) && BestFit(old(list), length, i))
        && exists i :: 0 <= i <= |old(list)| && list == old(list)[..i] + [RamBlock(r.value, length)] + old(list)[i..]
    {
      r := FindOffset(list, length);
      if r.None? || !memory { return None; }
      if i :| 0 <= i < |list| && r.value == End(list[i]) && BestFit(list, length, i) {
        GapIsFree(list, i, length);
      }
      assert Free(list, r.value, length);
      var i := Position(length);
      var b := RamBlock(r.value, length);
      Inserted(list, i, b);
      list := list[..i] + [b] + list[i..];
      mru, version := None, version + 1;
    }

    /** qemu_ram_free and qemu_ram_free_from_ptr: the block that starts at addr goes, if any. */
    method Release(addr: nat)
      requires Valid()
      modifies this
      ensures Valid()
      ensures (forall i :: 0 <= i < |old(list)| ==> old(list)[i].offset != addr) ==>
                list == old(list) && mru == old(mru) && version == old(version)
      ensures forall i :: 0 <= i < |old(list)| && old(list)[i].offset == addr ==>
        list == old(list)[..i] + old(list)[i + 1..] && mru == None && version == old(version) + 1
    {
      var i := 0;
      while i < |list| && list[i].offset != addr
        invariant 0 <= i <= |list|
        invariant forall j :: 0 <= j < i ==> list[j].offset != addr
      {
        i := i + 1;
      }
      if i < |list| {
        forall j | 0 <= j < |list| && list[j].offset == addr
          ensures j == i
        {
          OneStart(list, i, j);
        }
        Removed(list, i);
        list := list[..i] + list[i + 1..];
        mru, version := None, version + 1;
      }
    }

    /** qemu_get_ram_block: whatever block was used last, the answer is the one block of the list
        that holds the address; None where the source aborts. */
    method Get(addr: nat) returns (r: Option<RamBlock>)
      requires Valid() && addr <= RAM_ADDR_MAX
      modifies `mru
      ensures Valid() && (if r.Some? then mru == r else mru == old(mru))
      ensures r.None? ==> forall i :: 0 <= i < |list| ==> !Contains(list[i], addr)
      ensures r.Some? ==> r.value in list && forall i :: 0 <= i < |list| ==>
                (Contains(list[i], addr) <==> list[i] == r.value)
    {
      if mru.Some? && Hit(mru.value, addr) {
        r := mru;
        var i :| 0 <= i < |list| && list[i] == mru.value;
        HitContains(list[i], addr);
        OnlyOne(list, i, addr);
        return;
      }
      var i := 0;
      while i < |list| && !Hit(list[i], addr)
        invariant 0 <= i <= |list|
        invariant mru == old(mru) && forall j :: 0 <= j < i ==> !Contains(list[j], addr)
      {
        HitContains(list[i], addr);
        i := i + 1;
      }
      if i == |list| { return None; }
      HitContains(list[i], addr);
      OnlyOne(list, i, addr);
      mru := Some(list[i]);
      r := mru;
    }
  }

  /** Any history of additions, removals and lookups keeps the list disjoint and ordered. */
  method History(ops: seq<Op>) returns (b: Blocks)
    requires forall k :: 0 <= k < |ops| ==>
      match ops[k]
      case Add(length, _) => 0 < length <= RAM_ADDR_MAX
      case Release(_) => true
      case Get(addr) => addr <= RAM_ADDR_MAX
    ensures Disjoint(b.list) && Descending(b.list) && b.Valid()
  {
    b := new Blocks();
    var k := 0;
    while k < |ops|
      invariant 0 <= k <= |ops| && b.Valid() && fresh(b)
    {
      match ops[k] {
        case Add(length, memory) => var r := b.Add(length, memory);
        case Release(addr) => b.Release(addr);
        case Get(addr) => var r := b.Get(addr);
      }
      k := k + 1;
    }
  }
}
