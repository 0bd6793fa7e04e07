/**
 * The layout view of `display_memory_state`: the allocated blocks in
 * ascending address order, then one entry per remaining free block in
 * ascending class order. Free entries get synthetic addresses by walking the
 * allocator's own address counter forward, so the view changes the state.
 */
module Layout {
  import opened Wrappers
  import opened Ordering
  import opened QuickFit

  /** One line of the view, as a record rather than formatted text. */
  datatype Region = Region(address: nat, size: nat, free: bool, process: Option<string>)

  /** The lines of the view together with the allocator it leaves behind. */
  datatype View = View(state: Allocator, regions: seq<Region>)

  /** Free entries produced by a stretch of the walk and the counter value it ends at. */
  datatype Walk = Walk(regions: seq<Region>, next: nat)

  /** Total size of the listed regions. */
  function SizeSum(rs: seq<Region>): nat {
    if rs == [] then 0 else rs[0].size + SizeSum(rs[1..])
  }

  /** Number of listed regions of size `b`. */
  function Occurrences(rs: seq<Region>, b: nat): nat {
    if rs == [] then 0 else (if rs[0].size == b then 1 else 0) + Occurrences(rs[1..], b)
  }

  /** Free capacity of the listed classes: class size times free count, summed. */
  function Bytes(fl: map<nat, nat>, keys: seq<nat>): nat
    requires forall k :: k in keys ==> k in fl
  {
    if keys == [] then 0 else keys[0] * fl[keys[0]] + Bytes(fl, keys[1..])
  }

  /** Free capacity over all size classes. */
  function FreeBytes(fl: map<nat, nat>): nat {
    Bytes(fl, SortedKeys(fl.Keys))
  }

  lemma {:induction false} SizeSumAppend(x: seq<Region>, y: seq<Region>)
    ensures SizeSum(x + y) == SizeSum(x) + SizeSum(y)
  {
    if x != [] {
      assert (x + y)[1..] == x[1..] + y;
      SizeSumAppend(x[1..], y);
    } else {
      assert x + y == y;
    }
  }

  lemma {:induction false} OccurrencesAppend(x: seq<Region>, y: seq<Region>, b: nat)
    ensures Occurrences(x + y, b) == Occurrences(x, b) + Occurrences(y, b)
  {
    if x != [] {
      assert (x + y)[1..] == x[1..] + y;
      OccurrencesAppend(x[1..], y, b);
    } else {
      assert x + y == y;
    }
  }

  /**
   * The regions are laid out back to back from `start`: each one begins
   * where the earlier ones end, and the walk stops at `end`.
   */
  ghost predicate Contiguous(rs: seq<Region>, start: nat, end: nat) {
    && (forall i :: 0 <= i < |rs| ==> rs[i].address == start + SizeSum(rs[..i]))
    && end == start + SizeSum(rs)
  }

  /** A contiguous walk starts at its start address. */
  lemma ContiguousFirst(rs: seq<Region>, start: nat, end: nat)
    requires Contiguous(rs, start, end) && |rs| > 0
    ensures rs[0].address == start
  {
    assert rs[0].address == start + SizeSum(rs[..0]);
    assert rs[..0] == [];
  }

  lemma ContiguousCons(r: Region, rs: seq<Region>, start: nat, end: nat)
    requires r.address == start
    requires Contiguous(rs, start + r.size, end)
    ensures Contiguous([r] + rs, start, end)
  {
    var all := [r] + rs;
    forall i | 0 <= i < |all|
      ensures all[i].address == start + SizeSum(all[..i])
    {
      if i > 0 {
        assert all[..i] == [r] + rs[..i - 1];
        assert all[..i][1..] == rs[..i - 1];
      }
    }
    assert all[1..] == rs;
  }

  lemma ContiguousAppend(x: seq<Region>, y: seq<Region>, start: nat, mid: nat, end: nat)
    requires Contiguous(x, start, mid)
    requires Contiguous(y, mid, end)
    ensures Contiguous(x + y, start, end)
  {
    var all := x + y;
    forall i | 0 <= i < |all|
      ensures all[i].address == start + SizeSum(all[..i])
    {
      if i >= |x| {
        assert all[..i] == x + y[..i - |x|];
        SizeSumAppend(x, y[..i - |x|]);
      } else {
        assert all[..i] == x[..i];
      }
    }
    SizeSumAppend(x, y);
  }

  /**
   * The inner loop of the free walk: one free entry per free block of class
   * `size`, the counter advancing by `size` after each.
   */
  function FreeRun(size: nat, count: nat, addr: nat): (w: Walk)
    ensures |w.regions| == count
    ensures forall i :: 0 <= i < count ==>
      w.regions[i].size == size && w.regions[i].free && w.regions[i].process == None
    ensures forall b :: Occurrences(w.regions, b) == if b == size then count else 0
    ensures SizeSum(w.regions) == size * count
    ensures Contiguous(w.regions, addr, w.next)
  {
    if count == 0 then Walk([], addr)
    else
      var rest := FreeRun(size, count - 1, addr + size);
      var r := Region(addr, size, true, None);
      ContiguousCons(r, rest.regions, addr, rest.next);
      assert ([r] + rest.regions)[1..] == rest.regions;
      assert size * count == size + size * (count - 1);
      Walk([r] + rest.regions, rest.next)
  }

  /** The outer loop of the free walk, over the classes in `keys` in order. */
  function FreeRegions(fl: map<nat, nat>, keys: seq<nat>, addr: nat): (w: Walk)
    requires StrictlyIncreasing(keys)
    requires forall k :: k in keys ==> k in fl
    ensures |w.regions| == SumCounts(fl, keys)
    ensures forall i :: 0 <= i < |w.regions| ==>
      w.regions[i].free && w.regions[i].process == None && w.regions[i].size in keys
    ensures forall i, j :: 0 <= i < j < |w.regions| ==> w.regions[i].size <= w.regions[j].size
    ensures forall b :: Occurrences(w.regions, b) == if b in keys then fl[b] else 0
    ensures SizeSum(w.regions) == Bytes(fl, keys)
    ensures Contiguous(w.regions, addr, w.next)
  {
    if keys == [] then Walk([], addr)
    else
      var k := keys[0];
      var run := FreeRun(k, fl[k], addr);
      var rest := FreeRegions(fl, keys[1..], run.next);
      FreeWalkJoin(fl, keys, run.regions, rest.regions);
      ContiguousAppend(run.regions, rest.regions, addr, run.next, rest.next);
      SizeSumAppend(run.regions, rest.regions);
      Walk(run.regions + rest.regions, rest.next)
  }

  /** Joining the entries of the first class with those of the later classes keeps order and counts. */
  lemma FreeWalkJoin(fl: map<nat, nat>, keys: seq<nat>, run: seq<Region>, rest: seq<Region>)
    requires StrictlyIncreasing(keys) && |keys| > 0
    requires forall k :: k in keys ==> k in fl
    requires forall i :: 0 <= i < |run| ==> run[i].size == keys[0] && run[i].free && run[i].process == None
    requires forall b :: Occurrences(run, b) == if b == keys[0] then fl[keys[0]] else 0
    requires forall i :: 0 <= i < |rest| ==> rest[i].free && rest[i].process == None && rest[i].size in keys[1..]
    requires forall i, j :: 0 <= i < j < |rest| ==> rest[i].size <= rest[j].size
    requires forall b :: Occurrences(rest, b) == if b in keys[1..] then fl[b] else 0
    ensures forall i :: 0 <= i < |run + rest| ==>
      (run + rest)[i].free && (run + rest)[i].process == None && (run + rest)[i].size in keys
    ensures forall i, j :: 0 <= i < j < |run + rest| ==> (run + rest)[i].size <= (run + rest)[j].size
    ensures forall b :: Occurrences(run + rest, b) == if b in keys then fl[b] else 0
  {
    var all := run + rest;
    forall i | 0 <= i < |all|
      ensures all[i].free && all[i].process == None && all[i].size in keys
    {
      if i >= |run| {
        assert all[i] == rest[i - |run|];
      }
    }
    forall i, j | 0 <= i < j < |all|
      ensures all[i].size <= all[j].size
    {
      if j >= |run| {
        assert all[j] == rest[j - |run|];
        var m :| 0 <= m < |keys[1..]| && keys[1..][m] == all[j].size;
        assert keys[0] < keys[m + 1];
        if i >= |run| {
          assert all[i] == rest[i - |run|];
        }
      }
    }
    forall b
      ensures Occurrences(all, b) == if b in keys then fl[b] else 0
    {
      OccurrencesAppend(run, rest, b);
      if b == keys[0] {
        assert b !in keys[1..];
      }
    }
  }

  /** The line for one allocated block. */
  function UsedLine(addr: nat, blk: Block): Region {
    Region(addr, blk.size, blk.free, Some(blk.process))
  }

  /** The first loop of the view: one line per allocated block, at the given addresses. */
  function UsedRegions(alloc: map<nat, Block>, addrs: seq<nat>): (rs: seq<Region>)
    requires forall x :: x in addrs ==> x in alloc
    ensures |rs| == |addrs|
    ensures forall i :: 0 <= i < |rs| ==> rs[i] == UsedLine(addrs[i], alloc[addrs[i]])
  {
    if addrs == [] then [] else [UsedLine(addrs[0], alloc[addrs[0]])] + UsedRegions(alloc, addrs[1..])
  }

  /** The allocated part of the view: the records by ascending address. */
  function UsedPart(a: Allocator): (rs: seq<Region>)
    ensures |rs| == |a.allocatedBlocks|
    ensures forall i, j :: 0 <= i < j < |rs| ==> rs[i].address < rs[j].address
    ensures forall i :: 0 <= i < |rs| ==>
      rs[i].address in a.allocatedBlocks && rs[i] == UsedLine(rs[i].address, a.allocatedBlocks[rs[i].address])
    ensures forall addr :: addr in a.allocatedBlocks ==> exists i :: 0 <= i < |rs| && rs[i].address == addr
  {
    var addrs := SortedKeys(a.allocatedBlocks.Keys);
    UsedRegionsCover(a.allocatedBlocks, addrs);
    UsedRegions(a.allocatedBlocks, addrs)
  }

  /** Listing the records at every address, in ascending order, lists each record once, in that order. */
  lemma UsedRegionsCover(alloc: map<nat, Block>, addrs: seq<nat>)
    requires StrictlyIncreasing(addrs)
    requires forall x :: x in addrs <==> x in alloc
    ensures forall i, j :: 0 <= i < j < |addrs| ==>
      UsedRegions(alloc, addrs)[i].address < UsedRegions(alloc, addrs)[j].address
    ensures forall i :: 0 <= i < |addrs| ==>
      UsedRegions(alloc, addrs)[i].address in alloc
      && UsedRegions(alloc, addrs)[i] == UsedLine(UsedRegions(alloc, addrs)[i].address, alloc[UsedRegions(alloc, addrs)[i].address])
    ensures forall addr :: addr in alloc ==>
      exists i :: 0 <= i < |addrs| && UsedRegions(alloc, addrs)[i].address == addr
  {
    var rs := UsedRegions(alloc, addrs);
    assert forall i :: 0 <= i < |addrs| ==> rs[i].address == addrs[i];
    forall addr | addr in alloc
      ensures exists i :: 0 <= i < |addrs| && rs[i].address == addr
    {
      assert addr in addrs;
      var i :| 0 <= i < |addrs| && addrs[i] == addr;
      assert rs[i].address == addr;
    }
  }

  /** The free part of the view: the walk over all classes from the current counter. */
  function FreePart(a: Allocator): (w: Walk)
    ensures |w.regions| == TotalFree(a.freeLists)
    ensures forall i :: 0 <= i < |w.regions| ==>
      w.regions[i].free && w.regions[i].process == None && w.regions[i].size in a.freeLists
    ensures forall i, j :: 0 <= i < j < |w.regions| ==> w.regions[i].size <= w.regions[j].size
    ensures forall b :: b in a.freeLists ==> Occurrences(w.regions, b) == a.freeLists[b]
    ensures forall b :: b !in a.freeLists ==> Occurrences(w.regions, b) == 0
    ensures Contiguous(w.regions, a.startingAddress, w.next)
    ensures w.next == a.startingAddress + FreeBytes(a.freeLists)
  {
    FreeRegions(a.freeLists, SortedKeys(a.freeLists.Keys), a.startingAddress)
  }

  /**
   * `display_memory_state`: the allocated part followed by the free part;
   * the address counter is left pointing past the last free entry.
   */
  function Display(a: Allocator): (v: View)
    ensures v.state == a.(startingAddress := a.startingAddress + FreeBytes(a.freeLists))
    ensures v.regions == UsedPart(a) + FreePart(a).regions
  {
    View(a.(startingAddress := FreePart(a).next), UsedPart(a) + FreePart(a).regions)
  }

  /** While some block is free, the view's first free entry sits at the counter. */
  lemma FirstFreeEntry(a: Allocator)
    requires TotalFree(a.freeLists) > 0
    ensures |Display(a).regions| > |a.allocatedBlocks|
    ensures Display(a).regions[|a.allocatedBlocks|].address == a.startingAddress
    ensures Display(a).regions[|a.allocatedBlocks|].size in a.freeLists
  {
    var n := |a.allocatedBlocks|;
    var w := FreePart(a);
    var rs := Display(a).regions;
    assert rs == UsedPart(a) + w.regions;
    assert rs[n] == w.regions[0];
    ContiguousFirst(w.regions, a.startingAddress, w.next);
  }

  /** The view keeps the allocator invariant: it only moves the counter forward. */
  lemma DisplayPreservesValid(a: Allocator)
    requires Valid(a)
    ensures Valid(Display(a).state)
  {
    var next := Display(a).state;
    assert ClassesDeclared(next);
    assert RecordsPlaced(next);
    assert BlocksConserved(next);
  }

  /**
   * The view is not idempotent: while some block is free, a second view
   * lists the first free entry at a strictly larger address, and the counter
   * that the next allocation will use has moved again.
   */
  lemma DisplayNotIdempotent(a: Allocator)
    requires Valid(a)
    requires TotalFree(a.freeLists) > 0
    ensures Display(a).state.startingAddress > a.startingAddress
    ensures Display(Display(a).state).regions != Display(a).regions
  {
    var n := |a.allocatedBlocks|;
    var first := Display(a);
    var second := Display(first.state);
    assert forall b :: b in a.freeLists ==> b > 0 by {
      assert ClassesDeclared(a);
    }
    FirstFreeEntry(a);
    assert first.state.startingAddress == a.startingAddress + SizeSum(FreePart(a).regions);
    assert first.state.allocatedBlocks == a.allocatedBlocks && first.state.freeLists == a.freeLists;
    FirstFreeEntry(first.state);
    assert second.regions[n].address != first.regions[n].address;
  }

  /**
   * A view between two allocations does not change which class the next
   * request gets, but moves the address it is given past the view's free
   * walk instead of the last real allocation.
   */
  lemma DisplayShiftsNextAllocation(a: Allocator, size: int, process: string)
    ensures Allocate(Display(a).state, size, process).result.Allocated?
      <==> Allocate(a, size, process).result.Allocated?
    ensures Allocate(a, size, process).result.Allocated? ==>
      Allocate(Display(a).state, size, process).result ==
        Allocated(Allocate(a, size, process).result.size, process, a.startingAddress + FreeBytes(a.freeLists))
  {
    var d := Display(a).state;
    assert d.freeLists == a.freeLists;
    assert d.startingAddress == a.startingAddress + FreeBytes(a.freeLists);
    assert FindSuitable(d.freeLists, size) == FindSuitable(a.freeLists, size);
  }
}
