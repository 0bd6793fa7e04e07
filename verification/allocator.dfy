/**
 * The quick-fit allocator engine: its state, its construction, the
 * smallest-fit search and the allocation step.
 *
 * Each Python free list only ever holds copies of its own size, so it is
 * modelled by its length: `freeLists` maps a size class to its free count.
 */
module QuickFit {
  import opened Wrappers
  import opened Ordering
  import opened SizeClasses

  /** One allocated block, as stored under its start address. */
  datatype Block = Block(size: nat, process: string, free: bool)

  /** The allocator object: configuration, free counts, allocated blocks, address counter. */
  datatype Allocator = Allocator(
    totalMemory: nat,
    minBlockSize: nat,
    freeLists: map<nat, nat>,
    allocatedBlocks: map<nat, Block>,
    startingAddress: nat)

  /** What `allocate` reports: the chosen size, the process and the start address, or the failed request. */
  datatype AllocResult =
    | Allocated(size: nat, process: string, address: nat)
    | NoSuitableBlock(requested: int, process: string)

  /** The allocator after a call, together with what the call returned. */
  datatype Transition = Transition(state: Allocator, result: AllocResult)

  /** Sum of the free counts of the classes listed in `keys`. */
  function SumCounts(fl: map<nat, nat>, keys: seq<nat>): nat
    requires forall i :: 0 <= i < |keys| ==> keys[i] in fl
  {
    if keys == [] then 0 else fl[keys[0]] + SumCounts(fl, keys[1..])
  }

  /** Number of free blocks over all size classes. */
  function TotalFree(fl: map<nat, nat>): nat {
    SumCounts(fl, SortedKeys(fl.Keys))
  }

  /** Start addresses of the allocated blocks of size `b`. */
  function AddressesOfSize(alloc: map<nat, Block>, b: nat): set<nat> {
    set addr | addr in alloc && alloc[addr].size == b
  }

  /** No two allocated blocks overlap. */
  ghost predicate Disjoint(alloc: map<nat, Block>) {
    forall x, y :: x in alloc && y in alloc && x < y ==> x + alloc[x].size <= y
  }

  /** The declared classes are the ladder of the configuration, all at least the minimum. */
  ghost predicate ClassesDeclared(a: Allocator) {
    && a.minBlockSize > 0
    && (forall b :: b in a.freeLists <==> IsClass(b, a.minBlockSize, a.totalMemory))
    && (forall b :: b in a.freeLists ==> a.minBlockSize <= b)
  }

  /**
   * Every record lies below the address counter, no two overlap, and each
   * has a declared class size and is marked as not free.
   */
  ghost predicate RecordsPlaced(a: Allocator) {
    && (forall addr :: addr in a.allocatedBlocks ==> addr + a.allocatedBlocks[addr].size <= a.startingAddress)
    && Disjoint(a.allocatedBlocks)
    && (forall addr :: addr in a.allocatedBlocks ==>
          a.allocatedBlocks[addr].size in a.freeLists && !a.allocatedBlocks[addr].free)
  }

  /**
   * Nothing is created or lost: per class, the free block plus the blocks
   * handed out number one, and overall the records plus the free blocks
   * number the classes.
   */
  ghost predicate BlocksConserved(a: Allocator) {
    && (forall b :: b in a.freeLists ==> a.freeLists[b] + |AddressesOfSize(a.allocatedBlocks, b)| == 1)
    && |a.allocatedBlocks| + TotalFree(a.freeLists) == |a.freeLists|
  }

  /** The allocator invariant. */
  ghost predicate Valid(a: Allocator) {
    ClassesDeclared(a) && RecordsPlaced(a) && BlocksConserved(a)
  }

  lemma {:induction false} SumCountsOnes(fl: map<nat, nat>, keys: seq<nat>)
    requires forall i :: 0 <= i < |keys| ==> keys[i] in fl && fl[keys[i]] == 1
    ensures SumCounts(fl, keys) == |keys|
  {
    if keys != [] {
      SumCountsOnes(fl, keys[1..]);
    }
  }

  /** Changing the count of one listed class changes the sum by the same amount. */
  lemma {:induction false} SumCountsUpdate(fl: map<nat, nat>, keys: seq<nat>, b: nat, v: nat)
    requires b in fl
    requires StrictlyIncreasing(keys)
    requires forall i :: 0 <= i < |keys| ==> keys[i] in fl
    ensures b in keys ==> SumCounts(fl[b := v], keys) + fl[b] == SumCounts(fl, keys) + v
    ensures b !in keys ==> SumCounts(fl[b := v], keys) == SumCounts(fl, keys)
  {
    if keys != [] {
      SumCountsUpdate(fl, keys[1..], b, v);
      if keys[0] == b {
        assert b !in keys[1..];
      }
    }
  }

  /** Python's `QuickFitMemoryAllocator(total_memory, min_block_size)`. */
  function Init(total: nat, min: nat): (a: Allocator)
    requires min > 0
    ensures a.totalMemory == total && a.minBlockSize == min
    ensures a.allocatedBlocks == map[] && a.startingAddress == 0
    ensures forall b :: b in a.freeLists <==> IsClass(b, min, total)
    ensures forall b :: b in a.freeLists ==> a.freeLists[b] == 1
    ensures Valid(a)
  {
    var fl := Ladder(min, total);
    LadderIsClasses(min, total);
    var keys := SortedKeys(fl.Keys);
    SumCountsOnes(fl, keys);
    assert |fl| == |fl.Keys|;
    Allocator(total, min, fl, map[], 0)
  }

  /** Class `b` is declared and still has a free block. */
  predicate HasFree(fl: map<nat, nat>, b: nat) {
    b in fl && fl[b] > 0
  }

  /** Class `b` serves a request of `size`: it is large enough and has a free block. */
  predicate Fits(fl: map<nat, nat>, b: nat, size: int) {
    HasFree(fl, b) && b >= size
  }

  /** The loop of `_find_suitable_block` over an ascending sequence of classes. */
  function ScanFit(fl: map<nat, nat>, keys: seq<nat>, size: int): (r: Option<nat>)
    requires StrictlyIncreasing(keys)
    ensures r.Some? ==> r.value in keys && Fits(fl, r.value, size)
    ensures r.Some? ==> forall c :: c in keys && Fits(fl, c, size) ==> r.value <= c
    ensures r.None? <==> forall c :: c in keys ==> !Fits(fl, c, size)
  {
    if keys == [] then None
    else if Fits(fl, keys[0], size) then Some(keys[0])
    else ScanFit(fl, keys[1..], size)
  }

  /** `_find_suitable_block`: the smallest class that fits, or None when none does. */
  function FindSuitable(fl: map<nat, nat>, size: int): (r: Option<nat>)
    ensures r.Some? ==> Fits(fl, r.value, size)
    ensures r.Some? ==> forall c :: Fits(fl, c, size) ==> r.value <= c
    ensures r.None? <==> forall c :: !Fits(fl, c, size)
  {
    ScanFit(fl, SortedKeys(fl.Keys), size)
  }

  /** The smallest fit is unique: any class that fits and is below every other fit is the one found. */
  lemma FindSuitableIsLeastFit(fl: map<nat, nat>, size: int, b: nat)
    requires Fits(fl, b, size)
    requires forall c :: Fits(fl, c, size) ==> b <= c
    ensures FindSuitable(fl, size) == Some(b)
  {
    var r := FindSuitable(fl, size);
    assert r.Some?;
    assert r.value <= b && b <= r.value;
  }

  /**
   * The effect of a successful allocation from class `b`: one free block of
   * `b` is consumed, a block is recorded at the counter, and the counter moves
   * past it.
   */
  function Take(a: Allocator, b: nat, process: string): (next: Allocator)
    requires HasFree(a.freeLists, b)
    ensures next.totalMemory == a.totalMemory && next.minBlockSize == a.minBlockSize
    ensures next.freeLists.Keys == a.freeLists.Keys
    ensures next.freeLists[b] + 1 == a.freeLists[b]
    ensures forall c :: c in a.freeLists && c != b ==> next.freeLists[c] == a.freeLists[c]
    ensures next.allocatedBlocks.Keys == a.allocatedBlocks.Keys + {a.startingAddress}
    ensures next.allocatedBlocks[a.startingAddress] == Block(b, process, false)
    ensures forall addr :: addr in a.allocatedBlocks && addr != a.startingAddress ==>
      next.allocatedBlocks[addr] == a.allocatedBlocks[addr]
    ensures next.startingAddress == a.startingAddress + b
  {
    a.(freeLists := a.freeLists[b := a.freeLists[b] - 1],
       allocatedBlocks := a.allocatedBlocks[a.startingAddress := Block(b, process, false)],
       startingAddress := a.startingAddress + b)
  }

  /**
   * `allocate(size, process_name)`: take one free block from the smallest
   * class that fits and report its size and start address; report the failed
   * request and change nothing when no class fits.
   */
  function Allocate(a: Allocator, size: int, process: string): (t: Transition)
    ensures t.result.NoSuitableBlock? <==> forall c :: !Fits(a.freeLists, c, size)
    ensures t.result.NoSuitableBlock? ==> t.state == a && t.result == NoSuitableBlock(size, process)
    ensures t.result.Allocated? ==> Fits(a.freeLists, t.result.size, size)
    ensures t.result.Allocated? ==> forall c :: Fits(a.freeLists, c, size) ==> t.result.size <= c
    ensures t.result.Allocated? ==> t.result.process == process && t.result.address == a.startingAddress
    ensures t.result.Allocated? ==> t.state == Take(a, t.result.size, process)
  {
    match FindSuitable(a.freeLists, size)
    case None => Transition(a, NoSuitableBlock(size, process))
    case Some(b) => Transition(Take(a, b, process), Allocated(b, process, a.startingAddress))
  }

  /** Under the invariant the counter is never a key yet: no record is overwritten. */
  lemma CounterIsFresh(a: Allocator)
    requires Valid(a)
    ensures a.startingAddress !in a.allocatedBlocks
  {
  }

  /** Two free-list maps over the same classes visit them in the same order. */
  lemma SameClassesSameOrder(fl: map<nat, nat>, fl': map<nat, nat>)
    requires fl.Keys == fl'.Keys
    ensures SortedKeys(fl'.Keys) == SortedKeys(fl.Keys)
  {
  }

  /** Consuming one block of a class lowers the total free count by one. */
  lemma TakeLowersTotalFree(a: Allocator, b: nat, process: string)
    requires HasFree(a.freeLists, b)
    ensures TotalFree(Take(a, b, process).freeLists) + 1 == TotalFree(a.freeLists)
  {
    assert Take(a, b, process).freeLists == a.freeLists[b := a.freeLists[b] - 1];
    TotalFreeUpdate(a.freeLists, b, a.freeLists[b] - 1);
  }

  /** Setting the count of one class to `v` changes the total by `v` minus the old count. */
  lemma TotalFreeUpdate(fl: map<nat, nat>, b: nat, v: nat)
    requires b in fl
    ensures TotalFree(fl[b := v]) + fl[b] == TotalFree(fl) + v
  {
    var keys := SortedKeys(fl.Keys);
    SameClassesSameOrder(fl, fl[b := v]);
    SumCountsUpdate(fl, keys, b, v);
  }

  /** A record placed at or beyond the end of every existing block overlaps none of them. */
  lemma RecordKeepsDisjoint(alloc: map<nat, Block>, s: nat, blk: Block)
    requires Disjoint(alloc)
    requires forall addr :: addr in alloc ==> addr + alloc[addr].size <= s
    ensures Disjoint(alloc[s := blk])
  {
    var next := alloc[s := blk];
    forall x, y | x in next && y in next && x < y
      ensures x + next[x].size <= y
    {
      if y == s {
        assert x in alloc;
      } else {
        assert x in alloc && y in alloc;
      }
    }
  }

  /** A fresh record joins exactly the address set of its own size. */
  lemma RecordJoinsItsClass(alloc: map<nat, Block>, s: nat, blk: Block, c: nat)
    requires s !in alloc
    ensures |AddressesOfSize(alloc[s := blk], c)| ==
      |AddressesOfSize(alloc, c)| + (if c == blk.size then 1 else 0)
  {
    if c == blk.size {
      assert AddressesOfSize(alloc[s := blk], c) == AddressesOfSize(alloc, c) + {s};
    } else {
      assert AddressesOfSize(alloc[s := blk], c) == AddressesOfSize(alloc, c);
    }
  }

  /** Per class, the free block and the blocks handed out still number one. */
  lemma TakeKeepsClassCounts(a: Allocator, b: nat, process: string)
    requires HasFree(a.freeLists, b)
    requires a.startingAddress !in a.allocatedBlocks
    requires forall c :: c in a.freeLists ==> a.freeLists[c] + |AddressesOfSize(a.allocatedBlocks, c)| == 1
    ensures forall c :: c in Take(a, b, process).freeLists ==>
      Take(a, b, process).freeLists[c] + |AddressesOfSize(Take(a, b, process).allocatedBlocks, c)| == 1
  {
    var next := Take(a, b, process);
    assert next.allocatedBlocks == a.allocatedBlocks[a.startingAddress := Block(b, process, false)];
    forall c | c in next.freeLists
      ensures next.freeLists[c] + |AddressesOfSize(next.allocatedBlocks, c)| == 1
    {
      RecordJoinsItsClass(a.allocatedBlocks, a.startingAddress, Block(b, process, false), c);
    }
  }

  lemma TakeKeepsClasses(a: Allocator, b: nat, process: string)
    requires ClassesDeclared(a)
    requires HasFree(a.freeLists, b)
    ensures ClassesDeclared(Take(a, b, process))
  {
    assert Take(a, b, process).freeLists.Keys == a.freeLists.Keys;
  }

  lemma TakeKeepsPlacement(a: Allocator, b: nat, process: string)
    requires RecordsPlaced(a)
    requires HasFree(a.freeLists, b)
    ensures RecordsPlaced(Take(a, b, process))
  {
    var next := Take(a, b, process);
    assert next.allocatedBlocks == a.allocatedBlocks[a.startingAddress := Block(b, process, false)];
    RecordKeepsDisjoint(a.allocatedBlocks, a.startingAddress, Block(b, process, false));
  }

  lemma TakeKeepsConservation(a: Allocator, b: nat, process: string)
    requires BlocksConserved(a)
    requires a.startingAddress !in a.allocatedBlocks
    requires HasFree(a.freeLists, b)
    ensures BlocksConserved(Take(a, b, process))
    ensures |Take(a, b, process).allocatedBlocks| == |a.allocatedBlocks| + 1
  {
    var next := Take(a, b, process);
    assert next.allocatedBlocks == a.allocatedBlocks[a.startingAddress := Block(b, process, false)];
    assert |next.allocatedBlocks| == |a.allocatedBlocks| + 1;
    assert |next.freeLists| == |a.freeLists| by {
      assert next.freeLists.Keys == a.freeLists.Keys;
    }
    TakeKeepsClassCounts(a, b, process);
    TakeLowersTotalFree(a, b, process);
  }

  /** A successful allocation keeps the invariant and adds exactly one record. */
  lemma TakePreservesValid(a: Allocator, b: nat, process: string)
    requires Valid(a)
    requires HasFree(a.freeLists, b)
    ensures Valid(Take(a, b, process))
    ensures |Take(a, b, process).allocatedBlocks| == |a.allocatedBlocks| + 1
    ensures Take(a, b, process).startingAddress > a.startingAddress
  {
    CounterIsFresh(a);
    TakeKeepsClasses(a, b, process);
    TakeKeepsPlacement(a, b, process);
    TakeKeepsConservation(a, b, process);
  }

  /** Every allocation step, successful or not, keeps the allocator invariant. */
  lemma AllocatePreservesValid(a: Allocator, size: int, process: string)
    requires Valid(a)
    ensures Valid(Allocate(a, size, process).state)
    ensures Allocate(a, size, process).result.Allocated? ==>
      |Allocate(a, size, process).state.allocatedBlocks| == |a.allocatedBlocks| + 1
  {
    var t := Allocate(a, size, process);
    if t.result.Allocated? {
      TakePreservesValid(a, t.result.size, process);
    }
  }

  /** A successful request consumes one free block and adds one record; a failed one changes neither. */
  lemma AllocateCounts(a: Allocator, size: int, process: string)
    requires Valid(a)
    ensures var t := Allocate(a, size, process);
      var used := if t.result.Allocated? then 1 else 0;
      && TotalFree(t.state.freeLists) + used == TotalFree(a.freeLists)
      && |t.state.allocatedBlocks| == |a.allocatedBlocks| + used
  {
    var t := Allocate(a, size, process);
    if t.result.Allocated? {
      TakeLowersTotalFree(a, t.result.size, process);
      TakePreservesValid(a, t.result.size, process);
    }
  }

  /** Allocation keeps the class set and never raises a free count. */
  lemma AllocateNeverRaisesCounts(a: Allocator, size: int, process: string)
    ensures Allocate(a, size, process).state.freeLists.Keys == a.freeLists.Keys
    ensures forall b :: b in a.freeLists ==> Allocate(a, size, process).state.freeLists[b] <= a.freeLists[b]
  {
    var t := Allocate(a, size, process);
    if t.result.Allocated? {
      assert t.state == Take(a, t.result.size, process);
    }
  }

  /** Taking the last free block of a class leaves that class at zero. */
  lemma TakeLastOfClass(a: Allocator, b: nat, process: string)
    requires b in a.freeLists && a.freeLists[b] == 1
    ensures Take(a, b, process).freeLists == a.freeLists[b := 0]
    ensures Take(a, b, process).allocatedBlocks == a.allocatedBlocks[a.startingAddress := Block(b, process, false)]
  {
  }

  /** A request is served from its least fit, at the counter, exactly as `Take` describes. */
  lemma AllocateTakesLeastFit(a: Allocator, size: int, process: string, b: nat)
    requires Fits(a.freeLists, b, size)
    requires forall c :: Fits(a.freeLists, c, size) ==> b <= c
    ensures Allocate(a, size, process) == Transition(Take(a, b, process), Allocated(b, process, a.startingAddress))
  {
    FindSuitableIsLeastFit(a.freeLists, size, b);
  }

  /** A request larger than the total memory always fails, whatever the free counts. */
  lemma OversizedRequestFails(a: Allocator, size: int, process: string)
    requires Valid(a)
    requires size > a.totalMemory
    ensures Allocate(a, size, process) == Transition(a, NoSuitableBlock(size, process))
  {
  }
}
