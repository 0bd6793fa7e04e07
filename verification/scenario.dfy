/**
 * The default configuration (1024 KB total, 4 KB minimum) driven through a
 * short session: two requests of 10 KB, one of 2000 KB, then the view.
 */
module Scenario {
  import opened Wrappers
  import opened SizeClasses
  import opened QuickFit
  import opened Layout

  /** The nine classes 4, 8, ..., 1024, one free block each. */
  function DefaultFreeLists(): map<nat, nat> {
    map[4 := 1, 8 := 1, 16 := 1, 32 := 1, 64 := 1, 128 := 1, 256 := 1, 512 := 1, 1024 := 1]
  }

  /** `QuickFitMemoryAllocator()` with its default arguments. */
  lemma DefaultAllocator()
    ensures Init(1024, 4).freeLists == DefaultFreeLists()
    ensures Init(1024, 4).allocatedBlocks == map[] && Init(1024, 4).startingAddress == 0
  {
    DefaultLadder();
  }

  /** The classes that fit a 10 KB request, with 16 and 32 possibly used up. */
  lemma FitsForTen(fl: map<nat, nat>, c: nat)
    requires fl.Keys == DefaultFreeLists().Keys
    requires Fits(fl, c, 10)
    ensures c >= 16
  {
    assert c in DefaultFreeLists();
  }

  /** 10 KB goes to the smallest fitting class, 16, at address 0. */
  lemma FirstRequest(a: Allocator)
    requires a.freeLists == DefaultFreeLists() && a.allocatedBlocks == map[] && a.startingAddress == 0
    ensures Allocate(a, 10, "P1").result == Allocated(16, "P1", 0)
    ensures Allocate(a, 10, "P1").state.freeLists == DefaultFreeLists()[16 := 0]
    ensures Allocate(a, 10, "P1").state.allocatedBlocks == map[0 := Block(16, "P1", false)]
    ensures Allocate(a, 10, "P1").state.startingAddress == 16
  {
    forall c | Fits(a.freeLists, c, 10)
      ensures 16 <= c
    {
      FitsForTen(a.freeLists, c);
    }
    AllocateTakesLeastFit(a, 10, "P1", 16);
    assert a.freeLists[16] == 1;
    TakeLastOfClass(a, 16, "P1");
  }

  /** With class 16 used up, the next 10 KB falls through to class 32 at address 16. */
  lemma SecondRequest(a: Allocator)
    requires a.freeLists == DefaultFreeLists()[16 := 0]
    requires a.allocatedBlocks == map[0 := Block(16, "P1", false)] && a.startingAddress == 16
    ensures Allocate(a, 10, "P2").result == Allocated(32, "P2", 16)
    ensures Allocate(a, 10, "P2").state.freeLists == DefaultFreeLists()[16 := 0][32 := 0]
    ensures Allocate(a, 10, "P2").state.allocatedBlocks ==
      map[0 := Block(16, "P1", false), 16 := Block(32, "P2", false)]
    ensures Allocate(a, 10, "P2").state.startingAddress == 48
  {
    forall c | Fits(a.freeLists, c, 10)
      ensures 32 <= c
    {
      FitsForTen(a.freeLists, c);
    }
    AllocateTakesLeastFit(a, 10, "P2", 32);
    assert a.freeLists[32] == 1;
    TakeLastOfClass(a, 32, "P2");
  }

  /** 2000 KB exceeds every class: the request fails and the state is kept. */
  lemma ThirdRequest(a: Allocator)
    requires a.freeLists == DefaultFreeLists()[16 := 0][32 := 0]
    ensures Allocate(a, 2000, "P3") == Transition(a, NoSuitableBlock(2000, "P3"))
  {
    assert forall c :: c in a.freeLists ==> c <= 1024;
  }

  /** A map whose only keys are two distinct addresses has two entries. */
  lemma TwoKeys(m: map<nat, Block>, x: nat, y: nat)
    requires x != y && x in m && y in m
    requires forall z :: z in m ==> z == x || z == y
    ensures |m| == 2
  {
    assert m.Keys == {x, y};
  }

  /** Two records are listed lower address first. */
  lemma UsedPartOfTwo(a: Allocator, x: nat, y: nat)
    requires x < y && x in a.allocatedBlocks && y in a.allocatedBlocks
    requires forall z :: z in a.allocatedBlocks ==> z == x || z == y
    ensures |UsedPart(a)| == 2
    ensures UsedPart(a)[0] == UsedLine(x, a.allocatedBlocks[x])
    ensures UsedPart(a)[1] == UsedLine(y, a.allocatedBlocks[y])
  {
    var used := UsedPart(a);
    assert |used| == 2 by {
      TwoKeys(a.allocatedBlocks, x, y);
    }
    assert used[0].address == x && used[1].address == y by {
      assert used[0].address < used[1].address;
      assert used[0].address in a.allocatedBlocks && used[1].address in a.allocatedBlocks;
    }
  }

  /** Two records, at 0 and 16, are listed in that order. */
  lemma UsedAfterSession(a: Allocator)
    requires 0 in a.allocatedBlocks && 16 in a.allocatedBlocks
    requires forall x :: x in a.allocatedBlocks ==> x == 0 || x == 16
    requires a.allocatedBlocks[0] == Block(16, "P1", false) && a.allocatedBlocks[16] == Block(32, "P2", false)
    ensures |UsedPart(a)| == 2
    ensures UsedPart(a)[0] == Region(0, 16, false, Some("P1"))
    ensures UsedPart(a)[1] == Region(16, 32, false, Some("P2"))
  {
    UsedPartOfTwo(a, 0, 16);
  }

  /** With the 4 KB class the smallest and still free, the first free entry is a 4 KB block at the counter. */
  lemma FreeAfterSession(a: Allocator)
    requires 4 in a.freeLists && a.freeLists[4] == 1
    requires forall c :: c in a.freeLists ==> c >= 4
    ensures |FreePart(a).regions| > 0
    ensures FreePart(a).regions[0] == Region(a.startingAddress, 4, true, None)
  {
    var w := FreePart(a);
    assert Occurrences(w.regions, 4) == 1;
    OccurrencesWitness(w.regions, 4);
    ContiguousFirst(w.regions, a.startingAddress, w.next);
    assert w.regions[0].size <= 4;
    assert w.regions[0].size in a.freeLists;
  }

  /**
   * What the view needs to know of the state after the two 10 KB requests:
   * the 4 KB class is the smallest and still free, the two records sit at 0
   * and 16, and the counter is at 48.
   */
  ghost predicate AfterTwoRequests(a: Allocator) {
    && 4 in a.freeLists && a.freeLists[4] == 1
    && (forall c :: c in a.freeLists ==> c >= 4)
    && 0 in a.allocatedBlocks && 16 in a.allocatedBlocks
    && (forall x :: x in a.allocatedBlocks ==> x == 0 || x == 16)
    && a.allocatedBlocks[0] == Block(16, "P1", false) && a.allocatedBlocks[16] == Block(32, "P2", false)
    && a.startingAddress == 48
  }

  lemma AfterTwoRequestsShape(a: Allocator)
    requires a.freeLists == DefaultFreeLists()[16 := 0][32 := 0]
    requires a.allocatedBlocks == map[0 := Block(16, "P1", false), 16 := Block(32, "P2", false)]
    requires a.startingAddress == 48
    ensures AfterTwoRequests(a)
  {
  }

  /**
   * The view after the session lists the two blocks by address, then the
   * free entries from address 48 on, the first being the 4 KB class.
   */
  lemma ViewAfterSession(a: Allocator)
    requires AfterTwoRequests(a)
    ensures |Display(a).regions| >= 3
    ensures Display(a).regions[0] == Region(0, 16, false, Some("P1"))
    ensures Display(a).regions[1] == Region(16, 32, false, Some("P2"))
    ensures Display(a).regions[2] == Region(48, 4, true, None)
  {
    UsedAfterSession(a);
    FreeAfterSession(a);
    assert Display(a).regions == UsedPart(a) + FreePart(a).regions;
  }

  lemma OccurrencesWitness(rs: seq<Region>, b: nat)
    requires Occurrences(rs, b) > 0
    ensures exists i :: 0 <= i < |rs| && rs[i].size == b
  {
    if rs[0].size != b {
      OccurrencesWitness(rs[1..], b);
      var i :| 0 <= i < |rs[1..]| && rs[1..][i].size == b;
      assert rs[i + 1].size == b;
    }
  }

  /**
   * The whole session from `a0`: 10 KB to "P1" at 0 in class 16, 10 KB to
   * "P2" at 16 in class 32, 2000 KB to "P3" refused with nothing changed, and
   * a view listing both blocks before the free entries that start at 48.
   */
  ghost predicate SessionOutcome(a0: Allocator) {
    var t1 := Allocate(a0, 10, "P1");
    var t2 := Allocate(t1.state, 10, "P2");
    var t3 := Allocate(t2.state, 2000, "P3");
    && t1.result == Allocated(16, "P1", 0)
    && t2.result == Allocated(32, "P2", 16)
    && t3 == Transition(t2.state, NoSuitableBlock(2000, "P3"))
    && AfterTwoRequests(t3.state)
    && |Display(t3.state).regions| >= 3
    && Display(t3.state).regions[0] == Region(0, 16, false, Some("P1"))
    && Display(t3.state).regions[1] == Region(16, 32, false, Some("P2"))
    && Display(t3.state).regions[2] == Region(48, 4, true, None)
  }

  /** Any state with the default free lists, no records and the counter at 0 goes through the session. */
  lemma DefaultSession(a0: Allocator)
    requires a0.freeLists == DefaultFreeLists() && a0.allocatedBlocks == map[] && a0.startingAddress == 0
    ensures SessionOutcome(a0)
  {
    FirstRequest(a0);
    var a1 := Allocate(a0, 10, "P1").state;
    SecondRequest(a1);
    var a2 := Allocate(a1, 10, "P2").state;
    ThirdRequest(a2);
    AfterTwoRequestsShape(a2);
    ViewAfterSession(a2);
  }

  /** `QuickFitMemoryAllocator()` with its default arguments goes through the session. */
  lemma ConstructedSession()
    ensures SessionOutcome(Init(1024, 4))
  {
    DefaultAllocator();
    DefaultSession(Init(1024, 4));
  }
}
