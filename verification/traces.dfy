/**
 * Sequences of allocation requests with no view in between: the addresses
 * they are given and the blocks they consume.
 */
module Traces {
  import opened Ordering
  import opened SizeClasses
  import opened QuickFit

  /** One call `allocate(size, process_name)`. */
  datatype Request = Request(size: int, process: string)

  /** The allocator after a run of requests and what each request returned. */
  datatype Trace = Trace(state: Allocator, results: seq<AllocResult>)

  /** Serve the requests one after the other. */
  function Run(a: Allocator, reqs: seq<Request>): (t: Trace)
    ensures |t.results| == |reqs|
    decreases |reqs|
  {
    if reqs == [] then Trace(a, [])
    else
      var step := Allocate(a, reqs[0].size, reqs[0].process);
      var rest := Run(step.state, reqs[1..]);
      Trace(rest.state, [step.result] + rest.results)
  }

  /** Number of successful results. */
  function Successes(rs: seq<AllocResult>): nat {
    if rs == [] then 0 else (if rs[0].Allocated? then 1 else 0) + Successes(rs[1..])
  }

  /** Total size handed out by the successful results. */
  function SuccessBytes(rs: seq<AllocResult>): nat {
    if rs == [] then 0 else (if rs[0].Allocated? then rs[0].size else 0) + SuccessBytes(rs[1..])
  }

  /**
   * Each successful allocation of a run is placed right after the blocks the
   * earlier successes of the run were given, starting at the counter the run
   * began with; the counter ends past all of them.
   */
  lemma {:induction false} RunAddressesContiguous(a: Allocator, reqs: seq<Request>)
    ensures forall i :: 0 <= i < |reqs| && Run(a, reqs).results[i].Allocated? ==>
      Run(a, reqs).results[i].address == a.startingAddress + SuccessBytes(Run(a, reqs).results[..i])
    ensures Run(a, reqs).state.startingAddress == a.startingAddress + SuccessBytes(Run(a, reqs).results)
    decreases |reqs|
  {
    if reqs != [] {
      var step := Allocate(a, reqs[0].size, reqs[0].process);
      var rest := Run(step.state, reqs[1..]);
      RunAddressesContiguous(step.state, reqs[1..]);
      var rs := Run(a, reqs).results;
      assert rs == [step.result] + rest.results;
      assert rs[1..] == rest.results;
      var before := if step.result.Allocated? then step.result.size else 0;
      assert step.state.startingAddress == a.startingAddress + before;
      forall i | 0 <= i < |reqs| && rs[i].Allocated?
        ensures rs[i].address == a.startingAddress + SuccessBytes(rs[..i])
      {
        if i == 0 {
          assert rs[..0] == [];
        } else {
          assert rs[..i][1..] == rest.results[..i - 1];
          assert rs[i] == rest.results[i - 1];
        }
      }
    }
  }

  /** A run keeps the invariant and the class set, and never raises a free count. */
  lemma {:induction false} RunKeepsValid(a: Allocator, reqs: seq<Request>)
    requires Valid(a)
    ensures Valid(Run(a, reqs).state)
    ensures Run(a, reqs).state.freeLists.Keys == a.freeLists.Keys
    ensures forall b :: b in a.freeLists ==> Run(a, reqs).state.freeLists[b] <= a.freeLists[b]
    decreases |reqs|
  {
    if reqs != [] {
      var step := Allocate(a, reqs[0].size, reqs[0].process);
      AllocatePreservesValid(a, reqs[0].size, reqs[0].process);
      AllocateNeverRaisesCounts(a, reqs[0].size, reqs[0].process);
      RunKeepsValid(step.state, reqs[1..]);
      var last := Run(a, reqs).state;
      assert last == Run(step.state, reqs[1..]).state;
      forall b | b in a.freeLists
        ensures last.freeLists[b] <= a.freeLists[b]
      {
        assert b in step.state.freeLists;
      }
    }
  }

  /**
   * Every success of a run consumes one free block and adds one record, so
   * no record is ever overwritten and nothing is lost.
   */
  lemma {:induction false} RunConserves(a: Allocator, reqs: seq<Request>)
    requires Valid(a)
    ensures Successes(Run(a, reqs).results) + TotalFree(Run(a, reqs).state.freeLists) == TotalFree(a.freeLists)
    ensures |Run(a, reqs).state.allocatedBlocks| == |a.allocatedBlocks| + Successes(Run(a, reqs).results)
    decreases |reqs|
  {
    if reqs != [] {
      var step := Allocate(a, reqs[0].size, reqs[0].process);
      var rest := Run(step.state, reqs[1..]);
      AllocatePreservesValid(a, reqs[0].size, reqs[0].process);
      AllocateCounts(a, reqs[0].size, reqs[0].process);
      RunConserves(step.state, reqs[1..]);
      assert Run(a, reqs) == Trace(rest.state, [step.result] + rest.results);
      var rs := Run(a, reqs).results;
      assert Successes(rs) == (if step.result.Allocated? then 1 else 0) + Successes(rest.results) by {
        assert rs[1..] == rest.results;
      }
    }
  }

  /**
   * From a fresh allocator, with no view in between: the i-th success is
   * placed at the sum of the sizes handed out before it, and the successes
   * plus the remaining free blocks number the size classes.
   */
  lemma FreshRun(total: nat, min: nat, reqs: seq<Request>)
    requires min > 0
    ensures forall i :: 0 <= i < |reqs| && Run(Init(total, min), reqs).results[i].Allocated? ==>
      Run(Init(total, min), reqs).results[i].address == SuccessBytes(Run(Init(total, min), reqs).results[..i])
    ensures Successes(Run(Init(total, min), reqs).results) + TotalFree(Run(Init(total, min), reqs).state.freeLists)
      == |Init(total, min).freeLists|
  {
    var a := Init(total, min);
    RunAddressesContiguous(a, reqs);
    RunConserves(a, reqs);
  }
}
