/** The issue-sheet number allocator: read the single Counter document, `$inc`
    its number by one, and return the document as it was BEFORE the update
    (`findByIdAndUpdate` without `{ new: true }`). Also the startup code that
    creates the Counter when there is none. */
module Allocator {
  import opened Documents
  import opened Database

  /** One allocator call on a counter state: what it returns and the counter after. */
  datatype Step = Step(result: Outcome<int>, after: Option<int>)

  function Allocation(counter: Option<int>): (r: Step)
    ensures r.result.Ok? <==> counter.Some?
    ensures r.result.Ok? ==> counter == Some(r.result.value) && r.after == Some(r.result.value + 1)
    ensures counter.None? ==> r.after.None?
  {
    match counter
    case None => Step(Failed(CounterMissing), None)
    case Some(n) => Step(Ok(n), Some(n + 1))
  }

  /** The allocator as the handler runs it against the store: only the
      counter's number changes, no other collection is touched. */
  method NextIssueSheetNumber(db: Store) returns (r: Outcome<int>)
    requires db.Valid()
    modifies db
    ensures db.Valid()
    ensures Step(r, db.counter) == Allocation(old(db.counter))
    ensures db.State() == old(db.State()).(counter := db.counter)
  {
    if db.counter.None? {
      // counter_db[0] is undefined and reading its _id throws
      return Failed(CounterMissing);
    }
    var before := db.counter.value;
    db.counter := Some(before + 1);
    r := Ok(before);
  }

  /** Startup: when no Counter exists, one is created with its default number 1. */
  method Bootstrap(db: Store)
    requires db.Valid()
    modifies db
    ensures db.Valid()
    ensures old(db.counter).None? ==> db.counter == Some(1)
    ensures old(db.counter).Some? ==> db.counter == old(db.counter)
    ensures db.State() == old(db.State()).(counter := db.counter)
  {
    if db.counter.None? {
      db.counter := Some(1);
    }
  }

  /** What `n` successive calls return, and the counter after them. */
  datatype Run = Run(results: seq<Outcome<int>>, after: Option<int>)

  function Allocations(counter: Option<int>, n: nat): (r: Run)
    decreases n
    ensures |r.results| == n
  {
    if n == 0 then Run([], counter)
    else
      var step := Allocation(counter);
      var rest := Allocations(step.after, n - 1);
      Run([step.result] + rest.results, rest.after)
  }

  /** From counter value `c`, `n` calls return c, c+1, ..., c+n-1 and leave
      the counter at c+n. */
  lemma {:induction false} AllocationsFrom(c: int, n: nat)
    decreases n
    ensures |Allocations(Some(c), n).results| == n
    ensures forall k :: 0 <= k < n ==> Allocations(Some(c), n).results[k] == Ok(c + k)
    ensures Allocations(Some(c), n).after == Some(c + n)
  {
    if n > 0 {
      AllocationsFrom(c + 1, n - 1);
      var rest := Allocations(Some(c + 1), n - 1);
      forall k | 0 <= k < n
        ensures Allocations(Some(c), n).results[k] == Ok(c + k)
      {
        if k > 0 {
          assert Allocations(Some(c), n).results[k] == rest.results[k - 1];
        }
      }
    }
  }

  /** Successive calls return strictly increasing values, so no number is
      ever handed out twice. */
  lemma AllocationsIncrease(c: int, n: nat, i: nat, j: nat)
    requires i < j < n
    ensures |Allocations(Some(c), n).results| == n
    ensures Allocations(Some(c), n).results[i].Ok?
    ensures Allocations(Some(c), n).results[j].Ok?
    ensures Allocations(Some(c), n).results[i].value < Allocations(Some(c), n).results[j].value
  {
    AllocationsFrom(c, n);
  }

  /** Without a Counter every call fails and nothing changes. */
  lemma {:induction false} AllocationsWithoutCounter(n: nat)
    decreases n
    ensures |Allocations(None, n).results| == n
    ensures Allocations(None, n).after == None
    ensures forall k :: 0 <= k < |Allocations(None, n).results| ==> Allocations(None, n).results[k] == Failed(CounterMissing)
  {
    if n > 0 {
      AllocationsWithoutCounter(n - 1);
    }
  }

  /** From a fresh database, startup then one call returns 1 and leaves the counter at 2. */
  method FirstAllocation() returns (r: Outcome<int>, after: Option<int>)
    ensures r == Ok(1) && after == Some(2)
  {
    var db := new Store();
    Bootstrap(db);
    r := NextIssueSheetNumber(db);
    after := db.counter;
  }
}
