/** The mint itself: new candidate records for the planned items, and what a second run finds. */
module ScopeMint {
  import opened Common
  import opened Seqs
  import opened ScopeItem
  import opened ScopePlan
  import IdAlloc

  // ---- fan-out: what a new record depends on ----

  /** One declared dependency becomes the batch-mate's new id, or all children it already has. */
  function DepsOf(d: Id, minted: map<Id, Id>, children: map<Id, seq<Id>>): seq<Id> {
    if d in minted then [minted[d]] else if d in children then children[d] else []
  }

  function FanOut(depends: seq<Id>, minted: map<Id, Id>, children: map<Id, seq<Id>>): (deps: seq<Id>)
    ensures forall x :: x in deps <==> exists i :: 0 <= i < |depends| && x in DepsOf(depends[i], minted, children)
  {
    if depends == [] then []
    else
      var init, last := depends[..|depends| - 1], depends[|depends| - 1];
      assert forall i :: 0 <= i < |init| ==> init[i] == depends[i];
      FanOut(init, minted, children) + DepsOf(last, minted, children)
  }

  /** Each declared dependency brings its own, one after the other in declared order. */
  lemma {:induction false} FanOutInOrder(a: seq<Id>, b: seq<Id>, minted: map<Id, Id>, children: map<Id, seq<Id>>)
    ensures FanOut(a + b, minted, children) == FanOut(a, minted, children) + FanOut(b, minted, children)
  {
    if b == [] {
      assert a + b == a;
    } else {
      var init, last := b[..|b| - 1], DepsOf(b[|b| - 1], minted, children);
      assert (a + b)[..|a + b| - 1] == a + init;
      FanOutInOrder(a, init, minted, children);
      Regroup(FanOut(a, minted, children), FanOut(init, minted, children), last);
    }
  }

  lemma Regroup(a: seq<Id>, b: seq<Id>, c: seq<Id>)
    ensures (a + b) + c == a + (b + c)
  {
  }

  lemma FanOutOfOne(d: Id, minted: map<Id, Id>, children: map<Id, seq<Id>>)
    ensures FanOut([d], minted, children) == DepsOf(d, minted, children)
  {
    assert [d][..0] == [];
  }

  // ---- the records of one mint ----

  function BatchIds(items: seq<Item>, batch: seq<nat>): (ids: seq<Id>)
    requires forall k :: 0 <= k < |batch| ==> batch[k] < |items|
    ensures |ids| == |batch| && forall k :: 0 <= k < |batch| ==> ids[k] == items[batch[k]].id
  {
    seq(|batch|, k requires 0 <= k < |batch| => items[batch[k]].id)
  }

  /** `minted` gives the k-th of these scope items the k-th number from `first` on. */
  ghost predicate MintedIn(ids: seq<Id>, first: nat, minted: map<Id, Id>) {
    && NoDup(ids) && (forall d :: d in minted <==> d in ids)
    && forall k :: 0 <= k < |ids| ==> minted[ids[k]] == IdAlloc.Fmt(IdAlloc.CANDIDATE, first + k)
  }

  /** The batch can be minted: its ids are given, distinct, and none has children yet. */
  ghost predicate Mintworthy(ids: seq<Id>, children: map<Id, seq<Id>>) {
    NoDup(ids) && AllNew(ids, children)
  }

  ghost predicate AllNew(ids: seq<Id>, children: map<Id, seq<Id>>) {
    forall k :: 0 <= k < |ids| ==> ids[k] != "" && ids[k] !in children
  }

  lemma NextMint(ids: seq<Id>, k: nat, first: nat, minted: map<Id, Id>, sc: Id)
    requires sc == IdAlloc.Fmt(IdAlloc.CANDIDATE, first + k)
    requires k < |ids| && MintedIn(ids[..k], first, minted) && ids[k] !in minted
    ensures MintedIn(ids[..k + 1], first, minted[ids[k] := sc])
  {
    TakeNext(ids, k);
    MintedOneMore(ids[..k], ids[k], first, minted, sc);
  }

  lemma MintedOneMore(done: seq<Id>, x: Id, first: nat, minted: map<Id, Id>, sc: Id)
    requires sc == IdAlloc.Fmt(IdAlloc.CANDIDATE, first + |done|)
    requires MintedIn(done, first, minted) && x !in minted
    ensures MintedIn(done + [x], first, minted[x := sc])
  {
    NoDupAppend(done, x);
    forall k | 0 <= k < |done|
      ensures done[k] in minted && done[k] != x
    {
      assert done[k] in done;
    }
  }

  lemma StillNew(ids: seq<Id>, k: nat, children: map<Id, seq<Id>>)
    requires k < |ids| && AllNew(ids[..k], children) && ids[k] != "" && ids[k] !in children
    ensures AllNew(ids[..k + 1], children)
  {
    assert ids[..k + 1] == ids[..k] + [ids[k]];
  }

  lemma CannotMint(ids: seq<Id>, k: nat, first: nat, minted: map<Id, Id>, children: map<Id, seq<Id>>)
    requires k < |ids| && MintedIn(ids[..k], first, minted)
    requires ids[k] == "" || ids[k] in children || ids[k] in minted
    ensures !Mintworthy(ids, children)
  {
    if ids[k] in minted {
      var j :| 0 <= j < k && ids[..k][j] == ids[k];
      assert !Differ(ids, j, k);
    }
  }

  function RecordOf(it: Item, minted: map<Id, Id>, children: map<Id, seq<Id>>): Cand
    requires it.id in minted
  {
    Cand(minted[it.id], it.title, [it.id], FanOut(it.depends, minted, children))
  }

  /** One new record for each planned item, in plan order. */
  ghost predicate Records(items: seq<Item>, batch: seq<nat>, minted: map<Id, Id>, children: map<Id, seq<Id>>,
                          records: seq<Cand>) {
    && |records| == |batch|
    && forall k :: 0 <= k < |batch| ==>
        batch[k] < |items| && items[batch[k]].id in minted &&
        records[k] == RecordOf(items[batch[k]], minted, children)
  }

  function IdsOf(cands: seq<Cand>): (ids: seq<Id>)
    ensures |ids| == |cands| && forall i :: 0 <= i < |ids| ==> ids[i] == cands[i].id
  {
    seq(|cands|, i requires 0 <= i < |cands| => cands[i].id)
  }

  datatype Outcome = Minted(plan: Plan) | Refused

  class Backlog {
    var live: seq<Cand>
    var archive: seq<Cand>
    var counter: int

    constructor (live: seq<Cand>, archive: seq<Cand>, counter: int)
      ensures this.live == live && this.archive == archive && this.counter == counter
    {
      this.live, this.archive, this.counter := live, archive, counter;
    }

    /** What the planner sees: both files, one after the other. */
    ghost function Observed(): seq<Cand>
      reads this
    {
      live + archive
    }

    /** One step of pass 1: the next number for this id, or a refusal when it cannot be minted. */
    method MintOne(wanted: seq<Id>, k: nat, ghost first: nat, children: map<Id, seq<Id>>, ids: map<Id, Id>, floor: nat)
      returns (more: Option<map<Id, Id>>)
      requires k < |wanted| && MintedIn(wanted[..k], first, ids) && AllNew(wanted[..k], children)
      requires first + k == IdAlloc.Next(counter, floor)
      modifies this`counter
      ensures more.None? ==> !Mintworthy(wanted, children)
      ensures more.Some? ==> counter == first + k && MintedIn(wanted[..k + 1], first, more.value)
      ensures more.Some? ==> AllNew(wanted[..k + 1], children)
    {
      if wanted[k] == "" || wanted[k] in children || wanted[k] in ids {
        CannotMint(wanted, k, first, ids, children);
        return None;
      }
      counter := IdAlloc.Next(counter, floor);
      var sc := IdAlloc.Fmt(IdAlloc.CANDIDATE, counter);
      NextMint(wanted, k, first, ids, sc);
      StillNew(wanted, k, children);
      more := Some(ids[wanted[k] := sc]);
    }

    /** Pass 1: ids for the batch, or a refusal when an item has none of its own or two items share one. */
    method MintIds(wanted: seq<Id>, children: map<Id, seq<Id>>, floor: nat)
      returns (minted: Option<map<Id, Id>>, ghost first: nat)
      modifies this`counter
      ensures minted.None? <==> !Mintworthy(wanted, children)
      ensures first == IdAlloc.Next(old(counter), floor)
      ensures minted.Some? ==> MintedIn(wanted, first, minted.value)
      ensures minted.Some? ==> counter == CounterAfter(old(counter), first, |wanted|)
    {
      minted, first := Some(map[]), IdAlloc.Next(counter, floor);
      for k := 0 to |wanted|
        invariant minted.Some? && MintedIn(wanted[..k], first, minted.value) && AllNew(wanted[..k], children)
        invariant counter == CounterAfter(old(counter), first, k)
      {
        minted := MintOne(wanted, k, first, children, minted.value, floor);
        if minted.None? {
          return;
        }
      }
      TakeWhole(wanted);
    }

    /** Pass 2: the records, in plan order, or a refusal at the first item that makes none. */
    method Build(items: seq<Item>, batch: seq<nat>, unfit: set<nat>, minted: map<Id, Id>,
                 children: map<Id, seq<Id>>) returns (records: Option<seq<Cand>>)
      requires forall k :: 0 <= k < |batch| ==> batch[k] < |items| && items[batch[k]].id in minted
      ensures records.None? <==> AnyUnfit(batch, unfit)
      ensures records.Some? ==> Records(items, batch, minted, children, records.value)
    {
      var recs := [];
      for k := 0 to |batch|
        invariant !AnyUnfit(batch[..k], unfit) && Records(items, batch[..k], minted, children, recs)
      {
        if batch[k] in unfit {
          return None;
        }
        recs := recs + [RecordOf(items[batch[k]], minted, children)];
        assert batch[..k + 1] == batch[..k] + [batch[k]];
      }
      assert batch[..|batch|] == batch;
      records := Some(recs);
    }

    /**
     Plans over both files and appends one record for each planned item, or changes nothing. `unfit` are the places
     of the items that no record can be made from: without a blocking assumption, or with a contract field empty.
    */
    method Materialize(items: seq<Item>, acknowledged: set<Id>, unfit: set<nat>)
      returns (outcome: Outcome, ghost records: seq<Cand>)
      modifies this
      ensures archive == old(archive) && live == old(live) + records
      ensures outcome.Refused? <==> RefusalIsDue(items, old(Observed()), acknowledged, unfit)
      ensures outcome.Refused? ==> records == [] && counter == old(counter)
      ensures outcome.Minted? ==> IsMint(items, old(Observed()), acknowledged, outcome.plan, records)
      ensures outcome.Minted? ==> NumberedFrom(records, FirstFree(old(counter), old(Observed())))
      ensures outcome.Minted?
          ==> counter == CounterAfter(old(counter), FirstFree(old(counter), old(Observed())), |records|)
    {
      var plan, children := MakePlan(items, live + archive, acknowledged);
      PlanInRange(items, live + archive, acknowledged, plan);
      var recs := Mint(items, live + archive, plan.toMint, unfit, children);
      RefusedExactly(items, live + archive, acknowledged, plan, unfit, children);
      if recs.None? {
        return Refused, [];
      }
      MintIsMade(items, live + archive, acknowledged, plan, children, recs.value);
      records := recs.value;
      live := live + recs.value;
      outcome := Minted(plan);
    }

    /** The two passes over a planned batch: ids for all of it, then the records; or neither. */
    method Mint(items: seq<Item>, observed: seq<Cand>, batch: seq<nat>, unfit: set<nat>, children: map<Id, seq<Id>>)
      returns (records: Option<seq<Cand>>)
      requires forall k :: 0 <= k < |batch| ==> batch[k] < |items|
      modifies this`counter
      ensures records.None? <==> !Mintworthy(BatchIds(items, batch), children) || AnyUnfit(batch, unfit)
      ensures records.None? ==> counter == old(counter)
      ensures records.Some? ==> Made(items, observed, batch, children, records.value)
      ensures records.Some? ==> NumberedFrom(records.value, FirstFree(old(counter), observed))
      ensures records.Some?
          ==> counter == CounterAfter(old(counter), FirstFree(old(counter), observed), |records.value|)
    {
      var floor := IdAlloc.ScanMax(IdAlloc.CANDIDATE, IdsOf(observed));
      var before := counter;
      var minted, first := MintIds(BatchIds(items, batch), children, floor);
      if minted.None? {
        counter := before;
        return None;
      }
      records := Build(items, batch, unfit, minted.value, children);
      if records.None? {
        counter := before;
        return;
      }
      FreshIds(items, observed, batch, first, minted.value, children, records.value, floor);
    }
  }

  /** Records for a batch, under ids that are pairwise distinct and were never seen before. */
  ghost predicate Made(items: seq<Item>, observed: seq<Cand>, batch: seq<nat>, children: map<Id, seq<Id>>,
                       records: seq<Cand>) {
    && (exists minted :: MintedKeys(items, batch, minted) && Records(items, batch, minted, children, records))
    && NoDup(IdsOf(records))
    && (forall k :: 0 <= k < |records| ==> records[k].id !in IdsOf(observed))
  }

  /** The number after the counter and after everything seen, whichever is larger. */
  function FirstFree(counter: int, observed: seq<Cand>): nat {
    IdAlloc.Next(counter, IdAlloc.Largest(IdAlloc.CANDIDATE, IdsOf(observed)))
  }

  function CounterAfter(start: int, first: nat, n: nat): int {
    if n == 0 then start else first + n - 1
  }

  /** The records carry the numbers from `first` on, in order. */
  ghost predicate NumberedFrom(records: seq<Cand>, first: nat) {
    forall k :: 0 <= k < |records| ==> records[k].id == IdAlloc.Fmt(IdAlloc.CANDIDATE, first + k)
  }

  ghost predicate AnyUnfit(batch: seq<nat>, unfit: set<nat>) {
    exists k :: 0 <= k < |batch| && batch[k] in unfit
  }

  /** What stops a mint: among the planned items, a missing or a repeated identity, or one that makes no record. */
  ghost predicate RefusalIsDue(items: seq<Item>, observed: seq<Cand>, acknowledged: set<Id>, unfit: set<nat>) {
    exists plan ::
      && IsPlan(items, observed, acknowledged, plan)
      && (BadIds(items, plan.toMint) || AnyUnfit(plan.toMint, unfit))
  }

  /** The mint set is the same in every plan. */
  lemma PlannedAlike(items: seq<Item>, observed: seq<Cand>, acknowledged: set<Id>, plan: Plan, other: Plan)
    requires IsPlan(items, observed, acknowledged, plan) && IsPlan(items, observed, acknowledged, other)
    ensures plan.toMint == other.toMint
  {
    var a, b := Elements(plan.toMint), Elements(other.toMint);
    assert a == b;
    assert forall y :: y in plan.toMint <==> y in a;
    assert forall y :: y in other.toMint <==> y in b;
    SameAscending(plan.toMint, other.toMint);
  }

  lemma {:induction false} SameAscending(a: seq<nat>, b: seq<nat>)
    requires Ascending(a) && Ascending(b) && forall y :: y in a <==> y in b
    ensures a == b
  {
    assert a != [] ==> a[0] in b;
    assert b != [] ==> b[0] in a;
    if a != [] {
      BelowTheLast(a);
      BelowTheLast(b);
      assert a[|a| - 1] in b && b[|b| - 1] in a;
      var below, beneath := a[..|a| - 1], b[..|b| - 1];
      forall y: nat
        ensures y in below <==> y in beneath
      {
        assert y in a <==> y in b;
      }
      SameAscending(below, beneath);
    }
  }

  lemma BelowTheLast(s: seq<nat>)
    requires Ascending(s) && s != []
    ensures forall y :: y in s ==> y <= s[|s| - 1]
    ensures forall y :: y in s[..|s| - 1] <==> y in s && y < s[|s| - 1]
  {
    assert s == s[..|s| - 1] + [s[|s| - 1]];
  }

  ghost predicate BadIds(items: seq<Item>, batch: seq<nat>) {
    && (forall k :: 0 <= k < |batch| ==> batch[k] < |items|)
    && (!NoDup(BatchIds(items, batch)) || "" in BatchIds(items, batch))
  }

  /**
   What a mint leaves behind: records for exactly the planned items, in order, under candidate ids that
   were never seen before and are pairwise distinct.
  */
  ghost predicate IsMint(items: seq<Item>, observed: seq<Cand>, acknowledged: set<Id>, plan: Plan, records: seq<Cand>) {
    && IsPlan(items, observed, acknowledged, plan)
    && exists children :: Relates(observed, children) && Made(items, observed, plan.toMint, children, records)
  }

  lemma MintIsMade(items: seq<Item>, observed: seq<Cand>, acknowledged: set<Id>, plan: Plan, children: map<Id, seq<Id>>,
                   records: seq<Cand>)
    requires IsPlan(items, observed, acknowledged, plan) && Relates(observed, children)
    requires Made(items, observed, plan.toMint, children, records)
    ensures IsMint(items, observed, acknowledged, plan, records)
  {
  }

  ghost predicate MintedKeys(items: seq<Item>, batch: seq<nat>, minted: map<Id, Id>) {
    forall d :: d in minted <==> exists k :: 0 <= k < |batch| && batch[k] < |items| && items[batch[k]].id == d
  }

  lemma PlanInRange(items: seq<Item>, observed: seq<Cand>, acknowledged: set<Id>, plan: Plan)
    requires IsPlan(items, observed, acknowledged, plan)
    ensures forall k :: 0 <= k < |plan.toMint| ==>
        plan.toMint[k] < |items| && Judge(observed, acknowledged, items[plan.toMint[k]]).Mintable?
  {
    forall k | 0 <= k < |plan.toMint|
      ensures plan.toMint[k] in Mintables(items, observed, acknowledged)
    {
      assert plan.toMint[k] in Elements(plan.toMint);
    }
  }

  /** The batch has no children yet, so only a missing or a repeated id can stop pass 1. */
  lemma MintworthyExactly(items: seq<Item>, observed: seq<Cand>, acknowledged: set<Id>, plan: Plan,
                          children: map<Id, seq<Id>>)
    requires IsPlan(items, observed, acknowledged, plan) && Files(observed, children)
    requires forall k :: 0 <= k < |plan.toMint| ==> plan.toMint[k] < |items|
    ensures Mintworthy(BatchIds(items, plan.toMint), children) <==> !BadIds(items, plan.toMint)
  {
    PlanInRange(items, observed, acknowledged, plan);
    var ids := BatchIds(items, plan.toMint);
    forall k | 0 <= k < |ids|
      ensures ids[k] == "" || ids[k] !in children
    {
      assert Judge(observed, acknowledged, items[plan.toMint[k]]).Mintable?;
    }
  }

  lemma RefusedExactly(items: seq<Item>, observed: seq<Cand>, acknowledged: set<Id>, plan: Plan, unfit: set<nat>,
                       children: map<Id, seq<Id>>)
    requires IsPlan(items, observed, acknowledged, plan) && Files(observed, children)
    requires forall k :: 0 <= k < |plan.toMint| ==> plan.toMint[k] < |items|
    ensures RefusalIsDue(items, observed, acknowledged, unfit)
       <==> !Mintworthy(BatchIds(items, plan.toMint), children) || AnyUnfit(plan.toMint, unfit)
  {
    MintworthyExactly(items, observed, acknowledged, plan, children);
    forall other | IsPlan(items, observed, acknowledged, other)
      ensures other.toMint == plan.toMint
    {
      PlannedAlike(items, observed, acknowledged, plan, other);
    }
  }

  lemma FreshIds(items: seq<Item>, observed: seq<Cand>, batch: seq<nat>, first: nat, minted: map<Id, Id>,
                 children: map<Id, seq<Id>>, records: seq<Cand>, floor: nat)
    requires forall k :: 0 <= k < |batch| ==> batch[k] < |items|
    requires MintedIn(BatchIds(items, batch), first, minted) && Records(items, batch, minted, children, records)
    requires first > floor && IdAlloc.AtMost(IdAlloc.Numbers(IdAlloc.CANDIDATE, IdsOf(observed)), floor)
    ensures NumberedFrom(records, first) && NoDup(IdsOf(records)) && MintedKeys(items, batch, minted)
    ensures forall k :: 0 <= k < |records| ==> records[k].id !in IdsOf(observed)
  {
    KeysAreBatchIds(items, batch, first, minted);
    MintedInOrder(items, batch, first, minted, children, records);
    NumberedAreNew(observed, records, first, floor);
    NumberedDiffer(IdsOf(records), first);
  }

  lemma NumberedAreNew(observed: seq<Cand>, records: seq<Cand>, first: nat, floor: nat)
    requires first > floor && IdAlloc.AtMost(IdAlloc.Numbers(IdAlloc.CANDIDATE, IdsOf(observed)), floor)
    requires NumberedFrom(records, first)
    ensures forall k :: 0 <= k < |records| ==> records[k].id !in IdsOf(observed)
  {
    forall k | 0 <= k < |records|
      ensures records[k].id !in IdsOf(observed)
    {
      AboveTheFloor(IdsOf(observed), floor, first + k);
    }
  }

  lemma MintedInOrder(items: seq<Item>, batch: seq<nat>, first: nat, minted: map<Id, Id>, children: map<Id, seq<Id>>,
                      records: seq<Cand>)
    requires forall k :: 0 <= k < |batch| ==> batch[k] < |items|
    requires MintedIn(BatchIds(items, batch), first, minted) && Records(items, batch, minted, children, records)
    ensures NumberedFrom(records, first)
  {
    forall k | 0 <= k < |records|
      ensures records[k].id == IdAlloc.Fmt(IdAlloc.CANDIDATE, first + k)
    {
      assert records[k].id == minted[BatchIds(items, batch)[k]];
    }
  }

  lemma KeysAreBatchIds(items: seq<Item>, batch: seq<nat>, first: nat, minted: map<Id, Id>)
    requires forall k :: 0 <= k < |batch| ==> batch[k] < |items|
    requires MintedIn(BatchIds(items, batch), first, minted)
    ensures MintedKeys(items, batch, minted)
  {
    var ids := BatchIds(items, batch);
    forall d
      ensures d in minted <==> exists k :: 0 <= k < |batch| && batch[k] < |items| && items[batch[k]].id == d
    {
      if d in minted {
        var k := Place(ids, d);
        assert batch[k] < |items| && items[batch[k]].id == d;
      }
      if k :| 0 <= k < |batch| && batch[k] < |items| && items[batch[k]].id == d { assert ids[k] in ids; }
    }
  }

  lemma AboveTheFloor(ids: seq<Id>, floor: nat, n: nat)
    requires IdAlloc.AtMost(IdAlloc.Numbers(IdAlloc.CANDIDATE, ids), floor) && n > floor
    ensures IdAlloc.Fmt(IdAlloc.CANDIDATE, n) !in ids
  {
    var id := IdAlloc.Fmt(IdAlloc.CANDIDATE, n);
    IdAlloc.ParseOwn(IdAlloc.CANDIDATE, n);
    assert id in ids ==> n in IdAlloc.Numbers(IdAlloc.CANDIDATE, ids);
  }

  lemma NumberedDiffer(ids: seq<Id>, first: nat)
    requires forall k :: 0 <= k < |ids| ==> ids[k] == IdAlloc.Fmt(IdAlloc.CANDIDATE, first + k)
    ensures NoDup(ids)
  {
    forall i, j | 0 <= i < j < |ids|
      ensures Differ(ids, i, j)
    {
      IdAlloc.FmtInjective(IdAlloc.CANDIDATE, first + i, first + j);
    }
  }

  // ---- a new record carries its item's dependencies ----

  /** The batch item with this id is minted alongside, or the dependency has children already. */
  ghost predicate Reached(items: seq<Item>, observed: seq<Cand>, batch: seq<nat>, d: Id) {
    Parent(observed, d) || exists m :: m in batch && m < |items| && items[m].id == d
  }

  /**
   WHAT IS SILENTLY LOST. A planned item's dependency leaves no trace in the new record exactly when it is
   neither the id of a batch-mate nor a parent of anything: it was let through on a LABEL alone.
  */
  lemma DroppedExactlyWhenNamedByLabel(items: seq<Item>, observed: seq<Cand>, acknowledged: set<Id>, plan: Plan,
                                       minted: map<Id, Id>, children: map<Id, seq<Id>>, p: nat, d: Id)
    requires IsPlan(items, observed, acknowledged, plan) && Files(observed, children)
        && MintedKeys(items, plan.toMint, minted)
    requires p in plan.toMint && p < |items| && d in items[p].depends
    ensures DepsOf(d, minted, children) == [] <==> !Reached(items, observed, plan.toMint, d)
    ensures DepsOf(d, minted, children) == [] ==>
        exists m :: m in plan.toMint && m < |items| && items[m].id != d && items[m].Names(d)
  {
    assert Standing(items, observed, Elements(plan.toMint), p) by { assert p in Elements(plan.toMint); }
    assert Met(items, observed, Elements(plan.toMint), d);
    if d in children {
      assert Parent(observed, d);
      var i :| 0 <= i < |observed| && d in observed[i].refs;
      assert Claims(observed, d, observed[i].id);
      assert observed[i].id in children[d];
    }
    if DepsOf(d, minted, children) == [] {
      var m :| m in Elements(plan.toMint) && m < |items| && items[m].Names(d);
      assert m in plan.toMint && items[m].id != d;
    }
  }

  /** Dependencies are written as ids, the way `persist` and `revise` store them. */
  ghost predicate ById(items: seq<Item>) {
    forall p, q :: 0 <= p < |items| && 0 <= q < |items| && items[q].tag in items[p].depends
        ==> items[q].tag == items[q].id
  }

  /** With dependencies stored as ids, each one is carried, and never through a parent in doubt. */
  lemma EveryDependencyIsCarried(items: seq<Item>, observed: seq<Cand>, acknowledged: set<Id>, plan: Plan,
                                 minted: map<Id, Id>, children: map<Id, seq<Id>>, p: nat, d: Id)
    requires IsPlan(items, observed, acknowledged, plan) && Files(observed, children)
        && MintedKeys(items, plan.toMint, minted)
    requires ById(items) && p in plan.toMint && p < |items| && d in items[p].depends
    requires forall m :: m in plan.toMint && m < |items| ==> items[m].id != ""
    ensures d in minted || (d in children && Materialized(observed, d))
    ensures d in minted ==> DepsOf(d, minted, children) == [minted[d]]
    ensures d !in minted ==> forall cid :: cid in DepsOf(d, minted, children) <==> Claims(observed, d, cid)
  {
    assert Standing(items, observed, Elements(plan.toMint), p) by { assert p in Elements(plan.toMint); }
    assert Met(items, observed, Elements(plan.toMint), d);
  }

  // ---- when a record lists a dependency twice ----

  /** New ids are new, and each stands for one item. */
  ghost predicate NewIdsAreNew(observed: seq<Cand>, minted: map<Id, Id>) {
    && (forall d :: d in minted ==> minted[d] !in IdsOf(observed))
    && (forall d, e :: d in minted && e in minted && d != e ==> minted[d] != minted[e])
  }

  /** A reference made twice puts nothing into the record: it is neither a batch-mate's id nor a parent. */
  ghost predicate RepeatsAreIdle(observed: seq<Cand>, depends: seq<Id>, minted: map<Id, Id>) {
    forall i, j {:trigger depends[i], depends[j]} :: 0 <= i < j < |depends| && depends[i] == depends[j] ==>
      depends[i] !in minted && !Parent(observed, depends[i])
  }

  ghost predicate Unshared(observed: seq<Cand>, minted: map<Id, Id>, d: Id, e: Id) {
    d in minted || e in minted || forall cid :: !(Claims(observed, d, cid) && Claims(observed, e, cid))
  }

  /** No candidate id is claimed for two of the parents that are named. */
  ghost predicate NoSharedChild(observed: seq<Cand>, depends: seq<Id>, minted: map<Id, Id>) {
    forall d, e {:trigger Unshared(observed, minted, d, e)} :: d in depends && e in depends && d != e ==>
      Unshared(observed, minted, d, e)
  }

  ghost predicate Fine(observed: seq<Cand>, minted: map<Id, Id>, d: Id, e: Id) {
    if d == e then d !in minted && !Parent(observed, d) else Unshared(observed, minted, d, e)
  }

  ghost predicate AllFine(observed: seq<Cand>, depends: seq<Id>, minted: map<Id, Id>) {
    forall i, j {:trigger depends[i], depends[j]} :: 0 <= i < j < |depends|
        ==> Fine(observed, minted, depends[i], depends[j])
  }

  lemma AllFineMeans(observed: seq<Cand>, depends: seq<Id>, minted: map<Id, Id>)
    ensures AllFine(observed, depends, minted)
       <==> RepeatsAreIdle(observed, depends, minted) && NoSharedChild(observed, depends, minted)
  {
    if AllFine(observed, depends, minted) {
      forall d, e | d in depends && e in depends && d != e
        ensures Unshared(observed, minted, d, e)
      {
        var i := Place(depends, d);
        var j := Place(depends, e);
        assert if i < j then Fine(observed, minted, depends[i], depends[j])
               else Fine(observed, minted, depends[j], depends[i]);
      }
    }
    if RepeatsAreIdle(observed, depends, minted) && NoSharedChild(observed, depends, minted) {
      forall i, j | 0 <= i < j < |depends|
        ensures Fine(observed, minted, depends[i], depends[j])
      {
        assert depends[i] != depends[j] ==> Unshared(observed, minted, depends[i], depends[j]);
      }
    }
  }

  ghost predicate Apart(a: seq<Id>, b: seq<Id>) {
    forall x :: x in a ==> x !in b
  }

  ghost predicate DepsStayApart(depends: seq<Id>, minted: map<Id, Id>, children: map<Id, seq<Id>>) {
    forall i, j {:trigger depends[i], depends[j]} :: 0 <= i < j < |depends| ==>
      Apart(DepsOf(depends[i], minted, children), DepsOf(depends[j], minted, children))
  }

  lemma {:induction false} FanOutIsDistinct(depends: seq<Id>, minted: map<Id, Id>, children: map<Id, seq<Id>>)
    requires forall ref :: ref in children ==> NoDup(children[ref])
    ensures NoDup(FanOut(depends, minted, children)) <==> DepsStayApart(depends, minted, children)
  {
    if depends != [] {
      var init, last := depends[..|depends| - 1], depends[|depends| - 1];
      FanOutIsDistinct(init, minted, children);
      NoDupJoin(FanOut(init, minted, children), DepsOf(last, minted, children));
      OneMoreApart(init, last, minted, children);
      assert depends == init + [last];
    }
  }

  lemma OneMoreApart(init: seq<Id>, last: Id, minted: map<Id, Id>, children: map<Id, seq<Id>>)
    ensures DepsStayApart(init + [last], minted, children) <==>
       DepsStayApart(init, minted, children) &&
       Apart(FanOut(init, minted, children), DepsOf(last, minted, children))
  {
    var depends := init + [last];
    assert forall i :: 0 <= i < |init| ==> depends[i] == init[i];
    if DepsStayApart(depends, minted, children) {
      forall i | 0 <= i < |init|
        ensures Apart(DepsOf(init[i], minted, children), DepsOf(last, minted, children))
      {
        assert Apart(DepsOf(depends[i], minted, children), DepsOf(depends[|init|], minted, children));
      }
    }
  }

  lemma ApartExactlyWhen(observed: seq<Cand>, minted: map<Id, Id>, children: map<Id, seq<Id>>, d: Id, e: Id)
    requires Files(observed, children) && NewIdsAreNew(observed, minted)
    ensures Apart(DepsOf(d, minted, children), DepsOf(e, minted, children)) <==> Fine(observed, minted, d, e)
  {
    forall x | x in DepsOf(d, minted, children) && x in DepsOf(e, minted, children) && d != e
      ensures d !in minted && e !in minted && Claims(observed, d, x) && Claims(observed, e, x)
    {
      ClaimedIsSeen(observed, d, x);
      ClaimedIsSeen(observed, e, x);
    }
    if d in children && d == e && d !in minted {
      var i :| 0 <= i < |observed| && d in observed[i].refs;
      assert Claims(observed, d, observed[i].id);
      assert observed[i].id in DepsOf(d, minted, children);
    }
    if d in minted && d == e { assert minted[d] in DepsOf(d, minted, children); }
  }

  lemma ClaimedIsSeen(observed: seq<Cand>, d: Id, x: Id)
    ensures Claims(observed, d, x) ==> x in IdsOf(observed)
  {
    if Claims(observed, d, x) {
      var i :| 0 <= i < |observed| && observed[i].id == x && d in observed[i].refs;
      assert IdsOf(observed)[i] == x;
    }
  }

  /**
   EXACTLY WHEN NO DEPENDENCY IS LISTED TWICE: no reference that puts anything into the record is made twice,
   and no candidate id is claimed for two of the parents that are named.
  */
  lemma NoDependencyTwice(observed: seq<Cand>, depends: seq<Id>, minted: map<Id, Id>, children: map<Id, seq<Id>>)
    requires Files(observed, children) && NewIdsAreNew(observed, minted)
    ensures NoDup(FanOut(depends, minted, children))
       <==> RepeatsAreIdle(observed, depends, minted) && NoSharedChild(observed, depends, minted)
  {
    FanOutIsDistinct(depends, minted, children);
    forall i, j | 0 <= i < j < |depends|
      ensures Apart(DepsOf(depends[i], minted, children), DepsOf(depends[j], minted, children))
         <==> Fine(observed, minted, depends[i], depends[j])
    {
      ApartExactlyWhen(observed, minted, children, depends[i], depends[j]);
    }
    AllFineMeans(observed, depends, minted);
  }

  lemma RecordOfKey(items: seq<Item>, batch: seq<nat>, minted: map<Id, Id>, children: map<Id, seq<Id>>,
                    records: seq<Cand>, d: Id) returns (k: nat)
    requires MintedKeys(items, batch, minted) && Records(items, batch, minted, children, records) && d in minted
    ensures k < |records| && records[k].id == minted[d] && records[k].refs == [d]
  {
    k :| 0 <= k < |batch| && batch[k] < |items| && items[batch[k]].id == d;
  }

  lemma MadeIdsAreNew(items: seq<Item>, observed: seq<Cand>, batch: seq<nat>, minted: map<Id, Id>,
                      children: map<Id, seq<Id>>, records: seq<Cand>)
    requires MintedKeys(items, batch, minted) && Records(items, batch, minted, children, records)
    requires NoDup(IdsOf(records)) && forall i :: 0 <= i < |records| ==> records[i].id !in IdsOf(observed)
    ensures NewIdsAreNew(observed, minted)
  {
    forall d | d in minted
      ensures minted[d] !in IdsOf(observed)
    {
      var i := RecordOfKey(items, batch, minted, children, records, d);
    }
    forall d, e | d in minted && e in minted && d != e
      ensures minted[d] != minted[e]
    {
      var i := RecordOfKey(items, batch, minted, children, records, d);
      var j := RecordOfKey(items, batch, minted, children, records, e);
      assert if i < j then Differ(IdsOf(records), i, j) else Differ(IdsOf(records), j, i);
    }
  }

  /** The same for the records of a mint: the ids it gives out are new, whatever was in the files. */
  lemma RecordListsEachOnce(items: seq<Item>, observed: seq<Cand>, batch: seq<nat>, minted: map<Id, Id>,
                            children: map<Id, seq<Id>>, records: seq<Cand>, k: nat)
    requires Files(observed, children) && MintedKeys(items, batch, minted)
    requires Records(items, batch, minted, children, records) && k < |records|
    requires NoDup(IdsOf(records)) && forall i :: 0 <= i < |records| ==> records[i].id !in IdsOf(observed)
    ensures NoDup(records[k].dependencies) <==>
       RepeatsAreIdle(observed, items[batch[k]].depends, minted) &&
       NoSharedChild(observed, items[batch[k]].depends, minted)
  {
    MadeIdsAreNew(items, observed, batch, minted, children, records);
    NoDependencyTwice(observed, items[batch[k]].depends, minted, children);
  }

  /** One candidate id stands for one candidate, however often its row is seen. */
  ghost predicate IdsAgree(observed: seq<Cand>) {
    forall i, j :: 0 <= i < |observed| && 0 <= j < |observed| && observed[i].id == observed[j].id ==>
      observed[i].refs == observed[j].refs
  }

  /** A plan names no parent in doubt, so among candidates that agree no child is shared. */
  lemma AgreeingIdsShareNoChild(observed: seq<Cand>, depends: seq<Id>, minted: map<Id, Id>)
    requires IdsAgree(observed) && forall d :: d in depends && d !in minted && Parent(observed, d) ==>
        Materialized(observed, d)
    ensures NoSharedChild(observed, depends, minted)
  {
    forall d, e | d in depends && e in depends && d != e
      ensures Unshared(observed, minted, d, e)
    {
      if cid :| d !in minted && e !in minted && Claims(observed, d, cid) && Claims(observed, e, cid) {
        SharedChildIsAmbiguous(observed, d, e, cid);
      }
    }
  }

  /** A child of two parents puts both in doubt. */
  lemma SharedChildIsAmbiguous(observed: seq<Cand>, d: Id, e: Id, cid: Id)
    requires IdsAgree(observed) && Claims(observed, d, cid) && Claims(observed, e, cid) && d != e
    ensures Parent(observed, d) && Ambiguous(observed, d)
  {
    var i :| 0 <= i < |observed| && observed[i].id == cid && d in observed[i].refs;
    var j :| 0 <= j < |observed| && observed[j].id == cid && e in observed[j].refs;
    assert observed[i].refs == observed[j].refs;
    var u := Place(observed[i].refs, d);
    var v := Place(observed[i].refs, e);
    assert u != v;
  }

  /** Two rows under one id, each with a parent of its own: nobody is ambiguous, and the child is listed twice. */
  lemma SharedIdIsListedTwice() returns (observed: seq<Cand>, children: map<Id, seq<Id>>)
    ensures Files(observed, children) && !IdsAgree(observed)
    ensures Materialized(observed, "PS-001") && Materialized(observed, "PS-002")
    ensures FanOut(["PS-001", "PS-002"], map[], children) == ["SC-001", "SC-001"]
  {
    var a, b := Cand("SC-001", "store", ["PS-001"], []), Cand("SC-001", "shop", ["PS-002"], []);
    observed, children := [a, b], map["PS-001" := ["SC-001"], "PS-002" := ["SC-001"]];
    assert observed[0] == a && observed[1] == b;
    assert a.refs[0] == "PS-001" && b.refs[0] == "PS-002";
    TwoDeps("PS-001", "PS-002", map[], children);
  }

  /** A batch-mate named twice is listed twice, with nothing wrong in either file. */
  lemma RepeatedReferenceIsListedTwice(d: Id, sc: Id)
    ensures Files([], map[]) && IdsAgree([]) && NewIdsAreNew([], map[d := sc])
    ensures FanOut([d, d], map[d := sc], map[]) == [sc, sc]
  {
    TwoDeps(d, d, map[d := sc], map[]);
  }

  lemma TwoDeps(d: Id, e: Id, minted: map<Id, Id>, children: map<Id, seq<Id>>)
    ensures FanOut([d, e], minted, children) == DepsOf(d, minted, children) + DepsOf(e, minted, children)
  {
    assert [d, e][..1] == [d] && [d][..0] == [];
    assert FanOut([], minted, children) == [];
    assert FanOut([d], minted, children) == DepsOf(d, minted, children);
  }

  /** The hole is reachable: two fresh items, the second waiting for the first by label. */
  lemma ALabelledDependencyIsLost() returns (items: seq<Item>, plan: Plan, minted: map<Id, Id>)
    ensures IsPlan(items, [], {}, plan) && plan.toMint == [0, 1] && MintedKeys(items, plan.toMint, minted)
    ensures items[1].depends == ["store"] && items[0].tag == "store"
    ensures forall children :: Files([], children) ==> RecordOf(items[1], minted, children).dependencies == []
  {
    items := [Item("PS-001", "store", "Store", []), Item("PS-002", "shop", "Shop", ["store"])];
    minted := map["PS-001" := "SC-001", "PS-002" := "SC-002"];
    plan := Plan([0, 1], [], [], []);
    TwoItemsPlan(items, plan);
    forall children | Files([], children)
      ensures RecordOf(items[1], minted, children).dependencies == []
    {
      assert "store" !in children;
      assert DepsOf("store", minted, children) == [];
      assert FanOut([], minted, children) == [];
      assert ["store"][..0] == [];
    }
    assert plan.toMint[0] == 0 && plan.toMint[1] == 1;
  }

  lemma TwoItemsPlan(items: seq<Item>, plan: Plan)
    requires items == [Item("PS-001", "store", "Store", []), Item("PS-002", "shop", "Shop", ["store"])]
    requires plan == Plan([0, 1], [], [], [])
    ensures IsPlan(items, [], {}, plan)
  {
    assert items[0].Names("store");
    assert Elements([0, 1]) == {0, 1} == Mintables(items, [], {});
    assert NamedIn(items, {0, 1}, "store");
    assert Closed(items, [], {0, 1});
  }

  // ---- a second run ----

  /** The files as a later run may find them: the same candidates and the new ones, in any arrangement. */
  ghost predicate Rearranged(observed: seq<Cand>, records: seq<Cand>, later: seq<Cand>) {
    forall c :: c in later <==> c in observed || c in records
  }

  ghost predicate ForItems(items: seq<Item>, batch: seq<nat>, records: seq<Cand>) {
    && |records| == |batch|
    && forall k :: 0 <= k < |batch| ==> batch[k] < |items| && records[k].refs == [items[batch[k]].id]
  }

  lemma LaterParents(items: seq<Item>, observed: seq<Cand>, batch: seq<nat>, records: seq<Cand>, later: seq<Cand>,
                     ref: Id)
    requires ForItems(items, batch, records) && Rearranged(observed, records, later)
    ensures Parent(later, ref) <==> Parent(observed, ref) || exists k :: 0 <= k < |batch| && items[batch[k]].id == ref
    ensures Ambiguous(later, ref) <==> Ambiguous(observed, ref)
  {
    SeenTwiceIsSeenOnce(later, observed + records, ref, "");
    var all := observed + records;
    assert forall i :: 0 <= i < |observed| ==> all[i] == observed[i];
    assert forall k :: 0 <= k < |records| ==> all[|observed| + k] == records[k];
    if k :| 0 <= k < |batch| && items[batch[k]].id == ref { assert ref in all[|observed| + k].refs; }
    if Parent(all, ref) {
      var i :| 0 <= i < |all| && ref in all[i].refs;
      if i >= |observed| { assert records[i - |observed|].refs == [items[batch[i - |observed|]].id]; }
    }
    if Ambiguous(all, ref) {
      var i :| 0 <= i < |all| && |all[i].refs| > 1 && ref in all[i].refs;
      assert i < |observed|;
    }
  }

  lemma LaterTitles(items: seq<Item>, observed: seq<Cand>, batch: seq<nat>, records: seq<Cand>, later: seq<Cand>,
                    title: string)
    requires ForItems(items, batch, records) && Rearranged(observed, records, later)
    ensures Unowned(later, title) <==> Unowned(observed, title)
  {
    if Unowned(later, title) {
      var i :| 0 <= i < |later| && later[i].refs == [] && later[i].title == title;
      assert later[i] in later && later[i] !in records;
    }
    if Unowned(observed, title) {
      var i :| 0 <= i < |observed| && observed[i].refs == [] && observed[i].title == title;
      assert observed[i] in later;
    }
  }

  /** What is still mintable later was mintable before, and was not minted. */
  lemma LaterMintables(items: seq<Item>, observed: seq<Cand>, acknowledged: set<Id>, batch: seq<nat>,
                       records: seq<Cand>, later: seq<Cand>, p: nat)
    requires ForItems(items, batch, records) && Rearranged(observed, records, later)
    requires p < |items| && items[p].id != "" && Judge(later, acknowledged, items[p]).Mintable?
    ensures Judge(observed, acknowledged, items[p]).Mintable? && p !in batch
  {
    LaterParents(items, observed, batch, records, later, items[p].id);
    LaterTitles(items, observed, batch, records, later, items[p].title);
  }

  lemma LaterMet(items: seq<Item>, observed: seq<Cand>, batch: seq<nat>, records: seq<Cand>, later: seq<Cand>,
                 other: set<nat>, d: Id)
    requires ForItems(items, batch, records) && Rearranged(observed, records, later)
    requires forall k :: 0 <= k < |batch| ==> items[batch[k]].id != ""
    requires Met(items, later, other, d)
    ensures Met(items, observed, other + Elements(batch), d)
  {
    LaterParents(items, observed, batch, records, later, d);
    if Materialized(later, d) && !Parent(observed, d) {
      var k :| 0 <= k < |batch| && items[batch[k]].id == d;
      assert batch[k] in other + Elements(batch) && items[batch[k]].Names(d);
    }
  }

  lemma TogetherClosed(items: seq<Item>, observed: seq<Cand>, batch: seq<nat>, records: seq<Cand>, later: seq<Cand>,
                       other: set<nat>)
    requires ForItems(items, batch, records) && Rearranged(observed, records, later)
    requires forall k :: 0 <= k < |batch| ==> items[batch[k]].id != ""
    requires Closed(items, observed, Elements(batch)) && Closed(items, later, other)
    ensures Closed(items, observed, other + Elements(batch))
  {
    var both := other + Elements(batch);
    forall p, d | p in both && p < |items| && d in items[p].depends
      ensures Met(items, observed, both, d)
    {
      if p in other {
        assert Standing(items, later, other, p);
        LaterMet(items, observed, batch, records, later, other, d);
      } else {
        assert Standing(items, observed, Elements(batch), p);
        Grows(items, observed, Elements(batch), both, d);
      }
    }
  }

  /**
   IDEMPOTENCE. After a mint, planning again over the same candidates and the new ones, wherever they have
   been moved to and however often each is seen, mints nothing.
  */
  lemma SecondRunMintsNothing(items: seq<Item>, observed: seq<Cand>, acknowledged: set<Id>, plan: Plan,
                              records: seq<Cand>, later: seq<Cand>, again: Plan)
    requires forall p :: 0 <= p < |items| ==> items[p].id != ""
    requires IsMint(items, observed, acknowledged, plan, records) && Rearranged(observed, records, later)
    requires IsPlan(items, later, acknowledged, again)
    ensures again.toMint == []
  {
    RecordsAreForItems(items, observed, acknowledged, plan, records);
    var other := Elements(again.toMint);
    TogetherClosed(items, observed, plan.toMint, records, later, other);
    forall p | p in other
      ensures p in Mintables(items, observed, acknowledged) && p !in plan.toMint
    {
      assert p in Mintables(items, later, acknowledged);
      LaterMintables(items, observed, acknowledged, plan.toMint, records, later, p);
    }
    assert other + Elements(plan.toMint) <= Elements(plan.toMint);
    NothingIn(again.toMint);
  }

  lemma RecordsAreForItems(items: seq<Item>, observed: seq<Cand>, acknowledged: set<Id>, plan: Plan, records: seq<Cand>)
    requires IsMint(items, observed, acknowledged, plan, records)
    ensures ForItems(items, plan.toMint, records)
  {
    var children :| Relates(observed, children) && Made(items, observed, plan.toMint, children, records);
    var minted :| MintedKeys(items, plan.toMint, minted) && Records(items, plan.toMint, minted, children, records);
  }

  /** What one declared dependency brings: the new id of the batch-mate it names, or else every child it has. */
  ghost predicate Brings(items: seq<Item>, observed: seq<Cand>, batch: seq<nat>, records: seq<Cand>, d: Id, x: Id)
    requires |records| == |batch| && forall k :: 0 <= k < |batch| ==> batch[k] < |items|
  {
    || (exists j :: 0 <= j < |batch| && items[batch[j]].id == d && records[j].id == x)
    || ((forall j :: 0 <= j < |batch| ==> items[batch[j]].id != d) && Claims(observed, d, x))
  }

  /**
   WHAT A RECORD SAYS: its item's title, that item as its one parent, and as dependencies exactly what the declared
   ones bring.
  */
  lemma RecordSaysExactly(items: seq<Item>, observed: seq<Cand>, acknowledged: set<Id>, plan: Plan, records: seq<Cand>,
                          k: nat)
    requires IsMint(items, observed, acknowledged, plan, records) && k < |records|
    ensures |records| == |plan.toMint| && forall j :: 0 <= j < |plan.toMint| ==> plan.toMint[j] < |items|
    ensures var it := items[plan.toMint[k]];
            && records[k].title == it.title && records[k].refs == [it.id]
            && forall x :: x in records[k].dependencies <==>
                 exists d :: d in it.depends && Brings(items, observed, plan.toMint, records, d, x)
  {
    var children :| Relates(observed, children) && Made(items, observed, plan.toMint, children, records);
    var minted :| MintedKeys(items, plan.toMint, minted) && Records(items, plan.toMint, minted, children, records);
    var depends := items[plan.toMint[k]].depends;
    forall d, x
      ensures x in DepsOf(d, minted, children) <==> Brings(items, observed, plan.toMint, records, d, x)
    {
      BringsExactly(items, observed, plan.toMint, records, minted, children, d, x);
    }
    forall x
      ensures x in records[k].dependencies <==>
                exists d :: d in depends && Brings(items, observed, plan.toMint, records, d, x)
    {
      if d :| d in depends && Brings(items, observed, plan.toMint, records, d, x) {
        var i := Place(depends, d);
        assert x in DepsOf(depends[i], minted, children);
      }
    }
  }

  lemma BringsExactly(items: seq<Item>, observed: seq<Cand>, batch: seq<nat>, records: seq<Cand>, minted: map<Id, Id>,
                      children: map<Id, seq<Id>>, d: Id, x: Id)
    requires Files(observed, children) && MintedKeys(items, batch, minted)
    requires Records(items, batch, minted, children, records)
    ensures forall k :: 0 <= k < |batch| ==> batch[k] < |items|
    ensures x in DepsOf(d, minted, children) <==> Brings(items, observed, batch, records, d, x)
  {
    if d in minted {
      var j :| 0 <= j < |batch| && batch[j] < |items| && items[batch[j]].id == d;
      assert records[j].id == minted[d];
    }
    assert Claims(observed, d, x) ==> Parent(observed, d);
  }

  lemma NothingIn(s: seq<nat>)
    ensures Elements(s) == {} <==> s == []
  {
    if s != [] { assert s[0] in Elements(s); }
  }
}
