/**
 Adding one capability to a live scope: the in-lock half, and then the mint of its one candidate. A number once
 taken and a candidate once minted stay, so the two halves should succeed or fail together.
*/
module ScopeAddition {
  import opened Common
  import opened Seqs
  import opened ScopeItem
  import opened ScopeCore
  import opened ScopeLedger
  import opened ScopeIds
  import opened ScopeFile
  import opened ScopeLaws
  import IdAlloc
  import ScopeMint
  import ScopePlan
  import Text
  import Topo

  /** Partial: the item was written, but its candidate was not minted. */
  datatype Outcome = Refused | Malformed | Partial(id: Id) | Done(id: Id)

  /** What was acknowledged under the label is acknowledged under the new id as well. */
  function Acknowledging(acknowledged: set<Id>, tag: Id, id: Id): set<Id> {
    if tag in acknowledged then acknowledged + {id} else acknowledged
  }

  /** The plan over these candidates mints the item with this id and no other. */
  ghost predicate MintsJust(items: seq<Item>, observed: seq<ScopePlan.Cand>, acknowledged: set<Id>, id: Id) {
    exists p: nat :: p < |items| && items[p].id == id && MintsPlace(items, observed, acknowledged, p)
  }

  ghost predicate MintsPlace(items: seq<Item>, observed: seq<ScopePlan.Cand>, acknowledged: set<Id>, p: nat) {
    ScopePlan.GreatestClosed(items, observed, ScopePlan.Mintables(items, observed, acknowledged), {p})
  }

  /** One item put on top of the live ones: what was on record, what the preview saw, and what was written. */
  datatype Addition = Addition(before: File, counter: int, issued: seq<nat>, added: Item, seen: seq<ScopePlan.Cand>,
                               acknowledged: set<Id>, t: Trace, after: File)
  {
    ghost predicate Accepted() {
      && Canonical(before, issued) && AddGates(before.items, added, seen, acknowledged, true)
      && AppliedBy(before, before.items + [added], t, after) && t.first == NextNumber(before, counter)
    }

    /** The id the new item will get, from what is on record before the write. */
    function NextId(): Id { IdAlloc.Fmt(IdAlloc.SCOPE, NextNumber(before, counter)) }

    predicate LabelFree() { added.tag !in IdsOf(before.items) }

    /** The new item is at place `q` of the batch, and everything else there is a live item. */
    ghost predicate At(q: nat) {
      |t.batch| == |after.items| && NewAt(before.items, added, t.batch, q)
    }
  }

  /** How an addition that passes the gates will end, from what can be looked up before the call. */
  ghost function Foretold(before: File, counter: int, added: Item, seen: seq<ScopePlan.Cand>): Outcome {
    var id := IdAlloc.Fmt(IdAlloc.SCOPE, NextNumber(before, counter));
    if added.tag in IdsOf(before.items) then Malformed
    else if ScopePlan.Parent(seen, id) then Partial(id)
    else Done(id)
  }

  // ---- where everything ends up ----

  /** The gates leave no two live items under one id. */
  lemma LiveIdsDiffer(before: File, issued: seq<nat>, added: Item)
    requires Canonical(before, issued) && Identities(before.items + [added])
    ensures NoDup(IdsOf(before.items)) && forall i :: 0 <= i < |before.items| ==> before.items[i].id != ""
  {
    var payload := before.items + [added];
    forall i | 0 <= i < |before.items|
      ensures before.items[i].id != "" && StrippedIds(payload)[i] == before.items[i].id
    {
      LiveIdIsItsOwn(before, issued, i);
    }
    forall i, j | 0 <= i < j < |before.items|
      ensures Differ(IdsOf(before.items), i, j)
    {
      assert StrippedIds(payload)[i] != StrippedIds(payload)[j];
    }
  }

  lemma AddedKeysDiffer(before: File, issued: seq<nat>, added: Item)
    requires Canonical(before, issued) && Identities(before.items + [added]) && Labelled(before.items + [added])
    requires added.id == "" && added.tag !in IdsOf(before.items)
    ensures NoDup(KeysOf(before.items + [added]))
  {
    LiveIdsDiffer(before, issued, added);
    assert (before.items + [added])[|before.items|] == added;
    assert forall x :: x in IdsOf(before.items) ==> x in Ever(before);
    AddedKeysCollide(before.items, issued, added);
  }

  ghost predicate NewAt(items: seq<Item>, added: Item, batch: seq<Item>, q: nat) {
    q < |batch| && batch[q] == added && forall i :: 0 <= i < |batch| && i != q ==> batch[i] in items
  }

  /** With a free label the new item has one place in the batch. */
  lemma NewPlace(a: Addition) returns (q: nat)
    requires a.Accepted() && a.LabelFree()
    ensures a.At(q)
  {
    var payload := a.before.items + [a.added];
    AddedKeysDiffer(a.before, a.issued, a.added);
    DistinctBatch(payload, a.t.level, a.t.order, a.t.batch);
    assert |a.before.items| < |payload|;
    q := PlaceInOrder(a.before.items, a.added, a.t.order, a.t.batch);
  }

  lemma PlaceInOrder(items: seq<Item>, added: Item, order: seq<nat>, batch: seq<Item>) returns (q: nat)
    requires (forall i :: 0 <= i < |order| ==> order[i] <= |items|) && NoDup(order) && |items| in order
    requires batch == Picked(items + [added], order)
    ensures NewAt(items, added, batch, q)
  {
    q := Place(order, |items|);
    forall i | 0 <= i < |batch| && i != q
      ensures batch[i] in items
    {
      assert if i < q then Differ(order, i, q) else Differ(order, q, i);
      assert batch[i] == items[order[i]];
    }
  }

  /** All ids written are given and different; a live item is written under its own id. */
  lemma WrittenIds(a: Addition)
    requires a.Accepted() && a.LabelFree()
    ensures |a.t.batch| == |a.after.items| && NoDup(IdsOf(a.after.items))
    ensures IdsOf(a.after.items) == Given(a.t.batch, a.t.first)
    ensures forall i :: 0 <= i < |a.after.items| ==> a.after.items[i].id != ""
    ensures forall i :: 0 <= i < |a.after.items| && a.t.batch[i].id != "" ==> a.after.items[i].id == a.t.batch[i].id
  {
    var payload, t := a.before.items + [a.added], a.t;
    AddedKeysDiffer(a.before, a.issued, a.added);
    CleanWhenDistinct(a.before, payload, [], t.first, t.level, t.order, t.batch, t.table, a.after);
    forall i | 0 <= i < |a.after.items|
      ensures a.after.items[i].id != "" && (a.t.batch[i].id != "" ==> a.after.items[i].id == a.t.batch[i].id)
    {
      assert IdsOf(a.after.items)[i] == Given(a.t.batch, a.t.first)[i];
      GivenAt(a.t.batch, a.t.first, i);
      assert |IdAlloc.SCOPE| == 3;
    }
  }

  /** The one new id is the next number, and the new item is written under it. */
  lemma NewItemHasTheNextId(a: Addition, q: nat)
    requires a.Accepted() && a.LabelFree() && a.At(q)
    ensures Minus(IdsOf(a.after.items), IdsOf(a.before.items)) == [a.NextId()]
    ensures a.after.items[q].id == a.NextId()
  {
    LabelIsFree(a);
    WrittenIds(a);
    LiveIdsDiffer(a.before, a.issued, a.added);
    NextIsGiven(a.t.batch, a.t.first, q);
    GivenAt(a.t.batch, a.t.first, q);
    var x := IdsOf(a.after.items)[q];
    assert x == Given(a.t.batch, a.t.first)[q];
    NeverLive(a.before, a.t.first, x, a.t.first + News(a.t.batch));
    OnlyOutsider(IdsOf(a.after.items), IdsOf(a.before.items), q);
  }

  lemma NextIsGiven(batch: seq<Item>, first: nat, q: nat)
    requires q < |batch| && batch[q].id == "" && forall i :: 0 <= i < |batch| && i != q ==> batch[i].id != ""
    ensures Given(batch, first)[q] == IdAlloc.Fmt(IdAlloc.SCOPE, first)
  {
    NoNews(batch[..q]);
    assert Given(batch, first)[q] == GivenTo(batch, first, q);
  }

  lemma OnlyOutsider(ids: seq<Id>, cur: seq<Id>, q: nat)
    requires |Minus(ids, cur)| == 1 && q < |ids| && ids[q] !in cur
    ensures Minus(ids, cur) == [ids[q]]
  {
    assert ids[q] in Minus(ids, cur);
  }

  lemma {:induction false} NoNews(batch: seq<Item>)
    requires forall i :: 0 <= i < |batch| ==> batch[i].id != ""
    ensures News(batch) == 0
  {
    if batch != [] { NoNews(batch[..|batch| - 1]); }
  }

  lemma LabelIsFree(a: Addition)
    requires a.Accepted()
    ensures |Minus(IdsOf(a.after.items), IdsOf(a.before.items))| == 1 <==> a.LabelFree()
  {
    LiveIdsDiffer(a.before, a.issued, a.added);
    assert (a.before.items + [a.added])[|a.before.items|] == a.added;
    OneIdExactlyWhenLabelIsFree(a.before, a.issued, a.added, a.t, a.after);
  }

  // ---- what the plan says before and after ----

  /** Before the write every live item has children of its own already. */
  lemma LiveItemsHaveChildren(items: seq<Item>, added: Item, seen: seq<ScopePlan.Cand>, acknowledged: set<Id>, it: Item)
    requires ScopePlan.MintsOnly(items + [added], seen, acknowledged, added.tag)
    requires it in items && it.id != "" && it.id != added.tag
    ensures ScopePlan.Materialized(seen, it.id)
  {
    var p := Place(items, it);
    assert (items + [added])[p] == it;
    assert !ScopePlan.Fits(items + [added], seen, acknowledged, {ScopePlan.Ambivalent, ScopePlan.Collides}, p);
    assert p !in ScopePlan.Mintables(items + [added], seen, acknowledged);
  }

  /** The new item is the one mintable item of the preview, so whatever it depends on has children already. */
  lemma NewItemStands(before: File, added: Item, seen: seq<ScopePlan.Cand>, acknowledged: set<Id>, d: Id)
    requires AddGates(before.items, added, seen, acknowledged, true) && NoDup(KeysOf(before.items + [added]))
    requires d in added.depends
    ensures d != added.tag && ScopePlan.Materialized(seen, d)
  {
    var payload, n := before.items + [added], |before.items|;
    var mintable := ScopePlan.Mintables(payload, seen, acknowledged);
    assert payload[n] == added;
    NewItemIsMintable(before.items, added, seen, acknowledged);
    assert ScopePlan.Standing(payload, seen, mintable, n);
    NoSelfReference(payload, n, d);
    NamedOnlyByItself(payload, n, mintable, d);
  }

  lemma NamedOnlyByItself(payload: seq<Item>, n: nat, mintable: set<nat>, d: Id)
    requires n < |payload| && NoDup(KeysOf(payload)) && payload[n].id == ""
    requires forall p :: p in mintable ==> p < |payload| && payload[p].Key() == payload[n].Key()
    ensures ScopePlan.NamedIn(payload, mintable, d) ==> d == payload[n].tag
  {
    if ScopePlan.NamedIn(payload, mintable, d) {
      var m :| m in mintable && m < |payload| && payload[m].Names(d);
      Topo.SpeaksForItself(KeysOf(payload), m);
      Topo.SpeaksForItself(KeysOf(payload), n);
    }
  }

  lemma NewItemIsMintable(items: seq<Item>, added: Item, seen: seq<ScopePlan.Cand>, acknowledged: set<Id>)
    requires ScopePlan.MintsOnly(items + [added], seen, acknowledged, added.tag) && added.id == ""
    ensures |items| in ScopePlan.Mintables(items + [added], seen, acknowledged)
    ensures !ScopePlan.Unowned(seen, added.title) || added.tag in acknowledged
  {
    var n := |items|;
    assert (items + [added])[n] == added;
    assert !ScopePlan.Fits(items + [added], seen, acknowledged, {ScopePlan.Ambivalent, ScopePlan.Collides}, n);
  }

  lemma NoSelfReference(payload: seq<Item>, n: nat, d: Id)
    requires n < |payload| && NoDup(KeysOf(payload)) && !Cyclic(payload) && d in payload[n].depends
    ensures payload[n].Key() != d
  {
    if payload[n].Key() == d {
      var g := GraphOf(payload);
      assert KeysOf(payload)[n] in g.keys;
      Topo.SpeaksForItself(g.keys, n);
      assert g.Needs(d, d) && Topo.Link(g, [d, d], 0);
      assert Topo.IsCycle(g, [d, d]);
    }
  }

  /** The references the new item is written with lead to live items, which have children. */
  lemma WrittenItemStands(a: Addition, q: nat, x: Id)
    requires a.Accepted() && a.LabelFree()
    requires a.At(q) && x in a.after.items[q].depends
    ensures ScopePlan.Materialized(a.seen, x)
  {
    var payload := a.before.items + [a.added];
    AddedKeysDiffer(a.before, a.issued, a.added);
    DistinctBatch(payload, a.t.level, a.t.order, a.t.batch);
    assert RewrittenAt(a.t.batch[q], a.t.table, a.after.items[q]);
    var e :| 0 <= e < |a.added.depends| && a.added.depends[e] in a.t.table && a.t.table[a.added.depends[e]] == x;
    var d := a.added.depends[e];
    NewItemStands(a.before, a.added, a.seen, a.acknowledged, d);
    var j := KeptReferenceLeads(a.t.batch, Given(a.t.batch, a.t.first), a.t.table, a.after.items, d);
    assert j != q;
    LiveIdsDiffer(a.before, a.issued, a.added);
    WrittenIds(a);
    LiveItemHasChildren(a.before, a.issued, a.added, a.seen, a.acknowledged, a.t.batch[j]);
  }

  lemma LiveItemHasChildren(before: File, issued: seq<nat>, added: Item, seen: seq<ScopePlan.Cand>,
                            acknowledged: set<Id>, it: Item)
    requires Canonical(before, issued) && AddGates(before.items, added, seen, acknowledged, true)
    requires added.tag !in IdsOf(before.items) && it in before.items
    ensures it.id != "" && ScopePlan.Materialized(seen, it.id)
  {
    LiveIdsDiffer(before, issued, added);
    var p := Place(before.items, it);
    assert IdsOf(before.items)[p] in IdsOf(before.items);
    LiveItemsHaveChildren(before.items, added, seen, acknowledged, it);
  }

  /** Over the same candidates no live item is mintable afterwards either. */
  lemma LiveItemsStayUnmintable(a: Addition, q: nat, also: set<Id>, i: nat)
    requires a.Accepted() && a.LabelFree()
    requires a.At(q) && i < |a.after.items| && i != q
    ensures !ScopePlan.Judge(a.seen, also, a.after.items[i]).Mintable?
  {
    WrittenIds(a);
    LiveItemHasChildren(a.before, a.issued, a.added, a.seen, a.acknowledged, a.t.batch[i]);
  }

  /** The new item is mintable unless its id is claimed: a clash of titles was acknowledged, or there is none. */
  lemma NewItemIsJudged(a: Addition, q: nat, id: Id)
    requires a.Accepted()
    requires a.At(q) && a.after.items[q].id == id != ""
    ensures ScopePlan.Judge(a.seen, Acknowledging(a.acknowledged, a.added.tag, id), a.after.items[q]).Mintable?
       <==> !ScopePlan.Parent(a.seen, id)
  {
    NewItemIsMintable(a.before.items, a.added, a.seen, a.acknowledged);
    assert RewrittenAt(a.t.batch[q], a.t.table, a.after.items[q]);
    assert ScopePlan.Ambiguous(a.seen, id) ==> ScopePlan.Parent(a.seen, id);
  }

  lemma NewItemIsWrittenStanding(a: Addition, q: nat)
    requires a.Accepted() && a.LabelFree()
    requires a.At(q)
    ensures ScopePlan.Closed(a.after.items, a.seen, {q})
  {
    forall x | x in a.after.items[q].depends
      ensures ScopePlan.Met(a.after.items, a.seen, {q}, x)
    {
      WrittenItemStands(a, q, x);
    }
    assert ScopePlan.Standing(a.after.items, a.seen, {q}, q);
  }

  lemma MintsJustTheOne(items: seq<Item>, observed: seq<ScopePlan.Cand>, acknowledged: set<Id>, q: nat)
    requires q < |items| && items[q].id != "" && ScopePlan.Closed(items, observed, {q})
    requires forall i :: 0 <= i < |items| && i != q ==> !ScopePlan.Judge(observed, acknowledged, items[i]).Mintable?
    ensures MintsJust(items, observed, acknowledged, items[q].id)
       <==> ScopePlan.Judge(observed, acknowledged, items[q]).Mintable?
  {
    var mintable := ScopePlan.Mintables(items, observed, acknowledged);
    if ScopePlan.Judge(observed, acknowledged, items[q]).Mintable? {
      assert mintable == {q};
      assert MintsPlace(items, observed, acknowledged, q);
    } else {
      assert mintable == {};
      assert forall p: nat :: MintsPlace(items, observed, acknowledged, p) ==> p in mintable;
    }
  }

  /**
   AN ADDITION IS COMPLETED exactly when nobody claims the next id yet: over the candidates it was previewed on, the
   plan afterwards mints just the new item if and only if no candidate names its id as a parent.
  */
  lemma CompletedExactlyWhenIdIsUnclaimed(a: Addition, id: Id)
    requires a.Accepted() && a.LabelFree() && id == a.NextId()
    ensures MintsJust(a.after.items, a.seen, Acknowledging(a.acknowledged, a.added.tag, id), id)
       <==> !ScopePlan.Parent(a.seen, id)
  {
    var also := Acknowledging(a.acknowledged, a.added.tag, id);
    var q := NewPlace(a);
    NewItemHasTheNextId(a, q);
    WrittenIds(a);
    forall i | 0 <= i < |a.after.items| && i != q
      ensures !ScopePlan.Judge(a.seen, also, a.after.items[i]).Mintable?
    {
      LiveItemsStayUnmintable(a, q, also, i);
    }
    NewItemIsJudged(a, q, id);
    NewItemIsWrittenStanding(a, q);
    MintsJustTheOne(a.after.items, a.seen, also, q);
  }

  // ---- the verb ----

  /** With distinct ids a mint is never refused. */
  lemma DistinctIdsAreMinted(items: seq<Item>, observed: seq<ScopePlan.Cand>, acknowledged: set<Id>)
    requires NoDup(IdsOf(items)) && forall i :: 0 <= i < |items| ==> items[i].id != ""
    ensures !ScopeMint.RefusalIsDue(items, observed, acknowledged, {})
  {
    forall plan | ScopePlan.IsPlan(items, observed, acknowledged, plan)
      ensures !ScopeMint.BadIds(items, plan.toMint) && !ScopeMint.AnyUnfit(plan.toMint, {})
    {
      ScopeMint.PlanInRange(items, observed, acknowledged, plan);
      var ids := ScopeMint.BatchIds(items, plan.toMint);
      forall i, j | 0 <= i < j < |ids|
        ensures Differ(ids, i, j)
      {
        assert Differ(IdsOf(items), plan.toMint[i], plan.toMint[j]);
      }
    }
  }

  lemma PlanMintsJust(items: seq<Item>, observed: seq<ScopePlan.Cand>, acknowledged: set<Id>, plan: ScopePlan.Plan,
                      id: Id)
    requires ScopePlan.IsPlan(items, observed, acknowledged, plan)
    ensures MintsJust(items, observed, acknowledged, id)
       <==> |plan.toMint| == 1 && plan.toMint[0] < |items| && items[plan.toMint[0]].id == id
  {
    ScopeMint.PlanInRange(items, observed, acknowledged, plan);
    if |plan.toMint| == 1 {
      assert Elements(plan.toMint) == {plan.toMint[0]};
      assert MintsPlace(items, observed, acknowledged, plan.toMint[0]);
    }
    forall p: nat | MintsPlace(items, observed, acknowledged, p)
      ensures plan.toMint == [p]
    {
      OnlyElement(plan.toMint, p);
    }
  }

  lemma OnlyElement(places: seq<nat>, p: nat)
    requires Ascending(places) && {p} <= Elements(places) <= {p}
    ensures places == [p]
  {
    AscendingIsNoDup(places);
    ElementsOfDistinct(places);
    assert Elements(places) == {p};
    assert places[0] in Elements(places);
  }

  /** One record, for the item with this id, under a candidate id never seen before. */
  ghost predicate OneRecord(observed: seq<ScopePlan.Cand>, records: seq<ScopePlan.Cand>, id: Id) {
    |records| == 1 && records[0].refs == [id] && records[0].id !in ScopeMint.IdsOf(observed)
  }

  /**
   The mint of an addition: did it mint just the item with this id? It is never refused: the ids are distinct, and
   every item has just passed the gate on its own fields, so none is unfit.
  */
  method MintAdded(items: seq<Item>, backlog: ScopeMint.Backlog, acknowledged: set<Id>, id: Id)
    returns (done: bool, ghost records: seq<ScopePlan.Cand>)
    requires NoDup(IdsOf(items)) && forall i :: 0 <= i < |items| ==> items[i].id != ""
    modifies backlog
    ensures done <==> MintsJust(items, old(backlog.Observed()), acknowledged, id)
    ensures done ==> OneRecord(old(backlog.Observed()), records, id)
    ensures ScopeMint.NumberedFrom(records, ScopeMint.FirstFree(old(backlog.counter), old(backlog.Observed())))
    ensures backlog.archive == old(backlog.archive) && backlog.live == old(backlog.live) + records
  {
    ghost var observed := backlog.Observed();
    DistinctIdsAreMinted(items, observed, acknowledged);
    var mint;
    mint, records := backlog.Materialize(items, acknowledged, {});
    var toMint := mint.plan.toMint;
    PlanMintsJust(items, observed, acknowledged, mint.plan, id);
    ScopeMint.RecordsAreForItems(items, observed, acknowledged, mint.plan, records);
    ScopeMint.PlanInRange(items, observed, acknowledged, mint.plan);
    done := |toMint| == 1 && items[toMint[0]].id == id;
  }

  /** What is known of the scope file once an addition has left one new id in it. */
  lemma AdditionIsSettled(a: Addition, id: Id)
    requires a.Accepted() && Minus(IdsOf(a.after.items), IdsOf(a.before.items)) == [id]
    ensures a.LabelFree() && id == a.NextId()
    ensures NoDup(IdsOf(a.after.items)) && forall i :: 0 <= i < |a.after.items| ==> a.after.items[i].id != ""
  {
    LabelIsFree(a);
    var q := NewPlace(a);
    NewItemHasTheNextId(a, q);
    WrittenIds(a);
  }

  /** How an accepted addition ends, over the candidates that the mint finds. */
  ghost function Ending(a: Addition, later: seq<ScopePlan.Cand>): Outcome {
    var id := a.NextId();
    if !a.LabelFree() then Malformed
    else if MintsJust(a.after.items, later, Acknowledging(a.acknowledged, a.added.tag, id), id) then Done(id)
    else Partial(id)
  }

  /** Both verdicts after the write: how many ids came out, and what the mint made of the one. */
  method Settle(ghost a: Addition, items: seq<Item>, ids: seq<Id>, backlog: ScopeMint.Backlog, tag: Id,
                acknowledged: set<Id>)
    returns (outcome: Outcome, ghost records: seq<ScopePlan.Cand>)
    requires a.Accepted() && items == a.after.items && tag == a.added.tag && acknowledged == a.acknowledged
    requires ids == Minus(IdsOf(a.after.items), IdsOf(a.before.items))
    modifies backlog
    ensures outcome == Ending(a, old(backlog.Observed()))
    ensures old(backlog.Observed()) == a.seen ==> outcome == Foretold(a.before, a.counter, a.added, a.seen)
    ensures backlog.archive == old(backlog.archive) && backlog.live == old(backlog.live) + records
    ensures outcome.Malformed? ==> records == []
    ensures outcome.Done? ==> OneRecord(old(backlog.Observed()), records, outcome.id)
    ensures ScopeMint.NumberedFrom(records, ScopeMint.FirstFree(old(backlog.counter), old(backlog.Observed())))
  {
    records := [];
    LabelIsFree(a);
    EndsExactly(a);
    if |ids| != 1 {
      return Malformed, records;
    }
    AdditionIsSettled(a, ids[0]);
    var done;
    done, records := MintAdded(items, backlog, Acknowledging(acknowledged, tag, ids[0]), ids[0]);
    outcome := if done then Done(ids[0]) else Partial(ids[0]);
  }

  lemma WasAccepted(scope: Scope, was: Memory, a: Addition)
    requires scope.Accepted(was, was.file.items + [a.added], a.t) && Canonical(was.file, was.issued)
    requires AddGates(was.file.items, a.added, a.seen, a.acknowledged, true)
    requires a == Addition(was.file, was.counter, was.issued, a.added, a.seen, a.acknowledged, a.t, scope.Now())
    ensures a.Accepted()
  {
  }

  method Conclude(ghost a: Addition, items: seq<Item>, ids: Option<seq<Id>>, backlog: ScopeMint.Backlog, tag: Id,
                  acknowledged: set<Id>)
    returns (outcome: Outcome, ghost records: seq<ScopePlan.Cand>)
    requires ids.Some? ==> a.Accepted() && ids.value == Minus(IdsOf(a.after.items), IdsOf(a.before.items))
    requires items == a.after.items && tag == a.added.tag && acknowledged == a.acknowledged
    modifies backlog
    ensures outcome.Refused? <==> ids.None?
    ensures ids.None? ==> records == []
    ensures ids.Some? ==> outcome == Ending(a, old(backlog.Observed()))
    ensures ids.Some? && old(backlog.Observed()) == a.seen ==> outcome == Foretold(a.before, a.counter, a.added, a.seen)
    ensures backlog.archive == old(backlog.archive) && backlog.live == old(backlog.live) + records
    ensures outcome.Malformed? ==> records == []
    ensures outcome.Done? ==> OneRecord(old(backlog.Observed()), records, outcome.id)
    ensures ScopeMint.NumberedFrom(records, ScopeMint.FirstFree(old(backlog.counter), old(backlog.Observed())))
  {
    if ids.None? {
      return Refused, [];
    }
    outcome, records := Settle(a, items, ids.value, backlog, tag, acknowledged);
  }

  /** The in-lock half: the gates, and then the file with the new item on top. */
  method Write(scope: Scope, added: Item, seen: seq<ScopePlan.Cand>, acknowledged: set<Id>, contract: bool)
    returns (ids: Option<seq<Id>>, ghost a: Addition)
    requires scope.Valid()
    modifies scope
    ensures scope.Valid() && scope.base == old(scope.base)
    ensures a == Addition(old(scope.Now()), old(scope.counter), old(scope.issued), added, seen, acknowledged, a.t,
                          scope.Now())
    ensures ids.None? <==> !AddGates(old(scope.items), added, seen, acknowledged, contract)
    ensures ids.None? ==> scope.Is(old(scope.Whole()))
    ensures ids.Some? ==> a.Accepted() && scope.Accepted(old(scope.Whole()), old(scope.items) + [added], a.t)
    ensures ids.Some? ==> ids.value == Minus(IdsOf(a.after.items), IdsOf(a.before.items))
  {
    ghost var was := scope.Whole();
    assert Canonical(was.file, was.issued);
    ghost var t;
    ids, t := scope.AddOnTop(added, seen, acknowledged, contract);
    a := Addition(was.file, was.counter, was.issued, added, seen, acknowledged, t, scope.Now());
    if ids.Some? { WasAccepted(scope, was, a); }
  }

  /**
   `cmd_add_item`: the in-lock half on the scope over the candidates `seen`, then the mint on the backlog as it is by
   then. The verdict is read off the mint: an item without its candidate is a partial addition, never a success.
  */
  method AddItem(scope: Scope, backlog: ScopeMint.Backlog, added: Item, seen: seq<ScopePlan.Cand>,
                 acknowledged: set<Id>, contract: bool)
    returns (outcome: Outcome, ghost a: Addition, ghost records: seq<ScopePlan.Cand>)
    requires scope.Valid()
    modifies scope, backlog
    ensures scope.Valid() && scope.base == old(scope.base)
    ensures a == Addition(old(scope.Now()), old(scope.counter), old(scope.issued), added, seen, acknowledged, a.t,
                          scope.Now())
    ensures outcome.Refused? <==> !AddGates(old(scope.items), added, seen, acknowledged, contract)
    ensures outcome.Refused? ==> scope.Is(old(scope.Whole())) && records == []
    ensures !outcome.Refused? ==> a.Accepted() && scope.Accepted(old(scope.Whole()), old(scope.items) + [added], a.t)
    ensures !outcome.Refused? ==> outcome == Ending(a, old(backlog.Observed()))
    ensures !outcome.Refused? && old(backlog.Observed()) == seen ==>
              outcome == Foretold(old(scope.Now()), old(scope.counter), added, seen)
    ensures backlog.archive == old(backlog.archive) && backlog.live == old(backlog.live) + records
    ensures outcome.Malformed? ==> records == []
    ensures outcome.Done? ==> OneRecord(old(backlog.Observed()), records, outcome.id)
    ensures ScopeMint.NumberedFrom(records, ScopeMint.FirstFree(old(backlog.counter), old(backlog.Observed())))
  {
    var ids;
    ids, a := Write(scope, added, seen, acknowledged, contract);
    outcome, records := Conclude(a, scope.items, ids, backlog, added.tag, acknowledged);
  }

  /**
   EXACTLY HOW AN ADDITION ENDS when the backlog is as the preview saw it: malformed when the label is a live id;
   otherwise with one new id, the next number, and half-applied if and only if a candidate claims that id already.
  */
  lemma EndsExactly(a: Addition)
    requires a.Accepted()
    ensures |Minus(IdsOf(a.after.items), IdsOf(a.before.items))| == 1 <==> a.LabelFree()
    ensures a.LabelFree() ==> Minus(IdsOf(a.after.items), IdsOf(a.before.items)) == [a.NextId()]
    ensures Ending(a, a.seen) == Foretold(a.before, a.counter, a.added, a.seen)
  {
    LabelIsFree(a);
    if a.LabelFree() {
      var q := NewPlace(a);
      NewItemHasTheNextId(a, q);
      CompletedExactlyWhenIdIsUnclaimed(a, a.NextId());
    }
  }

  // ---- an addition that the preview lets through and the mint does not ----

  function ClaimedBefore(): File { File([Item("PS-001", "store", "Store", [])], []) }

  function NewShop(): Item { Item("", "shop", "Shop", []) }

  /** The second candidate names as its parent an id that no item has yet. */
  function ClaimedSeen(): seq<ScopePlan.Cand> {
    [ScopePlan.Cand("SC-001", "Store", ["PS-001"], []), ScopePlan.Cand("SC-002", "Old shop", ["PS-002"], [])]
  }

  lemma ClaimedNames()
    ensures StrippedIds(ClaimedBefore().items + [NewShop()]) == ["PS-001", ""]
    ensures TagsOf(ClaimedBefore().items + [NewShop()]) == ["store", "shop"]
    ensures IdsOf(ClaimedBefore().items + [NewShop()]) == ["PS-001", ""] && IdsOf(ClaimedBefore().items) == ["PS-001"]
  {
    Text.StripKeepsTheTrimmed("PS-001");
    Text.StripKeepsTheTrimmed("");
  }

  lemma ClaimedPlan()
    ensures ScopePlan.MintsOnly(ClaimedBefore().items + [NewShop()], ClaimedSeen(), {}, "shop")
    ensures ScopePlan.Parent(ClaimedSeen(), "PS-002")
  {
    var payload, seen := ClaimedBefore().items + [NewShop()], ClaimedSeen();
    assert "PS-001" in seen[0].refs && "PS-002" in seen[1].refs;
    assert ScopePlan.Judge(seen, {}, payload[0]) == ScopePlan.Already;
    assert ScopePlan.Judge(seen, {}, payload[1]) == ScopePlan.Mintable;
  }

  /** The preview passes: the new item has no id, so nothing can claim it yet. */
  lemma ClaimedIdIsAccepted()
    ensures AddGates(ClaimedBefore().items, NewShop(), ClaimedSeen(), {}, true)
  {
    ClaimedNames();
    ClaimedPlan();
    NoReferencesNoCycle(ClaimedBefore().items + [NewShop()]);
  }

  lemma ClaimedLabelIsFree()
    ensures NewShop().tag !in IdsOf(ClaimedBefore().items) && ScopePlan.Parent(ClaimedSeen(), "PS-002")
  {
    ClaimedNames();
    ClaimedPlan();
  }

  lemma FirstIdOfAll()
    ensures IdAlloc.Fmt(IdAlloc.SCOPE, 1) == "PS-001"
  {
  }

  lemma ClaimedNextId(counter: int)
    requires counter <= 1
    ensures NextNumber(ClaimedBefore(), counter) == 2 && IdAlloc.Fmt(IdAlloc.SCOPE, 2) == "PS-002"
  {
    FirstIdOfAll();
    IdAlloc.ParseOwn(IdAlloc.SCOPE, 1);
    assert Ever(ClaimedBefore()) == ["PS-001"] && ["PS-001"][..0] == [];
    assert IdAlloc.Largest(IdAlloc.SCOPE, []) == 0;
  }

  /** With the counter in step, or behind, the item will be PS-002, which has a child already. */
  lemma ClaimedIdIsHalfApplied(counter: int)
    requires counter <= 1
    ensures AddGates(ClaimedBefore().items, NewShop(), ClaimedSeen(), {}, true)
    ensures Foretold(ClaimedBefore(), counter, NewShop(), ClaimedSeen()) == Partial("PS-002")
  {
    ClaimedIdIsAccepted();
    ClaimedLabelIsFree();
    ClaimedNextId(counter);
  }

  /** The whole run, from an empty scope: a first decomposition, and the addition that ends half-applied. */
  method HalfAppliedAddition() returns (outcome: Outcome)
    ensures outcome == Partial("PS-002")
  {
    var scope := new Scope(0);
    var payload := [Item("", "store", "Store", [])];
    FirstStore(payload);
    var ok := scope.Persist(payload, true);
    StoreIsWritten(scope, payload);
    var backlog := new ScopeMint.Backlog(ClaimedSeen(), [], 2);
    ClaimedIdIsHalfApplied(scope.counter);
    assert backlog.Observed() == ClaimedSeen();
    ghost var a; ghost var records;
    outcome, a, records := AddItem(scope, backlog, NewShop(), ClaimedSeen(), {}, true);
  }

  lemma FirstStore(payload: seq<Item>)
    requires payload == [Item("", "store", "Store", [])]
    ensures NewPayload(payload) && !Cyclic(payload)
  {
    NoReferencesNoCycle(payload);
  }

  lemma StoreIsWritten(scope: Scope, payload: seq<Item>)
    requires payload == [Item("", "store", "Store", [])]
    requires Founded(payload, scope.Now(), scope.base, scope.issued) && scope.NumberedFrom(1, 1)
    ensures scope.Now() == ClaimedBefore()
  {
    var t: Trace :| FoundedBy(payload, t, scope.Now(), scope.base, scope.issued);
    StoreBatch(payload, t);
    assert scope.issued[0] == 1 == t.first;
    StoreItem(t.table, t.batch[0], scope.items[0]);
    FirstIdOfAll();
    assert Given(t.batch, 1)[0] == GivenTo(t.batch, 1, 0) == IdAlloc.Fmt(IdAlloc.SCOPE, 1);
    assert IdsOf(scope.items)[0] == Given(t.batch, 1)[0];
  }

  lemma StoreBatch(payload: seq<Item>, t: Trace)
    requires payload == [Item("", "store", "Store", [])] && InOrder(payload, t.level, t.order, t.batch)
    ensures t.batch == payload
  {
    FirstStore(payload);
    NewKeysDiffer(payload);
    DistinctBatch(payload, t.level, t.order, t.batch);
  }

  lemma StoreItem(table: map<Id, Id>, it: Item, o: Item)
    requires RewrittenAt(it, table, o) && it.depends == []
    ensures o.tag == it.tag && o.title == it.title && o.depends == []
  {
  }
}
