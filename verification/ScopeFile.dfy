/** The scope file itself, changed in place by the verbs, with everything ever issued remembered on the side. */
module ScopeFile {
  import opened Common
  import opened Seqs
  import opened ScopeItem
  import opened ScopeCore
  import opened ScopeLedger
  import opened ScopeIds
  import IdAlloc
  import ScopePlan
  import Topo

  ghost predicate AllAtMost(ns: seq<nat>, top: int) {
    forall i :: 0 <= i < |ns| ==> ns[i] <= top
  }

  /**
   Numbers are issued in rising order and stay covered, nothing else is on record, and the ledger leads to the present
   ids; a tidy ledger is exact, and tidy items can be handed in again.
  */
  ghost predicate Healthy(file: File, base: seq<Id>, issued: seq<nat>, tidy: bool) {
    && Ascending(issued) && AllCovered(Ever(file), issued) && Canonical(file, issued)
    && SameMembers(Replay(base, file.revisions), IdsOf(file.items))
    && (tidy ==> Exact(file, base, issued) && Restatable(file.items))
    && (file.items == [] ==> file.revisions == [] && issued == [])
  }

  class Scope {
    var items: seq<Item>
    var revisions: seq<Revision>
    var counter: int
    /** Every number ever issued, in order of issue. */
    ghost var issued: seq<nat>
    /** The ids of the first decomposition. */
    ghost var base: seq<Id>
    /** No accepted batch has shared a key between two of its items. */
    ghost var tidy: bool
    /** A hand has set the counter since the last number was taken. */
    ghost var touched: bool

    ghost function Now(): File
      reads this
    {
      File(items, revisions)
    }

    /** What no run of the verbs, and no hand on the counter, can break. */
    ghost predicate Valid()
      reads this
    {
      Healthy(Now(), base, issued, tidy) && (!touched ==> AllAtMost(issued, counter))
    }

    constructor (counter: int)
      ensures Valid() && items == [] && revisions == [] && this.counter == counter && issued == [] && tidy && !touched
    {
      items, revisions, this.counter, issued, base, tidy, touched := [], [], counter, [], [], true, false;
    }

    /** `vault_edit set --path counters.ps`: the stored counter is whatever a hand makes it. */
    method SetCounter(value: int)
      requires Valid()
      modifies this`counter, this`touched
      ensures Valid() && counter == value && touched
    {
      counter, touched := value, true;
    }

    /** `seed_max_for("ps")`: over the live ids and the retirement ledger. */
    method Floor() returns (floor: nat)
      ensures floor == FloorOf(Now())
      ensures Below(Ever(Now()), floor + 1)
      ensures floor == 0 || Covered(Ever(Now()), floor)
    {
      var live := IdAlloc.ScanMax(IdAlloc.SCOPE, IdsOf(items));
      var retired := IdAlloc.ScanMax(IdAlloc.SCOPE, Cuts(revisions));
      floor := if retired > live then retired else live;
      IdAlloc.LargestOfBoth(IdAlloc.SCOPE, IdsOf(items), Cuts(revisions));
      AtMostIsBelow(Ever(Now()), floor, floor);
      if floor > 0 { NumberCovers(Ever(Now()), Ever(Now()), floor); }
    }

    method AssignOne(it: Item, floor: nat, table: map<Id, Id>, ghost start: int, ghost done: seq<Item>,
                     ghost first: nat) returns (more: map<Id, Id>)
      requires Tabled(done, first, table) && counter == CounterAfter(start, first, done)
      requires first == IdAlloc.Next(start, floor)
      modifies this`counter
      ensures Tabled(done + [it], first, more) && counter == CounterAfter(start, first, done + [it])
    {
      var id := it.id;
      ghost var n := first + News(done);
      if it.id == "" {
        counter := IdAlloc.Next(counter, floor);
        id := IdAlloc.Fmt(IdAlloc.SCOPE, counter);
        assert counter == n;
      }
      more := Put(table, it.Key(), it.tag, id);
      TabledMore(done, first, table, it, id, n);
    }

    /** The numbering loop: one pass over the batch in dependency order. */
    method Assign(batch: seq<Item>, floor: nat) returns (table: map<Id, Id>, ghost first: nat)
      modifies this`counter
      ensures first == IdAlloc.Next(old(counter), floor)
      ensures Tabled(batch, first, table) && counter == CounterAfter(old(counter), first, batch)
    {
      ghost var start, done := counter, [];
      table, first := map[], IdAlloc.Next(counter, floor);
      for i := 0 to |batch|
        invariant done == batch[..i] && Tabled(done, first, table) && counter == CounterAfter(start, first, done)
      {
        table := AssignOne(batch[i], floor, table, start, done, first);
        TakeNext(batch, i);
        done := done + [batch[i]];
      }
      TakeWhole(batch);
    }

    /** Orders, numbers and projects a payload, or stops at a dependency cycle before any number is taken. */
    method Renumber(payload: seq<Item>) returns (out: Option<seq<Item>>, ghost t: Trace)
      modifies this`counter
      ensures out.None? <==> Cyclic(payload)
      ensures out.None? ==> counter == old(counter)
      ensures out.Some? ==> Below(Ever(Now()), t.first) && WrittenBy(payload, t, out.value)
      ensures out.Some? ==>
                t.first == NextNumber(Now(), old(counter)) && counter == CounterAfter(old(counter), t.first, t.batch)
    {
      var r; ghost var level, order;
      r, level, order := Topo.Sort(GraphOf(payload));
      t := Trace(0, level, order, [], map[]);
      if r.None? {
        return None, t;
      }
      var written;
      written, t := Number(payload, r.value, level, order);
      out := Some(written);
    }

    /** Numbers and projects the batch once its order is known. */
    method Number(payload: seq<Item>, speakers: seq<nat>, ghost level: seq<int>,
                  ghost order: seq<nat>) returns (out: seq<Item>, ghost t: Trace)
      requires Ranks(payload, speakers, level, order)
      modifies this`counter
      ensures Below(Ever(Now()), t.first) && WrittenBy(payload, t, out)
      ensures t.first == NextNumber(Now(), old(counter)) && counter == CounterAfter(old(counter), t.first, t.batch)
    {
      var batch := Picked(payload, speakers);
      var table, first := AssignAbove(batch);
      out := Project(batch, table);
      t := Trace(first, level, order, batch, table);
    }

    /** Takes numbers for the new items of a batch, above the counter and above everything on record. */
    method AssignAbove(batch: seq<Item>) returns (table: map<Id, Id>, ghost first: nat)
      modifies this`counter
      ensures Below(Ever(Now()), first) && first == NextNumber(Now(), old(counter))
      ensures Tabled(batch, first, table) && counter == CounterAfter(old(counter), first, batch)
    {
      var floor := Floor();
      BelowHigher(Ever(Now()), floor + 1, IdAlloc.Next(counter, floor));
      table, first := Assign(batch, floor);
    }

    method Commit(out: seq<Item>, ghost ns: seq<nat>, ghost clean: bool, ghost edited: bool) returns (added: seq<Id>)
      requires Healthy(File(out, Ledger(Now(), out)), base, issued + ns, clean)
      requires !edited ==> AllAtMost(issued + ns, counter)
      modifies this`items, this`revisions, this`issued, this`tidy, this`touched
      ensures Valid() && Now() == File(out, Ledger(old(Now()), out))
      ensures issued == old(issued) + ns && tidy == clean && touched == edited
      ensures added == Minus(IdsOf(out), IdsOf(old(items)))
    {
      added := Minus(IdsOf(out), IdsOf(items));
      items, revisions := out, Ledger(File(items, revisions), out);
      issued, tidy, touched := issued + ns, clean, edited;
    }

    /** The shared in-lock core of a revision and an addition: gates, renumbering, ledger. */
    method Apply(payload: seq<Item>, cuts: seq<Id>, contract: bool) returns (ok: bool, added: seq<Id>, ghost t: Trace)
      requires Valid() && payload != [] && Identities(payload)
      modifies this
      ensures Valid() && base == old(base)
      ensures ok <==> Gates(IdsOf(old(items)), payload, cuts, contract)
      ensures !ok ==> Is(old(Whole()))
      ensures ok ==> Accepted(old(Whole()), payload, t) && added == Minus(IdsOf(items), IdsOf(old(items)))
    {
      added, t := [], Trace(0, [], [], [], map[]);
      if !Membership(IdsOf(items), payload, cuts) || !contract || !Labelled(payload) {
        return false, added, t;
      }
      var out;
      out, t := Renumber(payload);
      if out.None? {
        return false, added, t;
      }
      ghost var clean, edited := tidy && NoDup(KeysOf(payload)), touched && News(t.batch) == 0;
      ChangeKeepsHealth(Now(), base, issued, tidy, payload, cuts, t, out.value);
      CounterClears(Now(), issued, old(counter), t.first, t.batch);
      added := Commit(out.value, Range(t.first, News(t.batch)), clean, edited);
      ok := true;
    }

    /** The whole state, with what only the proof remembers. */
    ghost function Whole(): Memory
      reads this
    {
      Memory(Now(), counter, issued, tidy, touched)
    }

    ghost predicate Is(m: Memory)
      reads this
    {
      Whole() == m
    }

    /** What an accepted payload leaves behind. */
    ghost predicate Accepted(was: Memory, payload: seq<Item>, t: Trace)
      reads this
    {
      && AppliedBy(was.file, payload, t, Now())
      && issued == was.issued + Range(t.first, News(t.batch))
      && t.first == NextNumber(was.file, was.counter) && counter == CounterAfter(was.counter, t.first, t.batch)
      && tidy == (was.tidy && NoDup(KeysOf(payload))) && touched == (was.touched && News(t.batch) == 0)
    }

    /** So many numbers were issued, from `first` on, and the counter stands at the last one. */
    ghost predicate NumberedFrom(first: nat, n: nat)
      reads this
    {
      issued == Range(first, n) && counter == first + n - 1
    }

    /** The once-act: only onto an empty scope, only items without ids. */
    method Persist(payload: seq<Item>, contract: bool) returns (ok: bool)
      requires Valid()
      modifies this
      ensures Valid() && tidy == old(tidy)
      ensures ok <==> FirstGates(old(items), payload, contract) && !Cyclic(payload)
      ensures !ok ==> Is(old(Whole())) && base == old(base)
      ensures ok ==> Founded(payload, Now(), base, issued) && !touched
      ensures ok ==> NumberedFrom(NextNumber(old(Now()), old(counter)), |payload|)
    {
      if !FirstGates(items, payload, contract) {
        return false;
      }
      ok := Found(payload);
    }

    method Found(payload: seq<Item>) returns (ok: bool)
      requires NewPayload(payload) && payload != [] && items == [] && revisions == []
      modifies this`items, this`base, this`issued, this`counter, this`touched
      ensures ok <==> !Cyclic(payload)
      ensures !ok ==>
          items == [] && counter == old(counter) && issued == old(issued) && base == old(base) &&
          touched == old(touched)
      ensures ok ==> Valid() && Founded(payload, Now(), base, issued) && !touched
      ensures ok ==> NumberedFrom(NextNumber(old(Now()), old(counter)), |payload|)
    {
      var out; ghost var t;
      out, t := Renumber(payload);
      if out.None? {
        return false;
      }
      FirstScope(payload, t, out.value);
      Start(out.value, Range(t.first, |payload|));
      ok := true;
    }

    method Start(out: seq<Item>, ghost ns: seq<nat>)
      requires Healthy(File(out, []), IdsOf(out), ns, true) && revisions == [] && AllAtMost(ns, counter)
      modifies this`items, this`base, this`issued, this`touched
      ensures Valid() && Now() == File(out, []) && base == IdsOf(out) && issued == ns && !touched
    {
      items, base, issued, touched := out, IdsOf(out), ns, false;
    }

    /** A revision of the whole list: every live id restated or cut, and a cut needs a reason. */
    method Revise(payload: seq<Item>, cuts: seq<Id>, reasoned: bool, contract: bool) returns (ok: bool, ghost t: Trace)
      requires Valid()
      modifies this
      ensures Valid() && base == old(base)
      ensures ok <==>
          (cuts == [] || reasoned) && payload != [] && Identities(payload) && References(payload) &&
          Gates(IdsOf(old(items)), payload, cuts, contract)
      ensures !ok ==> Is(old(Whole()))
      ensures ok ==> Accepted(old(Whole()), payload, t)
    {
      t := Trace(0, [], [], [], map[]);
      if (cuts != [] && !reasoned) || payload == [] || !Identities(payload) || !References(payload) {
        return false, t;
      }
      var added;
      ok, added, t := Apply(payload, cuts, contract);
    }

    /** The in-lock half of an addition: one new capability on the live ones, if the plan would mint exactly it. */
    method AddOnTop(added: Item, observed: seq<ScopePlan.Cand>, acknowledged: set<Id>, contract: bool)
      returns (ids: Option<seq<Id>>, ghost t: Trace)
      requires Valid()
      modifies this
      ensures Valid() && base == old(base)
      ensures ids.None? <==> !AddGates(old(items), added, observed, acknowledged, contract)
      ensures ids.None? ==> Is(old(Whole()))
      ensures ids.Some? ==> Accepted(old(Whole()), old(items) + [added], t)
      ensures ids.Some? ==> ids.value == Minus(IdsOf(items), IdsOf(old(items)))
    {
      var composed := items + [added];
      t := Trace(0, [], [], [], map[]);
      if added.id != "" || !Identities(composed) || !References(composed) {
        return None, t;
      }
      var planned := ScopePlan.Preview(composed, observed, acknowledged, added.tag);
      if !planned {
        return None, t;
      }
      var ok, news;
      ok, news, t := Apply(composed, [], contract);
      ids := if ok then Some(news) else None;
    }
  }

  datatype Memory = Memory(file: File, counter: int, issued: seq<nat>, tidy: bool, touched: bool)

  ghost predicate Tabled(batch: seq<Item>, first: nat, table: map<Id, Id>) {
    Table(KeysOf(batch), TagsOf(batch), Given(batch, first), table)
  }

  ghost function CounterAfter(start: int, first: nat, batch: seq<Item>): int {
    if News(batch) == 0 then start else first + News(batch) - 1
  }

  lemma OneMoreItem(done: seq<Item>, it: Item)
    ensures KeysOf(done + [it]) == KeysOf(done) + [it.Key()] && TagsOf(done + [it]) == TagsOf(done) + [it.tag]
  {
  }

  lemma TabledMore(done: seq<Item>, first: nat, table: map<Id, Id>, it: Item, id: Id, n: nat)
    requires Tabled(done, first, table) && n == first + News(done)
    requires id == if it.id != "" then it.id else IdAlloc.Fmt(IdAlloc.SCOPE, n)
    ensures Tabled(done + [it], first, Put(table, it.Key(), it.tag, id))
    ensures News(done + [it]) == News(done) + (if it.id == "" then 1 else 0)
  {
    Extend(done, it, first, n);
    OneMoreItem(done, it);
    ghost var ids := Given(done, first);
    assert Given(done + [it], first) == ids + [id];
    PutKeepsTable(KeysOf(done), TagsOf(done), ids, table, it.Key(), it.tag, id);
  }

  /** The projection loop: the items as they are written. */
  method Project(batch: seq<Item>, table: map<Id, Id>) returns (out: seq<Item>)
    requires forall i :: 0 <= i < |batch| ==> batch[i].Key() in table
    ensures Rewritten(batch, table, out)
  {
    out := [];
    for i := 0 to |batch|
      invariant Rewritten(batch[..i], table, out)
    {
      var it := batch[i];
      out := out + [Item(table[it.Key()], it.tag, it.title, Resolved(it.depends, table))];
    }
    assert batch[..|batch|] == batch;
  }

  lemma AtMostIsBelow(ids: seq<Id>, top: nat, floor: nat)
    requires IdAlloc.AtMost(IdAlloc.Numbers(IdAlloc.SCOPE, ids), top) && top <= floor
    ensures Below(ids, floor + 1)
  {
    forall i | 0 <= i < |ids|
      ensures BelowOne(ids[i], floor + 1)
    {
      var n := IdAlloc.ParseNum(IdAlloc.SCOPE, ids[i]);
      if n.Some? {
        assert n.value in IdAlloc.Numbers(IdAlloc.SCOPE, ids);
      }
    }
  }

  lemma NumberCovers(ids: seq<Id>, more: seq<Id>, n: nat)
    requires n in IdAlloc.Numbers(IdAlloc.SCOPE, ids) && forall x :: x in ids ==> x in more
    ensures Covered(more, n)
  {
    var i :| 0 <= i < |ids| && IdAlloc.ParseNum(IdAlloc.SCOPE, ids[i]) == Some(n);
    assert AtLeast(ids[i], n);
    CoveredMore(ids, more, n);
  }

  lemma BelowHigher(ids: seq<Id>, low: nat, high: nat)
    requires Below(ids, low) && low <= high
    ensures Below(ids, high)
  {
    forall i | 0 <= i < |ids|
      ensures BelowOne(ids[i], high)
    {
      assert BelowOne(ids[i], low);
    }
  }

  ghost predicate AddGates(items: seq<Item>, added: Item, observed: seq<ScopePlan.Cand>, acknowledged: set<Id>,
                           contract: bool) {
    var composed := items + [added];
    && added.id == "" && Identities(composed) && References(composed)
    && ScopePlan.MintsOnly(composed, observed, acknowledged, added.tag)
    && Gates(IdsOf(items), composed, [], contract)
  }

  /** The scope is still empty, and the payload is new, labelled, and refers only to itself. */
  predicate FirstGates(items: seq<Item>, payload: seq<Item>, contract: bool) {
    items == [] && payload != [] && contract && NewPayload(payload)
  }

  predicate NewPayload(payload: seq<Item>) {
    && (forall i :: 0 <= i < |payload| ==> payload[i].id == "")
    && Identities(payload) && References(payload) && Labelled(payload)
  }

  /** How an accepted payload was ordered, numbered and keyed. */
  datatype Trace = Trace(first: nat, level: seq<int>, order: seq<nat>, batch: seq<Item>, table: map<Id, Id>)

  ghost predicate WrittenBy(payload: seq<Item>, t: Trace, items: seq<Item>) {
    Written(payload, t.first, t.level, t.order, t.batch, t.table, items)
  }

  /** What the sorter returns when it succeeds. */
  ghost predicate Ranks(payload: seq<Item>, speakers: seq<nat>, level: seq<int>, order: seq<nat>) {
    && Topo.IsOrdering(GraphOf(payload), level, order) && speakers == Topo.Speakers(GraphOf(payload), order)
    && forall i :: 0 <= i < |speakers| ==> speakers[i] < |payload|
  }

  ghost predicate AppliedBy(before: File, payload: seq<Item>, t: Trace, after: File) {
    Applied(before, payload, t.first, t.level, t.order, t.batch, t.table, after)
  }

  ghost predicate Gates(cur: seq<Id>, payload: seq<Item>, cuts: seq<Id>, contract: bool) {
    Membership(cur, payload, cuts) && contract && Labelled(payload) && !Cyclic(payload)
  }

  ghost predicate Cyclic(payload: seq<Item>) {
    exists walk :: Topo.IsCycle(GraphOf(payload), walk)
  }

  lemma NoReferencesNoCycle(payload: seq<Item>)
    requires forall i, d :: 0 <= i < |payload| && d in payload[i].depends ==> d !in KeysOf(payload)
    ensures !Cyclic(payload)
  {
    var g := GraphOf(payload);
    forall walk
      ensures !Topo.IsCycle(g, walk)
    {
      assert Topo.IsCycle(g, walk) ==> Topo.Link(g, walk, 0);
    }
  }

  lemma AscendingRange(issued: seq<nat>, first: nat, n: nat)
    requires Ascending(issued) && forall i :: 0 <= i < |issued| ==> issued[i] < first
    ensures Ascending(issued + Range(first, n))
  {
  }

  /** Both invariants across one accepted batch. */
  lemma ChangeKeepsHealth(before: File, base: seq<Id>, issued: seq<nat>, tidy: bool, payload: seq<Item>, cuts: seq<Id>,
                          t: Trace, out: seq<Item>)
    requires WrittenBy(payload, t, out) && Below(Ever(before), t.first) && Healthy(before, base, issued, tidy)
    requires Membership(IdsOf(before.items), payload, cuts) && payload != [] && Identities(payload) && Labelled(payload)
    ensures AppliedBy(before, payload, t, File(out, Ledger(before, out)))
    ensures Healthy(File(out, Ledger(before, out)), base, issued + Range(t.first, News(t.batch)), tidy
        && NoDup(KeysOf(payload)))
  {
    var after := File(out, Ledger(before, out));
    forall i | 0 <= i < |issued|
      ensures issued[i] < t.first
    {
      FloorIsAboveIssued(before, issued, t.first, issued[i]);
    }
    AscendingRange(issued, t.first, News(t.batch));
    StaysCanonical(before, issued, payload, cuts, t.first, t.level, t.order, t.batch, t.table, after);
    StillCovered(before, issued, payload, t.first, t.level, t.order, t.batch, t.table, after);
    if tidy && NoDup(KeysOf(payload)) {
      StaysExact(before, base, issued, payload, cuts, t.first, t.level, t.order, t.batch, t.table, after);
      WrittenIsRestatable(payload, t.first, t.level, t.order, t.batch, t.table, out);
    }
  }

  /** A mint lifts the counter over everything issued, wherever a hand had left it. */
  lemma CounterClears(file: File, issued: seq<nat>, c: int, first: nat, batch: seq<Item>)
    requires AllCovered(Ever(file), issued) && Below(Ever(file), first)
    ensures News(batch) > 0 || AllAtMost(issued, c) ==>
              AllAtMost(issued + Range(first, News(batch)), CounterAfter(c, first, batch))
  {
    forall i | 0 <= i < |issued|
      ensures issued[i] < first
    {
      FloorIsAboveIssued(file, issued, first, issued[i]);
    }
  }

  // ---- the first scope ----

  /** New items have distinct labels for keys. */
  lemma NewKeysDiffer(payload: seq<Item>)
    requires NewPayload(payload)
    ensures KeysOf(payload) == TagsOf(payload) && NoDup(KeysOf(payload)) && ByKey(payload)
  {
    assert KeysOf(payload) == TagsOf(payload);
    forall i, j | 0 <= i < j < |payload|
      ensures Differ(KeysOf(payload), i, j)
    {
      assert TagsOf(payload)[i] != TagsOf(payload)[j];
    }
  }

  lemma {:induction false} AllNews(batch: seq<Item>)
    requires forall i :: 0 <= i < |batch| ==> batch[i].id == ""
    ensures News(batch) == |batch|
  {
    if batch != [] { AllNews(batch[..|batch| - 1]); }
  }

  /** The first scope: its items as written, no revisions, and its own ids as the base of all later replays. */
  ghost predicate Founded(payload: seq<Item>, file: File, base: seq<Id>, issued: seq<nat>) {
    exists t: Trace :: FoundedBy(payload, t, file, base, issued)
  }

  ghost predicate FoundedBy(payload: seq<Item>, t: Trace, file: File, base: seq<Id>, issued: seq<nat>) {
    && WrittenBy(payload, t, file.items) && FirstShape(payload, t, file.items)
    && file.revisions == [] && base == IdsOf(file.items) && issued == Range(t.first, |payload|)
  }

  /** One item for each of the payload, numbered in a row, each reference pointing back. */
  ghost predicate FirstShape(payload: seq<Item>, t: Trace, out: seq<Item>) {
    |out| == |payload| && IdsOf(out) == Given(t.batch, t.first) && PointsBack(out)
  }

  lemma FirstScope(payload: seq<Item>, t: Trace, out: seq<Item>)
    requires WrittenBy(payload, t, out) && NewPayload(payload) && payload != []
    ensures Founded(payload, File(out, []), IdsOf(out), Range(t.first, |payload|))
    ensures Healthy(File(out, []), IdsOf(out), Range(t.first, |payload|), true)
    ensures News(t.batch) == |payload|
  {
    NewKeysDiffer(payload);
    KeyedReferencesPointBack(payload, t.level, t.order, t.batch, Given(t.batch, t.first), t.table, out);
    BatchIsPayload(payload, t.level, t.order, t.batch);
    FirstBatchIsNew(payload, t.batch);
    OwnIds(t.batch, Given(t.batch, t.first), t.table, out);
    AllNews(t.batch);
    FirstScopeIsCovered(payload, t, out);
    FirstScopeIsExact(t.batch, t.first, out);
    WrittenIsRestatable(payload, t.first, t.level, t.order, t.batch, t.table, out);
    assert FoundedBy(payload, t, File(out, []), IdsOf(out), Range(t.first, |payload|));
  }

  lemma FirstBatchIsNew(payload: seq<Item>, batch: seq<Item>)
    requires SameItems(payload, batch) && forall i :: 0 <= i < |payload| ==> payload[i].id == ""
    ensures forall i :: 0 <= i < |batch| ==> batch[i].id == ""
  {
    forall i | 0 <= i < |batch|
      ensures batch[i].id == ""
    {
      assert batch[i] in batch;
      var p := Place(payload, batch[i]);
    }
  }

  lemma FirstScopeIsCovered(payload: seq<Item>, t: Trace, out: seq<Item>)
    requires WrittenBy(payload, t, out) && News(t.batch) == |payload|
    ensures AllCovered(Ever(File(out, [])), Range(t.first, |payload|))
  {
    forall i | 0 <= i < |payload|
      ensures Covered(Ever(File(out, [])), Range(t.first, |payload|)[i])
    {
      var n := Range(t.first, |payload|)[i];
      RangeCovered(payload, t.first, t.level, t.order, t.batch, t.table, File(out, []), n);
    }
  }

  lemma FirstIdsOnRecord(batch: seq<Item>, first: nat)
    requires News(batch) == |batch| && forall i :: 0 <= i < |batch| ==> batch[i].id == ""
    ensures forall x {:trigger OnRecord(Range(first, |batch|), x)} :: x in Given(batch, first) ==>
        OnRecord(Range(first, |batch|), x)
  {
    assert [] + Range(first, |batch|) == Range(first, |batch|);
    forall x | x in Given(batch, first)
      ensures OnRecord(Range(first, |batch|), x)
    {
      var i := Place(Given(batch, first), x);
      GivenAt(batch, first, i);
      OnRecordMore([], first, |batch|, x);
    }
  }

  lemma FirstNumbersOnRecord(batch: seq<Item>, first: nat)
    requires News(batch) == |batch|
    ensures forall n :: n in Range(first, |batch|) ==> IdAlloc.Fmt(IdAlloc.SCOPE, n) in Given(batch, first)
  {
    forall n | n in Range(first, |batch|)
      ensures IdAlloc.Fmt(IdAlloc.SCOPE, n) in Given(batch, first)
    {
      var k := EveryNumberGiven(batch, first, n);
      assert Given(batch, first)[k] in Given(batch, first);
    }
  }

  lemma FirstScopeIsExact(batch: seq<Item>, first: nat, out: seq<Item>)
    requires News(batch) == |batch| && IdsOf(out) == Given(batch, first) && NoDup(KeysOf(batch))
    requires forall i :: 0 <= i < |batch| ==> batch[i].id == ""
    ensures Exact(File(out, []), IdsOf(out), Range(first, |batch|))
  {
    BatchIdentities(batch);
    GivenDiffer(batch, first);
    FirstIdsOnRecord(batch, first);
    FirstNumbersOnRecord(batch, first);
    ExactFrom(File(out, []), Given(batch, first), Range(first, |batch|));
  }

  lemma ExactFrom(file: File, ids: seq<Id>, issued: seq<nat>)
    requires file.revisions == [] && IdsOf(file.items) == ids && NoDup(ids)
    requires forall x {:trigger OnRecord(issued, x)} :: x in ids ==> OnRecord(issued, x)
    requires forall n :: n in issued ==> IdAlloc.Fmt(IdAlloc.SCOPE, n) in ids
    ensures Exact(file, ids, issued)
  {
    assert Ever(file) == ids;
  }
}
