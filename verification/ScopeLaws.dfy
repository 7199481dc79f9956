/** What the scope verbs promise, read off their contracts: splits, collisions, cycles, and the audit. */
module ScopeLaws {
  import opened Common
  import opened Seqs
  import opened ScopeItem
  import opened ScopeCore
  import opened ScopeLedger
  import opened ScopeIds
  import opened ScopeFile
  import IdAlloc
  import Text
  import Topo

  // ---- a revision splits the old ids ----

  /** Each old id was restated and stays, or was cut and goes; what is new was never seen; nothing is lost. */
  ghost predicate SplitsExactly(before: File, payload: seq<Item>, cuts: seq<Id>, after: File) {
    && |after.items| == |payload| && NoDup(IdsOf(after.items))
    && (forall x :: x in IdsOf(before.items) ==> (x in IdsOf(after.items) <==> x in IdsOf(payload)))
    && (forall x :: x in IdsOf(before.items) ==> (x in IdsOf(after.items) <==> x !in cuts))
    && (forall x :: x in IdsOf(after.items) && x !in IdsOf(before.items) ==> x !in Ever(before))
  }

  lemma RevisionSplitsExactly(before: File, base: seq<Id>, issued: seq<nat>, payload: seq<Item>, cuts: seq<Id>,
                              t: Trace, after: File)
    requires Exact(before, base, issued) && AppliedBy(before, payload, t, after)
    requires Membership(IdsOf(before.items), payload, cuts) && NoDup(KeysOf(payload))
    ensures SplitsExactly(before, payload, cuts, after)
  {
    CleanWhenDistinct(before, payload, cuts, t.first, t.level, t.order, t.batch, t.table, after);
    forall x | x in IdsOf(before.items)
      ensures x in IdsOf(after.items) <==> x in IdsOf(payload)
      ensures x in IdsOf(after.items) <==> x !in cuts
    {
      assert x in Ever(before);
      NeverEmpty(issued, x);
      KeptOrCut(before, payload, cuts, t.batch, t.first, x);
    }
    forall x | x in IdsOf(after.items) && x !in IdsOf(before.items)
      ensures x !in Ever(before)
    {
      NewIdsWereNeverSeen(before, payload, cuts, t.batch, t.first, x);
    }
  }

  lemma NeverEmpty(issued: seq<nat>, x: Id)
    requires OnRecord(issued, x)
    ensures x != ""
  {
    var i :| 0 <= i < |issued| && x == IdAlloc.Fmt(IdAlloc.SCOPE, issued[i]);
    assert |IdAlloc.SCOPE| == 3;
  }

  /**
   EXACTLY WHEN IDENTITIES STAY DISTINCT. An accepted batch keeps its written ids apart if and only if no two
   of its items share a key, that is, no new item is labelled with the id of another item of the batch.
  */
  lemma DistinctExactlyWhenKeysAre(before: File, payload: seq<Item>, cuts: seq<Id>, t: Trace, after: File)
    requires AppliedBy(before, payload, t, after) && Membership(IdsOf(before.items), payload, cuts)
    ensures NoDup(IdsOf(after.items)) <==> NoDup(KeysOf(payload))
  {
    if NoDup(KeysOf(payload)) {
      CleanWhenDistinct(before, payload, cuts, t.first, t.level, t.order, t.batch, t.table, after);
    } else {
      DistinctBatch(payload, t.level, t.order, t.batch);
      SharedKeySharesId(t.batch, t.table, after.items);
    }
  }

  /** With ids and labels each distinct, keys collide only where a label of a new item is somebody's id. */
  lemma KeysCollideOnlyAcross(payload: seq<Item>)
    requires Identities(payload) && Labelled(payload) && IdsTrimmed(payload)
    ensures NoDup(KeysOf(payload)) <==> forall i :: 0 <= i < |payload| && payload[i].id == "" ==>
        payload[i].tag !in IdsOf(payload)
  {
    if NoDup(KeysOf(payload)) {
      forall i | 0 <= i < |payload| && payload[i].id == ""
        ensures payload[i].tag !in IdsOf(payload)
      {
        forall j | 0 <= j < |payload| && j != i
          ensures KeysOf(payload)[i] != KeysOf(payload)[j]
        {
          assert if i < j then Differ(KeysOf(payload), i, j) else Differ(KeysOf(payload), j, i);
        }
      }
    } else {
      var i, j :| 0 <= i < j < |payload| && KeysOf(payload)[i] == KeysOf(payload)[j];
    }
  }

  // ---- handing the live items in again ----

  lemma LiveIdIsItsOwn(before: File, issued: seq<nat>, i: nat)
    requires Canonical(before, issued) && i < |before.items|
    ensures before.items[i].id != "" && Text.Strip(before.items[i].id) == before.items[i].id
  {
    var id := before.items[i].id;
    assert IdsOf(before.items)[i] in IdsOf(before.items);
    assert id in Ever(before);
    var n := NumberOf(issued, id);
    NeverEmpty(issued, id);
    IdAlloc.FmtIsTrimmed(IdAlloc.SCOPE, n);
    Text.StripKeepsTheTrimmed(id);
  }

  /**
   RESTATING IS ACCEPTED. In every valid state in which no accepted batch has shared a key, the live items handed in
   again, unchanged, pass every check of a revision, their references by id included, if and only if they close no
   circle of dependencies.
  */
  lemma RestatingIsAcceptedExactly(s: Scope)
    requires s.Valid() && s.tidy && s.items != []
    ensures Identities(s.items) && References(s.items)
    ensures Gates(IdsOf(s.items), s.items, [], true) <==> !Cyclic(s.items)
  {
    var items := s.items;
    NoDupJoin(IdsOf(items), Cuts(s.revisions));
    forall i | 0 <= i < |items|
      ensures items[i].id != "" && StrippedIds(items)[i] == items[i].id
    {
      LiveIdIsItsOwn(s.Now(), s.issued, i);
    }
    forall i, j | 0 <= i < j < |items|
      ensures StrippedIds(items)[i] != StrippedIds(items)[j]
    {
      assert Differ(IdsOf(items), i, j);
    }
    LiveReferencesPass(s.Now(), s.issued);
  }

  lemma LiveReferencesPass(file: File, issued: seq<nat>)
    requires Canonical(file, issued) && Restatable(file.items)
    ensures References(file.items)
  {
    forall it, d | it in file.items && d in it.depends
      ensures Known(file.items, Text.Strip(d))
    {
      var i := Place(file.items, it);
      var j := Place(IdsOf(file.items), d);
      LiveIdIsItsOwn(file, issued, j);
      assert file.items[j] in file.items;
    }
  }

  // ---- the audit agrees with the allocator ----

  /** A number is on record twice. */
  ghost predicate Duplicated(file: File) {
    !NoDup(IdAlloc.Numbers(IdAlloc.SCOPE, Ever(file)))
  }

  /** The stored counter is below a number on record. */
  ghost predicate Stale(file: File, counter: int) {
    exists n :: n in IdAlloc.Numbers(IdAlloc.SCOPE, Ever(file)) && counter < n
  }

  /** `counters_violations` for scope ids: duplicates counted over items and ledger, staleness against the largest. */
  method Audit(file: File, counter: int) returns (duplicated: bool, stale: bool)
    ensures duplicated <==> Duplicated(file)
    ensures stale <==> Stale(file, counter)
  {
    var ids := Ever(file);
    var numbers := IdAlloc.Numbers(IdAlloc.SCOPE, ids);
    duplicated := !NoDup(numbers);
    var top := IdAlloc.ScanMax(IdAlloc.SCOPE, ids);
    stale := numbers != [] && counter < top;
    forall n | n in numbers
      ensures n <= top
    {
      var i := Place(numbers, n);
    }
    assert numbers != [] ==> numbers[0] in numbers;
  }

  lemma {:induction false} NumbersOfCanonical(ids: seq<Id>, issued: seq<nat>)
    requires forall x :: x in ids ==> OnRecord(issued, x)
    ensures NoDup(IdAlloc.Numbers(IdAlloc.SCOPE, ids)) <==> NoDup(ids)
  {
    if ids != [] {
      var init, last := ids[..|ids| - 1], ids[|ids| - 1];
      assert ids == init + [last];
      assert last in ids;
      NumbersOfCanonical(init, issued);
      var n := NumberOf(issued, last);
      SameNumberSameId(init, issued, last, n);
      NoDupAppend(IdAlloc.Numbers(IdAlloc.SCOPE, init), n);
      NoDupAppend(init, last);
    }
  }

  lemma NumberOf(issued: seq<nat>, x: Id) returns (n: nat)
    requires OnRecord(issued, x)
    ensures n in issued && x == IdAlloc.Fmt(IdAlloc.SCOPE, n) && IdAlloc.ParseNum(IdAlloc.SCOPE, x) == Some(n)
  {
    var i :| 0 <= i < |issued| && x == IdAlloc.Fmt(IdAlloc.SCOPE, issued[i]);
    n := issued[i];
    IdAlloc.ParseOwn(IdAlloc.SCOPE, n);
  }

  lemma SameNumberSameId(ids: seq<Id>, issued: seq<nat>, x: Id, n: nat)
    requires forall y :: y in ids ==> OnRecord(issued, y)
    requires x == IdAlloc.Fmt(IdAlloc.SCOPE, n) && IdAlloc.ParseNum(IdAlloc.SCOPE, x) == Some(n)
    ensures n in IdAlloc.Numbers(IdAlloc.SCOPE, ids) <==> x in ids
  {
    if n in IdAlloc.Numbers(IdAlloc.SCOPE, ids) {
      var i :| 0 <= i < |ids| && IdAlloc.ParseNum(IdAlloc.SCOPE, ids[i]) == Some(n);
      assert ids[i] in ids;
      var m := NumberOf(issued, ids[i]);
    }
    if x in ids { var i := Place(ids, x); }
  }

  /** What the audit reports, in terms of what was issued: for every scope file the verbs can leave behind. */
  lemma ReportsExactly(file: File, issued: seq<nat>, counter: int)
    requires Canonical(file, issued) && AllCovered(Ever(file), issued)
    ensures Duplicated(file) <==> !NoDup(Ever(file))
    ensures Stale(file, counter) <==> !AllAtMost(issued, counter)
  {
    var ids := Ever(file);
    NumbersOfCanonical(ids, issued);
    var numbers := IdAlloc.Numbers(IdAlloc.SCOPE, ids);
    if Stale(file, counter) {
      var n :| n in numbers && counter < n;
      var i :| 0 <= i < |ids| && IdAlloc.ParseNum(IdAlloc.SCOPE, ids[i]) == Some(n);
      assert ids[i] in ids;
      var m := NumberOf(issued, ids[i]);
      var k := Place(issued, m);
    }
    if !AllAtMost(issued, counter) {
      var i :| 0 <= i < |issued| && issued[i] > counter;
      assert Covered(ids, issued[i]);
      var k :| 0 <= k < |ids| && AtLeast(ids[k], issued[i]);
      assert IdAlloc.ParseNum(IdAlloc.SCOPE, ids[k]).value in numbers;
    }
  }

  /**
   THE AUDIT IS CLEAN in every reachable state in which no two items ever shared a key and no hand has set the
   counter since the last number was taken: every verb and every hand on the counter keeps `Valid`.
  */
  lemma CleanInEveryReachableState(s: Scope)
    requires s.Valid()
    ensures s.tidy ==> !Duplicated(s.Now())
    ensures !s.touched ==> !Stale(s.Now(), s.counter)
    ensures Duplicated(s.Now()) <==> !NoDup(Ever(s.Now()))
    ensures Stale(s.Now(), s.counter) <==> !AllAtMost(s.issued, s.counter)
  {
    ReportsExactly(s.Now(), s.issued, s.counter);
  }

  /** The first duplicate appears exactly when an accepted batch shares a key between two of its items. */
  lemma DuplicateExactlyWhenKeysCollide(before: File, base: seq<Id>, issued: seq<nat>, payload: seq<Item>,
                                        cuts: seq<Id>, t: Trace, after: File)
    requires Exact(before, base, issued) && AppliedBy(before, payload, t, after)
    requires AllCovered(Ever(before), issued) && Membership(IdsOf(before.items), payload, cuts)
    ensures Duplicated(after) <==> !NoDup(KeysOf(payload))
  {
    StaysCanonical(before, issued, payload, cuts, t.first, t.level, t.order, t.batch, t.table, after);
    StillCovered(before, issued, payload, t.first, t.level, t.order, t.batch, t.table, after);
    ReportsExactly(after, issued + Range(t.first, News(t.batch)), 0);
    DistinctExactlyWhenKeysAre(before, payload, cuts, t, after);
    NoDupJoin(IdsOf(after.items), Cuts(after.revisions));
    if NoDup(KeysOf(payload)) {
      StaysExact(before, base, issued, payload, cuts, t.first, t.level, t.order, t.batch, t.table, after);
    }
  }

  /**
   THE LEDGER OVER A BATCH: it replays afterwards if and only if it did before, and no two items of the batch share a
   key or the batch leaves the same members. What the ledger leads to, as a set, is in every valid state the live ids.
  */
  lemma LedgerReplaysExactly(before: File, base: seq<Id>, payload: seq<Item>, cuts: seq<Id>, t: Trace, after: File)
    requires AppliedBy(before, payload, t, after) && Membership(IdsOf(before.items), payload, cuts)
    requires SameMembers(Replay(base, before.revisions), IdsOf(before.items))
    ensures SameMembers(Replay(base, after.revisions), IdsOf(after.items))
    ensures Replays(base, after) <==>
              Replays(base, before) && (NoDup(KeysOf(payload)) || SameMembers(IdsOf(before.items), IdsOf(after.items)))
  {
    ReplayStep(base, before, after.items);
    DistinctExactlyWhenKeysAre(before, payload, cuts, t, after);
  }

  // ---- adding one item ----

  lemma {:induction false} MinusJoin(a: seq<Id>, b: seq<Id>, kept: seq<Id>)
    ensures Minus(a + b, kept) == Minus(a, kept) + Minus(b, kept)
  {
    if b == [] {
      assert a + b == a;
    } else {
      var init := b[..|b| - 1];
      assert (a + b)[..|a + b| - 1] == a + init;
      MinusJoin(a, init, kept);
    }
  }

  lemma TwoOutsiders(ids: seq<Id>, kept: seq<Id>, i: nat, j: nat)
    requires i < j < |ids| && ids[i] !in kept && ids[j] !in kept
    ensures |Minus(ids, kept)| >= 2
  {
    assert ids == ids[..j] + ids[j..];
    MinusJoin(ids[..j], ids[j..], kept);
    assert ids[..j][i] in Minus(ids[..j], kept) && ids[j..][0] in Minus(ids[j..], kept);
  }

  lemma OneOutsider(ids: seq<Id>, cur: seq<Id>)
    requires NoDup(ids) && NoDup(cur) && |ids| == |cur| + 1 && forall x :: x in cur ==> x in ids
    ensures |Minus(ids, cur)| == 1
  {
    assert Elements(Minus(ids, cur)) == Elements(ids) - Elements(cur);
    MinusOfDistinct(ids, cur);
    ElementsOfDistinct(Minus(ids, cur));
    ElementsOfDistinct(ids);
    ElementsOfDistinct(cur);
  }

  /** The keys of a scope with one new item collide exactly when its label is a live id. */
  lemma AddedKeysCollide(items: seq<Item>, issued: seq<nat>, added: Item)
    requires (forall x :: x in IdsOf(items) ==> OnRecord(issued, x)) && NoDup(IdsOf(items)) && added.id == ""
        && added.tag != ""
    ensures NoDup(KeysOf(items + [added])) <==> added.tag !in IdsOf(items)
  {
    var all := items + [added];
    forall i | 0 <= i < |items|
      ensures KeysOf(all)[i] == IdsOf(items)[i]
    {
      assert IdsOf(items)[i] in IdsOf(items);
      NeverEmpty(issued, IdsOf(items)[i]);
    }
    assert KeysOf(all) == IdsOf(items) + [added.tag];
    NoDupAppend(IdsOf(items), added.tag);
    assert NoDup(KeysOf(all)) <==> NoDup(KeysOf(all));
  }

  /** Two places of the batch hold the same new item: both come out under an id never seen before. */
  lemma CollisionShowsTwice(before: File, payload: seq<Item>, t: Trace, after: File, i: nat, j: nat)
    requires AppliedBy(before, payload, t, after)
    requires i < j < |t.batch| && t.batch[i] == t.batch[j] && t.batch[i].id == ""
    ensures |Minus(IdsOf(after.items), IdsOf(before.items))| >= 2
  {
    var keys, ids := KeysOf(t.batch), Given(t.batch, t.first);
    assert keys[i] in keys;
    var k := Topo.LastAt(keys, keys[i]);
    GivenAt(t.batch, t.first, k);
    assert RewrittenAt(t.batch[i], t.table, after.items[i]) && RewrittenAt(t.batch[j], t.table, after.items[j]);
    NeverLive(before, t.first, ids[k], t.first + News(t.batch));
    TwoOutsiders(IdsOf(after.items), IdsOf(before.items), i, j);
  }

  lemma NeverLive(before: File, first: nat, x: Id, hi: nat)
    requires Below(Ever(before), first) && Numbers(x, first, hi)
    ensures x !in IdsOf(before.items)
  {
    if x in IdsOf(before.items) { BelowAt(Ever(before), first, x); }
  }

  /** The last of a batch speaks for its key; so a colliding label puts the new item in the batch twice. */
  lemma CollidingItemIsTwice(items: seq<Item>, added: Item, t: Trace, p: nat) returns (i: nat, j: nat)
    requires InOrder(items + [added], t.level, t.order, t.batch) && added.id == ""
    requires p < |items| && items[p].Key() == added.tag
    ensures i < j < |t.batch| && t.batch[i] == t.batch[j] && t.batch[i].id == ""
  {
    var payload := items + [added];
    assert p in t.order && |items| in t.order;
    i := Place(t.order, p);
    j := Place(t.order, |items|);
    assert t.batch[i].Key() == t.batch[j].Key() == added.tag;
    assert payload[|items|] == added && KeysOf(payload)[|items|] == added.tag;
    assert GraphOf(payload).Speaker(added.tag) == |items|;
    if j < i { i, j := j, i; }
  }

  /** ADDING ONE ITEM leaves exactly one new id, unless its label is the id of a live item. */
  lemma OneIdExactlyWhenLabelIsFree(before: File, issued: seq<nat>, added: Item, t: Trace, after: File)
    requires Canonical(before, issued) && NoDup(IdsOf(before.items)) && added.id == "" && added.tag != ""
    requires AppliedBy(before, before.items + [added], t, after)
        && Membership(IdsOf(before.items), before.items + [added], [])
    ensures |Minus(IdsOf(after.items), IdsOf(before.items))| == 1 <==> added.tag !in IdsOf(before.items)
  {
    var payload := before.items + [added];
    assert forall x :: x in IdsOf(before.items) ==> x in Ever(before);
    AddedKeysCollide(before.items, issued, added);
    if added.tag in IdsOf(before.items) {
      var p := Place(IdsOf(before.items), added.tag);
      var i, j := CollidingItemIsTwice(before.items, added, t, p);
      CollisionShowsTwice(before, payload, t, after, i, j);
    } else {
      CleanWhenDistinct(before, payload, [], t.first, t.level, t.order, t.batch, t.table, after);
      forall x | x in IdsOf(before.items)
        ensures x in IdsOf(after.items)
      {
        NeverEmpty(issued, x);
        KeptOrCut(before, payload, [], t.batch, t.first, x);
      }
      OneOutsider(IdsOf(after.items), IdsOf(before.items));
    }
  }

  // ---- a payload the gates let through ----

  function ClashBefore(): File { File([Item("PS-001", "store", "store", [])], []) }

  function ClashPayload(): seq<Item> { [Item("PS-001", "store", "store", []), Item("", "PS-001", "PS-001", [])] }

  /**
   A LIVE ITEM LOST WITHOUT A CUT. The list restates the one live item and adds a new one labelled with its
   id. Every gate passes, with nothing cut; yet whatever is written no longer has the old item.
  */
  lemma ClashIsAccepted()
    ensures Identities(ClashPayload()) && References(ClashPayload())
    ensures Gates(IdsOf(ClashBefore().items), ClashPayload(), [], true)
  {
    NoReferencesNoCycle(ClashPayload());
    var cur := IdsOf(ClashBefore().items);
    assert cur == ["PS-001"] && IdsOf(ClashPayload()) == ["PS-001", ""];
    assert TagsOf(ClashPayload()) == ["store", "PS-001"];
  }

  lemma ClashItem(t: Trace, after: File, i: nat)
    requires AppliedBy(ClashBefore(), ClashPayload(), t, after) && i < |t.batch|
    ensures i < |after.items| && after.items[i].id != "PS-001"
  {
    assert IdsOf(ClashBefore().items)[0] == "PS-001";
    NewItemsAvoidLiveIds(ClashBefore(), ClashPayload(), t, after, i, "PS-001");
  }

  lemma ClashLosesTheItem(t: Trace, after: File)
    requires AppliedBy(ClashBefore(), ClashPayload(), t, after)
    ensures "PS-001" !in IdsOf(after.items)
  {
    if "PS-001" in IdsOf(after.items) {
      var i := Place(IdsOf(after.items), "PS-001");
      ClashItem(t, after, i);
    }
  }

  lemma ClashIsExact()
    ensures Exact(ClashBefore(), ["PS-001"], [1]) && AllCovered(Ever(ClashBefore()), [1])
  {
    assert IdAlloc.Fmt(IdAlloc.SCOPE, 1) == "PS-001";
    IdAlloc.ParseOwn(IdAlloc.SCOPE, 1);
    assert IdsOf(ClashBefore().items) == ["PS-001"] && Ever(ClashBefore()) == ["PS-001"];
    assert [1][0] == 1 && AtLeast(Ever(ClashBefore())[0], 1);
  }

  /** And the audit, clean before, reports a duplicate although no hand has touched the file. */
  lemma ClashIsReported(t: Trace, after: File)
    requires AppliedBy(ClashBefore(), ClashPayload(), t, after)
    ensures !Duplicated(ClashBefore()) && Duplicated(after)
  {
    ClashIsAccepted();
    ClashIsExact();
    ReportsExactly(ClashBefore(), [1], 1);
    assert !Differ(KeysOf(ClashPayload()), 0, 1);
    DuplicateExactlyWhenKeysCollide(ClashBefore(), ["PS-001"], [1], ClashPayload(), [], t, after);
  }

  /** The ledger, exact before, does not replay any more. */
  lemma ClashBreaksTheLedger(t: Trace, after: File)
    requires AppliedBy(ClashBefore(), ClashPayload(), t, after)
    ensures Replays(["PS-001"], ClashBefore()) && !Replays(["PS-001"], after)
  {
    ClashIsAccepted();
    ClashIsExact();
    ClashLosesTheItem(t, after);
    assert IdsOf(ClashBefore().items)[0] == "PS-001";
    assert !Differ(KeysOf(ClashPayload()), 0, 1);
    LedgerReplaysExactly(ClashBefore(), ["PS-001"], ClashPayload(), [], t, after);
  }

  lemma NewItemsAvoidLiveIds(before: File, payload: seq<Item>, t: Trace, after: File, i: nat, x: Id)
    requires AppliedBy(before, payload, t, after) && x in IdsOf(before.items)
    requires i < |t.batch| && forall k :: 0 <= k < |t.batch| ==> t.batch[k].id == ""
    ensures i < |after.items| && after.items[i].id != x
  {
    var keys := KeysOf(t.batch);
    assert keys[i] in keys;
    var k := Topo.LastAt(keys, keys[i]);
    assert RewrittenAt(t.batch[i], t.table, after.items[i]);
    GivenAt(t.batch, t.first, k);
    NeverLive(before, t.first, after.items[i].id, t.first + News(t.batch));
  }
}
