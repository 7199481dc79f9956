/** The gates on a payload, and what one accepted payload does to the numbers on record. */
module ScopeIds {
  import opened Seqs
  import opened ScopeItem
  import opened ScopeCore
  import opened ScopeLedger
  import IdAlloc
  import Text
  import Topo

  // ---- the gates ----

  predicate DistinctWhereGiven(names: seq<string>) {
    forall i, j :: 0 <= i < j < |names| && names[i] != "" ==> names[i] != names[j]
  }

  function StrippedIds(payload: seq<Item>): (names: seq<string>)
    ensures |names| == |payload| && forall i :: 0 <= i < |payload| ==> names[i] == Text.Strip(payload[i].id)
  {
    seq(|payload|, i requires 0 <= i < |payload| => Text.Strip(payload[i].id))
  }

  /** `_check_identities`: no id twice, no label twice, both stripped. */
  predicate Identities(payload: seq<Item>) {
    DistinctWhereGiven(StrippedIds(payload)) && DistinctWhereGiven(TagsOf(payload))
  }

  /** `_check_deps`: every reference, once stripped, names an item of the batch by stripped id or by label. */
  predicate References(payload: seq<Item>) {
    forall it :: it in payload ==> forall d :: d in it.depends ==> Known(payload, Text.Strip(d))
  }

  predicate Known(payload: seq<Item>, name: string) {
    exists it :: it in payload && ((it.id != "" && Text.Strip(it.id) == name) || (it.tag != "" && it.tag == name))
  }

  /**
   WHICH REFERENCES PASS: exactly those that, once stripped, are the stripped id of an item that has one, or the label
   of an item that has one.
  */
  lemma ReferencesExactly(payload: seq<Item>)
    ensures References(payload) <==>
              forall p, d :: 0 <= p < |payload| && d in payload[p].depends ==>
                exists q :: 0 <= q < |payload| &&
                  ((payload[q].id != "" && Text.Strip(payload[q].id) == Text.Strip(d))
                   || (payload[q].tag != "" && payload[q].tag == Text.Strip(d)))
  {
    forall d
      ensures Known(payload, Text.Strip(d)) <==>
                exists q :: 0 <= q < |payload| &&
                  ((payload[q].id != "" && Text.Strip(payload[q].id) == Text.Strip(d))
                   || (payload[q].tag != "" && payload[q].tag == Text.Strip(d)))
    {
      if q :| 0 <= q < |payload| && ((payload[q].id != "" && Text.Strip(payload[q].id) == Text.Strip(d))
                                     || (payload[q].tag != "" && payload[q].tag == Text.Strip(d))) {
        assert payload[q] in payload;
      }
    }
    assert forall p :: 0 <= p < |payload| ==> payload[p] in payload;
  }

  /** Fit to be handed in again: the references are the list's own ids, and the labels are there and differ. */
  predicate Restatable(items: seq<Item>) {
    && (forall i, x :: 0 <= i < |items| && x in items[i].depends ==> x in IdsOf(items))
    && DistinctWhereGiven(TagsOf(items)) && Labelled(items)
  }

  /** `_check_membership`: cuts and kept ids are real and disjoint, and between them account for every live id. */
  predicate Membership(cur: seq<Id>, payload: seq<Item>, cuts: seq<Id>) {
    && (forall c :: c in cuts ==> c in cur && c !in IdsOf(payload))
    && (forall id :: id in IdsOf(payload) && id != "" ==> id in cur)
    && (forall x :: x in cur ==> x in IdsOf(payload) || x in cuts)
  }

  /** Every item has a label: part of `_check_contract`. */
  predicate Labelled(payload: seq<Item>) {
    forall i :: 0 <= i < |payload| ==> payload[i].tag != ""
  }

  predicate IdsTrimmed(payload: seq<Item>) {
    forall it :: it in payload ==> Text.Trimmed(it.id)
  }

  /** Kept ids are live, and live ids are the allocator's own: there is nothing to strip from them. */
  lemma KeptIdsAreTrimmed(file: File, issued: seq<nat>, payload: seq<Item>, cuts: seq<Id>)
    requires Canonical(file, issued) && Membership(IdsOf(file.items), payload, cuts)
    ensures IdsTrimmed(payload)
  {
    forall it | it in payload && it.id != ""
      ensures Text.Trimmed(it.id)
    {
      var p := Place(payload, it);
      assert IdsOf(payload)[p] in IdsOf(payload);
      assert it.id in Ever(file);
      assert OnRecord(issued, it.id);
      var i :| 0 <= i < |issued| && it.id == IdAlloc.Fmt(IdAlloc.SCOPE, issued[i]);
      IdAlloc.FmtIsTrimmed(IdAlloc.SCOPE, issued[i]);
    }
  }

  // ---- one applied batch ----

  /** The new item list: the payload in dependency order, numbered from `first` on, references rewritten. */
  ghost predicate Written(payload: seq<Item>, first: nat, level: seq<int>, order: seq<nat>, batch: seq<Item>,
                          table: map<Id, Id>, items: seq<Item>) {
    && InOrder(payload, level, order, batch)
    && Table(KeysOf(batch), TagsOf(batch), Given(batch, first), table)
    && Rewritten(batch, table, items)
  }

  /** What an accepted batch does to the file, given where its numbering starts. */
  ghost predicate Applied(before: File, payload: seq<Item>, first: nat, level: seq<int>, order: seq<nat>,
                          batch: seq<Item>, table: map<Id, Id>, after: File) {
    && Below(Ever(before), first)
    && Written(payload, first, level, order, batch, table, after.items)
    && after.revisions == Ledger(before, after.items)
  }

  ghost function Range(first: nat, n: nat): (ns: seq<nat>)
    ensures |ns| == n && forall i :: 0 <= i < n ==> ns[i] == first + i
  {
    seq(n, i requires 0 <= i < n => first + i)
  }

  lemma RangeCovered(payload: seq<Item>, first: nat, level: seq<int>, order: seq<nat>, batch: seq<Item>,
                     table: map<Id, Id>, after: File, n: nat)
    requires Written(payload, first, level, order, batch, table, after.items) && n < first + News(batch)
        && News(batch) > 0
    ensures Covered(Ever(after), n)
  {
    var top := first + News(batch) - 1;
    var j := LastNumberIsKept(payload, level, order, batch, first, table, after.items, top);
    assert IdsOf(after.items)[j] in Ever(after);
    CoveredBy(Ever(after), after.items[j].id, top, n);
  }

  /** SAFETY, WHATEVER THE BATCH: every number ever issued stays covered by one on record. */
  lemma StillCovered(before: File, issued: seq<nat>, payload: seq<Item>, first: nat, level: seq<int>, order: seq<nat>,
                     batch: seq<Item>, table: map<Id, Id>, after: File)
    requires Applied(before, payload, first, level, order, batch, table, after) && AllCovered(Ever(before), issued)
    ensures AllCovered(Ever(after), issued + Range(first, News(batch)))
  {
    var more := issued + Range(first, News(batch));
    forall i | 0 <= i < |more|
      ensures Covered(Ever(after), more[i])
    {
      if i < |issued| {
        forall x | x in Ever(before)
          ensures x in Ever(after)
        {
          NothingForgotten(before, after.items, x);
        }
        CoveredMore(Ever(before), Ever(after), issued[i]);
      } else {
        RangeCovered(payload, first, level, order, batch, table, after, more[i]);
      }
    }
  }

  /** A floor over everything on record is above everything issued. */
  lemma FloorIsAboveIssued(file: File, issued: seq<nat>, first: nat, n: nat)
    requires AllCovered(Ever(file), issued) && Below(Ever(file), first) && n in issued
    ensures n < first
  {
    var i :| 0 <= i < |issued| && issued[i] == n;
    assert Covered(Ever(file), issued[i]);
    var j :| 0 <= j < |Ever(file)| && AtLeast(Ever(file)[j], n);
    assert BelowOne(Ever(file)[j], first);
  }

  // ---- a batch with distinct keys ----

  /** The batch is the payload, reordered. */
  ghost predicate SameItems(payload: seq<Item>, batch: seq<Item>) {
    forall it :: it in batch <==> it in payload
  }

  lemma BatchIsPayload(payload: seq<Item>, level: seq<int>, order: seq<nat>, batch: seq<Item>)
    requires InOrder(payload, level, order, batch) && NoDup(KeysOf(payload))
    ensures SameItems(payload, batch) && |batch| == |payload| && NoDup(KeysOf(batch))
  {
    DistinctBatch(payload, level, order, batch);
    forall it
      ensures it in batch <==> it in payload
    {
      if it in payload {
        var p := Place(payload, it);
        assert p in order;
        var i := Place(order, p);
        assert batch[i] == it;
      }
      if it in batch { var i := Place(batch, it); }
    }
  }

  lemma BatchIdentities(batch: seq<Item>)
    requires NoDup(KeysOf(batch))
    ensures OwnIdsDiffer(batch)
  {
    forall i, j | 0 <= i < j < |batch| && batch[i].id != ""
      ensures batch[i].id != batch[j].id
    {
      assert Differ(KeysOf(batch), i, j);
    }
  }

  lemma BelowAt(ids: seq<Id>, first: nat, x: Id)
    requires Below(ids, first) && x in ids
    ensures BelowOne(x, first)
  {
    var k := Place(ids, x);
  }

  lemma BatchIdIsLive(cur: seq<Id>, payload: seq<Item>, cuts: seq<Id>, batch: seq<Item>, i: nat)
    requires SameItems(payload, batch) && Membership(cur, payload, cuts) && i < |batch|
    ensures batch[i].id != "" ==> batch[i].id in cur
  {
    assert batch[i] in batch;
    var p := Place(payload, batch[i]);
  }

  lemma BatchIsBelow(cur: seq<Id>, payload: seq<Item>, cuts: seq<Id>, batch: seq<Item>, first: nat)
    requires SameItems(payload, batch) && Membership(cur, payload, cuts) && Below(cur, first)
    ensures forall i :: 0 <= i < |batch| ==> BelowOne(batch[i].id, first)
  {
    forall i | 0 <= i < |batch|
      ensures BelowOne(batch[i].id, first)
    {
      BatchIdIsLive(cur, payload, cuts, batch, i);
      if batch[i].id != "" { BelowAt(cur, first, batch[i].id); }
    }
  }

  /** A written id is a live one restated, or a new number. */
  lemma WrittenId(cur: seq<Id>, payload: seq<Item>, cuts: seq<Id>, batch: seq<Item>, first: nat, x: Id)
    requires SameItems(payload, batch) && Membership(cur, payload, cuts) && x in Given(batch, first)
    ensures !Numbers(x, first, first + News(batch)) ==> x in cur && x in IdsOf(payload)
  {
    var i := Place(Given(batch, first), x);
    GivenAt(batch, first, i);
    BatchIdIsLive(cur, payload, cuts, batch, i);
    assert batch[i] in batch;
    var p := Place(payload, batch[i]);
    assert IdsOf(payload)[p] in IdsOf(payload);
  }

  lemma RestatedIsKept(payload: seq<Item>, batch: seq<Item>, first: nat, x: Id)
    requires SameItems(payload, batch) && x in IdsOf(payload) && x != ""
    ensures x in Given(batch, first)
  {
    var p := Place(IdsOf(payload), x);
    assert payload[p] in payload;
    var i := Place(batch, payload[p]);
    GivenAt(batch, first, i);
  }

  // ---- the ledger stays exact ----

  /** An accepted batch that shares no key between items. */
  ghost predicate CleanBatch(before: File, payload: seq<Item>, cuts: seq<Id>, batch: seq<Item>, first: nat) {
    && Membership(IdsOf(before.items), payload, cuts) && SameItems(payload, batch) && |batch| == |payload|
    && NoDup(Given(batch, first)) && Below(Ever(before), first)
  }

  lemma CleanWhenDistinct(before: File, payload: seq<Item>, cuts: seq<Id>, first: nat, level: seq<int>, order: seq<nat>,
                          batch: seq<Item>, table: map<Id, Id>, after: File)
    requires Applied(before, payload, first, level, order, batch, table, after)
    requires NoDup(KeysOf(payload)) && Membership(IdsOf(before.items), payload, cuts)
    ensures CleanBatch(before, payload, cuts, batch, first) && IdsOf(after.items) == Given(batch, first)
  {
    BatchIsPayload(payload, level, order, batch);
    BatchIdentities(batch);
    OwnIds(batch, Given(batch, first), table, after.items);
    assert Below(IdsOf(before.items), first) by { BelowLeft(IdsOf(before.items), Cuts(before.revisions), first); }
    BatchIsBelow(IdsOf(before.items), payload, cuts, batch, first);
    GivenDiffer(batch, first);
  }

  lemma BelowLeft(a: seq<Id>, b: seq<Id>, first: nat)
    requires Below(a + b, first)
    ensures Below(a, first)
  {
    assert forall i :: 0 <= i < |a| ==> (a + b)[i] == a[i];
  }

  /** A live id stays exactly when it is restated, and goes exactly when it is cut. */
  lemma KeptOrCut(before: File, payload: seq<Item>, cuts: seq<Id>, batch: seq<Item>, first: nat, x: Id)
    requires CleanBatch(before, payload, cuts, batch, first) && x in IdsOf(before.items) && x != ""
    ensures x in Given(batch, first) <==> x in IdsOf(payload)
    ensures x in Given(batch, first) <==> x !in cuts
  {
    assert x in Ever(before);
    BelowAt(Ever(before), first, x);
    if x in IdsOf(payload) { RestatedIsKept(payload, batch, first, x); }
    if x in Given(batch, first) { WrittenId(IdsOf(before.items), payload, cuts, batch, first, x); }
  }

  lemma NewIdsWereNeverSeen(before: File, payload: seq<Item>, cuts: seq<Id>, batch: seq<Item>, first: nat, x: Id)
    requires CleanBatch(before, payload, cuts, batch, first) && NoDup(Ever(before)) && x in Given(batch, first)
    ensures x !in Cuts(before.revisions)
  {
    WrittenId(IdsOf(before.items), payload, cuts, batch, first, x);
    NoDupJoin(IdsOf(before.items), Cuts(before.revisions));
    if x in Cuts(before.revisions) { BelowAt(Ever(before), first, x); }
  }

  lemma EverApart(before: File, payload: seq<Item>, cuts: seq<Id>, batch: seq<Item>, first: nat, after: File)
    requires CleanBatch(before, payload, cuts, batch, first) && NoDup(Ever(before))
    requires IdsOf(after.items) == Given(batch, first) && after.revisions == Ledger(before, after.items)
    ensures NoDup(Ever(after))
  {
    forall x | x in IdsOf(after.items)
      ensures x !in Cuts(before.revisions)
    {
      NewIdsWereNeverSeen(before, payload, cuts, batch, first, x);
    }
    CutsAfter(before, after.items);
    Apart(IdsOf(before.items), IdsOf(after.items), Cuts(before.revisions));
  }

  lemma Apart(cur: seq<Id>, kept: seq<Id>, retired: seq<Id>)
    requires NoDup(cur + retired) && NoDup(kept) && forall x :: x in kept ==> x !in retired
    ensures NoDup(kept + (retired + Minus(Firsts(cur), kept)))
  {
    NoDupJoin(cur, retired);
    FirstsOfDistinct(cur);
    MinusOfDistinct(cur, kept);
    NoDupJoin(retired, Minus(cur, kept));
    NoDupJoin(kept, retired + Minus(cur, kept));
  }

  lemma CutsAfter(before: File, items: seq<Item>)
    ensures Cuts(Ledger(before, items)) == Cuts(before.revisions) + Minus(Firsts(IdsOf(before.items)), IdsOf(items))
  {
  }

  lemma OnRecordMore(issued: seq<nat>, first: nat, n: nat, x: Id)
    requires OnRecord(issued, x) || Numbers(x, first, first + n)
    ensures OnRecord(issued + Range(first, n), x)
  {
    var more := issued + Range(first, n);
    if OnRecord(issued, x) {
      var i :| 0 <= i < |issued| && x == IdAlloc.Fmt(IdAlloc.SCOPE, issued[i]);
      assert more[i] == issued[i];
    } else {
      var m := IdAlloc.ParseNum(IdAlloc.SCOPE, x).value;
      assert more[|issued| + (m - first)] == m;
    }
  }

  lemma EverOnRecord(before: File, issued: seq<nat>, payload: seq<Item>, cuts: seq<Id>, batch: seq<Item>, first: nat,
                     after: File, x: Id)
    requires CleanBatch(before, payload, cuts, batch, first) && forall y :: y in Ever(before) ==> OnRecord(issued, y)
    requires IdsOf(after.items) == Given(batch, first) && after.revisions == Ledger(before, after.items)
    requires x in Ever(after)
    ensures OnRecord(issued + Range(first, News(batch)), x)
  {
    CutsAfter(before, after.items);
    if x !in Ever(before) { WrittenId(IdsOf(before.items), payload, cuts, batch, first, x); }
    OnRecordMore(issued, first, News(batch), x);
  }

  lemma WasIssued(file: File, issued: seq<nat>, x: Id)
    requires Canonical(file, issued) && x in Ever(file)
    ensures OnRecord(issued, x)
  {
  }

  /** WHATEVER THE BATCH: every id on record is one that was issued, in its own spelling. */
  lemma StaysCanonical(before: File, issued: seq<nat>, payload: seq<Item>, cuts: seq<Id>, first: nat, level: seq<int>,
                       order: seq<nat>, batch: seq<Item>, table: map<Id, Id>, after: File)
    requires Canonical(before, issued) && Applied(before, payload, first, level, order, batch, table, after)
    requires Membership(IdsOf(before.items), payload, cuts)
    ensures Canonical(after, issued + Range(first, News(batch)))
  {
    CutsAfter(before, after.items);
    forall x | x in Ever(after)
      ensures OnRecord(issued + Range(first, News(batch)), x)
    {
      if x in Ever(before) {
        WasIssued(before, issued, x);
        OnRecordMore(issued, first, News(batch), x);
      } else {
        var i := Place(IdsOf(after.items), x);
        NewOrLive(before, payload, cuts, first, level, order, batch, table, after.items, i);
        OnRecordMore(issued, first, News(batch), x);
      }
    }
  }

  /** An id that was never on record before carries a number of this batch. */
  lemma NewOrLive(before: File, payload: seq<Item>, cuts: seq<Id>, first: nat, level: seq<int>, order: seq<nat>,
                  batch: seq<Item>, table: map<Id, Id>, out: seq<Item>, i: nat)
    requires Written(payload, first, level, order, batch, table, out) && Membership(IdsOf(before.items), payload, cuts)
    requires i < |out| && out[i].id !in Ever(before)
    ensures Numbers(out[i].id, first, first + News(batch))
  {
    var k := SpeakerOf(batch, Given(batch, first), table, out, i);
    GivenAt(batch, first, k);
    if batch[k].id != "" { BatchIdWasLive(before, payload, cuts, level, order, batch, k); }
  }

  lemma SpeakerOf(batch: seq<Item>, ids: seq<Id>, table: map<Id, Id>, out: seq<Item>, i: nat) returns (k: nat)
    requires |ids| == |batch| && Table(KeysOf(batch), TagsOf(batch), ids, table) && Rewritten(batch, table, out)
    requires i < |batch|
    ensures k < |batch| && out[i].id == ids[k]
  {
    assert RewrittenAt(batch[i], table, out[i]);
    assert KeysOf(batch)[i] in KeysOf(batch);
    k := Topo.LastAt(KeysOf(batch), KeysOf(batch)[i]);
  }

  lemma BatchIdWasLive(before: File, payload: seq<Item>, cuts: seq<Id>, level: seq<int>, order: seq<nat>,
                       batch: seq<Item>, k: nat)
    requires InOrder(payload, level, order, batch) && Membership(IdsOf(before.items), payload, cuts)
    requires k < |batch| && batch[k].id != ""
    ensures batch[k].id in Ever(before)
  {
    var p := GraphOf(payload).Speaker(KeysOf(payload)[order[k]]);
    assert batch[k] == payload[p];
    assert IdsOf(payload)[p] in IdsOf(payload);
  }

  lemma IssuedOnRecord(before: File, issued: seq<nat>, batch: seq<Item>, first: nat, after: File, i: nat)
    requires forall j :: 0 <= j < |issued| ==> IdAlloc.Fmt(IdAlloc.SCOPE, issued[j]) in Ever(before)
    requires IdsOf(after.items) == Given(batch, first) && after.revisions == Ledger(before, after.items)
    requires i < |issued| + News(batch)
    ensures IdAlloc.Fmt(IdAlloc.SCOPE, (issued + Range(first, News(batch)))[i]) in Ever(after)
  {
    if i < |issued| {
      NothingForgotten(before, after.items, IdAlloc.Fmt(IdAlloc.SCOPE, issued[i]));
    } else {
      var k := EveryNumberGiven(batch, first, first + (i - |issued|));
      assert Given(batch, first)[k] in IdsOf(after.items);
    }
  }

  /** THE LEDGER IS EXACT: a clean batch keeps every number issued on record exactly once, and the replay right. */
  lemma StaysExact(before: File, base: seq<Id>, issued: seq<nat>, payload: seq<Item>, cuts: seq<Id>, first: nat,
                   level: seq<int>, order: seq<nat>, batch: seq<Item>, table: map<Id, Id>, after: File)
    requires Exact(before, base, issued)
    requires Applied(before, payload, first, level, order, batch, table, after)
    requires NoDup(KeysOf(payload)) && Membership(IdsOf(before.items), payload, cuts)
    ensures Exact(after, base, issued + Range(first, News(batch)))
  {
    CleanWhenDistinct(before, payload, cuts, first, level, order, batch, table, after);
    EverApart(before, payload, cuts, batch, first, after);
    NoDupJoin(IdsOf(before.items), Cuts(before.revisions));
    ReplayStep(base, before, after.items);
    var more := issued + Range(first, News(batch));
    forall x | x in Ever(after)
      ensures OnRecord(more, x)
    {
      EverOnRecord(before, issued, payload, cuts, batch, first, after, x);
    }
    forall i | 0 <= i < |more|
      ensures IdAlloc.Fmt(IdAlloc.SCOPE, more[i]) in Ever(after)
    {
      IssuedOnRecord(before, issued, batch, first, after, i);
    }
  }

  /** With distinct keys, whatever is written can be handed in again. */
  lemma WrittenIsRestatable(payload: seq<Item>, first: nat, level: seq<int>, order: seq<nat>, batch: seq<Item>,
                            table: map<Id, Id>, out: seq<Item>)
    requires Written(payload, first, level, order, batch, table, out)
    requires NoDup(KeysOf(payload)) && DistinctWhereGiven(TagsOf(payload)) && Labelled(payload)
    ensures Restatable(out)
  {
    DistinctBatch(payload, level, order, batch);
    LabelsStay(payload, order, batch, table, out);
    forall i, x | 0 <= i < |out| && x in out[i].depends
      ensures x in IdsOf(out)
    {
      assert RewrittenAt(batch[i], table, out[i]);
      var e :| 0 <= e < |batch[i].depends| && batch[i].depends[e] in table && table[batch[i].depends[e]] == x;
      var j := KeptReferenceLeads(batch, Given(batch, first), table, out, batch[i].depends[e]);
      assert IdsOf(out)[j] == x;
    }
  }

  lemma LabelsStay(payload: seq<Item>, order: seq<nat>, batch: seq<Item>, table: map<Id, Id>, out: seq<Item>)
    requires (forall i :: 0 <= i < |order| ==> order[i] < |payload|) && NoDup(order)
    requires batch == Picked(payload, order) && Rewritten(batch, table, out)
    requires DistinctWhereGiven(TagsOf(payload)) && Labelled(payload)
    ensures DistinctWhereGiven(TagsOf(out)) && Labelled(out)
  {
    forall i | 0 <= i < |out|
      ensures out[i].tag == payload[order[i]].tag
    {
      assert RewrittenAt(batch[i], table, out[i]);
    }
    forall i, j | 0 <= i < j < |out|
      ensures TagsOf(out)[i] != TagsOf(out)[j]
    {
      assert Differ(order, i, j);
      assert TagsOf(payload)[order[i]] != TagsOf(payload)[order[j]];
    }
  }
}
