/**
 The written dependencies of an accepted payload seen as a graph: it is the payload's own graph, each reference
 read as the sorter should have read it, with ids for keys. So what the caller can see in the payload decides
 whether the scope file ends up with a circle, or with a dependency listed twice.
*/
module ScopeCycles {
  import opened Seqs
  import opened ScopeItem
  import opened ScopeCore
  import opened ScopeLedger
  import opened ScopeIds
  import opened ScopeFile
  import IdAlloc
  import Text
  import Topo

  // ---- the payload as it is meant ----

  /** The key of the item a reference names: by key, or else by label. */
  function NameTable(payload: seq<Item>): map<Id, Id> {
    map d | d in KeysOf(payload) + TagsOf(payload) ::
      if d in KeysOf(payload) then d else payload[Topo.LastAt(TagsOf(payload), d)].Key()
  }

  /** The payload with every reference replaced by the key it leads to. */
  function Rekeyed(payload: seq<Item>): (items: seq<Item>)
    ensures |items| == |payload|
    ensures forall i :: 0 <= i < |payload| ==>
              items[i] == payload[i].(depends := Resolved(payload[i].depends, NameTable(payload)))
  {
    var names := NameTable(payload);
    seq(|payload|, i requires 0 <= i < |payload| => payload[i].(depends := Resolved(payload[i].depends, names)))
  }

  /** An accepted payload whose items share no key, and what was written for it. */
  ghost predicate Clean(payload: seq<Item>, t: Trace, out: seq<Item>) {
    && WrittenBy(payload, t, out) && NoDup(KeysOf(payload)) && Identities(payload) && Labelled(payload)
    && NoDup(IdsOf(out)) && "" !in IdsOf(out)
  }

  lemma CleanPlaces(payload: seq<Item>, t: Trace, out: seq<Item>)
    requires Clean(payload, t, out)
    ensures t.batch == Picked(payload, t.order) && |t.batch| == |payload| == |out| && NoDup(KeysOf(t.batch))
    ensures KeysOf(out) == IdsOf(out)
  {
    DistinctBatch(payload, t.level, t.order, t.batch);
    forall i | 0 <= i < |out|
      ensures out[i].id != ""
    {
      assert IdsOf(out)[i] in IdsOf(out);
    }
  }

  /** Where an item of the payload is written. */
  lemma WrittenAt(payload: seq<Item>, t: Trace, out: seq<Item>, p: nat) returns (i: nat)
    requires Clean(payload, t, out) && p < |payload|
    ensures i < |t.batch| && t.batch[i] == payload[p] && RewrittenAt(payload[p], t.table, out[i])
  {
    CleanPlaces(payload, t, out);
    i := Place(t.order, p);
    assert RewrittenAt(t.batch[i], t.table, out[i]);
  }

  /** A reference and the key it leads to are rewritten to the same id. */
  lemma SameTarget(payload: seq<Item>, t: Trace, out: seq<Item>, d: Id)
    requires Clean(payload, t, out)
    ensures d in t.table <==> d in NameTable(payload)
    ensures d in t.table ==> NameTable(payload)[d] in KeysOf(payload)
    ensures d in t.table ==> NameTable(payload)[d] in t.table && t.table[NameTable(payload)[d]] == t.table[d]
  {
    CleanPlaces(payload, t, out);
    TableHolds(t.batch, Given(t.batch, t.first), t.table, d);
    SpelledInPayload(payload, t.order, t.batch, d);
    if d in t.table && d !in KeysOf(payload) {
      var j := KeptReferenceLeads(t.batch, Given(t.batch, t.first), t.table, out, d);
      var q := Topo.LastAt(TagsOf(payload), d);
      LabelIsOnes(payload, t.order[j], q);
      assert KeysOf(payload)[q] in KeysOf(payload);
      assert RewrittenAt(t.batch[j], t.table, out[j]);
    }
  }

  lemma LabelIsOnes(payload: seq<Item>, p: nat, q: nat)
    requires Identities(payload) && Labelled(payload) && p < |payload| && q < |payload|
    requires payload[p].tag == payload[q].tag
    ensures p == q
  {
    assert TagsOf(payload)[p] == TagsOf(payload)[q];
  }

  /** Different keys are rewritten to different ids. */
  lemma KeysStayApart(payload: seq<Item>, t: Trace, out: seq<Item>, i: nat, j: nat)
    requires Clean(payload, t, out) && i < |t.batch| && j < |t.batch|
    requires t.batch[i].Key() in t.table && t.batch[j].Key() in t.table
    requires t.table[t.batch[i].Key()] == t.table[t.batch[j].Key()]
    ensures i == j
  {
    CleanPlaces(payload, t, out);
    assert RewrittenAt(t.batch[i], t.table, out[i]) && RewrittenAt(t.batch[j], t.table, out[j]);
    assert if i < j then Differ(IdsOf(out), i, j) else i == j || Differ(IdsOf(out), j, i);
  }

  // ---- every edge is written, and nothing else ----

  lemma EdgeIsWritten(payload: seq<Item>, t: Trace, out: seq<Item>, k: Id, e: Id)
    requires Clean(payload, t, out) && GraphOf(Rekeyed(payload)).Needs(k, e)
    ensures k in t.table && e in t.table && GraphOf(out).Needs(t.table[k], t.table[e])
  {
    assert KeysOf(Rekeyed(payload)) == KeysOf(payload);
    var p := Topo.LastAt(KeysOf(payload), k);
    var q := Place(KeysOf(payload), e);
    var i := WrittenAt(payload, t, out, p);
    var j := WrittenAt(payload, t, out, q);
    var d := NamedBy(payload[p].depends, NameTable(payload), e);
    SameTarget(payload, t, out, d);
    ResolvedHolds(payload[p].depends, t.table, d);
    CleanPlaces(payload, t, out);
    EdgeBetween(out, i, j);
  }

  lemma EdgeBetween(out: seq<Item>, i: nat, j: nat)
    requires NoDup(KeysOf(out)) && i < |out| && j < |out| && out[j].Key() in out[i].depends
    ensures GraphOf(out).Needs(out[i].Key(), out[j].Key())
  {
    assert KeysOf(out)[i] in KeysOf(out) && KeysOf(out)[j] in KeysOf(out);
    Topo.SpeaksForItself(KeysOf(out), i);
  }

  lemma NamedBy(depends: seq<Id>, table: map<Id, Id>, x: Id) returns (d: Id)
    requires x in Resolved(depends, table)
    ensures d in depends && d in table && table[d] == x
  {
    var n :| 0 <= n < |depends| && depends[n] in table && table[depends[n]] == x;
    d := depends[n];
  }

  lemma ResolvedHolds(depends: seq<Id>, table: map<Id, Id>, d: Id)
    requires d in depends && d in table
    ensures table[d] in Resolved(depends, table)
  {
    var n := Place(depends, d);
  }

  /** The key an id was written for. */
  ghost function Back(batch: seq<Item>, out: seq<Item>): map<Id, Id>
    requires |batch| == |out|
  {
    map x | x in IdsOf(out) :: batch[Topo.LastAt(IdsOf(out), x)].Key()
  }

  lemma EdgeWasNamed(payload: seq<Item>, t: Trace, out: seq<Item>, x: Id, y: Id)
    requires Clean(payload, t, out) && |t.batch| == |out| && GraphOf(out).Needs(x, y)
    ensures var back := Back(t.batch, out);
            x in back && y in back && GraphOf(Rekeyed(payload)).Needs(back[x], back[y])
  {
    CleanPlaces(payload, t, out);
    var i, j := Topo.LastAt(IdsOf(out), x), Topo.LastAt(IdsOf(out), y);
    assert RewrittenAt(t.batch[i], t.table, out[i]) && RewrittenAt(t.batch[j], t.table, out[j]);
    var d := NamedBy(t.batch[i].depends, t.table, y);
    SameTarget(payload, t, out, d);
    var e := NameTable(payload)[d];
    var q := Place(KeysOf(payload), e);
    var m := WrittenAt(payload, t, out, q);
    KeysStayApart(payload, t, out, m, j);
    EdgeInPayload(payload, t.order[i], d);
  }

  lemma EdgeInPayload(payload: seq<Item>, p: nat, d: Id)
    requires NoDup(KeysOf(payload)) && p < |payload| && d in payload[p].depends && d in NameTable(payload)
    requires NameTable(payload)[d] in KeysOf(payload)
    ensures GraphOf(Rekeyed(payload)).Needs(payload[p].Key(), NameTable(payload)[d])
  {
    assert KeysOf(Rekeyed(payload)) == KeysOf(payload);
    assert KeysOf(payload)[p] in KeysOf(payload);
    Topo.SpeaksForItself(KeysOf(payload), p);
    ResolvedHolds(payload[p].depends, NameTable(payload), d);
  }

  /** The written list waits in a circle exactly when the payload does, each reference read as what it names. */
  lemma CyclicTogether(payload: seq<Item>, t: Trace, out: seq<Item>)
    requires Clean(payload, t, out)
    ensures Cyclic(out) <==> Cyclic(Rekeyed(payload))
  {
    CleanPlaces(payload, t, out);
    var g, h := GraphOf(Rekeyed(payload)), GraphOf(out);
    if walk :| Topo.IsCycle(g, walk) {
      forall k, e | g.Needs(k, e)
        ensures k in t.table && e in t.table && h.Needs(t.table[k], t.table[e])
      {
        EdgeIsWritten(payload, t, out, k, e);
      }
      var image := Topo.CycleCarries(g, h, t.table, walk);
    }
    if walk :| Topo.IsCycle(h, walk) {
      var back := Back(t.batch, out);
      forall x, y | h.Needs(x, y)
        ensures x in back && y in back && g.Needs(back[x], back[y])
      {
        EdgeWasNamed(payload, t, out, x, y);
      }
      var image := Topo.CycleCarries(h, g, back, walk);
    }
  }

  lemma AcceptedIsClean(before: File, issued: seq<nat>, payload: seq<Item>, cuts: seq<Id>, t: Trace, after: File)
    requires Canonical(before, issued) && AppliedBy(before, payload, t, after)
    requires Membership(IdsOf(before.items), payload, cuts)
    requires NoDup(KeysOf(payload)) && Identities(payload) && Labelled(payload)
    ensures Clean(payload, t, after.items)
  {
    CleanWhenDistinct(before, payload, cuts, t.first, t.level, t.order, t.batch, t.table, after);
    StaysCanonical(before, issued, payload, cuts, t.first, t.level, t.order, t.batch, t.table, after);
    if "" in IdsOf(after.items) {
      assert "" in Ever(after);
      WasIssued(after, issued + Range(t.first, News(t.batch)), "");
    }
  }

  /**
   EXACTLY WHEN A CIRCLE IS WRITTEN: an accepted revision or addition whose items share no key leaves a circle of
   ids in the scope file if and only if the payload's references, each read as the key of the item it names, close
   one.
  */
  lemma CycleWrittenExactlyWhenNamed(before: File, issued: seq<nat>, payload: seq<Item>, cuts: seq<Id>, t: Trace,
                                     after: File)
    requires Canonical(before, issued) && AppliedBy(before, payload, t, after)
    requires Membership(IdsOf(before.items), payload, cuts)
    requires NoDup(KeysOf(payload)) && Identities(payload) && Labelled(payload)
    ensures Cyclic(after.items) <==> Cyclic(Rekeyed(payload))
  {
    AcceptedIsClean(before, issued, payload, cuts, t, after);
    CyclicTogether(payload, t, after.items);
  }

  // ---- the same dependency twice ----

  lemma {:induction false} ResolvedThrough(payload: seq<Item>, t: Trace, out: seq<Item>, depends: seq<Id>)
    requires Clean(payload, t, out)
    ensures var named, written := Resolved(depends, NameTable(payload)), Resolved(depends, t.table);
            |named| == |written| && forall i :: 0 <= i < |named| ==>
              named[i] in KeysOf(payload) && named[i] in t.table && written[i] == t.table[named[i]]
  {
    if depends != [] {
      ResolvedThrough(payload, t, out, depends[..|depends| - 1]);
      SameTarget(payload, t, out, depends[|depends| - 1]);
    }
  }

  /** A written item lists an id twice exactly when two references of its payload item lead to the same key. */
  lemma RepeatWrittenExactlyWhenNamed(payload: seq<Item>, t: Trace, out: seq<Item>, i: nat)
    requires Clean(payload, t, out) && i < |t.batch| && i < |out|
    ensures NoDup(out[i].depends) <==> NoDup(Resolved(t.batch[i].depends, NameTable(payload)))
  {
    var named, written := Resolved(t.batch[i].depends, NameTable(payload)), Resolved(t.batch[i].depends, t.table);
    assert RewrittenAt(t.batch[i], t.table, out[i]);
    ResolvedThrough(payload, t, out, t.batch[i].depends);
    forall a, b | 0 <= a < b < |named|
      ensures Differ(named, a, b) <==> Differ(written, a, b)
    {
      if written[a] == written[b] { KeyOfId(payload, t, out, named[a], named[b]); }
    }
  }

  lemma KeyOfId(payload: seq<Item>, t: Trace, out: seq<Item>, k: Id, e: Id)
    requires Clean(payload, t, out) && k in KeysOf(payload) && e in KeysOf(payload)
    requires k in t.table && e in t.table && t.table[k] == t.table[e]
    ensures k == e
  {
    var p := Place(KeysOf(payload), k);
    var q := Place(KeysOf(payload), e);
    var i := WrittenAt(payload, t, out, p);
    var j := WrittenAt(payload, t, out, q);
    KeysStayApart(payload, t, out, i, j);
  }

  // ---- a circle the ordering does not see ----

  function LoopBefore(): File { File([Item("PS-001", "store", "Store", []), Item("PS-002", "shop", "Shop", [])], []) }

  function LoopPayload(): seq<Item> {
    [Item("PS-001", "store", "Store", ["shop"]), Item("PS-002", "shop", "Shop", ["store"])]
  }

  lemma LoopNames()
    ensures KeysOf(LoopPayload()) == IdsOf(LoopPayload()) == StrippedIds(LoopPayload()) == ["PS-001", "PS-002"]
    ensures IdsOf(LoopBefore().items) == ["PS-001", "PS-002"] && TagsOf(LoopPayload()) == ["store", "shop"]
  {
    Text.StripKeepsTheTrimmed("PS-001");
    Text.StripKeepsTheTrimmed("PS-002");
  }

  lemma LoopReferences()
    ensures References(LoopPayload())
  {
    var payload := LoopPayload();
    Text.StripKeepsTheTrimmed("shop");
    Text.StripKeepsTheTrimmed("store");
    assert payload[0] in payload && payload[0].tag == "store" && payload[1] in payload && payload[1].tag == "shop";
  }

  /**
   References by label to items that carry ids are no edges for the sorter, but they are rewritten to ids like any
   other: two live items that wait for each other pass every gate.
  */
  lemma LoopIsAccepted()
    ensures Identities(LoopPayload()) && References(LoopPayload()) && NoDup(KeysOf(LoopPayload()))
    ensures Gates(IdsOf(LoopBefore().items), LoopPayload(), [], true)
  {
    LoopIdentities();
    LoopReferences();
    LoopSeesNoEdge();
    LoopMembership();
  }

  lemma LoopIdentities()
    ensures Identities(LoopPayload()) && Labelled(LoopPayload())
  {
    LoopNames();
    TwoDiffer(StrippedIds(LoopPayload()), "PS-001", "PS-002");
    TwoDiffer(TagsOf(LoopPayload()), "store", "shop");
  }

  lemma TwoDiffer(names: seq<Id>, a: Id, b: Id)
    requires names == [a, b] && a != b
    ensures DistinctWhereGiven(names)
  {
  }

  lemma LoopMembership()
    ensures Membership(IdsOf(LoopBefore().items), LoopPayload(), [])
  {
    LoopNames();
  }

  lemma LoopSeesNoEdge()
    ensures NoDup(KeysOf(LoopPayload())) && !Cyclic(LoopPayload())
  {
    LoopKeysDiffer();
    LoopRefersToNoKey();
    NoReferencesNoCycle(LoopPayload());
  }

  lemma LoopKeysDiffer()
    ensures NoDup(KeysOf(LoopPayload()))
  {
    LoopNames();
  }

  lemma LoopRefersToNoKey()
    ensures forall i, d :: 0 <= i < |LoopPayload()| && d in LoopPayload()[i].depends ==> d !in KeysOf(LoopPayload())
  {
    LoopNames();
    assert LoopPayload()[0].depends == ["shop"] && LoopPayload()[1].depends == ["store"];
  }

  /** And a circle of ids is written. */
  lemma LoopIsWritten(t: Trace, after: File)
    requires AppliedBy(LoopBefore(), LoopPayload(), t, after)
    ensures Cyclic(after.items)
  {
    LoopIsAccepted();
    LoopIsCanonical();
    LoopCloses();
    CycleWrittenExactlyWhenNamed(LoopBefore(), [1, 2], LoopPayload(), [], t, after);
  }

  lemma LoopIsCanonical()
    ensures Canonical(LoopBefore(), [1, 2])
  {
    LoopNames();
    assert IdAlloc.Fmt(IdAlloc.SCOPE, 1) == "PS-001" && IdAlloc.Fmt(IdAlloc.SCOPE, 2) == "PS-002";
    assert Ever(LoopBefore()) == ["PS-001", "PS-002"];
    assert [1, 2][0] == 1 && [1, 2][1] == 2;
  }

  lemma LoopCloses()
    ensures Cyclic(Rekeyed(LoopPayload()))
  {
    LoopEdge(0, "shop", "PS-002");
    LoopEdge(1, "store", "PS-001");
    Topo.ThereAndBack(GraphOf(Rekeyed(LoopPayload())), "PS-001", "PS-002");
  }

  lemma LoopEdge(p: nat, d: Id, k: Id)
    requires (p == 0 && d == "shop" && k == "PS-002") || (p == 1 && d == "store" && k == "PS-001")
    ensures GraphOf(Rekeyed(LoopPayload())).Needs(LoopPayload()[p].Key(), k)
  {
    LoopName(p, d, k);
    LoopSeesNoEdge();
    assert LoopPayload()[p].depends == [d];
    EdgeInPayload(LoopPayload(), p, d);
  }

  lemma LoopName(p: nat, d: Id, k: Id)
    requires (p == 0 && d == "shop" && k == "PS-002") || (p == 1 && d == "store" && k == "PS-001")
    ensures d in NameTable(LoopPayload()) && NameTable(LoopPayload())[d] == k && k in KeysOf(LoopPayload())
  {
    LoopNames();
    var payload := LoopPayload();
    assert TagsOf(payload)[1 - p] == d && KeysOf(payload)[1 - p] == k;
    assert d !in KeysOf(payload);
    var q := Topo.LastAt(TagsOf(payload), d);
    assert q == 1 - p;
    assert payload[q].Key() == k;
  }
}
