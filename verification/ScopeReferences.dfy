/**
 What becomes of the references in an accepted payload: which are kept, where they lead, and exactly when the
 written list repeats one or waits in a circle.
*/
module ScopeReferences {
  import opened Seqs
  import opened ScopeItem
  import opened ScopeCore
  import opened ScopeIds
  import opened ScopeFile
  import Text
  import Topo

  // ---- which references are kept ----

  /** `d` is the key of an item, or the label of one that speaks for its key. */
  predicate SpelledBySpeaker(payload: seq<Item>, d: Id) {
    exists p :: 0 <= p < |payload| && GraphOf(payload).Speaker(KeysOf(payload)[p]) == p
                && (KeysOf(payload)[p] == d || payload[p].tag == d)
  }

  /** FOR EVERY PAYLOAD a reference is kept exactly when it is a key or a label letter for letter. */
  lemma KeptExactlyWhenSpelled(payload: seq<Item>, t: Trace, out: seq<Item>, d: Id)
    requires WrittenBy(payload, t, out)
    ensures d in t.table <==> SpelledBySpeaker(payload, d)
  {
    TableHolds(t.batch, Given(t.batch, t.first), t.table, d);
    var g := GraphOf(payload);
    forall i | 0 <= i < |t.batch|
      ensures exists p :: 0 <= p < |payload| && g.Speaker(KeysOf(payload)[p]) == p && t.batch[i] == payload[p]
    {
      var p := g.Speaker(KeysOf(payload)[t.order[i]]);
      assert t.batch[i] == payload[p];
    }
    if Spelled(t.batch, d) {
      var i := if d in KeysOf(t.batch) then Topo.LastAt(KeysOf(t.batch), d) else Topo.LastAt(TagsOf(t.batch), d);
      assert t.batch[i].Key() == d || t.batch[i].tag == d;
    }
    if SpelledBySpeaker(payload, d) {
      var p :| 0 <= p < |payload| && g.Speaker(KeysOf(payload)[p]) == p
               && (KeysOf(payload)[p] == d || payload[p].tag == d);
      var i := Place(t.order, p);
      assert t.batch[i] == payload[p];
      assert KeysOf(t.batch)[i] in KeysOf(t.batch) && TagsOf(t.batch)[i] in TagsOf(t.batch);
    }
  }

  /** No written item has fewer dependencies than it declared. */
  ghost predicate NothingDropped(batch: seq<Item>, out: seq<Item>) {
    |out| == |batch| && forall i :: 0 <= i < |batch| ==> |out[i].depends| == |batch[i].depends|
  }

  predicate AllTrimmed(payload: seq<Item>) {
    forall it :: it in payload ==> forall d :: d in it.depends ==> Text.Trimmed(d)
  }

  lemma SpelledExactlyWhenTrimmed(payload: seq<Item>, d: Id)
    requires IdsTrimmed(payload) && Labelled(payload) && Known(payload, Text.Strip(d))
    ensures Spelled(payload, d) <==> Text.Trimmed(d)
  {
    Text.StripKeepsTheTrimmed(d);
    if d in KeysOf(payload) {
      var p := Place(KeysOf(payload), d);
      assert payload[p] in payload;
    }
    if d in TagsOf(payload) {
      var p := Place(TagsOf(payload), d);
      assert payload[p].tag == d;
    }
    if Text.Trimmed(d) {
      var it :| it in payload && ((it.id != "" && Text.Strip(it.id) == d) || (it.tag != "" && it.tag == d));
      Text.StripKeepsTheTrimmed(it.id);
      var p := Place(payload, it);
      assert KeysOf(payload)[p] in KeysOf(payload) && TagsOf(payload)[p] in TagsOf(payload);
    }
  }

  /**
   EXACTLY WHEN NO ACCEPTED REFERENCE IS LOST: the gate strips a reference before looking it up and the rewriting
   does not, so with distinct keys nothing is dropped if and only if every reference is written without blanks
   around it.
  */
  lemma NothingDroppedExactlyWhenTrimmed(payload: seq<Item>, t: Trace, out: seq<Item>)
    requires WrittenBy(payload, t, out) && NoDup(KeysOf(payload))
    requires References(payload) && Labelled(payload) && IdsTrimmed(payload)
    ensures NothingDropped(t.batch, out) <==> AllTrimmed(payload)
  {
    BatchIsPayload(payload, t.level, t.order, t.batch);
    DistinctBatch(payload, t.level, t.order, t.batch);
    forall it, d | it in payload && d in it.depends
      ensures d in t.table <==> Text.Trimmed(d)
    {
      TableHolds(t.batch, Given(t.batch, t.first), t.table, d);
      SpelledInPayload(payload, t.order, t.batch, d);
      SpelledExactlyWhenTrimmed(payload, d);
    }
    forall i | 0 <= i < |t.batch|
      ensures |out[i].depends| == |t.batch[i].depends| <==> forall d :: d in t.batch[i].depends ==> d in t.table
    {
      assert RewrittenAt(t.batch[i], t.table, out[i]);
      ResolvedAll(t.batch[i].depends, t.table);
    }
    DroppedWhere(payload, t.batch, t.table, out);
  }

  lemma ResolvedAll(depends: seq<Id>, table: map<Id, Id>)
    ensures |Resolved(depends, table)| == |depends| <==> forall d :: d in depends ==> d in table
  {
    assert forall i :: 0 <= i < |depends| ==> depends[i] in depends;
  }

  lemma DroppedWhere(payload: seq<Item>, batch: seq<Item>, table: map<Id, Id>, out: seq<Item>)
    requires SameItems(payload, batch) && |out| == |batch|
    requires forall it, d :: it in payload && d in it.depends ==> (d in table <==> Text.Trimmed(d))
    requires forall i :: 0 <= i < |batch| ==>
               (|out[i].depends| == |batch[i].depends| <==> forall d :: d in batch[i].depends ==> d in table)
    ensures NothingDropped(batch, out) <==> AllTrimmed(payload)
  {
    if NothingDropped(batch, out) {
      forall it, d | it in payload && d in it.depends
        ensures Text.Trimmed(d)
      {
        var i := Place(batch, it);
        assert d in batch[i].depends;
      }
    }
    if AllTrimmed(payload) {
      forall i | 0 <= i < |batch|
        ensures |out[i].depends| == |batch[i].depends|
      {
        assert batch[i] in batch;
      }
    }
  }

  function PaddedPayload(): seq<Item> { [Item("", "a", "a", []), Item("", "b", "b", [" a"])] }

  lemma PaddedNames()
    ensures KeysOf(PaddedPayload()) == ["a", "b"] == TagsOf(PaddedPayload()) && StrippedIds(PaddedPayload()) == ["", ""]
    ensures Text.Strip(" a") == "a"
  {
    assert Text.StripLeft(" a") == Text.StripLeft("a") == "a";
  }

  /** A REFERENCE LOST. One blank in front of it: every gate of the first decomposition passes. */
  lemma PaddedIsAccepted()
    ensures FirstGates([], PaddedPayload(), true) && !Cyclic(PaddedPayload())
  {
    PaddedIsNew();
    PaddedHasNoEdge();
  }

  lemma PaddedIsNew()
    ensures NewPayload(PaddedPayload())
  {
    PaddedNames();
    PaddedReferences();
  }

  lemma PaddedHasNoEdge()
    ensures !Cyclic(PaddedPayload())
  {
    PaddedNames();
    NoReferencesNoCycle(PaddedPayload());
  }

  lemma PaddedReferences()
    ensures References(PaddedPayload())
  {
    var payload := PaddedPayload();
    PaddedNames();
    assert payload[0] in payload && payload[0].tag == "a";
    forall it, d | it in payload && d in it.depends
      ensures Known(payload, Text.Strip(d))
    {
      assert d == " a";
    }
  }

  /** And whatever is written for it has no dependency left: the second item has become a root. */
  lemma PaddedIsDropped(t: Trace, out: seq<Item>, i: nat)
    requires WrittenBy(PaddedPayload(), t, out) && i < |out|
    ensures out[i].depends == []
  {
    assert RewrittenAt(t.batch[i], t.table, out[i]);
    PaddedIsNoKey(t, out);
    if out[i].depends != [] {
      assert out[i].depends[0] in out[i].depends;
      var e :| 0 <= e < |t.batch[i].depends| && t.batch[i].depends[e] in t.table;
      PaddedStaysPadded(t, i, t.batch[i].depends[e]);
    }
  }

  lemma PaddedIsNoKey(t: Trace, out: seq<Item>)
    requires WrittenBy(PaddedPayload(), t, out)
    ensures " a" !in t.table
  {
    PaddedNames();
    KeptExactlyWhenSpelled(PaddedPayload(), t, out, " a");
  }

  lemma PaddedStaysPadded(t: Trace, i: nat, d: Id)
    requires InOrder(PaddedPayload(), t.level, t.order, t.batch) && i < |t.batch| && d in t.batch[i].depends
    ensures d == " a"
  {
    var p := GraphOf(PaddedPayload()).Speaker(KeysOf(PaddedPayload())[t.order[i]]);
    assert t.batch[i] == PaddedPayload()[p];
  }
}
