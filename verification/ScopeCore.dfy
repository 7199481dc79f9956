/**
 How a batch of scope items gets its identities: kept ids stay, new items are numbered in dependency order,
 and every reference is rewritten to an id.
*/
module ScopeCore {
  import opened Seqs
  import opened ScopeItem
  import IdAlloc
  import Topo

  function KeysOf(items: seq<Item>): (keys: seq<Id>)
    ensures |keys| == |items| && forall i :: 0 <= i < |items| ==> keys[i] == items[i].Key()
  {
    seq(|items|, i requires 0 <= i < |items| => items[i].Key())
  }

  function TagsOf(items: seq<Item>): (tags: seq<string>)
    ensures |tags| == |items| && forall i :: 0 <= i < |items| ==> tags[i] == items[i].tag
  {
    seq(|items|, i requires 0 <= i < |items| => items[i].tag)
  }

  function IdsOf(items: seq<Item>): (ids: seq<Id>)
    ensures |ids| == |items| && forall i :: 0 <= i < |items| ==> ids[i] == items[i].id
  {
    seq(|items|, i requires 0 <= i < |items| => items[i].id)
  }

  function GraphOf(items: seq<Item>): (g: Topo.Graph)
    ensures g.Valid() && g.keys == KeysOf(items)
  {
    Topo.Graph(KeysOf(items), seq(|items|, i requires 0 <= i < |items| => items[i].depends))
  }

  function Picked(items: seq<Item>, places: seq<nat>): (out: seq<Item>)
    requires forall i :: 0 <= i < |places| ==> places[i] < |items|
    ensures |out| == |places| && forall i :: 0 <= i < |places| ==> out[i] == items[places[i]]
  {
    seq(|places|, i requires 0 <= i < |places| => items[places[i]])
  }

  // ---- the key table ----

  function Put(table: map<Id, Id>, key: Id, tag: string, id: Id): map<Id, Id> {
    var keyed := table[key := id];
    if tag in keyed then keyed else keyed[tag := id]
  }

  ghost predicate ByTag(tags: seq<string>, ids: seq<Id>, d: Id, id: Id)
    requires |tags| == |ids|
  {
    exists j :: 0 <= j < |tags| && tags[j] == d && ids[j] == id
  }

  /** A key stands for the last id given under it; a label that is no key stands for its item. */
  ghost predicate Table(keys: seq<Id>, tags: seq<string>, ids: seq<Id>, table: map<Id, Id>)
    requires |keys| == |tags| == |ids|
  {
    && (forall k :: k in keys ==> k in table && table[k] == ids[Topo.LastAt(keys, k)])
    && (forall k :: k in table && k !in keys ==> ByTag(tags, ids, k, table[k]))
    && (forall j {:trigger Listed(tags, table, j)} :: 0 <= j < |tags| ==> Listed(tags, table, j))
  }

  ghost predicate Listed(tags: seq<string>, table: map<Id, Id>, j: nat)
    requires j < |tags|
  {
    tags[j] in table
  }

  lemma PutKeepsTable(keys: seq<Id>, tags: seq<string>, ids: seq<Id>, table: map<Id, Id>, key: Id, tag: string, id: Id)
    requires |keys| == |tags| == |ids| && Table(keys, tags, ids, table)
    ensures Table(keys + [key], tags + [tag], ids + [id], Put(table, key, tag, id))
  {
    var keys', tags', ids', table' := keys + [key], tags + [tag], ids + [id], Put(table, key, tag, id);
    forall k | k in keys'
      ensures k in table' && table'[k] == ids'[Topo.LastAt(keys', k)]
    {
      assert keys'[..|keys|] == keys;
      if k != key { assert k in keys; }
    }
    forall k | k in table' && k !in keys'
      ensures ByTag(tags', ids', k, table'[k])
    {
      if k in table {
        assert k !in keys && table'[k] == table[k];
        var j :| 0 <= j < |tags| && tags[j] == k && ids[j] == table[k];
        assert tags'[j] == k && ids'[j] == table'[k];
      } else {
        assert tags'[|tags|] == k && ids'[|tags|] == table'[k];
      }
    }
    forall j | 0 <= j < |tags'|
      ensures Listed(tags', table', j)
    {
      if j < |tags| { assert Listed(tags, table, j); }
    }
  }

  // ---- numbering ----

  /** How many of the items are new. */
  function News(batch: seq<Item>): nat {
    if batch == [] then 0
    else News(batch[..|batch| - 1]) + (if batch[|batch| - 1].id == "" then 1 else 0)
  }

  /** The ids given to a batch in order: its own, or the next number from `first` on. */
  function Given(batch: seq<Item>, first: nat): (ids: seq<Id>)
    ensures |ids| == |batch|
  {
    seq(|batch|, i requires 0 <= i < |batch| => GivenTo(batch, first, i))
  }

  function GivenTo(batch: seq<Item>, first: nat, i: nat): Id
    requires i < |batch|
  {
    if batch[i].id != "" then batch[i].id else IdAlloc.Fmt(IdAlloc.SCOPE, first + News(batch[..i]))
  }

  ghost predicate Numbers(id: Id, lo: nat, hi: nat) {
    var n := IdAlloc.ParseNum(IdAlloc.SCOPE, id);
    n.Some? && lo <= n.value < hi && id == IdAlloc.Fmt(IdAlloc.SCOPE, n.value)
  }

  lemma GivenLast(batch: seq<Item>, first: nat)
    requires batch != []
    ensures Given(batch, first) == Given(batch[..|batch| - 1], first) + [GivenTo(batch, first, |batch| - 1)]
  {
    var init := batch[..|batch| - 1];
    forall i | 0 <= i < |init|
      ensures GivenTo(batch, first, i) == GivenTo(init, first, i)
    {
      assert batch[..i] == init[..i];
    }
  }

  lemma Extend(batch: seq<Item>, it: Item, first: nat, n: nat)
    requires n == first + News(batch)
    ensures News(batch + [it]) == News(batch) + (if it.id == "" then 1 else 0)
    ensures Given(batch + [it], first) ==
              Given(batch, first) + [if it.id != "" then it.id else IdAlloc.Fmt(IdAlloc.SCOPE, n)]
  {
    assert (batch + [it])[..|batch|] == batch;
    GivenLast(batch + [it], first);
  }

  lemma {:induction false} NewsBefore(batch: seq<Item>, i: nat)
    requires i < |batch|
    ensures News(batch[..i]) + (if batch[i].id == "" then 1 else 0) <= News(batch)
  {
    var init := batch[..|batch| - 1];
    if i < |init| {
      assert init[..i] == batch[..i];
      NewsBefore(init, i);
    }
  }

  /** A new item's id carries a number of this batch; another keeps its own. */
  lemma GivenAt(batch: seq<Item>, first: nat, i: nat)
    requires i < |batch|
    ensures batch[i].id != "" ==> Given(batch, first)[i] == batch[i].id
    ensures batch[i].id == "" ==> Numbers(Given(batch, first)[i], first, first + News(batch))
  {
    NewsBefore(batch, i);
    IdAlloc.ParseOwn(IdAlloc.SCOPE, first + News(batch[..i]));
  }

  /** All ids in `ids` that carry a number carry a smaller one than `first`. */
  ghost predicate Below(ids: seq<Id>, first: nat) {
    forall i {:trigger BelowOne(ids[i], first)} :: 0 <= i < |ids| ==> BelowOne(ids[i], first)
  }

  ghost predicate BelowOne(id: Id, first: nat) {
    var n := IdAlloc.ParseNum(IdAlloc.SCOPE, id); n.Some? ==> n.value < first
  }

  ghost predicate OwnIdsDiffer(batch: seq<Item>) {
    forall i, j :: 0 <= i < j < |batch| && batch[i].id != "" ==> batch[i].id != batch[j].id
  }

  /** No two items are given the same id. */
  lemma GivenDiffer(batch: seq<Item>, first: nat)
    requires OwnIdsDiffer(batch) && forall i :: 0 <= i < |batch| ==> BelowOne(batch[i].id, first)
    ensures NoDup(Given(batch, first))
  {
    forall i, j | 0 <= i < j < |batch|
      ensures Differ(Given(batch, first), i, j)
    {
      GivenApart(batch, first, i, j);
    }
  }

  lemma GivenApart(batch: seq<Item>, first: nat, i: nat, j: nat)
    requires i < j < |batch| && OwnIdsDiffer(batch)
    requires BelowOne(batch[i].id, first) && BelowOne(batch[j].id, first)
    ensures GivenTo(batch, first, i) != GivenTo(batch, first, j)
  {
    var m, n := first + News(batch[..i]), first + News(batch[..j]);
    NotANewNumber(batch[i].id, first, n);
    NotANewNumber(batch[j].id, first, m);
    if batch[i].id == "" {
      assert batch[..j][..i] == batch[..i];
      NewsBefore(batch[..j], i);
      IdAlloc.FmtInjective(IdAlloc.SCOPE, m, n);
    }
  }

  lemma NotANewNumber(id: Id, first: nat, n: nat)
    requires BelowOne(id, first) && first <= n
    ensures id != IdAlloc.Fmt(IdAlloc.SCOPE, n)
  {
    IdAlloc.ParseOwn(IdAlloc.SCOPE, n);
  }

  /** Every number of the batch was given to something. */
  lemma EveryNumberGiven(batch: seq<Item>, first: nat, n: nat) returns (i: nat)
    requires first <= n < first + News(batch)
    ensures i < |batch| && batch[i].id == "" && Given(batch, first)[i] == IdAlloc.Fmt(IdAlloc.SCOPE, n)
  {
    i := NthNew(batch, n - first);
  }

  lemma {:induction false} NthNew(batch: seq<Item>, k: nat) returns (i: nat)
    requires k < News(batch)
    ensures i < |batch| && batch[i].id == "" && News(batch[..i]) == k
  {
    var init := batch[..|batch| - 1];
    if k < News(init) {
      i := NthNew(init, k);
      assert init[..i] == batch[..i];
    } else {
      i := |init|;
    }
  }

  // ---- rewriting ----

  /** References rewritten to ids; one that is not in the table is left out. */
  function Resolved(depends: seq<Id>, table: map<Id, Id>): (ids: seq<Id>)
    ensures forall x :: x in ids <==> exists i :: 0 <= i < |depends| && depends[i] in table && table[depends[i]] == x
    ensures |ids| <= |depends|
    ensures |ids| == |depends| <==> forall i :: 0 <= i < |depends| ==> depends[i] in table
  {
    if depends == [] then []
    else
      var init, last := depends[..|depends| - 1], depends[|depends| - 1];
      assert depends == init + [last];
      Resolved(init, table) + (if last in table then [table[last]] else [])
  }

  ghost predicate Rewritten(batch: seq<Item>, table: map<Id, Id>, out: seq<Item>) {
    && |out| == |batch|
    && forall i {:trigger RewrittenAt(batch[i], table, out[i])} :: 0 <= i < |batch|
        ==> RewrittenAt(batch[i], table, out[i])
  }

  ghost predicate RewrittenAt(it: Item, table: map<Id, Id>, o: Item) {
    it.Key() in table && o == Item(table[it.Key()], it.tag, it.title, Resolved(it.depends, table))
  }

  // ---- the batch in dependency order ----

  /** `batch` is the payload in the order the sorter gives, last speaker per key. */
  ghost predicate InOrder(payload: seq<Item>, level: seq<int>, order: seq<nat>, batch: seq<Item>) {
    var g := GraphOf(payload);
    Topo.IsOrdering(g, level, order) && batch == Picked(payload, Topo.Speakers(g, order))
  }

  lemma DistinctBatch(payload: seq<Item>, level: seq<int>, order: seq<nat>, batch: seq<Item>)
    requires InOrder(payload, level, order, batch)
    ensures NoDup(KeysOf(payload)) <==> NoDup(KeysOf(batch))
    ensures NoDup(KeysOf(payload)) ==> batch == Picked(payload, order)
  {
    ReorderedStayDistinct(KeysOf(payload), order, KeysOf(batch));
    if NoDup(KeysOf(payload)) { Topo.DistinctSpeakForThemselves(GraphOf(payload), order); }
  }

  /** Taking every place once, in any order, neither makes nor hides a repetition. */
  lemma ReorderedStayDistinct(keys: seq<Id>, order: seq<nat>, taken: seq<Id>)
    requires |taken| == |order| && NoDup(order) && (forall p: nat :: p < |keys| ==> p in order)
    requires forall i :: 0 <= i < |order| ==> order[i] < |keys| && taken[i] == keys[order[i]]
    ensures NoDup(keys) <==> NoDup(taken)
  {
    if NoDup(keys) {
      forall i, j | 0 <= i < j < |taken|
        ensures Differ(taken, i, j)
      {
        assert Differ(order, i, j);
        assert if order[i] < order[j] then Differ(keys, order[i], order[j]) else Differ(keys, order[j], order[i]);
      }
    } else {
      var p, q :| 0 <= p < q < |keys| && keys[p] == keys[q];
      var i := Place(order, p);
      var j := Place(order, q);
      assert if i < j then !Differ(taken, i, j) else !Differ(taken, j, i);
    }
  }

  // ---- what comes out ----

  lemma OwnId(batch: seq<Item>, ids: seq<Id>, table: map<Id, Id>, out: seq<Item>, i: nat)
    requires |ids| == |batch| && Table(KeysOf(batch), TagsOf(batch), ids, table) && Rewritten(batch, table, out)
    requires NoDup(KeysOf(batch)) && i < |batch|
    ensures out[i].id == ids[i]
  {
    var keys := KeysOf(batch);
    assert keys[i] in keys;
    Topo.SpeaksForItself(keys, i);
    assert RewrittenAt(batch[i], table, out[i]);
  }

  /** With distinct keys every item gets the id given to it. */
  lemma OwnIds(batch: seq<Item>, ids: seq<Id>, table: map<Id, Id>, out: seq<Item>)
    requires |ids| == |batch| && Table(KeysOf(batch), TagsOf(batch), ids, table) && Rewritten(batch, table, out)
    requires NoDup(KeysOf(batch))
    ensures IdsOf(out) == ids
  {
    forall i | 0 <= i < |batch|
      ensures out[i].id == ids[i]
    {
      OwnId(batch, ids, table, out, i);
    }
  }

  /** A shared key always ends in a shared id. */
  lemma SharedKeySharesId(batch: seq<Item>, table: map<Id, Id>, out: seq<Item>)
    requires Rewritten(batch, table, out) && !NoDup(KeysOf(batch))
    ensures !NoDup(IdsOf(out))
  {
    var i, j :| 0 <= i < j < |batch| && KeysOf(batch)[i] == KeysOf(batch)[j];
    assert RewrittenAt(batch[i], table, out[i]) && RewrittenAt(batch[j], table, out[j]);
    assert !Differ(IdsOf(out), i, j);
  }

  lemma LastNewKeepsItsId(payload: seq<Item>, level: seq<int>, order: seq<nat>, batch: seq<Item>, ids: seq<Id>,
                          table: map<Id, Id>, out: seq<Item>, k: nat)
    requires InOrder(payload, level, order, batch) && |ids| == |batch|
    requires Table(KeysOf(batch), TagsOf(batch), ids, table) && Rewritten(batch, table, out)
    requires k < |batch| && batch[k].id == "" && forall j :: k < j < |batch| ==> batch[j].id != ""
    ensures out[k].id == ids[k]
  {
    LastNewSpeaks(batch, k);
    assert RewrittenAt(batch[k], table, out[k]);
  }

  /** The last number given out is on record, whatever happened to the others. */
  lemma LastNumberIsKept(payload: seq<Item>, level: seq<int>, order: seq<nat>, batch: seq<Item>, first: nat,
                         table: map<Id, Id>, out: seq<Item>, n: nat) returns (i: nat)
    requires InOrder(payload, level, order, batch) && News(batch) > 0 && n == first + News(batch) - 1
    requires Table(KeysOf(batch), TagsOf(batch), Given(batch, first), table) && Rewritten(batch, table, out)
    ensures i < |out| && out[i].id == IdAlloc.Fmt(IdAlloc.SCOPE, n)
  {
    i := LastNew(batch);
    LastNewKeepsItsId(payload, level, order, batch, Given(batch, first), table, out, i);
    GivenNumber(batch, first, i, n);
  }

  lemma LastNewSpeaks(batch: seq<Item>, k: nat)
    requires k < |batch| && batch[k].id == "" && forall j :: k < j < |batch| ==> batch[j].id != ""
    requires forall i, j :: 0 <= i < |batch| && 0 <= j < |batch| && batch[i].Key() == batch[j].Key() ==>
        batch[i] == batch[j]
    ensures batch[k].Key() in KeysOf(batch) && Topo.LastAt(KeysOf(batch), batch[k].Key()) == k
  {
    assert KeysOf(batch)[k] in KeysOf(batch);
    var i := Topo.LastAt(KeysOf(batch), batch[k].Key());
    assert batch[i].Key() == batch[k].Key();
  }

  lemma {:induction false} LastNew(batch: seq<Item>) returns (k: nat)
    requires News(batch) > 0
    ensures k < |batch| && batch[k].id == "" && News(batch[..k]) == News(batch) - 1
    ensures forall j :: k < j < |batch| ==> batch[j].id != ""
  {
    k := |batch| - 1;
    if batch[k].id != "" {
      var init := batch[..k];
      k := LastNew(init);
      assert init[..k] == batch[..k];
    }
  }

  lemma {:induction false} GivenNumber(batch: seq<Item>, first: nat, k: nat, n: nat)
    requires k < |batch| && batch[k].id == "" && n == first + News(batch[..k])
    ensures Given(batch, first)[k] == IdAlloc.Fmt(IdAlloc.SCOPE, n)
  {
    var init := batch[..|batch| - 1];
    if k < |init| {
      assert init[..k] == batch[..k];
      GivenNumber(init, first, k, n);
    }
  }

  // ---- where references lead ----

  /** `d` is, letter for letter, a key or a label of the batch. */
  predicate Spelled(batch: seq<Item>, d: Id) {
    d in KeysOf(batch) || d in TagsOf(batch)
  }

  /** Where a written reference leads: to the item keyed `d`, or else to the one labelled `d`. */
  ghost predicate LeadsTo(batch: seq<Item>, d: Id, j: nat) {
    j < |batch| && if d in KeysOf(batch) then batch[j].Key() == d else batch[j].tag == d
  }

  /** The table knows exactly the keys and labels, as they are spelled. */
  lemma TableHolds(batch: seq<Item>, ids: seq<Id>, table: map<Id, Id>, d: Id)
    requires |ids| == |batch| && Table(KeysOf(batch), TagsOf(batch), ids, table)
    ensures d in table <==> Spelled(batch, d)
  {
    var keys, tags := KeysOf(batch), TagsOf(batch);
    if d in tags {
      var j := Place(tags, d);
      assert Listed(tags, table, j);
    }
    if d in table && d !in keys {
      var j :| 0 <= j < |tags| && tags[j] == d && ids[j] == table[d];
      assert tags[j] in tags;
    }
  }

  lemma FindReference(batch: seq<Item>, ids: seq<Id>, table: map<Id, Id>, d: Id) returns (j: nat)
    requires |ids| == |batch| && Table(KeysOf(batch), TagsOf(batch), ids, table) && d in table
    ensures LeadsTo(batch, d, j) && table[d] == ids[j]
  {
    var keys, tags := KeysOf(batch), TagsOf(batch);
    if d in keys {
      j := Topo.LastAt(keys, d);
    } else {
      assert ByTag(tags, ids, d, table[d]);
      j :| 0 <= j < |tags| && tags[j] == d && ids[j] == table[d];
    }
  }

  /** With distinct keys a reference that is not dropped leads to the item it names. */
  lemma KeptReferenceLeads(batch: seq<Item>, ids: seq<Id>, table: map<Id, Id>, out: seq<Item>, d: Id) returns (j: nat)
    requires |ids| == |batch| && Table(KeysOf(batch), TagsOf(batch), ids, table) && Rewritten(batch, table, out)
    requires NoDup(KeysOf(batch)) && d in table
    ensures LeadsTo(batch, d, j) && j < |out| && table[d] == out[j].id
  {
    j := FindReference(batch, ids, table, d);
    OwnId(batch, ids, table, out, j);
  }

  /** A label that anybody refers to is a key: it belongs to an item without an id. */
  ghost predicate ByKey(payload: seq<Item>) {
    forall i, d :: 0 <= i < |payload| && d in payload[i].depends && d in TagsOf(payload) ==> d in KeysOf(payload)
  }

  /** Every written reference points at an earlier item. */
  ghost predicate PointsBack(out: seq<Item>) {
    forall i, x :: 0 <= i < |out| && x in out[i].depends ==> exists j :: 0 <= j < i && out[j].id == x
  }

  /** When no reference is by label to an item with an id, nothing that is written waits for a later item. */
  lemma KeyedReferencesPointBack(payload: seq<Item>, level: seq<int>, order: seq<nat>, batch: seq<Item>, ids: seq<Id>,
                                 table: map<Id, Id>, out: seq<Item>)
    requires InOrder(payload, level, order, batch) && NoDup(KeysOf(payload)) && ByKey(payload)
    requires |ids| == |batch| && Table(KeysOf(batch), TagsOf(batch), ids, table) && Rewritten(batch, table, out)
    ensures PointsBack(out)
  {
    DistinctBatch(payload, level, order, batch);
    forall i, x | 0 <= i < |out| && x in out[i].depends
      ensures exists j :: 0 <= j < i && out[j].id == x
    {
      assert RewrittenAt(batch[i], table, out[i]);
      var e :| 0 <= e < |batch[i].depends| && batch[i].depends[e] in table && table[batch[i].depends[e]] == x;
      var d := batch[i].depends[e];
      TableHolds(batch, ids, table, d);
      SpelledInPayload(payload, order, batch, d);
      var j := DependencyIsEarlier(payload, level, order, batch, i, d);
      assert RewrittenAt(batch[j], table, out[j]);
    }
  }

  /** Reordering does not change what is spelled. */
  lemma SpelledInPayload(payload: seq<Item>, order: seq<nat>, batch: seq<Item>, d: Id)
    requires (forall i :: 0 <= i < |order| ==> order[i] < |payload|) && batch == Picked(payload, order)
    requires forall p: nat :: p < |payload| ==> p in order
    ensures d in KeysOf(batch) <==> d in KeysOf(payload)
    ensures d in TagsOf(batch) <==> d in TagsOf(payload)
  {
    if d in KeysOf(batch) {
      var i := Place(KeysOf(batch), d);
      assert KeysOf(payload)[order[i]] == d;
    }
    if d in TagsOf(batch) {
      var i := Place(TagsOf(batch), d);
      assert TagsOf(payload)[order[i]] == d;
    }
    if d in KeysOf(payload) {
      var p := Place(KeysOf(payload), d);
      var i := Place(order, p);
      assert KeysOf(batch)[i] == d;
    }
    if d in TagsOf(payload) {
      var p := Place(TagsOf(payload), d);
      var i := Place(order, p);
      assert TagsOf(batch)[i] == d;
    }
  }

  lemma DependencyIsEarlier(payload: seq<Item>, level: seq<int>, order: seq<nat>, batch: seq<Item>, i: nat,
                            d: Id) returns (j: nat)
    requires InOrder(payload, level, order, batch) && NoDup(KeysOf(payload))
    requires i < |batch| && d in batch[i].depends && d in KeysOf(payload)
    ensures j < i && batch[j].Key() == d
  {
    DistinctBatch(payload, level, order, batch);
    var g := GraphOf(payload);
    assert d in payload[order[i]].depends && d in g.keys;
    var q := g.Speaker(d);
    Topo.SpeaksForItself(g.keys, order[i]);
    assert Topo.DependsOn(g, order[i], q);
    j := Topo.DepsFirst(g, level, order, i, q);
  }
}
