/**
 Planning which scope items become backlog candidates: who is materialized already, who is refused, who
 must wait, and the create-only mint. A mint cannot be taken back, so every doubt ends in not minting.
*/
module ScopePlan {
  import opened Common
  import opened Seqs
  import opened ScopeItem
  import IdAlloc
  import Text

  /** A backlog candidate: its id, title, the distinct scope items it claims as parents, and its dependencies. */
  datatype Cand = Cand(id: Id, title: string, refs: seq<Id>, dependencies: seq<Id>)

  // ---- whose child is whom ----

  ghost predicate Claims(observed: seq<Cand>, ref: Id, cid: Id) {
    exists i :: 0 <= i < |observed| && observed[i].id == cid && ref in observed[i].refs
  }

  ghost predicate Parent(observed: seq<Cand>, ref: Id) {
    exists i :: 0 <= i < |observed| && ref in observed[i].refs
  }

  /** Some child of `ref` also claims another parent. */
  ghost predicate Ambiguous(observed: seq<Cand>, ref: Id) {
    exists i :: 0 <= i < |observed| && |observed[i].refs| > 1 && ref in observed[i].refs
  }

  /** `children` files every candidate id once under each parent it claims, and nothing else. */
  ghost predicate Files(observed: seq<Cand>, children: map<Id, seq<Id>>) {
    && (forall ref :: ref in children <==> Parent(observed, ref))
    && (forall ref :: ref in children ==> NoDup(children[ref]))
    && (forall ref, cid :: ref in children ==> (cid in children[ref] <==> Claims(observed, ref, cid)))
  }

  ghost predicate Doubts(observed: seq<Cand>, ambiguous: set<Id>) {
    forall ref :: ref in ambiguous <==> Ambiguous(observed, ref)
  }

  function File(children: map<Id, seq<Id>>, ref: Id, cid: Id): map<Id, seq<Id>> {
    var kids := if ref in children then children[ref] else [];
    children[ref := if cid in kids then kids else kids + [cid]]
  }

  lemma OneMoreSeen(observed: seq<Cand>, c: Cand, ref: Id, cid: Id)
    ensures Parent(observed + [c], ref) <==> Parent(observed, ref) || ref in c.refs
    ensures Claims(observed + [c], ref, cid) <==> Claims(observed, ref, cid) || (cid == c.id && ref in c.refs)
    ensures Ambiguous(observed + [c], ref) <==> Ambiguous(observed, ref) || (|c.refs| > 1 && ref in c.refs)
  {
    var after := observed + [c];
    assert after[|observed|] == c;
    assert forall i :: 0 <= i < |observed| ==> after[i] == observed[i];
  }

  lemma OneMoreClaim(observed: seq<Cand>, c: Cand, k: nat, children: map<Id, seq<Id>>)
    requires k < |c.refs| && Files(observed + [c.(refs := c.refs[..k])], children)
    ensures Files(observed + [c.(refs := c.refs[..k + 1])], File(children, c.refs[k], c.id))
  {
    var before, after := c.(refs := c.refs[..k]), c.(refs := c.refs[..k + 1]);
    assert after.refs == before.refs + [c.refs[k]];
    forall ref
      ensures Parent(observed + [after], ref) <==> Parent(observed + [before], ref) || ref == c.refs[k]
    {
      OneMoreSeen(observed, before, ref, "");
      OneMoreSeen(observed, after, ref, "");
    }
    forall ref, cid
      ensures Claims(observed + [after], ref, cid)
          <==> Claims(observed + [before], ref, cid) || (ref == c.refs[k] && cid == c.id)
    {
      OneMoreSeen(observed, before, ref, cid);
      OneMoreSeen(observed, after, ref, cid);
    }
    NoDupAppend(if c.refs[k] in children then children[c.refs[k]] else [], c.id);
  }

  // ---- the canonical order of children ----

  /** `_sc_sort_key`: by number, ids without one last, ties by the id itself. */
  function Rank(cid: Id): nat {
    match IdAlloc.ParseNum(IdAlloc.CANDIDATE, cid)
    case Some(n) => n
    case None => 1_000_000_000
  }

  predicate Precedes(a: Id, b: Id) {
    Rank(a) < Rank(b) || (Rank(a) == Rank(b) && Text.NameLess(a, b))
  }

  lemma PrecedesIsTotal(a: Id, b: Id, c: Id)
    ensures a == b || Precedes(a, b) || Precedes(b, a)
    ensures !(Precedes(a, b) && Precedes(b, a))
    ensures Precedes(a, b) && Precedes(b, c) ==> Precedes(a, c)
  {
    Text.NamesCompare(a, b);
    if Text.NameLess(a, b) && Text.NameLess(b, c) { Text.NamesChain(a, b, c); }
  }

  ghost predicate InOrder(ids: seq<Id>) {
    forall i, j :: 0 <= i < j < |ids| ==> Precedes(ids[i], ids[j])
  }

  function Insert(sorted: seq<Id>, x: Id): (more: seq<Id>)
    ensures forall y :: y in more <==> y in sorted || y == x
  {
    if sorted == [] || Precedes(x, sorted[0]) then [x] + sorted
    else
      assert sorted == [sorted[0]] + sorted[1..];
      [sorted[0]] + Insert(sorted[1..], x)
  }

  lemma {:induction false} InsertKeepsOrder(sorted: seq<Id>, x: Id)
    requires InOrder(sorted) && x !in sorted
    ensures InOrder(Insert(sorted, x))
  {
    if sorted != [] {
      var rest := sorted[1..];
      if Precedes(x, sorted[0]) {
        forall j | 0 <= j < |sorted|
          ensures Precedes(x, sorted[j])
        {
          PrecedesIsTotal(x, sorted[0], sorted[j]);
        }
      } else {
        PrecedesIsTotal(x, sorted[0], x);
        assert sorted[0] in sorted;
        InsertKeepsOrder(rest, x);
        HeadFirst(sorted[0], Insert(rest, x));
      }
    }
  }

  lemma HeadFirst(head: Id, rest: seq<Id>)
    requires InOrder(rest) && forall y :: y in rest ==> Precedes(head, y)
    ensures InOrder([head] + rest)
  {
  }

  function Sorted(ids: seq<Id>): (sorted: seq<Id>)
    ensures forall y :: y in sorted <==> y in ids
  {
    if ids == [] then []
    else
      assert ids == ids[..|ids| - 1] + [ids[|ids| - 1]];
      Insert(Sorted(ids[..|ids| - 1]), ids[|ids| - 1])
  }

  lemma {:induction false} SortedIsInOrder(ids: seq<Id>)
    requires NoDup(ids)
    ensures InOrder(Sorted(ids)) && NoDup(Sorted(ids))
  {
    if ids != [] {
      var init, last := ids[..|ids| - 1], ids[|ids| - 1];
      NoDupAppend(init, last);
      assert ids == init + [last];
      SortedIsInOrder(init);
      InsertKeepsOrder(Sorted(init), last);
      OrderedIsDistinct(Sorted(ids));
    }
  }

  lemma OrderedIsDistinct(ids: seq<Id>)
    requires InOrder(ids)
    ensures NoDup(ids)
  {
    forall i, j | 0 <= i < j < |ids|
      ensures Differ(ids, i, j)
    {
      PrecedesIsTotal(ids[i], ids[j], ids[i]);
    }
  }

  /** There is one way to put the same ids in order. */
  lemma {:induction false} OrderIsUnique(a: seq<Id>, b: seq<Id>)
    requires InOrder(a) && InOrder(b) && forall y :: y in a <==> y in b
    ensures a == b
  {
    SameEmptiness(a, b);
    if a != [] {
      assert a[0] in b && b[0] in a;
      var i := Place(b, a[0]);
      var j := Place(a, b[0]);
      PrecedesIsTotal(a[0], b[0], a[0]);
      TailMembers(a);
      TailMembers(b);
      OrderIsUnique(a[1..], b[1..]);
      assert a == [a[0]] + a[1..] && b == [b[0]] + b[1..];
    }
  }

  lemma SameEmptiness(a: seq<Id>, b: seq<Id>)
    requires forall y :: y in a <==> y in b
    ensures a == [] <==> b == []
  {
    if a != [] { assert a[0] in a; }
    if b != [] { assert b[0] in b; }
  }

  lemma TailMembers(ids: seq<Id>)
    requires InOrder(ids) && ids != []
    ensures forall y :: y in ids[1..] <==> y in ids && y != ids[0]
  {
    assert ids == [ids[0]] + ids[1..];
    if ids[0] in ids[1..] {
      var k := Place(ids[1..], ids[0]);
      PrecedesIsTotal(ids[0], ids[k + 1], ids[0]);
    }
  }

  /** The relation as it is handed out: every child once, in canonical order. */
  ghost predicate Relates(observed: seq<Cand>, children: map<Id, seq<Id>>) {
    Files(observed, children) && forall ref :: ref in children ==> InOrder(children[ref])
  }

  /**
   ONE RELATION. Which candidates are seen decides it, and nothing else does: not the file they are in, not
   the order, and not how often a candidate is met.
  */
  lemma RelationIsUnique(observed: seq<Cand>, torn: seq<Cand>, a: map<Id, seq<Id>>, b: map<Id, seq<Id>>)
    requires Relates(observed, a) && Relates(torn, b) && forall c :: c in observed <==> c in torn
    ensures a == b
  {
    forall ref
      ensures ref in a <==> ref in b
      ensures ref in a && ref in b ==> a[ref] == b[ref]
    {
      SeenTwiceIsSeenOnce(observed, torn, ref, "");
      if ref in a && ref in b {
        forall cid
          ensures cid in a[ref] <==> cid in b[ref]
        {
          SeenTwiceIsSeenOnce(observed, torn, ref, cid);
        }
        OrderIsUnique(a[ref], b[ref]);
      }
    }
  }

  /** `children_by_parent`: files every candidate under every parent it claims, and sorts each parent's list. */
  method ChildrenByParent(observed: seq<Cand>) returns (children: map<Id, seq<Id>>, ambiguous: set<Id>)
    ensures Relates(observed, children) && Doubts(observed, ambiguous)
  {
    children, ambiguous := map[], {};
    for i := 0 to |observed|
      invariant Files(observed[..i], children) && Doubts(observed[..i], ambiguous)
    {
      var c := observed[i];
      assert Files(observed[..i] + [c.(refs := c.refs[..0])], children) by { NoClaims(observed[..i], c, children); }
      for k := 0 to |c.refs|
        invariant Files(observed[..i] + [c.(refs := c.refs[..k])], children)
      {
        OneMoreClaim(observed[..i], c, k, children);
        children := File(children, c.refs[k], c.id);
      }
      assert c.refs[..|c.refs|] == c.refs;
      assert observed[..i + 1] == observed[..i] + [c];
      MoreDoubt(observed[..i], c, ambiguous);
      if |c.refs| > 1 { ambiguous := ambiguous + (set ref | ref in c.refs); }
    }
    assert observed[..|observed|] == observed;
    SortingKeepsFiles(observed, children);
    children := SortEach(children);
  }

  function SortEach(children: map<Id, seq<Id>>): map<Id, seq<Id>> {
    map ref | ref in children :: Sorted(children[ref])
  }

  lemma SortingKeepsFiles(observed: seq<Cand>, children: map<Id, seq<Id>>)
    requires Files(observed, children)
    ensures Relates(observed, SortEach(children))
  {
    forall ref | ref in children
      ensures NoDup(Sorted(children[ref])) && InOrder(Sorted(children[ref]))
    {
      SortedIsInOrder(children[ref]);
    }
  }

  lemma NoClaims(observed: seq<Cand>, c: Cand, children: map<Id, seq<Id>>)
    requires Files(observed, children)
    ensures Files(observed + [c.(refs := c.refs[..0])], children)
  {
    forall ref
      ensures Parent(observed + [c.(refs := c.refs[..0])], ref) <==> Parent(observed, ref)
    {
      OneMoreSeen(observed, c.(refs := c.refs[..0]), ref, "");
    }
    forall ref, cid
      ensures Claims(observed + [c.(refs := c.refs[..0])], ref, cid) <==> Claims(observed, ref, cid)
    {
      OneMoreSeen(observed, c.(refs := c.refs[..0]), ref, cid);
    }
  }

  lemma MoreDoubt(observed: seq<Cand>, c: Cand, ambiguous: set<Id>)
    requires Doubts(observed, ambiguous)
    ensures Doubts(observed + [c], if |c.refs| > 1 then ambiguous + (set ref | ref in c.refs) else ambiguous)
  {
    forall ref
      ensures Ambiguous(observed + [c], ref) <==> Ambiguous(observed, ref) || (|c.refs| > 1 && ref in c.refs)
    {
      OneMoreSeen(observed, c, ref, "");
    }
  }

  /** The relation depends only on WHICH candidates are seen: a candidate caught in both files changes nothing. */
  lemma SeenTwiceIsSeenOnce(observed: seq<Cand>, torn: seq<Cand>, ref: Id, cid: Id)
    requires forall c :: c in observed <==> c in torn
    ensures Claims(observed, ref, cid) <==> Claims(torn, ref, cid)
    ensures Parent(observed, ref) <==> Parent(torn, ref)
    ensures Ambiguous(observed, ref) <==> Ambiguous(torn, ref)
  {
    SeenThere(observed, torn, ref, cid);
    SeenThere(torn, observed, ref, cid);
  }

  lemma SeenThere(observed: seq<Cand>, torn: seq<Cand>, ref: Id, cid: Id)
    requires forall c :: c in observed ==> c in torn
    ensures Claims(observed, ref, cid) ==> Claims(torn, ref, cid)
    ensures Parent(observed, ref) ==> Parent(torn, ref)
    ensures Ambiguous(observed, ref) ==> Ambiguous(torn, ref)
  {
    forall i | 0 <= i < |observed|
      ensures exists j :: 0 <= j < |torn| && torn[j] == observed[i]
    {
      assert observed[i] in torn;
    }
  }

  // ---- the verdict on one item ----

  datatype Verdict = Ambivalent | Already | Collides | Mintable

  /** A candidate that claims no parent carries this title. */
  ghost predicate Unowned(observed: seq<Cand>, title: string) {
    title != "" && exists i :: 0 <= i < |observed| && observed[i].refs == [] && observed[i].title == title
  }

  ghost function Judge(observed: seq<Cand>, acknowledged: set<Id>, it: Item): Verdict {
    if it.id != "" && Ambiguous(observed, it.id) then Ambivalent
    else if it.id != "" && Parent(observed, it.id) then Already
    else if Unowned(observed, it.title) && it.Key() !in acknowledged then Collides
    else Mintable
  }

  /** `places` lists, in order, the items below `n` with one of these verdicts. */
  ghost predicate Judged(items: seq<Item>, observed: seq<Cand>, acknowledged: set<Id>, n: nat, verdicts: set<Verdict>,
                         places: seq<nat>)
    requires n <= |items|
  {
    Ascending(places) && forall p: nat :: p in places <==> p < n && Fits(items, observed, acknowledged, verdicts, p)
  }

  ghost predicate Fits(items: seq<Item>, observed: seq<Cand>, acknowledged: set<Id>, verdicts: set<Verdict>, p: nat)
    requires p < |items|
  {
    Judge(observed, acknowledged, items[p]) in verdicts
  }

  lemma OneMoreJudged(items: seq<Item>, observed: seq<Cand>, acknowledged: set<Id>, n: nat, verdicts: set<Verdict>,
                      places: seq<nat>)
    requires n < |items| && Judged(items, observed, acknowledged, n, verdicts, places)
    ensures Judge(observed, acknowledged, items[n]) in verdicts
        ==> Judged(items, observed, acknowledged, n + 1, verdicts, places + [n])
    ensures Judge(observed, acknowledged, items[n]) !in verdicts
        ==> Judged(items, observed, acknowledged, n + 1, verdicts, places)
  {
    if Fits(items, observed, acknowledged, verdicts, n) {
      AscendingAppend(places, n);
      InAppend(places, n);
    }
  }

  function UnownedTitles(observed: seq<Cand>): (titles: set<string>)
    ensures forall t :: t in titles <==> Unowned(observed, t)
  {
    set i | 0 <= i < |observed| && observed[i].refs == [] && observed[i].title != "" :: observed[i].title
  }

  method Classify(items: seq<Item>, observed: seq<Cand>, acknowledged: set<Id>, children: map<Id, seq<Id>>,
                  ambiguous: set<Id>)
    returns (already: seq<nat>, refused: seq<nat>, mintable: seq<nat>)
    requires Files(observed, children) && Doubts(observed, ambiguous)
    ensures Judged(items, observed, acknowledged, |items|, {Already}, already)
    ensures Judged(items, observed, acknowledged, |items|, {Ambivalent, Collides}, refused)
    ensures Judged(items, observed, acknowledged, |items|, {Mintable}, mintable)
  {
    already, refused, mintable := [], [], [];
    for n := 0 to |items|
      invariant Judged(items, observed, acknowledged, n, {Already}, already)
      invariant Judged(items, observed, acknowledged, n, {Ambivalent, Collides}, refused)
      invariant Judged(items, observed, acknowledged, n, {Mintable}, mintable)
    {
      OneMoreJudged(items, observed, acknowledged, n, {Already}, already);
      OneMoreJudged(items, observed, acknowledged, n, {Ambivalent, Collides}, refused);
      OneMoreJudged(items, observed, acknowledged, n, {Mintable}, mintable);
      var it := items[n];
      if it.id != "" && it.id in ambiguous {
        refused := refused + [n];
      } else if it.id != "" && it.id in children {
        already := already + [n];
      } else if it.title in UnownedTitles(observed) && it.Key() !in acknowledged {
        refused := refused + [n];
      } else {
        mintable := mintable + [n];
      }
    }
  }

  // ---- who must wait ----

  /** `d` already has children, and no doubt about them. */
  ghost predicate Materialized(observed: seq<Cand>, d: Id) {
    Parent(observed, d) && !Ambiguous(observed, d)
  }

  predicate NamedIn(items: seq<Item>, batch: set<nat>, d: Id) {
    exists m :: m in batch && m < |items| && items[m].Names(d)
  }

  ghost predicate Met(items: seq<Item>, observed: seq<Cand>, batch: set<nat>, d: Id) {
    Materialized(observed, d) || NamedIn(items, batch, d)
  }

  ghost predicate Standing(items: seq<Item>, observed: seq<Cand>, batch: set<nat>, p: nat)
    requires p < |items|
  {
    forall d :: d in items[p].depends ==> Met(items, observed, batch, d)
  }

  /** A batch that can be minted together: each dependency is materialized or in the batch. */
  ghost predicate Closed(items: seq<Item>, observed: seq<Cand>, batch: set<nat>) {
    forall p :: p in batch ==> p < |items| && Standing(items, observed, batch, p)
  }

  /** THE MINT SET: the greatest batch, among the allowed items, that can be minted together. */
  ghost predicate GreatestClosed(items: seq<Item>, observed: seq<Cand>, allowed: set<nat>, batch: set<nat>) {
    && batch <= allowed && Closed(items, observed, batch)
    && forall other :: Closed(items, observed, other) && other <= allowed ==> other <= batch
  }

  /** Nothing mintable has been dropped that any mintable batch contains. */
  ghost predicate KeepsAll(items: seq<Item>, observed: seq<Cand>, allowed: set<nat>, batch: set<nat>) {
    batch <= allowed && forall other :: Closed(items, observed, other) && other <= allowed ==> other <= batch
  }

  lemma Grows(items: seq<Item>, observed: seq<Cand>, small: set<nat>, large: set<nat>, d: Id)
    requires small <= large && Met(items, observed, small, d)
    ensures Met(items, observed, large, d)
  {
  }

  /** A withheld item, the dependency it waits for, and where the trouble started. */
  datatype Row = Row(place: nat, dependency: Id, root: Id)

  ghost predicate DistinctKeys(items: seq<Item>) {
    forall p, q :: 0 <= p < q < |items| ==> items[p].Key() != items[q].Key()
  }

  /** A root of trouble is no mintable item: it is refused, or not in this scope at all. */
  ghost predicate IsRoot(items: seq<Item>, mintable: set<nat>, root: Id) {
    forall m :: m in mintable && m < |items| ==> items[m].Key() != root
  }

  ghost predicate Explained(items: seq<Item>, observed: seq<Cand>, batch: set<nat>, row: Row) {
    row.place < |items| && row.dependency in items[row.place].depends && !Met(items, observed, batch, row.dependency)
  }

  /** Each mintable item is in the batch or in exactly one row, and every row's dependency is unmet. */
  ghost predicate Accounted(items: seq<Item>, observed: seq<Cand>, mintable: set<nat>, batch: seq<nat>,
                            rows: seq<Row>) {
    && (forall p: nat :: p in mintable <==> p in batch || Withheld(rows, p))
    && (forall i :: 0 <= i < |rows| ==> rows[i].place !in batch && Explained(items, observed, Elements(batch), rows[i]))
    && (forall i, j :: 0 <= i < j < |rows| ==> rows[i].place != rows[j].place)
  }

  ghost predicate Withheld(rows: seq<Row>, p: nat) {
    exists i :: 0 <= i < |rows| && rows[i].place == p
  }

  lemma OneMoreRow(items: seq<Item>, observed: seq<Cand>, mintable: set<nat>, batch: seq<nat>, rows: seq<Row>, row: Row)
    requires Accounted(items, observed, mintable, batch, rows)
    requires row.place in batch && Explained(items, observed, Elements(batch), row)
    ensures Accounted(items, observed, mintable, Remove(batch, row.place), rows + [row])
  {
    var left, more := Remove(batch, row.place), rows + [row];
    forall p: nat
      ensures Withheld(more, p) <==> Withheld(rows, p) || p == row.place
    {
      if p == row.place { assert more[|rows|].place == p; }
      if Withheld(rows, p) {
        var i :| 0 <= i < |rows| && rows[i].place == p;
        assert more[i].place == p;
      }
    }
    forall i | 0 <= i < |more|
      ensures Explained(items, observed, Elements(left), more[i])
    {
      if Met(items, observed, Elements(left), more[i].dependency) {
        Grows(items, observed, Elements(left), Elements(batch), more[i].dependency);
      }
    }
  }

  method FirstUnmet(items: seq<Item>, ghost observed: seq<Cand>, children: map<Id, seq<Id>>, ambiguous: set<Id>,
                    batch: set<nat>, p: nat)
    returns (unmet: Option<Id>)
    requires Files(observed, children) && Doubts(observed, ambiguous) && p < |items|
    ensures unmet.None? <==> Standing(items, observed, batch, p)
    ensures unmet.Some? ==> unmet.value in items[p].depends && !Met(items, observed, batch, unmet.value)
  {
    var depends := items[p].depends;
    for k := 0 to |depends|
      invariant forall j :: 0 <= j < k ==> Met(items, observed, batch, depends[j])
    {
      var d := depends[k];
      if !(d in children && d !in ambiguous) && !NamedIn(items, batch, d) {
        assert d in items[p].depends && !Met(items, observed, batch, d);
        return Some(d);
      }
    }
    unmet := None;
    forall d | d in depends
      ensures Met(items, observed, batch, d)
    {
      var j :| 0 <= j < |depends| && depends[j] == d;
    }
  }

  /** Every withheld key has a root on record, and every root on record is one. */
  ghost predicate Blamed(items: seq<Item>, mintable: set<nat>, rows: seq<Row>, blocked: map<Id, Id>) {
    && (forall i :: 0 <= i < |rows| ==>
        rows[i].place < |items| && items[rows[i].place].Key() in blocked && IsRoot(items, mintable, rows[i].root))
    && (forall k :: k in blocked ==> IsRoot(items, mintable, blocked[k]))
  }

  /** What holds between any two steps of the withholding. */
  ghost predicate Sound(items: seq<Item>, observed: seq<Cand>, mintable: set<nat>, batch: seq<nat>, rows: seq<Row>,
                        blocked: map<Id, Id>) {
    && Ascending(batch) && (forall p :: p in mintable ==> p < |items|)
    && KeepsAll(items, observed, mintable, Elements(batch))
    && Accounted(items, observed, mintable, batch, rows)
    && (DistinctKeys(items) ==> Blamed(items, mintable, rows, blocked))
  }

  method DropOne(items: seq<Item>, ghost observed: seq<Cand>, ghost mintable: set<nat>, batch: seq<nat>, rows: seq<Row>,
                 blocked: map<Id, Id>, p: nat, d: Id)
    returns (batch': seq<nat>, rows': seq<Row>, blocked': map<Id, Id>)
    requires Sound(items, observed, mintable, batch, rows, blocked)
    requires p in batch && p < |items| && d in items[p].depends && !Met(items, observed, Elements(batch), d)
    ensures Sound(items, observed, mintable, batch', rows', blocked') && batch' == Remove(batch, p)
  {
    var root := if d in blocked then blocked[d] else d;
    OneMoreRow(items, observed, mintable, batch, rows, Row(p, d, root));
    rows' := rows + [Row(p, d, root)];
    blocked' := blocked[items[p].Key() := root];
    batch' := Remove(batch, p);
    assert Elements(batch') == Elements(batch) - {p};
  }

  ghost predicate AllStanding(items: seq<Item>, observed: seq<Cand>, batch: set<nat>, places: seq<nat>) {
    forall i :: 0 <= i < |places| ==> places[i] < |items| && Standing(items, observed, batch, places[i])
  }

  lemma OneMoreStands(items: seq<Item>, observed: seq<Cand>, batch: set<nat>, places: seq<nat>, i: nat)
    requires i < |places| && places[i] < |items| && Standing(items, observed, batch, places[i])
    ensures AllStanding(items, observed, batch, places[..i]) ==> AllStanding(items, observed, batch, places[..i + 1])
  {
    assert places[..i + 1] == places[..i] + [places[i]];
  }

  /** One sweep over a snapshot of the batch, dropping what it finds unmet as it goes. */
  method Sweep(items: seq<Item>, ghost observed: seq<Cand>, children: map<Id, seq<Id>>, ambiguous: set<Id>,
               ghost mintable: set<nat>,
               snapshot: seq<nat>, rows0: seq<Row>, blocked0: map<Id, Id>)
    returns (batch: seq<nat>, rows: seq<Row>, blocked: map<Id, Id>, changed: bool)
    requires Files(observed, children) && Doubts(observed, ambiguous)
    requires Sound(items, observed, mintable, snapshot, rows0, blocked0)
    ensures Sound(items, observed, mintable, batch, rows, blocked)
    ensures changed ==> |batch| < |snapshot|
    ensures !changed ==> batch == snapshot && AllStanding(items, observed, Elements(batch), batch)
  {
    batch, rows, blocked, changed := snapshot, rows0, blocked0, false;
    AscendingIsNoDup(snapshot);
    for i := 0 to |snapshot|
      invariant Sound(items, observed, mintable, batch, rows, blocked)
      invariant forall j :: i <= j < |snapshot| ==> snapshot[j] in batch
      invariant if changed then |batch| < |snapshot| else batch == snapshot
      invariant !changed ==> AllStanding(items, observed, Elements(batch), snapshot[..i])
    {
      var p := snapshot[i];
      assert p in Elements(batch);
      var unmet := FirstUnmet(items, observed, children, ambiguous, Elements(batch), p);
      if unmet.Some? {
        batch, rows, blocked := DropOne(items, observed, mintable, batch, rows, blocked, p, unmet.value);
        changed := true;
      } else {
        OneMoreStands(items, observed, Elements(batch), snapshot, i);
      }
    }
    assert snapshot[..|snapshot|] == snapshot;
  }

  /** The fixpoint: sweep until a sweep drops nothing. */
  method Withhold(items: seq<Item>, ghost observed: seq<Cand>, children: map<Id, seq<Id>>, ambiguous: set<Id>,
                  refused: seq<nat>, mintable: seq<nat>)
    returns (batch: seq<nat>, rows: seq<Row>)
    requires Files(observed, children) && Doubts(observed, ambiguous)
    requires Ascending(mintable) && forall p :: p in mintable ==> p < |items|
    requires forall p :: p in refused ==> p < |items| && p !in mintable
    ensures Ascending(batch) && GreatestClosed(items, observed, Elements(mintable), Elements(batch))
    ensures Accounted(items, observed, Elements(mintable), batch, rows)
    ensures DistinctKeys(items) ==> RootsAreRoots(items, Elements(mintable), rows)
  {
    var keys := set p | p in refused :: items[p].Key();
    var blocked := map k | k in keys :: k;
    batch, rows := mintable, [];
    var changed := true;
    while changed
      invariant Sound(items, observed, Elements(mintable), batch, rows, blocked)
      invariant !changed ==> AllStanding(items, observed, Elements(batch), batch)
      decreases |batch|, changed
    {
      batch, rows, blocked, changed := Sweep(items, observed, children, ambiguous, Elements(mintable), batch, rows,
          blocked);
    }
  }

  // ---- the whole plan ----

  datatype Plan = Plan(toMint: seq<nat>, already: seq<nat>, refused: seq<nat>, withheld: seq<Row>)

  ghost function Mintables(items: seq<Item>, observed: seq<Cand>, acknowledged: set<Id>): (s: set<nat>)
    ensures forall p: nat :: p in s <==> p < |items| && Judge(observed, acknowledged, items[p]).Mintable?
  {
    set p | 0 <= p < |items| && Judge(observed, acknowledged, items[p]).Mintable?
  }

  ghost predicate IsPlan(items: seq<Item>, observed: seq<Cand>, acknowledged: set<Id>, plan: Plan) {
    && Judged(items, observed, acknowledged, |items|, {Already}, plan.already)
    && Judged(items, observed, acknowledged, |items|, {Ambivalent, Collides}, plan.refused)
    && Ascending(plan.toMint)
    && GreatestClosed(items, observed, Mintables(items, observed, acknowledged), Elements(plan.toMint))
    && Accounted(items, observed, Mintables(items, observed, acknowledged), plan.toMint, plan.withheld)
  }

  /** Every item gets exactly one of the four outcomes. */
  lemma PlanPartitions(items: seq<Item>, observed: seq<Cand>, acknowledged: set<Id>, plan: Plan, p: nat)
    requires IsPlan(items, observed, acknowledged, plan) && p < |items|
    ensures p in plan.already || p in plan.refused || p in plan.toMint || Withheld(plan.withheld, p)
    ensures p in plan.already ==> p !in plan.refused && p !in plan.toMint && !Withheld(plan.withheld, p)
    ensures p in plan.refused ==> p !in plan.toMint && !Withheld(plan.withheld, p)
    ensures p in plan.toMint ==> !Withheld(plan.withheld, p)
  {
    var v := Judge(observed, acknowledged, items[p]);
    assert Fits(items, observed, acknowledged, {Already}, p) <==> v.Already?;
    assert Fits(items, observed, acknowledged, {Ambivalent, Collides}, p) <==> v.Ambivalent? || v.Collides?;
    var mintable := Mintables(items, observed, acknowledged);
    assert p in mintable <==> p in plan.toMint || Withheld(plan.withheld, p);
  }

  /** Candidate i is a child of this scope item. */
  predicate ChildAt(observed: seq<Cand>, i: int, id: Id) {
    0 <= i < |observed| && id in observed[i].refs
  }

  /** Candidate i belongs to nobody and carries this title. */
  predicate OrphanAt(observed: seq<Cand>, i: int, title: string) {
    0 <= i < |observed| && observed[i].refs == [] && observed[i].title == title
  }

  /**
   WHO IS REFUSED, in terms of the candidates alone: whoever has a child that claims a second parent, and whoever has no
   child, a title, and an unowned candidate of that title that nobody acknowledged.
  */
  lemma WhoIsRefused(items: seq<Item>, observed: seq<Cand>, acknowledged: set<Id>, plan: Plan, p: nat)
    requires IsPlan(items, observed, acknowledged, plan) && p < |items|
    ensures var it := items[p];
            p in plan.refused <==>
              || (it.id != "" && exists i :: ChildAt(observed, i, it.id) && |observed[i].refs| > 1)
              || ((it.id == "" || forall i :: !ChildAt(observed, i, it.id))
                  && it.title != "" && (if it.id != "" then it.id else it.tag) !in acknowledged
                  && exists i :: OrphanAt(observed, i, it.title))
  {
    assert Fits(items, observed, acknowledged, {Ambivalent, Collides}, p) <==> p in plan.refused;
    VerdictsExactly(observed, acknowledged, items[p]);
  }

  /** WHO IS MATERIALIZED ALREADY: whoever has a child, and no child that claims a second parent. */
  lemma WhoIsMaterialized(items: seq<Item>, observed: seq<Cand>, acknowledged: set<Id>, plan: Plan, p: nat)
    requires IsPlan(items, observed, acknowledged, plan) && p < |items|
    ensures var it := items[p];
            p in plan.already <==>
              && it.id != "" && (exists i :: ChildAt(observed, i, it.id))
              && forall i :: ChildAt(observed, i, it.id) ==> |observed[i].refs| <= 1
  {
    assert Fits(items, observed, acknowledged, {Already}, p) <==> p in plan.already;
    VerdictsExactly(observed, acknowledged, items[p]);
  }

  /** WHO IS MINTED OR WITHHELD: whoever has no child, and no title that an unowned candidate carries unacknowledged. */
  lemma WhoIsMintable(items: seq<Item>, observed: seq<Cand>, acknowledged: set<Id>, plan: Plan, p: nat)
    requires IsPlan(items, observed, acknowledged, plan) && p < |items|
    ensures var it := items[p];
            p in plan.toMint || Withheld(plan.withheld, p) <==>
              && (it.id == "" || forall i :: !ChildAt(observed, i, it.id))
              && (it.title == "" || (if it.id != "" then it.id else it.tag) in acknowledged
                  || forall i :: !OrphanAt(observed, i, it.title))
  {
    assert p in Mintables(items, observed, acknowledged) <==> p in plan.toMint || Withheld(plan.withheld, p);
    VerdictsExactly(observed, acknowledged, items[p]);
  }

  lemma VerdictsExactly(observed: seq<Cand>, acknowledged: set<Id>, it: Item)
    ensures Parent(observed, it.id) <==> exists i :: ChildAt(observed, i, it.id)
    ensures Ambiguous(observed, it.id) <==> exists i :: ChildAt(observed, i, it.id) && |observed[i].refs| > 1
    ensures Unowned(observed, it.title) <==> it.title != "" && exists i :: OrphanAt(observed, i, it.title)
  {
    if Parent(observed, it.id) {
      var i :| 0 <= i < |observed| && it.id in observed[i].refs;
      assert ChildAt(observed, i, it.id);
    }
    if Ambiguous(observed, it.id) {
      var i :| 0 <= i < |observed| && |observed[i].refs| > 1 && it.id in observed[i].refs;
      assert ChildAt(observed, i, it.id);
    }
    if Unowned(observed, it.title) {
      var i :| 0 <= i < |observed| && observed[i].refs == [] && observed[i].title == it.title;
      assert OrphanAt(observed, i, it.title);
    }
  }

  method MakePlan(items: seq<Item>, observed: seq<Cand>, acknowledged: set<Id>) returns (plan: Plan,
                  children: map<Id, seq<Id>>)
    ensures IsPlan(items, observed, acknowledged, plan) && Relates(observed, children)
    ensures DistinctKeys(items) ==> RootsAreRoots(items, Mintables(items, observed, acknowledged), plan.withheld)
  {
    var ambiguous;
    children, ambiguous := ChildrenByParent(observed);
    var already, refused, mintable := Classify(items, observed, acknowledged, children, ambiguous);
    var toMint, withheld := Withhold(items, observed, children, ambiguous, refused, mintable);
    plan := Plan(toMint, already, refused, withheld);
  }

  /** What adding one item asks of the plan: nobody refused, nobody withheld, and nothing minted but that item. */
  ghost predicate MintsOnly(items: seq<Item>, observed: seq<Cand>, acknowledged: set<Id>, key: Id) {
    && (forall p :: 0 <= p < |items| ==> !Fits(items, observed, acknowledged, {Ambivalent, Collides}, p))
    && Closed(items, observed, Mintables(items, observed, acknowledged))
    && forall p :: p in Mintables(items, observed, acknowledged) ==> items[p].Key() == key
  }

  /** The preview on the real plan. */
  method Preview(items: seq<Item>, observed: seq<Cand>, acknowledged: set<Id>, key: Id) returns (ok: bool)
    ensures ok <==> MintsOnly(items, observed, acknowledged, key)
  {
    var plan, children := MakePlan(items, observed, acknowledged);
    NobodyRefused(items, observed, acknowledged, plan);
    NobodyWithheld(items, observed, acknowledged, plan);
    ok := plan.refused == [] && plan.withheld == [] &&
        forall p :: p in plan.toMint ==> p < |items| && items[p].Key() == key;
  }

  lemma NobodyRefused(items: seq<Item>, observed: seq<Cand>, acknowledged: set<Id>, plan: Plan)
    requires IsPlan(items, observed, acknowledged, plan)
    ensures plan.refused == [] <==>
              forall p :: 0 <= p < |items| ==> !Fits(items, observed, acknowledged, {Ambivalent, Collides}, p)
  {
    if plan.refused != [] { assert plan.refused[0] in plan.refused; }
  }

  lemma NobodyWithheld(items: seq<Item>, observed: seq<Cand>, acknowledged: set<Id>, plan: Plan)
    requires IsPlan(items, observed, acknowledged, plan)
    ensures plan.withheld == [] <==> Closed(items, observed, Mintables(items, observed, acknowledged))
    ensures plan.withheld == [] ==> Elements(plan.toMint) == Mintables(items, observed, acknowledged)
  {
    var mintable := Mintables(items, observed, acknowledged);
    if plan.withheld == [] {
      assert forall p: nat :: p in mintable <==> p in plan.toMint;
      assert Elements(plan.toMint) == mintable;
    }
    assert Closed(items, observed, mintable) ==> mintable <= Elements(plan.toMint);
    assert plan.withheld != [] ==> Withheld(plan.withheld, plan.withheld[0].place);
  }

  ghost predicate RootsAreRoots(items: seq<Item>, mintable: set<nat>, rows: seq<Row>) {
    forall i :: 0 <= i < |rows| ==> IsRoot(items, mintable, rows[i].root)
  }
}
