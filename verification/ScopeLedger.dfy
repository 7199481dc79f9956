/**
 The scope file over its lifetime: its items, the ledger of revisions, and what the allocator's floor and the
 audit read from them. Two invariants: no number can come up again (always), and the ledger is exact (as long
 as no accepted batch shared a key between two items).
*/
module ScopeLedger {
  import opened Seqs
  import opened ScopeItem
  import opened ScopeCore
  import IdAlloc

  datatype Revision = Revision(cut: seq<Id>, added: seq<Id>, before: nat, after: nat)

  datatype File = File(items: seq<Item>, revisions: seq<Revision>)

  function Cuts(revisions: seq<Revision>): (ids: seq<Id>)
  {
    if revisions == [] then [] else Cuts(revisions[..|revisions| - 1]) + revisions[|revisions| - 1].cut
  }

  /** Every id on record: the live items', and the retired ones'. */
  function Ever(file: File): seq<Id> {
    IdsOf(file.items) + Cuts(file.revisions)
  }

  /** The largest number on record: where the allocator's floor stands. */
  function FloorOf(file: File): nat {
    IdAlloc.Largest(IdAlloc.SCOPE, Ever(file))
  }

  /** The next number: what the stored counter and the file give, both to be read before a call. */
  function NextNumber(file: File, counter: int): nat {
    IdAlloc.Next(counter, FloorOf(file))
  }

  /** Distinct ids in order of first appearance (the keys of a dict built from the items). */
  function Firsts(ids: seq<Id>): (r: seq<Id>)
    ensures forall x :: x in r <==> x in ids
  {
    if ids == [] then []
    else
      var init, last := ids[..|ids| - 1], ids[|ids| - 1];
      assert ids == init + [last];
      if last in init then Firsts(init) else Firsts(init) + [last]
  }

  lemma {:induction false} FirstsAreDistinct(ids: seq<Id>)
    ensures NoDup(Firsts(ids))
  {
    if ids != [] {
      var init, last := ids[..|ids| - 1], ids[|ids| - 1];
      FirstsAreDistinct(init);
      NoDupAppend(Firsts(init), last);
    }
  }

  lemma {:induction false} FirstsOfDistinct(ids: seq<Id>)
    requires NoDup(ids)
    ensures Firsts(ids) == ids
  {
    if ids != [] {
      var init, last := ids[..|ids| - 1], ids[|ids| - 1];
      NoDupAppend(init, last);
      assert ids == init + [last];
      FirstsOfDistinct(init);
    }
  }

  function Minus(ids: seq<Id>, kept: seq<Id>): (r: seq<Id>)
    ensures forall x :: x in r <==> x in ids && x !in kept
  {
    if ids == [] then []
    else
      var init, last := ids[..|ids| - 1], ids[|ids| - 1];
      assert ids == init + [last];
      if last in kept then Minus(init, kept) else Minus(init, kept) + [last]
  }

  lemma {:induction false} MinusOfDistinct(ids: seq<Id>, kept: seq<Id>)
    requires NoDup(ids)
    ensures NoDup(Minus(ids, kept))
  {
    if ids != [] {
      var init, last := ids[..|ids| - 1], ids[|ids| - 1];
      NoDupAppend(init, last);
      assert ids == init + [last];
      MinusOfDistinct(init, kept);
      NoDupAppend(Minus(init, kept), last);
    }
  }

  /** The ledger after the item list changes: one more entry exactly when membership changed. */
  function Ledger(file: File, items: seq<Item>): seq<Revision> {
    var cur := Firsts(IdsOf(file.items));
    var dropped, added := Minus(cur, IdsOf(items)), Minus(IdsOf(items), cur);
    if dropped == [] && added == [] then file.revisions
    else file.revisions + [Revision(dropped, added, |cur|, |items|)]
  }

  // ---- no number twice ----

  /** A number at least `n` is on record. */
  ghost predicate Covered(ids: seq<Id>, n: nat) {
    exists i {:trigger AtLeast(ids[i], n)} :: 0 <= i < |ids| && AtLeast(ids[i], n)
  }

  ghost predicate AtLeast(id: Id, n: nat) {
    var m := IdAlloc.ParseNum(IdAlloc.SCOPE, id); m.Some? && m.value >= n
  }

  ghost predicate AllCovered(ids: seq<Id>, issued: seq<nat>) {
    forall i {:trigger Covered(ids, issued[i])} :: 0 <= i < |issued| ==> Covered(ids, issued[i])
  }

  lemma CoveredMore(ids: seq<Id>, more: seq<Id>, n: nat)
    requires Covered(ids, n) && forall x :: x in ids ==> x in more
    ensures Covered(more, n)
  {
    var i :| 0 <= i < |ids| && AtLeast(ids[i], n);
    assert ids[i] in more;
    var j :| 0 <= j < |more| && more[j] == ids[i];
    assert AtLeast(more[j], n);
  }

  lemma CoveredBy(ids: seq<Id>, id: Id, m: nat, n: nat)
    requires id in ids && id == IdAlloc.Fmt(IdAlloc.SCOPE, m) && n <= m
    ensures Covered(ids, n)
  {
    IdAlloc.ParseOwn(IdAlloc.SCOPE, m);
    var i :| 0 <= i < |ids| && ids[i] == id;
    assert AtLeast(ids[i], n);
  }

  /** Nothing on record is ever lost: an id leaves the items only into the ledger. */
  lemma NothingForgotten(file: File, items: seq<Item>, x: Id)
    requires x in Ever(file)
    ensures x in Ever(File(items, Ledger(file, items)))
  {
  }

  // ---- the exact ledger ----

  ghost predicate OnRecord(issued: seq<nat>, id: Id) {
    exists i :: 0 <= i < |issued| && id == IdAlloc.Fmt(IdAlloc.SCOPE, issued[i])
  }

  /** The ids the ledger leads to from the first ones, one revision after another. */
  ghost function Replay(base: seq<Id>, revisions: seq<Revision>): seq<Id> {
    if revisions == [] then base
    else
      var last := revisions[|revisions| - 1];
      Minus(Replay(base, revisions[..|revisions| - 1]), last.cut) + last.added
  }

  ghost predicate CountsAt(base: seq<Id>, revisions: seq<Revision>, k: nat)
    requires k < |revisions|
  {
    |Replay(base, revisions[..k])| == revisions[k].before && |Replay(base, revisions[..k + 1])| == revisions[k].after
  }

  ghost predicate SameMembers(a: seq<Id>, b: seq<Id>) {
    forall x :: x in a <==> x in b
  }

  /** Replaying the ledger over the first ids gives the present ids, with the recorded counts on the way. */
  ghost predicate Replays(base: seq<Id>, file: File) {
    && NoDup(Replay(base, file.revisions)) && SameMembers(Replay(base, file.revisions), IdsOf(file.items))
    && forall k :: 0 <= k < |file.revisions| ==> CountsAt(base, file.revisions, k)
  }

  /** Every id on record is an issued number in its own spelling. */
  ghost predicate Canonical(file: File, issued: seq<nat>) {
    forall x {:trigger OnRecord(issued, x)} :: x in Ever(file) ==> OnRecord(issued, x)
  }

  /** Each number issued is on record exactly once, and nothing else is. */
  ghost predicate Exact(file: File, base: seq<Id>, issued: seq<nat>) {
    && NoDup(Ever(file)) && Canonical(file, issued)
    && (forall i :: 0 <= i < |issued| ==> IdAlloc.Fmt(IdAlloc.SCOPE, issued[i]) in Ever(file))
    && Replays(base, file)
  }

  /**
   EXACTLY WHEN THE LEDGER REPLAYS. As a set, the ids the ledger leads to are always the present ones. With its counts,
   the ledger replays after a batch if and only if it did before, and the batch left distinct ids or changed no
   membership: a ledger once broken stays broken.
  */
  lemma ReplayStep(base: seq<Id>, file: File, items: seq<Item>)
    requires SameMembers(Replay(base, file.revisions), IdsOf(file.items))
    ensures SameMembers(Replay(base, Ledger(file, items)), IdsOf(items))
    ensures Replays(base, File(items, Ledger(file, items)))
       <==> Replays(base, file) && (NoDup(IdsOf(items)) || SameMembers(IdsOf(file.items), IdsOf(items)))
  {
    var cur, kept, was := Firsts(IdsOf(file.items)), IdsOf(items), Replay(base, file.revisions);
    var dropped, added := Minus(cur, kept), Minus(kept, cur);
    FirstsAreDistinct(IdsOf(file.items));
    if dropped == [] && added == [] {
      Unchanged(cur, kept);
    } else {
      var r := Revision(dropped, added, |cur|, |kept|);
      assert Replay(base, file.revisions + [r]) == Minus(was, dropped) + added;
      Changed(cur, kept);
      OneMoreRevision(base, file, items, r);
    }
  }

  lemma Unchanged(cur: seq<Id>, kept: seq<Id>)
    requires Minus(cur, kept) == [] && Minus(kept, cur) == []
    ensures SameMembers(cur, kept)
  {
    forall x
      ensures x in cur <==> x in kept
    {
      assert x !in Minus(cur, kept) && x !in Minus(kept, cur);
    }
  }

  lemma Changed(cur: seq<Id>, kept: seq<Id>)
    requires Minus(cur, kept) != [] || Minus(kept, cur) != []
    ensures !SameMembers(cur, kept)
  {
    if Minus(cur, kept) != [] {
      assert Minus(cur, kept)[0] in Minus(cur, kept);
    } else {
      assert Minus(kept, cur)[0] in Minus(kept, cur);
    }
  }

  /** With one more entry on record the ledger replays exactly when it did before and the new ids are distinct. */
  lemma OneMoreRevision(base: seq<Id>, file: File, items: seq<Item>, r: Revision)
    requires var cur, kept := Firsts(IdsOf(file.items)), IdsOf(items);
             r == Revision(Minus(cur, kept), Minus(kept, cur), |cur|, |kept|)
    requires SameMembers(Replay(base, file.revisions), IdsOf(file.items))
    ensures SameMembers(Replay(base, file.revisions + [r]), IdsOf(items))
    ensures Replays(base, File(items, file.revisions + [r])) <==> Replays(base, file) && NoDup(IdsOf(items))
  {
    var cur, kept, was := Firsts(IdsOf(file.items)), IdsOf(items), Replay(base, file.revisions);
    FirstsAreDistinct(IdsOf(file.items));
    OneMoreReplay(base, file.revisions, r);
    if Replays(base, file) && NoDup(kept) {
      Swap(was, cur, kept);
      SameLength(was, cur);
      SameLength(Minus(was, r.cut) + r.added, kept);
      CountsAppend(base, file.revisions, r);
    }
    if Replays(base, File(items, file.revisions + [r])) {
      CountsBefore(base, file.revisions, r);
      AsManyAsDistinct(was, cur);
      AsManyAsDistinct(kept, Minus(was, r.cut) + r.added);
    }
  }

  lemma OneMoreReplay(base: seq<Id>, revisions: seq<Revision>, r: Revision)
    ensures Replay(base, revisions + [r]) == Minus(Replay(base, revisions), r.cut) + r.added
  {
    assert (revisions + [r])[..|revisions|] == revisions;
  }

  lemma CountsBefore(base: seq<Id>, revisions: seq<Revision>, r: Revision)
    requires forall k :: 0 <= k < |revisions| + 1 ==> CountsAt(base, revisions + [r], k)
    ensures forall k :: 0 <= k < |revisions| ==> CountsAt(base, revisions, k)
    ensures |Replay(base, revisions)| == r.before && |Replay(base, revisions + [r])| == r.after
  {
    var more := revisions + [r];
    assert more[..|revisions|] == revisions && more[..|more|] == more;
    assert CountsAt(base, more, |revisions|);
    forall k | 0 <= k < |revisions|
      ensures CountsAt(base, revisions, k)
    {
      assert CountsAt(base, revisions + [r], k);
      assert (revisions + [r])[..k] == revisions[..k] && (revisions + [r])[..k + 1] == revisions[..k + 1];
    }
  }

  /** A list as long as a distinct one with the same members is distinct. */
  lemma AsManyAsDistinct(a: seq<Id>, b: seq<Id>)
    requires |a| == |b| && NoDup(b) && SameMembers(a, b)
    ensures NoDup(a)
  {
    ElementsOfDistinct(b);
    assert Elements(a) == Elements(b);
    AsManyElements(a);
  }

  lemma {:induction false} AsManyElements(a: seq<Id>)
    ensures |Elements(a)| <= |a|
    ensures |Elements(a)| == |a| ==> NoDup(a)
  {
    if a != [] {
      var init, last := a[..|a| - 1], a[|a| - 1];
      assert a == init + [last];
      AsManyElements(init);
      assert Elements(a) == Elements(init) + {last};
      NoDupAppend(init, last);
    }
  }

  lemma Swap(was: seq<Id>, cur: seq<Id>, kept: seq<Id>)
    requires NoDup(was) && SameMembers(was, cur) && NoDup(kept)
    ensures SameMembers(Minus(was, Minus(cur, kept)) + Minus(kept, cur), kept)
    ensures NoDup(Minus(was, Minus(cur, kept)) + Minus(kept, cur))
  {
    MinusOfDistinct(was, Minus(cur, kept));
    MinusOfDistinct(kept, cur);
    NoDupJoin(Minus(was, Minus(cur, kept)), Minus(kept, cur));
  }

  lemma SameLength(a: seq<Id>, b: seq<Id>)
    requires NoDup(a) && NoDup(b) && SameMembers(a, b)
    ensures |a| == |b|
  {
    ElementsOfDistinct(a);
    ElementsOfDistinct(b);
    assert Elements(a) == Elements(b);
  }

  lemma CountsAppendAt(base: seq<Id>, revisions: seq<Revision>, r: Revision, k: nat)
    requires k < |revisions| && CountsAt(base, revisions, k)
    ensures CountsAt(base, revisions + [r], k)
  {
    assert (revisions + [r])[..k] == revisions[..k];
    assert (revisions + [r])[..k + 1] == revisions[..k + 1];
  }

  lemma CountsAppend(base: seq<Id>, revisions: seq<Revision>, r: Revision)
    requires forall k :: 0 <= k < |revisions| ==> CountsAt(base, revisions, k)
    requires |Replay(base, revisions)| == r.before && |Replay(base, revisions + [r])| == r.after
    ensures forall k :: 0 <= k < |revisions| + 1 ==> CountsAt(base, revisions + [r], k)
  {
    var more := revisions + [r];
    assert more[..|revisions|] == revisions && more[..|more|] == more;
    assert CountsAt(base, more, |revisions|);
    forall k | 0 <= k < |revisions|
      ensures CountsAt(base, more, k)
    {
      CountsAppendAt(base, revisions, r, k);
    }
  }
}
