/**
 The product rollup: every capability counted in exactly one state, in the whole and in its area, and the
 areas in one total order. The check that the counts still add up can never fail.
*/
module Rollup {
  import opened Common
  import opened Seqs
  import opened Text

  datatype Bucket = DoneB | RejectedOnly | InProgress | NoChildren | Unknown

  /** One capability as reported: its state as text, and how its archived candidates ended. */
  datatype Entry = Entry(item: string, state: string, shipped: nat, rejected: nat)

  /** `_bucket`: a capability whose children were only rejected is not done. */
  function BucketOf(e: Entry): Bucket {
    if e.state == "done" then
      if e.shipped > 0 then DoneB else if e.rejected > 0 then RejectedOnly else DoneB
    else if e.state == "in-progress" then InProgress
    else if e.state == "no-children" then NoChildren
    else Unknown
  }

  /** WHAT A STATE MEANS: the work is done unless all of it was thrown away, and a word of no state is unknown. */
  lemma BucketsExactly(e: Entry, finished: string, going: string, childless: string)
    requires finished == "done" && going == "in-progress" && childless == "no-children"
    ensures BucketOf(e).DoneB? <==> e.state == finished && (e.shipped > 0 || e.rejected == 0)
    ensures BucketOf(e).RejectedOnly? <==> e.state == finished && e.shipped == 0 && e.rejected > 0
    ensures BucketOf(e).InProgress? <==> e.state == going
    ensures BucketOf(e).NoChildren? <==> e.state == childless
  {
    assert finished[0] != going[0] && finished[0] != childless[0] && going[0] != childless[0];
  }

  datatype Counts = Counts(done: nat, rejectedOnly: nat, inProgress: nat, noChildren: nat, unknown: nat, total: nat,
                           shipped: nat, rejected: nat) {
    function Get(b: Bucket): nat {
      match b
      case DoneB => done
      case RejectedOnly => rejectedOnly
      case InProgress => inProgress
      case NoChildren => noChildren
      case Unknown => unknown
    }

    predicate Nothing() { (forall b: Bucket :: Get(b) == 0) && total == 0 && shipped == 0 && rejected == 0 }

    function States(): nat { done + rejectedOnly + inProgress + noChildren + unknown }
  }

  /** `_new_strata` */
  method NewStrata() returns (c: Counts)
    ensures c.Nothing()
  {
    c := Counts(0, 0, 0, 0, 0, 0, 0, 0);
  }

  function Join(a: Counts, b: Counts): Counts {
    Counts(a.done + b.done, a.rejectedOnly + b.rejectedOnly, a.inProgress + b.inProgress, a.noChildren + b.noChildren,
           a.unknown + b.unknown, a.total + b.total, a.shipped + b.shipped, a.rejected + b.rejected)
  }

  function Single(e: Entry): Counts {
    var one := Counts(0, 0, 0, 0, 0, 1, e.shipped, e.rejected);
    match BucketOf(e)
    case DoneB => one.(done := 1)
    case RejectedOnly => one.(rejectedOnly := 1)
    case InProgress => one.(inProgress := 1)
    case NoChildren => one.(noChildren := 1)
    case Unknown => one.(unknown := 1)
  }

  /** The area of a capability, if it has one. */
  function AreaOf(areas: map<string, string>, e: Entry): Option<string> {
    if e.item in areas && areas[e.item] != "" then Some(areas[e.item]) else None
  }

  lemma AreaExactly(areas: map<string, string>, e: Entry, name: string)
    ensures AreaOf(areas, e) == Some(name) <==> e.item in areas && areas[e.item] == name && name != ""
  {
  }

  /** THE REFERENCE: how many of these entries, in this area, are in this state. */
  function CountIf(entries: seq<Entry>, areas: map<string, string>, area: Option<string>, b: Bucket): nat {
    if entries == [] then 0
    else
      var e := entries[|entries| - 1];
      CountIf(entries[..|entries| - 1], areas, area, b)
      + (if AreaOf(areas, e) == area && BucketOf(e) == b then 1 else 0)
  }

  /** THE REFERENCE for the composition: how many archived candidates of this area were shipped, or rejected. */
  function ShippedIn(entries: seq<Entry>, areas: map<string, string>, area: Option<string>): nat {
    if entries == [] then 0
    else
      var e := entries[|entries| - 1];
      ShippedIn(entries[..|entries| - 1], areas, area) + (if AreaOf(areas, e) == area then e.shipped else 0)
  }

  function RejectedIn(entries: seq<Entry>, areas: map<string, string>, area: Option<string>): nat {
    if entries == [] then 0
    else
      var e := entries[|entries| - 1];
      RejectedIn(entries[..|entries| - 1], areas, area) + (if AreaOf(areas, e) == area then e.rejected else 0)
  }

  datatype Area = Area(name: string, counts: Counts)

  ghost function Sum(list: seq<Area>): Counts {
    if list == [] then Counts(0, 0, 0, 0, 0, 0, 0, 0) else Join(Sum(list[..|list| - 1]), list[|list| - 1].counts)
  }

  lemma {:induction false} SumUpdate(list: seq<Area>, k: nat, e: Entry)
    requires k < |list|
    ensures Sum(list[k := Area(list[k].name, Join(list[k].counts, Single(e)))]) == Join(Sum(list), Single(e))
  {
    var more := list[k := Area(list[k].name, Join(list[k].counts, Single(e)))];
    var init := list[..|list| - 1];
    if k < |init| {
      SumUpdate(init, k, e);
      assert more[..|more| - 1] == init[k := Area(init[k].name, Join(init[k].counts, Single(e)))];
    } else {
      assert more[..|more| - 1] == init;
    }
  }

  lemma JoinRegroups(a: Counts, b: Counts, c: Counts)
    ensures Join(Join(a, b), c) == Join(a, Join(b, c)) && Join(a, b) == Join(b, a)
  {
  }

  lemma JoinNothing(zero: Counts, a: Counts)
    requires zero.Nothing()
    ensures Join(zero, a) == a == Join(a, zero)
  {
    assert forall b: Bucket :: zero.Get(b) == 0;
    assert zero.Get(DoneB) == 0 && zero.Get(RejectedOnly) == 0 && zero.Get(InProgress) == 0;
    assert zero.Get(NoChildren) == 0 && zero.Get(Unknown) == 0;
  }

  lemma SumOfNone(list: seq<Area>, zero: Counts)
    requires list == [] && zero.Nothing()
    ensures Sum(list) == zero
  {
    JoinNothing(zero, Sum(list));
    JoinNothing(Sum(list), zero);
  }

  lemma {:induction false} SumJoin(a: seq<Area>, b: seq<Area>)
    ensures Sum(a + b) == Join(Sum(a), Sum(b))
  {
    if b == [] {
      assert a + b == a;
      JoinNothing(Sum(b), Sum(a));
    } else {
      var init, last := b[..|b| - 1], b[|b| - 1];
      assert a + b == (a + init) + [last] && b == init + [last];
      SumJoin(a, init);
      JoinRegroups(Sum(a), Sum(init), last.counts);
    }
  }

  // ---- counting ----

  /** What counts must say of an area: each state by the reference, the total by the states, the composition too. */
  ghost predicate Counted(entries: seq<Entry>, areas: map<string, string>, area: Option<string>, c: Counts) {
    && (forall b: Bucket {:trigger c.Get(b)} :: c.Get(b) == CountIf(entries, areas, area, b)) && c.total == c.States()
    && c.shipped == ShippedIn(entries, areas, area) && c.rejected == RejectedIn(entries, areas, area)
  }

  lemma CountedOne(entries: seq<Entry>, e: Entry, areas: map<string, string>, area: Option<string>, c: Counts)
    requires Counted(entries, areas, area, c)
    ensures Counted(entries + [e], areas, area, if AreaOf(areas, e) == area then Join(c, Single(e)) else c)
  {
    var more := entries + [e];
    assert more[..|more| - 1] == entries;
    if AreaOf(areas, e) == area {
      OneMore(c, e);
      forall b: Bucket
        ensures Join(c, Single(e)).Get(b) == CountIf(more, areas, area, b)
      {
        assert c.Get(b) == CountIf(entries, areas, area, b);
      }
    } else {
      forall b: Bucket
        ensures c.Get(b) == CountIf(more, areas, area, b)
      {
      }
    }
  }

  lemma OneMore(c: Counts, e: Entry)
    requires c.total == c.States()
    ensures Join(c, Single(e)).total == Join(c, Single(e)).States()
    ensures Join(c, Single(e)).shipped == c.shipped + e.shipped
        && Join(c, Single(e)).rejected == c.rejected + e.rejected
    ensures forall b: Bucket :: Join(c, Single(e)).Get(b) == c.Get(b) + (if BucketOf(e) == b then 1 else 0)
  {
  }

  /** The areas met so far: each once, and counted right. */
  ghost predicate Filed(entries: seq<Entry>, areas: map<string, string>, list: seq<Area>, slot: map<string, nat>) {
    && (forall k {:trigger FiledAt(entries, areas, list, slot, k)} :: 0 <= k < |list| ==>
        FiledAt(entries, areas, list, slot, k))
    && (forall n :: n in slot ==> slot[n] < |list| && list[slot[n]].name == n)
    && (forall n {:trigger Absent(entries, areas, n)} :: n !in slot ==> Absent(entries, areas, n))
  }

  ghost predicate Absent(entries: seq<Entry>, areas: map<string, string>, n: string) {
    forall e :: e in entries ==> AreaOf(areas, e) != Some(n)
  }

  lemma {:induction false} AbsentCountsNothing(entries: seq<Entry>, areas: map<string, string>, n: string, zero: Counts)
    requires Absent(entries, areas, n) && zero.Nothing()
    ensures Counted(entries, areas, Some(n), zero)
  {
    if entries != [] {
      assert entries[|entries| - 1] in entries;
      AbsentCountsNothing(entries[..|entries| - 1], areas, n, zero);
    }
    NothingHasNoStates(zero);
    forall b: Bucket
      ensures zero.Get(b) == CountIf(entries, areas, Some(n), b)
    {
    }
  }

  ghost predicate FiledAt(entries: seq<Entry>, areas: map<string, string>, list: seq<Area>, slot: map<string, nat>,
                          k: nat)
    requires k < |list|
  {
    list[k].name in slot && slot[list[k].name] == k && Counted(entries, areas, Some(list[k].name), list[k].counts)
  }

  /** Areas and the unassigned rest make the whole, whose states make its total. */
  ghost predicate AddsUp(list: seq<Area>, unassigned: Counts, whole: Counts, n: nat) {
    whole == Join(Sum(list), unassigned) && whole.States() == whole.total == n
  }

  ghost predicate Tallied(entries: seq<Entry>, areas: map<string, string>, list: seq<Area>, slot: map<string, nat>,
                          unassigned: Counts, whole: Counts) {
    Filed(entries, areas, list, slot) && Counted(entries, areas, None, unassigned)
        && AddsUp(list, unassigned, whole, |entries|)
  }

  /** An entry of some other area, or of none, leaves an area's counts alone. */
  lemma OthersKeep(entries: seq<Entry>, e: Entry, areas: map<string, string>, list: seq<Area>, slot: map<string, nat>,
                   k: nat)
    requires Filed(entries, areas, list, slot) && k < |list| && Some(list[k].name) != AreaOf(areas, e)
    ensures FiledAt(entries + [e], areas, list, slot, k)
  {
    assert FiledAt(entries, areas, list, slot, k);
    CountedOne(entries, e, areas, Some(list[k].name), list[k].counts);
  }

  function Bumped(list: seq<Area>, k: nat, e: Entry): seq<Area>
    requires k < |list|
  {
    list[k := Area(list[k].name, Join(list[k].counts, Single(e)))]
  }

  lemma FiledOld(entries: seq<Entry>, e: Entry, areas: map<string, string>, list: seq<Area>, slot: map<string, nat>,
                 name: string)
    requires Filed(entries, areas, list, slot) && AreaOf(areas, e) == Some(name) && name in slot
    ensures slot[name] < |list| && Filed(entries + [e], areas, Bumped(list, slot[name], e), slot)
  {
    var at, more := slot[name], entries + [e];
    var list' := Bumped(list, at, e);
    forall k | 0 <= k < |list'|
      ensures FiledAt(more, areas, list', slot, k)
    {
      assert FiledAt(entries, areas, list, slot, k);
      CountedOne(entries, e, areas, Some(list[k].name), list[k].counts);
    }
    forall n | n !in slot
      ensures Absent(more, areas, n)
    {
      assert Absent(entries, areas, n);
    }
  }

  lemma FiledNew(entries: seq<Entry>, e: Entry, areas: map<string, string>, list: seq<Area>, slot: map<string, nat>,
                 name: string, zero: Counts)
    requires Filed(entries, areas, list, slot) && AreaOf(areas, e) == Some(name) && name !in slot && zero.Nothing()
    ensures Filed(entries + [e], areas, list + [Area(name, Join(zero, Single(e)))], slot[name := |list|])
  {
    var more, list', slot' := entries + [e], list + [Area(name, Join(zero, Single(e)))], slot[name := |list|];
    assert Absent(entries, areas, name);
    AbsentCountsNothing(entries, areas, name, zero);
    CountedOne(entries, e, areas, Some(name), zero);
    forall k | 0 <= k < |list'|
      ensures FiledAt(more, areas, list', slot', k)
    {
      if k < |list| {
        assert FiledAt(entries, areas, list, slot, k);
        OthersKeep(entries, e, areas, list, slot, k);
      }
    }
    forall n | n !in slot'
      ensures Absent(more, areas, n)
    {
      assert Absent(entries, areas, n);
    }
  }

  lemma FiledElsewhere(entries: seq<Entry>, e: Entry, areas: map<string, string>, list: seq<Area>,
                       slot: map<string, nat>)
    requires Filed(entries, areas, list, slot) && AreaOf(areas, e) == None
    ensures Filed(entries + [e], areas, list, slot)
  {
    forall k | 0 <= k < |list|
      ensures FiledAt(entries + [e], areas, list, slot, k)
    {
      OthersKeep(entries, e, areas, list, slot, k);
    }
    forall n | n !in slot
      ensures Absent(entries + [e], areas, n)
    {
      assert Absent(entries, areas, n);
    }
  }

  lemma NothingAdds(list: seq<Area>, zero: Counts, n: nat)
    requires list == [] && zero.Nothing() && n == 0
    ensures AddsUp(list, zero, zero, n)
  {
    SumOfNone(list, zero);
    JoinNothing(zero, zero);
    NothingHasNoStates(zero);
  }

  lemma NothingHasNoStates(zero: Counts)
    requires zero.Nothing()
    ensures zero.States() == 0
  {
    assert zero.Get(DoneB) == 0 && zero.Get(RejectedOnly) == 0 && zero.Get(InProgress) == 0;
    assert zero.Get(NoChildren) == 0 && zero.Get(Unknown) == 0;
  }

  method AddToArea(ghost entries: seq<Entry>, e: Entry, areas: map<string, string>, list: seq<Area>,
                   slot: map<string, nat>, name: string)
    returns (list': seq<Area>, slot': map<string, nat>)
    requires Filed(entries, areas, list, slot) && AreaOf(areas, e) == Some(name)
    ensures Filed(entries + [e], areas, list', slot') && Sum(list') == Join(Sum(list), Single(e))
  {
    if name in slot {
      FiledOld(entries, e, areas, list, slot, name);
      SumUpdate(list, slot[name], e);
      return Bumped(list, slot[name], e), slot;
    }
    var zero := NewStrata();
    FiledNew(entries, e, areas, list, slot, name, zero);
    JoinNothing(zero, Single(e));
    return list + [Area(name, Join(zero, Single(e)))], slot[name := |list|];
  }

  lemma AreaAddsUp(list: seq<Area>, list': seq<Area>, unassigned: Counts, whole: Counts, n: nat, e: Entry)
    requires AddsUp(list, unassigned, whole, n) && Sum(list') == Join(Sum(list), Single(e))
    ensures AddsUp(list', unassigned, Join(whole, Single(e)), n + 1)
  {
    JoinSwaps(Sum(list), unassigned, Single(e));
    OneMoreInTotal(whole, e);
  }

  lemma JoinSwaps(a: Counts, b: Counts, c: Counts)
    ensures Join(Join(a, b), c) == Join(Join(a, c), b)
  {
  }

  lemma OneMoreInTotal(whole: Counts, e: Entry)
    requires whole.States() == whole.total
    ensures Join(whole, Single(e)).States() == Join(whole, Single(e)).total == whole.total + 1
  {
  }

  lemma RestAddsUp(list: seq<Area>, unassigned: Counts, whole: Counts, n: nat, e: Entry)
    requires AddsUp(list, unassigned, whole, n)
    ensures AddsUp(list, Join(unassigned, Single(e)), Join(whole, Single(e)), n + 1)
  {
    JoinRegroups(Sum(list), unassigned, Single(e));
    OneMoreInTotal(whole, e);
  }

  /** One pass of the counting loop. */
  method Add(ghost entries: seq<Entry>, e: Entry, areas: map<string, string>, list: seq<Area>, slot: map<string, nat>,
             unassigned: Counts, whole: Counts)
    returns (list': seq<Area>, slot': map<string, nat>, unassigned': Counts, whole': Counts)
    requires Tallied(entries, areas, list, slot, unassigned, whole)
    ensures Tallied(entries + [e], areas, list', slot', unassigned', whole')
  {
    var area := AreaOf(areas, e);
    list', slot', unassigned', whole' := list, slot, unassigned, Join(whole, Single(e));
    CountedOne(entries, e, areas, None, unassigned);
    if area.Some? {
      list', slot' := AddToArea(entries, e, areas, list, slot, area.value);
      AreaAddsUp(list, list', unassigned, whole, |entries|, e);
    } else {
      FiledElsewhere(entries, e, areas, list, slot);
      unassigned' := Join(unassigned, Single(e));
      RestAddsUp(list, unassigned, whole, |entries|, e);
    }
  }

  // ---- ordering ----

  function Ratio(c: Counts): real {
    if c.total == 0 then 0.0 else c.done as real / c.total as real
  }

  /** Least complete first, then largest, then by name. */
  predicate Ahead(a: Area, b: Area) {
    var ra, rb := Ratio(a.counts), Ratio(b.counts);
    ra < rb ||
    (ra == rb &&
     (a.counts.total > b.counts.total || (a.counts.total == b.counts.total && NameLess(a.name, b.name))))
  }

  /** Any two areas with different names are ordered one way and not the other, and the order is transitive. */
  lemma AheadIsTotal(a: Area, b: Area, c: Area)
    ensures a.name != b.name ==> Ahead(a, b) || Ahead(b, a)
    ensures !(Ahead(a, b) && Ahead(b, a))
    ensures Ahead(a, b) && Ahead(b, c) ==> Ahead(a, c)
  {
    NamesCompare(a.name, b.name);
    if NameLess(a.name, b.name) && NameLess(b.name, c.name) { NamesChain(a.name, b.name, c.name); }
  }

  /** The areas with the smaller part done come first; of equals the larger; of equals the smaller name. */
  lemma AheadMeans(a: Area, b: Area)
    requires a.counts.total > 0 && b.counts.total > 0
    ensures var x, y := a.counts.done * b.counts.total, b.counts.done * a.counts.total;
            Ahead(a, b) <==>
            || x < y
            || (x == y && a.counts.total > b.counts.total)
            || (x == y && a.counts.total == b.counts.total && NameLess(a.name, b.name))
  {
    Cross(a.counts.done, a.counts.total, b.counts.done, b.counts.total);
  }

  lemma Cross(p: nat, q: nat, r: nat, s: nat)
    requires q > 0 && s > 0
    ensures p as real / q as real < r as real / s as real <==> p * s < r * q
    ensures p as real / q as real == r as real / s as real <==> p * s == r * q
  {
    var x, y := p as real / q as real, r as real / s as real;
    var both := q as real * s as real;
    assert x * both == (p * s) as real && y * both == (r * q) as real;
    assert x < y <==> x * both < y * both;
  }

  ghost predicate Ranked(list: seq<Area>) {
    forall i, j :: 0 <= i < j < |list| ==> Ahead(list[i], list[j])
  }

  method Insert(sorted: seq<Area>, a: Area) returns (more: seq<Area>)
    requires Ranked(sorted) && forall i :: 0 <= i < |sorted| ==> sorted[i].name != a.name
    ensures Ranked(more) && multiset(more) == multiset(sorted) + multiset{a} && Sum(more) == Join(Sum(sorted), a.counts)
  {
    var k := 0;
    while k < |sorted| && Ahead(sorted[k], a)
      invariant 0 <= k <= |sorted| && forall i :: 0 <= i < k ==> Ahead(sorted[i], a)
    {
      k := k + 1;
    }
    more := sorted[..k] + [a] + sorted[k..];
    Inserted(sorted, a, k);
    InsertedSum(sorted, a, k);
  }

  lemma InsertedSum(sorted: seq<Area>, a: Area, k: nat)
    requires k <= |sorted|
    ensures Sum(sorted[..k] + [a] + sorted[k..]) == Join(Sum(sorted), a.counts)
  {
    var front, back := sorted[..k], sorted[k..];
    assert sorted == front + back;
    SumJoin(front, back);
    SumJoin(front + [a], back);
    JoinRegroups(Sum(front), a.counts, Sum(back));
    JoinRegroups(Sum(front), Sum(back), a.counts);
    JoinRegroups(a.counts, Sum(back), a.counts);
  }

  lemma AheadOfRest(sorted: seq<Area>, a: Area, k: nat, j: nat)
    requires Ranked(sorted) && k <= j < |sorted| && sorted[k].name != a.name && !Ahead(sorted[k], a)
    ensures Ahead(a, sorted[j])
  {
    AheadIsTotal(a, sorted[k], sorted[j]);
  }

  lemma Inserted(sorted: seq<Area>, a: Area, k: nat)
    requires Ranked(sorted) && k <= |sorted| && forall i :: 0 <= i < |sorted| ==> sorted[i].name != a.name
    requires (forall i :: 0 <= i < k ==> Ahead(sorted[i], a)) && (k < |sorted| ==> !Ahead(sorted[k], a))
    ensures Ranked(sorted[..k] + [a] + sorted[k..])
    ensures multiset(sorted[..k] + [a] + sorted[k..]) == multiset(sorted) + multiset{a}
  {
    var more := sorted[..k] + [a] + sorted[k..];
    forall i, j | 0 <= i < j < |more|
      ensures Ahead(more[i], more[j])
    {
      if i == k { AheadOfRest(sorted, a, k, j - 1); }
    }
    InsertedMembers(sorted, a, k);
  }

  lemma InsertedMembers(sorted: seq<Area>, a: Area, k: nat)
    requires k <= |sorted|
    ensures multiset(sorted[..k] + [a] + sorted[k..]) == multiset(sorted) + multiset{a}
  {
    assert sorted == sorted[..k] + sorted[k..];
  }

  lemma NameStays(list: seq<Area>, sorted: seq<Area>, i: nat)
    requires multiset(sorted) == multiset(list) && i < |sorted|
    ensures exists j :: 0 <= j < |list| && list[j] == sorted[i]
  {
    assert sorted[i] in multiset(sorted);
    assert sorted[i] in multiset(list);
  }

  ghost predicate DistinctNames(list: seq<Area>) {
    forall i, j :: 0 <= i < j < |list| ==> list[i].name != list[j].name
  }

  /** `_order_areas`: the same areas, ranked; an area's rank is its place plus one. */
  method OrderAreas(list: seq<Area>) returns (sorted: seq<Area>)
    requires DistinctNames(list)
    ensures Ranked(sorted) && multiset(sorted) == multiset(list) && Sum(sorted) == Sum(list)
  {
    sorted := [];
    for i := 0 to |list|
      invariant Ranked(sorted) && multiset(sorted) == multiset(list[..i]) && Sum(sorted) == Sum(list[..i])
    {
      forall j | 0 <= j < |sorted|
        ensures sorted[j].name != list[i].name
      {
        NameStays(list[..i], sorted, j);
      }
      TakeNext(list, i);
      sorted := Insert(sorted, list[i]);
    }
    TakeWhole(list);
  }

  // ---- the envelope ----

  /** An area as it is reported, with its place in the order. */
  datatype Place = Place(rank: nat, area: Area)

  datatype Envelope = ItemSetChanged | Breach | Shape(whole: Counts, areas: seq<Place>, unassigned: Counts)

  function WithRanks(sorted: seq<Area>): (places: seq<Place>)
    ensures |places| == |sorted| && forall k :: 0 <= k < |places| ==> places[k] == Place(k + 1, sorted[k])
  {
    seq(|sorted|, k requires 0 <= k < |sorted| => Place(k + 1, sorted[k]))
  }

  /** The areas in the order of their ranks, which run from 1 on. */
  ghost predicate InRankOrder(places: seq<Place>, sorted: seq<Area>) {
    |places| == |sorted| && Ranked(sorted) &&
        forall k :: 0 <= k < |places| ==> places[k].rank == k + 1 && places[k].area == sorted[k]
  }

  /** `_conserves`: per state and in total, areas plus unassigned are the whole, and the states are the total. */
  predicate Conserves(whole: Counts, areaSum: Counts, unassigned: Counts) {
    && whole.done == areaSum.done + unassigned.done
    && whole.rejectedOnly == areaSum.rejectedOnly + unassigned.rejectedOnly
    && whole.inProgress == areaSum.inProgress + unassigned.inProgress
    && whole.noChildren == areaSum.noChildren + unassigned.noChildren
    && whole.unknown == areaSum.unknown + unassigned.unknown
    && whole.total == areaSum.total + unassigned.total
    && whole.States() == whole.total
  }

  /** The check lets nothing through but counts that add up, whichever one is off. */
  lemma BreachExactly(whole: Counts, areaSum: Counts, unassigned: Counts)
    ensures Conserves(whole, areaSum, unassigned) <==>
            && whole.States() == whole.total == areaSum.total + unassigned.total
            && forall b: Bucket :: whole.Get(b) == areaSum.Get(b) + unassigned.Get(b)
  {
    if forall b: Bucket :: whole.Get(b) == areaSum.Get(b) + unassigned.Get(b) {
      assert whole.Get(DoneB) == areaSum.Get(DoneB) + unassigned.Get(DoneB);
      assert whole.Get(RejectedOnly) == areaSum.Get(RejectedOnly) + unassigned.Get(RejectedOnly);
      assert whole.Get(InProgress) == areaSum.Get(InProgress) + unassigned.Get(InProgress);
      assert whole.Get(NoChildren) == areaSum.Get(NoChildren) + unassigned.Get(NoChildren);
      assert whole.Get(Unknown) == areaSum.Get(Unknown) + unassigned.Get(Unknown);
    }
  }

  method SumAreas(list: seq<Area>) returns (c: Counts)
    ensures c == Sum(list)
  {
    c := NewStrata();
    SumOfNone(list[..0], c);
    for k := 0 to |list|
      invariant c == Sum(list[..k])
    {
      TakeNext(list, k);
      c := Join(c, list[k].counts);
    }
    TakeWhole(list);
  }

  function ItemsOf(entries: seq<Entry>): set<string> {
    set i | 0 <= i < |entries| :: entries[i].item
  }

  ghost predicate AreasRight(entries: seq<Entry>, areas: map<string, string>, list: seq<Area>) {
    forall k {:trigger list[k]} :: 0 <= k < |list| ==> Counted(entries, areas, Some(list[k].name), list[k].counts)
  }

  /** Every entry's area is listed. */
  ghost predicate AreasComplete(entries: seq<Entry>, areas: map<string, string>, list: seq<Area>) {
    forall e :: e in entries && AreaOf(areas, e).Some? ==>
        exists k :: 0 <= k < |list| && list[k].name == AreaOf(areas, e).value
  }

  method Begin(ghost none: seq<Entry>, ghost areas: map<string, string>)
    returns (list: seq<Area>, slot: map<string, nat>, zero: Counts)
    requires none == []
    ensures Tallied(none, areas, list, slot, zero, zero)
  {
    list, slot := [], map[];
    zero := NewStrata();
    NothingCounted(none, areas, zero);
    NothingAdds(list, zero, |none|);
  }

  lemma NothingCounted(none: seq<Entry>, areas: map<string, string>, zero: Counts)
    requires none == [] && zero.Nothing()
    ensures Counted(none, areas, None, zero)
  {
    NothingHasNoStates(zero);
    forall b: Bucket
      ensures zero.Get(b) == CountIf(none, areas, None, b)
    {
    }
  }

  method Count(entries: seq<Entry>, areas: map<string, string>)
    returns (list: seq<Area>, unassigned: Counts, whole: Counts, ghost slot: map<string, nat>)
    ensures Tallied(entries, areas, list, slot, unassigned, whole)
  {
    var slots;
    list, slots, unassigned := Begin(entries[..0], areas);
    whole := unassigned;
    for i := 0 to |entries|
      invariant Tallied(entries[..i], areas, list, slots, unassigned, whole)
    {
      list, slots, unassigned, whole := Add(entries[..i], entries[i], areas, list, slots, unassigned, whole);
      TakeNext(entries, i);
    }
    TakeWhole(entries);
    slot := slots;
  }

  lemma TalliedMeans(entries: seq<Entry>, areas: map<string, string>, list: seq<Area>, slot: map<string, nat>,
                     unassigned: Counts, whole: Counts)
    requires Tallied(entries, areas, list, slot, unassigned, whole)
    ensures DistinctNames(list) && AreasRight(entries, areas, list) && AreasComplete(entries, areas, list)
    ensures Counted(entries, areas, None, unassigned)
  {
    forall k | 0 <= k < |list|
      ensures list[k].name in slot && slot[list[k].name] == k
          && Counted(entries, areas, Some(list[k].name), list[k].counts)
    {
      assert FiledAt(entries, areas, list, slot, k);
    }
    forall e | e in entries && AreaOf(areas, e).Some?
      ensures exists k :: 0 <= k < |list| && list[k].name == AreaOf(areas, e).value
    {
      var n := AreaOf(areas, e).value;
      assert n !in slot ==> Absent(entries, areas, n);
      assert list[slot[n]].name == n;
    }
  }

  lemma SortedMeans(entries: seq<Entry>, areas: map<string, string>, list: seq<Area>, sorted: seq<Area>)
    requires multiset(sorted) == multiset(list) && AreasRight(entries, areas, list)
        && AreasComplete(entries, areas, list)
    ensures AreasRight(entries, areas, sorted) && AreasComplete(entries, areas, sorted)
  {
    forall k | 0 <= k < |sorted|
      ensures Counted(entries, areas, Some(sorted[k].name), sorted[k].counts)
    {
      NameStays(list, sorted, k);
    }
    forall e | e in entries && AreaOf(areas, e).Some?
      ensures exists k :: 0 <= k < |sorted| && sorted[k].name == AreaOf(areas, e).value
    {
      var k :| 0 <= k < |list| && list[k].name == AreaOf(areas, e).value;
      NameStays(sorted, list, k);
    }
  }

  /**
   `build_envelope`: refuses only when the two reads saw different items. Otherwise every area and the unassigned
   rest are counted exactly, in every state, in total and in composition; they add up to the whole; and the areas
   come in the order of their ranks. The breach branch is never taken.
  */
  method BuildEnvelope(entries: seq<Entry>, areas: map<string, string>, scopeIds: set<string>)
    returns (env: Envelope, ghost sorted: seq<Area>)
    ensures env.ItemSetChanged? <==> ItemsOf(entries) != scopeIds
    ensures !env.Breach?
    ensures env.Shape? ==> InRankOrder(env.areas, sorted)
    ensures env.Shape? ==> AreasRight(entries, areas, sorted) && AreasComplete(entries, areas, sorted)
    ensures env.Shape? ==> Counted(entries, areas, None, env.unassigned)
    ensures env.Shape? ==> env.whole == Join(Sum(sorted), env.unassigned)
    ensures env.Shape? ==> env.whole.States() == env.whole.total == |entries|
  {
    if ItemsOf(entries) != scopeIds {
      return ItemSetChanged, [];
    }
    var list, unassigned, whole; ghost var slot;
    list, unassigned, whole, slot := Count(entries, areas);
    TalliedMeans(entries, areas, list, slot, unassigned, whole);
    var ordered := OrderAreas(list);
    SortedMeans(entries, areas, list, ordered);
    var sum := SumAreas(ordered);
    sorted := ordered;
    env := if !Conserves(whole, sum, unassigned) then Breach else Shape(whole, WithRanks(ordered), unassigned);
  }
}
