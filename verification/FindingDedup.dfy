/**
 Merging findings that cite the same code: when two findings link, the clusters that follow from it, and
 what a merged finding keeps of its members.
*/
module FindingDedup {
  import opened Seqs
  import opened Text
  import opened UnionFind

  /** Where a finding points: a path, and a line range unless it means the whole file. */
  datatype Span = Whole | Lines(first: nat, last: nat)

  datatype Location = Location(path: string, span: Span)

  datatype Evidence = Evidence(path: string, lines: string, note: string)

  datatype Finding = Finding(id: string, severity: string, evidence: seq<Evidence>, locations: seq<Location>)

  const WIDE := 3

  // ---- the link relation ----

  predicate Touch(a: Span, b: Span, gap: nat)
    requires a.Lines? && b.Lines?
  {
    a.first <= b.last + gap && b.first <= a.last + gap
  }

  predicate Meet(a: Location, b: Location, wide: bool, gap: nat) {
    a.path == b.path && if a.span.Whole? || b.span.Whole? then !wide else Touch(a.span, b.span, gap)
  }

  /** `_findings_link`: a shared location; a wide finding needs real line ranges for it. */
  predicate Link(a: Finding, b: Finding, gap: nat) {
    var wide := |a.locations| > WIDE || |b.locations| > WIDE;
    exists i, j :: 0 <= i < |a.locations| && 0 <= j < |b.locations| && Meet(a.locations[i], b.locations[j], wide, gap)
  }

  lemma LinkIsSymmetric(a: Finding, b: Finding, gap: nat)
    ensures Link(a, b, gap) <==> Link(b, a, gap)
  {
  }

  /** Line x of the one place and line y of the other are at most `gap` apart. */
  predicate Near(a: Span, b: Span, gap: nat, x: nat, y: nat)
    requires a.Lines? && b.Lines?
  {
    a.first <= x <= a.last && b.first <= y <= b.last && x <= y + gap && y <= x + gap
  }

  ghost predicate HaveNearLines(a: Span, b: Span, gap: nat)
    requires a.Lines? && b.Lines?
  {
    exists x, y :: Near(a, b, gap, x, y)
  }

  lemma TouchExactly(a: Span, b: Span, gap: nat)
    requires a.Lines? && b.Lines? && a.first <= a.last && b.first <= b.last
    ensures Touch(a, b, gap) <==> HaveNearLines(a, b, gap)
  {
    if Touch(a, b, gap) {
      var x := if a.last < b.first then a.last else if a.first > b.first then a.first else b.first;
      var y := if a.last < b.first then b.first else if b.last < a.first then b.last else x;
      assert Near(a, b, gap, x, y);
    }
  }

  /** Two locations of one file that come near each other, or of which one means the whole file. */
  ghost predicate Shared(a: Location, b: Location, few: bool, gap: nat) {
    && a.path == b.path
    && ((a.span.Lines? && b.span.Lines? && HaveNearLines(a.span, b.span, gap))
        || (few && (a.span.Whole? || b.span.Whole?)))
  }

  /**
   WHEN TWO FINDINGS LINK: exactly when they cite lines of one file at most `gap` apart, or, neither of them citing more
   than three places, one cites a whole file of which the other cites any part.
  */
  lemma LinkExactly(a: Finding, b: Finding, gap: nat)
    requires forall l :: (l in a.locations || l in b.locations) && l.span.Lines? ==> l.span.first <= l.span.last
    ensures Link(a, b, gap) <==>
              exists l, m :: l in a.locations && m in b.locations &&
                Shared(l, m, |a.locations| <= 3 && |b.locations| <= 3, gap)
  {
    var few := |a.locations| <= 3 && |b.locations| <= 3;
    forall l, m | l in a.locations && m in b.locations
      ensures Meet(l, m, !few, gap) <==> Shared(l, m, few, gap)
    {
      if l.span.Lines? && m.span.Lines? { TouchExactly(l.span, m.span, gap); }
    }
    if Link(a, b, gap) {
      var i, j :| 0 <= i < |a.locations| && 0 <= j < |b.locations| && Meet(a.locations[i], b.locations[j], !few, gap);
      assert Shared(a.locations[i], b.locations[j], few, gap);
    }
    if l, m :| l in a.locations && m in b.locations && Shared(l, m, few, gap) {
      var i := Place(a.locations, l);
      var j := Place(b.locations, m);
      assert Meet(a.locations[i], b.locations[j], !few, gap);
    }
  }

  // ---- connectedness ----

  ghost predicate Hop(fs: seq<Finding>, gap: nat, path: seq<nat>, k: nat)
    requires k + 1 < |path|
  {
    path[k] < |fs| && path[k + 1] < |fs| && Link(fs[path[k]], fs[path[k + 1]], gap)
  }

  ghost predicate IsPath(fs: seq<Finding>, gap: nat, path: seq<nat>) {
    && path != [] && (forall k :: 0 <= k < |path| ==> path[k] < |fs|)
    && forall k :: 0 <= k < |path| - 1 ==> Hop(fs, gap, path, k)
  }

  ghost predicate Joins(fs: seq<Finding>, gap: nat, path: seq<nat>, x: nat, y: nat) {
    IsPath(fs, gap, path) && path[0] == x && path[|path| - 1] == y
  }

  /** The two findings hang together through a chain of links. */
  ghost predicate Connected(fs: seq<Finding>, gap: nat, x: nat, y: nat) {
    exists path :: Joins(fs, gap, path, x, y)
  }

  lemma ConnectedSelf(fs: seq<Finding>, gap: nat, x: nat)
    requires x < |fs|
    ensures Connected(fs, gap, x, x)
  {
    assert Joins(fs, gap, [x], x, x);
  }

  lemma ConnectedByLink(fs: seq<Finding>, gap: nat, x: nat, y: nat)
    requires x < |fs| && y < |fs| && Link(fs[x], fs[y], gap)
    ensures Connected(fs, gap, x, y)
  {
    assert Hop(fs, gap, [x, y], 0);
    assert Joins(fs, gap, [x, y], x, y);
  }

  lemma ConnectedThrough(fs: seq<Finding>, gap: nat, x: nat, y: nat, z: nat)
    requires Connected(fs, gap, x, y) && Connected(fs, gap, y, z)
    ensures Connected(fs, gap, x, z)
  {
    var a :| Joins(fs, gap, a, x, y);
    var b :| Joins(fs, gap, b, y, z);
    var c := a + b[1..];
    forall k | 0 <= k < |c| - 1
      ensures Hop(fs, gap, c, k)
    {
      if k < |a| - 1 { assert Hop(fs, gap, a, k); } else { assert Hop(fs, gap, b, k - (|a| - 1)); }
    }
    assert Joins(fs, gap, c, x, z);
  }

  lemma ConnectedBack(fs: seq<Finding>, gap: nat, x: nat, y: nat)
    requires Connected(fs, gap, x, y)
    ensures Connected(fs, gap, y, x)
  {
    var a :| Joins(fs, gap, a, x, y);
    var b := seq(|a|, k requires 0 <= k < |a| => a[|a| - 1 - k]);
    forall k | 0 <= k < |b| - 1
      ensures Hop(fs, gap, b, k)
    {
      assert Hop(fs, gap, a, |a| - 2 - k);
      LinkIsSymmetric(fs[b[k]], fs[b[k + 1]], gap);
    }
    assert Joins(fs, gap, b, y, x);
  }

  // ---- clustering ----

  /** Elements under one root hang together; every pair before `(i, j)` that links is under one root. */
  ghost predicate Faithful(fs: seq<Finding>, gap: nat, root: seq<nat>) {
    |root| == |fs| && forall x :: 0 <= x < |fs| ==> root[x] < |fs| && Connected(fs, gap, x, root[x])
  }

  ghost predicate Before(a: nat, b: nat, i: nat, j: nat) {
    a < b && (a < i || (a == i && b < j))
  }

  ghost predicate Covers(fs: seq<Finding>, gap: nat, root: seq<nat>, i: nat, j: nat)
    requires |root| == |fs|
  {
    forall a: nat, b: nat :: b < |fs| && Before(a, b, i, j) && Link(fs[a], fs[b], gap) ==> root[a] == root[b]
  }

  lemma JoinStaysFaithful(fs: seq<Finding>, gap: nat, root: seq<nat>, i: nat, j: nat)
    requires Faithful(fs, gap, root) && i < j < |fs| && Link(fs[i], fs[j], gap)
    ensures Faithful(fs, gap, Joined(root, root[i], root[j]))
  {
    forall x | 0 <= x < |fs|
      ensures Connected(fs, gap, x, Joined(root, root[i], root[j])[x])
    {
      if root[x] == root[j] {
        ConnectedBack(fs, gap, j, root[j]);
        ConnectedThrough(fs, gap, x, root[j], j);
        ConnectedByLink(fs, gap, i, j);
        ConnectedBack(fs, gap, i, j);
        ConnectedThrough(fs, gap, x, j, i);
        ConnectedThrough(fs, gap, x, i, root[i]);
      }
    }
  }

  /** Having seen every pair, the roots tell exactly who hangs together. */
  lemma RootsAreComponents(fs: seq<Finding>, gap: nat, root: seq<nat>, x: nat, y: nat)
    requires Faithful(fs, gap, root) && Covers(fs, gap, root, |fs|, 0) && x < |fs| && y < |fs|
    ensures root[x] == root[y] <==> Connected(fs, gap, x, y)
  {
    if root[x] == root[y] {
      ConnectedBack(fs, gap, y, root[y]);
      ConnectedThrough(fs, gap, x, root[x], y);
    }
    if Connected(fs, gap, x, y) {
      var path :| Joins(fs, gap, path, x, y);
      OneRootAlong(fs, gap, root, path);
    }
  }

  lemma {:induction false} OneRootAlong(fs: seq<Finding>, gap: nat, root: seq<nat>, path: seq<nat>)
    requires Faithful(fs, gap, root) && Covers(fs, gap, root, |fs|, 0) && IsPath(fs, gap, path)
    ensures root[path[0]] == root[path[|path| - 1]]
  {
    if |path| > 1 {
      var init, k := path[..|path| - 1], |path| - 2;
      forall i | 0 <= i < |init| - 1
        ensures Hop(fs, gap, init, i)
      {
        assert Hop(fs, gap, path, i);
      }
      OneRootAlong(fs, gap, root, init);
      assert Hop(fs, gap, path, k);
    }
  }

  lemma CoversStart(fs: seq<Finding>, gap: nat, root: seq<nat>, i: nat)
    requires |root| == |fs| && i < |fs| && Covers(fs, gap, root, i, |fs|)
    ensures Covers(fs, gap, root, i + 1, i + 2)
  {
    forall a: nat, b: nat | b < |fs| && Before(a, b, i + 1, i + 2) && Link(fs[a], fs[b], gap)
      ensures root[a] == root[b]
    {
      assert Before(a, b, i, |fs|);
    }
  }

  lemma CoversNext(fs: seq<Finding>, gap: nat, root: seq<nat>, i: nat, j: nat, next: seq<nat>)
    requires |root| == |next| == |fs| && i < j < |fs| && Covers(fs, gap, root, i, j)
    requires if Link(fs[i], fs[j], gap) then next == Joined(root, root[i], root[j]) else next == root
    ensures Covers(fs, gap, next, i, j + 1)
  {
    forall a: nat, b: nat | b < |fs| && Before(a, b, i, j + 1) && Link(fs[a], fs[b], gap)
      ensures next[a] == next[b]
    {
      if !(a == i && b == j) { assert Before(a, b, i, j); }
    }
  }

  /** One pair: joined if it links. */
  method ConnectPair(fs: seq<Finding>, gap: nat, forest: Forest, i: nat, j: nat)
    requires forest.Valid() && forest.n == |fs| && i < j < |fs|
    requires Faithful(fs, gap, forest.root) && Covers(fs, gap, forest.root, i, j)
    modifies forest, forest.p
    ensures forest.Valid()
    ensures Faithful(fs, gap, forest.root) && Covers(fs, gap, forest.root, i, j + 1)
  {
    ghost var root := forest.root;
    if Link(fs[i], fs[j], gap) {
      JoinStaysFaithful(fs, gap, root, i, j);
      forest.Union(i, j);
    }
    CoversNext(fs, gap, root, i, j, forest.root);
  }

  method Connect(fs: seq<Finding>, gap: nat) returns (forest: Forest)
    ensures fresh(forest) && fresh(forest.p) && forest.Valid() && forest.n == |fs|
    ensures Faithful(fs, gap, forest.root) && Covers(fs, gap, forest.root, |fs|, 0)
  {
    forest := new Forest(|fs|);
    forall x | 0 <= x < |fs|
      ensures Connected(fs, gap, x, x)
    {
      ConnectedSelf(fs, gap, x);
    }
    for i := 0 to |fs|
      invariant fresh(forest) && fresh(forest.p) && forest.Valid() && forest.n == |fs|
      invariant Faithful(fs, gap, forest.root) && Covers(fs, gap, forest.root, i, i + 1)
    {
      for j := i + 1 to |fs|
        invariant fresh(forest) && fresh(forest.p) && forest.Valid() && forest.n == |fs|
        invariant Faithful(fs, gap, forest.root) && Covers(fs, gap, forest.root, i, j)
      {
        ConnectPair(fs, gap, forest, i, j);
      }
      CoversStart(fs, gap, forest.root, i);
    }
    assert forall a: nat, b: nat :: b < |fs| && Before(a, b, |fs|, 0) ==> Before(a, b, |fs|, |fs| + 1);
  }

  // ---- groups ----

  ghost predicate GroupOk(root: seq<nat>, n: nat, group: seq<nat>) {
    && group != [] && Ascending(group) && group[0] < |root|
    && forall x :: x in group ==> x < n && x < |root| && root[x] == root[group[0]]
  }

  /** The first `n` elements, filed by root: `slot` says which group a root's members are in. */
  ghost predicate Filed(root: seq<nat>, n: nat, groups: seq<seq<nat>>, slot: map<nat, nat>)
    requires n <= |root|
  {
    && (forall g :: 0 <= g < |groups| ==>
        GroupOk(root, n, groups[g]) && root[groups[g][0]] in slot && slot[root[groups[g][0]]] == g)
    && (forall x: nat :: x < n ==> root[x] in slot && slot[root[x]] < |groups| && x in groups[slot[root[x]]])
    && (forall r :: r in slot ==>
        slot[r] < |groups| && GroupOk(root, n, groups[slot[r]]) && root[groups[slot[r]][0]] == r)
    && ByFirst(groups)
  }

  ghost predicate ByFirst(groups: seq<seq<nat>>) {
    forall g, h :: 0 <= g < h < |groups| ==> groups[g] != [] && groups[h] != [] && groups[g][0] < groups[h][0]
  }

  function Total(groups: seq<seq<nat>>): nat {
    if groups == [] then 0 else Total(groups[..|groups| - 1]) + |groups[|groups| - 1]|
  }

  lemma {:induction false} TotalGrows(groups: seq<seq<nat>>, g: nat, x: nat)
    requires g < |groups|
    ensures Total(groups[g := groups[g] + [x]]) == Total(groups) + 1
  {
    var more := groups[g := groups[g] + [x]];
    var init := groups[..|groups| - 1];
    if g < |init| {
      TotalGrows(init, g, x);
      assert more[..|more| - 1] == init[g := init[g] + [x]];
    } else {
      assert more[..|more| - 1] == init;
    }
  }

  lemma GroupGrows(root: seq<nat>, n: nat, group: seq<nat>)
    requires n < |root| && GroupOk(root, n, group) && root[n] == root[group[0]]
    ensures GroupOk(root, n + 1, group + [n])
  {
    AscendingAppend(group, n);
    InAppend(group, n);
  }

  lemma FileInOld(root: seq<nat>, n: nat, groups: seq<seq<nat>>, slot: map<nat, nat>)
    requires n < |root| && Filed(root, n, groups, slot) && root[n] in slot
    ensures slot[root[n]] < |groups|
    ensures Filed(root, n + 1, groups[slot[root[n]] := groups[slot[root[n]]] + [n]], slot)
  {
    var g := slot[root[n]];
    var more := groups[g := groups[g] + [n]];
    GroupGrows(root, n, groups[g]);
    forall x: nat | x < n + 1
      ensures x in more[slot[root[x]]]
    {
      if x == n { assert more[g][|groups[g]|] == n; } else { assert x in groups[slot[root[x]]]; }
    }
    assert forall h :: 0 <= h < |groups| ==> more[h][0] == groups[h][0];
  }

  lemma NewComesLast(root: seq<nat>, n: nat, groups: seq<seq<nat>>)
    requires ByFirst(groups) && forall g :: 0 <= g < |groups| ==> GroupOk(root, n, groups[g])
    ensures ByFirst(groups + [[n]])
  {
    forall g | 0 <= g < |groups|
      ensures groups[g][0] < n
    {
      assert groups[g][0] in groups[g];
    }
  }

  lemma FileInNew(root: seq<nat>, n: nat, groups: seq<seq<nat>>, slot: map<nat, nat>)
    requires n < |root| && Filed(root, n, groups, slot) && root[n] !in slot
    ensures Filed(root, n + 1, groups + [[n]], slot[root[n] := |groups|])
  {
    var more, slots := groups + [[n]], slot[root[n] := |groups|];
    assert more[|groups|] == [n] && GroupOk(root, n + 1, [n]);
    NewComesLast(root, n, groups);
    forall g | 0 <= g < |groups|
      ensures more[g] == groups[g] && GroupOk(root, n + 1, more[g])
    {
      assert GroupOk(root, n, groups[g]);
    }
    forall x: nat | x < n
      ensures root[x] in slots && slots[root[x]] == slot[root[x]] && x in more[slots[root[x]]]
    {
      assert root[x] in slot && x in groups[slot[root[x]]];
    }
  }

  predicate Within(group: seq<nat>, n: nat) {
    forall k :: 0 <= k < |group| ==> group[k] < n
  }

  ghost predicate InSome(groups: seq<seq<nat>>, x: nat) {
    exists g :: 0 <= g < |groups| && x in groups[g]
  }

  ghost predicate IsComponent(fs: seq<Finding>, gap: nat, group: seq<nat>) {
    && group != [] && Ascending(group) && Within(group, |fs|)
    && forall x, y: nat :: x in group && y < |fs| ==> (y in group <==> Connected(fs, gap, x, y))
  }

  /** THE CLUSTERS: the connected components of the link relation, each in input order, by their first members. */
  ghost predicate IsClustering(fs: seq<Finding>, gap: nat, groups: seq<seq<nat>>) {
    && (forall g :: 0 <= g < |groups| ==> IsComponent(fs, gap, groups[g]))
    && (forall x: nat :: x < |fs| ==> InSome(groups, x))
    && ByFirst(groups)
  }

  lemma FiledIsComponent(fs: seq<Finding>, gap: nat, root: seq<nat>, groups: seq<seq<nat>>, slot: map<nat, nat>, g: nat)
    requires Faithful(fs, gap, root) && Covers(fs, gap, root, |fs|, 0)
    requires Filed(root, |fs|, groups, slot) && g < |groups|
    ensures IsComponent(fs, gap, groups[g])
  {
    assert forall k :: 0 <= k < |groups[g]| ==> groups[g][k] in groups[g];
    forall x, y: nat | x in groups[g] && y < |fs|
      ensures y in groups[g] <==> Connected(fs, gap, x, y)
    {
      RootsAreComponents(fs, gap, root, x, y);
    }
  }

  lemma FiledIsClustering(fs: seq<Finding>, gap: nat, root: seq<nat>, groups: seq<seq<nat>>, slot: map<nat, nat>)
    requires Faithful(fs, gap, root) && Covers(fs, gap, root, |fs|, 0)
    requires Filed(root, |fs|, groups, slot)
    ensures IsClustering(fs, gap, groups)
  {
    forall g | 0 <= g < |groups|
      ensures IsComponent(fs, gap, groups[g])
    {
      FiledIsComponent(fs, gap, root, groups, slot, g);
    }
    forall x: nat | x < |fs|
      ensures InSome(groups, x)
    {
      assert x in groups[slot[root[x]]];
    }
  }

  method FileOne(ghost root: seq<nat>, groups: seq<seq<nat>>, slot: map<nat, nat>, x: nat, r: nat)
    returns (groups': seq<seq<nat>>, slot': map<nat, nat>)
    requires x < |root| && r == root[x] && Filed(root, x, groups, slot)
    ensures Filed(root, x + 1, groups', slot') && Total(groups') == Total(groups) + 1
  {
    if r in slot {
      FileInOld(root, x, groups, slot);
      TotalGrows(groups, slot[r], x);
      groups', slot' := groups[slot[r] := groups[slot[r]] + [x]], slot;
    } else {
      FileInNew(root, x, groups, slot);
      groups', slot' := groups + [[x]], slot[r := |groups|];
    }
  }

  method ClusterGroups(fs: seq<Finding>, gap: nat) returns (groups: seq<seq<nat>>)
    ensures IsClustering(fs, gap, groups) && Total(groups) == |fs|
  {
    var forest := Connect(fs, gap);
    ghost var root := forest.root;
    groups := [];
    var slot: map<nat, nat> := map[];
    for x := 0 to |fs|
      invariant forest.Valid() && forest.n == |fs| && forest.root == root && fresh(forest.p)
      invariant Filed(root, x, groups, slot) && Total(groups) == x
    {
      var r := forest.Find(x);
      groups, slot := FileOne(root, groups, slot, x, r);
    }
    FiledIsClustering(fs, gap, root, groups, slot);
  }

  // ---- the order of the input does not matter ----

  /** `other[i]` is `fs[perm[i]]`, and `back` undoes `perm`. */
  ghost predicate Shuffled(fs: seq<Finding>, other: seq<Finding>, perm: seq<nat>, back: seq<nat>) {
    && |fs| == |other| == |perm| == |back|
    && (forall i :: 0 <= i < |perm| ==> perm[i] < |fs| && other[i] == fs[perm[i]] && back[perm[i]] == i)
    && (forall k :: 0 <= k < |back| ==> back[k] < |fs| && perm[back[k]] == k)
  }

  lemma ConnectedShuffled(fs: seq<Finding>, other: seq<Finding>, perm: seq<nat>, back: seq<nat>, gap: nat, x: nat,
                          y: nat)
    requires Shuffled(fs, other, perm, back) && x < |fs| && y < |fs|
    requires Connected(other, gap, x, y)
    ensures Connected(fs, gap, perm[x], perm[y])
  {
    var a :| Joins(other, gap, a, x, y);
    var b := seq(|a|, k requires 0 <= k < |a| => perm[a[k]]);
    forall k | 0 <= k < |b| - 1
      ensures Hop(fs, gap, b, k)
    {
      assert Hop(other, gap, a, k);
    }
    assert Joins(fs, gap, b, perm[x], perm[y]);
  }

  /** Two findings share a cluster after a reshuffle exactly when they did before. */
  lemma ClustersIgnoreOrder(fs: seq<Finding>, other: seq<Finding>, perm: seq<nat>, back: seq<nat>, gap: nat, x: nat,
                            y: nat)
    requires Shuffled(fs, other, perm, back) && x < |fs| && y < |fs|
    ensures Connected(other, gap, x, y) <==> Connected(fs, gap, perm[x], perm[y])
  {
    if Connected(other, gap, x, y) { ConnectedShuffled(fs, other, perm, back, gap, x, y); }
    if Connected(fs, gap, perm[x], perm[y]) {
      ConnectedShuffled(other, fs, back, perm, gap, perm[x], perm[y]);
    }
  }

  /** Each cluster of a reshuffled input is a cluster of the original one. */
  lemma EachClusterSurvivesShuffling(fs: seq<Finding>, other: seq<Finding>, perm: seq<nat>, back: seq<nat>, gap: nat,
                                     groups: seq<seq<nat>>, others: seq<seq<nat>>, h: nat) returns (g: nat)
    requires Shuffled(fs, other, perm, back) && IsClustering(fs, gap, groups) && IsClustering(other, gap, others)
    requires h < |others|
    ensures g < |groups| && forall y: nat :: y < |fs| ==> (y in others[h] <==> perm[y] in groups[g])
  {
    var x := others[h][0];
    assert IsComponent(other, gap, others[h]) && x in others[h];
    assert InSome(groups, perm[x]);
    g :| 0 <= g < |groups| && perm[x] in groups[g];
    assert IsComponent(fs, gap, groups[g]);
    forall y: nat | y < |fs|
      ensures y in others[h] <==> perm[y] in groups[g]
    {
      ClustersIgnoreOrder(fs, other, perm, back, gap, x, y);
    }
  }

  // ---- merging one cluster ----

  function SevRank(severity: string): nat {
    var s := Lower(severity);
    if s == "critical" then 4 else if s == "high" then 3 else if s == "medium" then 2 else if s == "low" then 1 else 0
  }

  /** Severities rank critical, high, medium, low, and then everything else, in whatever case they are written. */
  lemma SeveritiesInOrder(critical: string, high: string, medium: string, low: string, other: string)
    requires Lower(critical) == "critical" && Lower(high) == "high" && Lower(medium) == "medium" && Lower(low) == "low"
    requires Lower(other) !in {"critical", "high", "medium", "low"}
    ensures SevRank(critical) > SevRank(high) > SevRank(medium) > SevRank(low) > SevRank(other)
  {
  }

  ghost predicate Cites(fs: seq<Finding>, group: seq<nat>, e: Evidence) {
    exists k :: 0 <= k < |group| && group[k] < |fs| && e in fs[group[k]].evidence
  }

  lemma CitesMore(fs: seq<Finding>, group: seq<nat>, x: nat, e: Evidence)
    requires x < |fs|
    ensures Cites(fs, group + [x], e) <==> Cites(fs, group, e) || e in fs[x].evidence
  {
    var more := group + [x];
    assert more[|group|] == x;
    assert forall k :: 0 <= k < |group| ==> more[k] == group[k];
  }

  /** `_union_evidence`: every distinct piece of evidence once. */
  method UnionEvidence(fs: seq<Finding>, group: seq<nat>) returns (union: seq<Evidence>)
    requires Within(group, |fs|)
    ensures NoDup(union)
    ensures forall e :: e in union <==> Cites(fs, group, e)
  {
    union := [];
    for k := 0 to |group|
      invariant NoDup(union) && forall e :: e in union <==> Cites(fs, group[..k], e)
    {
      var evidence := fs[group[k]].evidence;
      ghost var before := union;
      for i := 0 to |evidence|
        invariant NoDup(union) && forall e :: e in union <==> e in before || e in evidence[..i]
      {
        NoDupAppend(union, evidence[i]);
        if evidence[i] !in union { union := union + [evidence[i]]; }
        TakeNext(evidence, i);
      }
      TakeWhole(evidence);
      forall e
        ensures Cites(fs, group[..k + 1], e) <==> Cites(fs, group[..k], e) || e in evidence
      {
        TakeNext(group, k);
        CitesMore(fs, group[..k], group[k], e);
      }
    }
    TakeWhole(group);
  }

  /** Everybody before it in the group ranks lower. */
  ghost predicate FirstOfRank(fs: seq<Finding>, group: seq<nat>, top: nat)
    requires top < |fs| && Within(group, |fs|)
  {
    exists k {:trigger group[k]} :: 0 <= k < |group| && group[k] == top && forall j :: 0 <= j < k ==>
      SevRank(fs[group[j]].severity) < SevRank(fs[top].severity)
  }

  /** The first member of the highest rank. */
  method MostSevere(fs: seq<Finding>, group: seq<nat>) returns (top: nat)
    requires group != [] && Within(group, |fs|)
    ensures top in group && FirstOfRank(fs, group, top)
    ensures forall x :: x in group ==> SevRank(fs[x].severity) <= SevRank(fs[top].severity)
  {
    top := group[0];
    for k := 0 to |group|
      invariant top in group && FirstOfRank(fs, group, top)
      invariant forall j :: 0 <= j < k ==> SevRank(fs[group[j]].severity) <= SevRank(fs[top].severity)
    {
      if SevRank(fs[group[k]].severity) > SevRank(fs[top].severity) { top := group[k]; }
    }
    forall x | x in group
      ensures SevRank(fs[x].severity) <= SevRank(fs[top].severity)
    {
      var j := Place(group, x);
    }
  }

  /** One output finding: which inputs it stands for, and what it shows. */
  datatype Output = Output(members: seq<nat>, severity: string, evidence: seq<Evidence>, ids: set<string>)

  ghost predicate IsMerge(fs: seq<Finding>, group: seq<nat>, out: Output)
    requires group != [] && Within(group, |fs|)
  {
    && out.members == group
    && (exists x :: x in group && fs[x].severity == out.severity && FirstOfRank(fs, group, x))
    && (forall x :: x in group ==> SevRank(fs[x].severity) <= SevRank(out.severity))
    && (forall e :: e in out.evidence <==> Cites(fs, group, e))
    && (|group| > 1 ==> NoDup(out.evidence))
    && (forall x :: x in group && fs[x].id != "" ==> fs[x].id in out.ids)
    && (forall id :: id in out.ids ==> exists x :: x in group && fs[x].id == id)
  }

  method Merge(fs: seq<Finding>, group: seq<nat>) returns (out: Output)
    requires group != [] && Within(group, |fs|)
    ensures IsMerge(fs, group, out)
    ensures |group| == 1 ==> out == Output(group, fs[group[0]].severity, fs[group[0]].evidence, {fs[group[0]].id})
  {
    var top := MostSevere(fs, group);
    if |group| == 1 {
      assert group == [group[0]];
      assert forall e :: e in fs[group[0]].evidence ==> Cites(fs, group, e);
      return Output(group, fs[group[0]].severity, fs[group[0]].evidence, {fs[group[0]].id});
    }
    var evidence := UnionEvidence(fs, group);
    out := Output(group, fs[top].severity, evidence, set x | x in group && fs[x].id != "" :: fs[x].id);
  }

  /** The whole run, before the final sort for display: one output per cluster. */
  method Dedupe(fs: seq<Finding>, gap: nat) returns (outs: seq<Output>)
    ensures IsClustering(fs, gap, MembersOf(outs)) && Total(MembersOf(outs)) == |fs|
    ensures forall g :: 0 <= g < |outs| ==>
        outs[g].members != [] && Within(outs[g].members, |fs|) && IsMerge(fs, outs[g].members, outs[g])
  {
    var groups := ClusterGroups(fs, gap);
    outs := [];
    for g := 0 to |groups|
      invariant MembersOf(outs) == groups[..g]
      invariant forall h :: 0 <= h < g ==>
          outs[h].members != [] && Within(outs[h].members, |fs|) && IsMerge(fs, outs[h].members, outs[h])
    {
      assert IsComponent(fs, gap, groups[g]);
      var out := Merge(fs, groups[g]);
      outs := outs + [out];
      TakeNext(groups, g);
    }
    TakeWhole(groups);
  }

  ghost function MembersOf(outs: seq<Output>): (groups: seq<seq<nat>>)
    ensures |groups| == |outs| && forall g :: 0 <= g < |outs| ==> groups[g] == outs[g].members
  {
    seq(|outs|, g requires 0 <= g < |outs| => outs[g].members)
  }

  /** Each finding ends up in exactly one output. */
  lemma InExactlyOne(fs: seq<Finding>, gap: nat, groups: seq<seq<nat>>, x: nat) returns (g: nat)
    requires IsClustering(fs, gap, groups) && x < |fs|
    ensures g < |groups| && x in groups[g] && forall h :: 0 <= h < |groups| && x in groups[h] ==> h == g
  {
    assert InSome(groups, x);
    g :| 0 <= g < |groups| && x in groups[g];
    forall h | 0 <= h < |groups| && x in groups[h]
      ensures h == g
    {
      SameCluster(fs, gap, groups, g, h, x);
    }
  }

  lemma SameCluster(fs: seq<Finding>, gap: nat, groups: seq<seq<nat>>, g: nat, h: nat, x: nat)
    requires IsClustering(fs, gap, groups) && g < |groups| && h < |groups| && x in groups[g] && x in groups[h]
    ensures g == h
  {
    assert IsComponent(fs, gap, groups[g]) && IsComponent(fs, gap, groups[h]);
    var a, b := groups[g][0], groups[h][0];
    assert a in groups[g] && b in groups[h];
    assert Connected(fs, gap, x, a) && Connected(fs, gap, x, b);
    assert b in groups[g] && a in groups[h];
    var i := Place(groups[g], b);
    var j := Place(groups[h], a);
    assert a <= b && b <= a;
  }
}
