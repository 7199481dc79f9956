/**
 The dependency ordering the scope module mints in: rounds of ready items, each round in input order,
 with a refusal exactly on a dependency cycle. Items are referred to by position; when two items share a
 key the last one speaks for it.
*/
module Topo {
  import opened Common
  import opened Seqs

  type Key = string

  function LastAt(keys: seq<Key>, k: Key): (p: nat)
    requires k in keys
    ensures p < |keys| && keys[p] == k
    ensures forall q :: p < q < |keys| ==> keys[q] != k
  {
    if keys[|keys| - 1] == k then |keys| - 1 else LastAt(keys[..|keys| - 1], k)
  }

  /** The items to be ordered: their keys, and what each declares that it depends on. */
  datatype Graph = Graph(keys: seq<Key>, depends: seq<seq<Key>>) {
    predicate Valid() { |keys| == |depends| }

    /** `by_key[k]`: the last position with this key. */
    function Speaker(k: Key): (p: nat)
      requires k in keys
      ensures p < |keys| && keys[p] == k
      ensures forall q :: p < q < |keys| ==> keys[q] != k
    {
      LastAt(keys, k)
    }

    /** `d` is a known dependency of key `k`. */
    predicate Needs(k: Key, d: Key)
      requires Valid()
    {
      k in keys && d in keys && d in depends[Speaker(k)]
    }

    predicate Ready(done: set<Key>, k: Key)
      requires Valid() && k in keys
    {
      k !in done && forall d :: d in depends[Speaker(k)] && d in keys ==> d in done
    }

    /** The positions whose key is ready, in input order. */
    function AllReady(done: set<Key>): (ready: seq<nat>)
      requires Valid()
      ensures forall q {:trigger q in ready} :: q in ready <==> 0 <= q < |keys| && Ready(done, keys[q])
      ensures forall i, j :: 0 <= i < j < |ready| ==> ready[i] < ready[j]
    {
      Marked(seq(|keys|, p requires 0 <= p < |keys| => Ready(done, keys[p])), 0)
    }
  }

  function Marked(marks: seq<bool>, p: nat): (places: seq<nat>)
    requires p <= |marks|
    ensures forall q {:trigger q in places} :: q in places <==> p <= q < |marks| && marks[q]
    ensures forall i, j :: 0 <= i < j < |places| ==> places[i] < places[j]
    decreases |marks| - p
  {
    if p == |marks| then []
    else
      var rest := Marked(marks, p + 1);
      assert forall j :: 0 <= j < |rest| ==> rest[j] in rest;
      if marks[p] then [p] + rest else rest
  }

  lemma SpeaksForItself(keys: seq<Key>, i: nat)
    requires NoDup(keys) && i < |keys|
    ensures LastAt(keys, keys[i]) == i
  {
    assert keys[LastAt(keys, keys[i])] == keys[i];
    var q := LastAt(keys, keys[i]);
    assert i < q ==> Differ(keys, i, q);
  }

  // ---- what an ordering and a cycle are ----

  ghost predicate DependsOn(g: Graph, p: nat, q: nat)
    requires g.Valid()
  {
    p < |g.keys| && q < |g.keys| && g.Needs(g.keys[p], g.keys[q])
  }

  /** Everything `p` depends on lies strictly lower. */
  ghost predicate AboveItsNeeds(g: Graph, level: seq<int>, p: nat)
    requires g.Valid() && |level| == |g.keys| && p < |level|
  {
    forall q: nat :: DependsOn(g, p, q) ==> 0 <= level[q] < level[p]
  }

  /** `p` lies no higher than it must: it is a root, or sits right above something it depends on. */
  ghost predicate JustAbove(g: Graph, level: seq<int>, p: nat)
    requires g.Valid() && |level| == |g.keys| && p < |level|
  {
    level[p] == 0 || exists q: nat :: DependsOn(g, p, q) && level[q] == level[p] - 1
  }

  /** `level[p]` is the length of the longest dependency chain below `p`. */
  ghost predicate IsDepth(g: Graph, level: seq<int>)
    requires g.Valid()
  {
    && |level| == |g.keys|
    && (forall p :: 0 <= p < |level| ==> level[p] >= 0)
    && (forall p {:trigger AboveItsNeeds(g, level, p)} :: 0 <= p < |level| ==> AboveItsNeeds(g, level, p))
    && (forall p {:trigger JustAbove(g, level, p)} :: 0 <= p < |level| ==> JustAbove(g, level, p))
  }

  predicate Earlier(level: seq<int>, p: nat, q: nat)
    requires p < |level| && q < |level|
  {
    level[p] < level[q] || (level[p] == level[q] && p < q)
  }

  ghost predicate SortedBy(level: seq<int>, order: seq<nat>) {
    && (forall i :: 0 <= i < |order| ==> order[i] < |level|)
    && (forall i, j :: 0 <= i < j < |order| ==> Earlier(level, order[i], order[j]))
  }

  /** THE ORDER: every position once, by depth in the dependency graph and then by place in the input. */
  ghost predicate IsOrdering(g: Graph, level: seq<int>, order: seq<nat>)
    requires g.Valid()
  {
    && IsDepth(g, level) && |order| == |g.keys| && SortedBy(level, order)
    && forall p: nat :: p < |g.keys| ==> p in order
  }

  ghost predicate Link(g: Graph, path: seq<Key>, i: nat)
    requires g.Valid() && i + 1 < |path|
  {
    g.Needs(path[i], path[i + 1])
  }

  ghost predicate IsWalk(g: Graph, path: seq<Key>)
    requires g.Valid()
  {
    forall i :: 0 <= i < |path| - 1 ==> Link(g, path, i)
  }

  /** A closed walk along known dependencies. */
  ghost predicate IsCycle(g: Graph, walk: seq<Key>)
    requires g.Valid()
  {
    |walk| >= 2 && walk[0] == walk[|walk| - 1] && IsWalk(g, walk)
  }

  /** In an ordering every item comes after all it depends on. */
  lemma DepsFirst(g: Graph, level: seq<int>, order: seq<nat>, i: nat, q: nat) returns (j: nat)
    requires g.Valid() && IsOrdering(g, level, order)
    requires i < |order| && DependsOn(g, order[i], q)
    ensures j < i && order[j] == q
  {
    assert q in order;
    j :| 0 <= j < |order| && order[j] == q;
    assert AboveItsNeeds(g, level, order[i]);
    assert !Earlier(level, order[i], q);
  }

  lemma {:induction false} DepthIsNoMore(g: Graph, level: seq<int>, other: seq<int>, p: nat)
    requires g.Valid() && IsDepth(g, level) && IsDepth(g, other) && p < |g.keys|
    ensures level[p] <= other[p]
    decreases level[p]
  {
    if level[p] > 0 {
      assert JustAbove(g, level, p);
      var q: nat :| DependsOn(g, p, q) && level[q] == level[p] - 1;
      DepthIsNoMore(g, level, other, q);
      assert AboveItsNeeds(g, other, p);
    }
  }

  /** Depth is a property of the graph alone, so the order is too. */
  lemma DepthIsUnique(g: Graph, level: seq<int>, other: seq<int>)
    requires g.Valid() && IsDepth(g, level) && IsDepth(g, other)
    ensures level == other
  {
    forall p: nat | p < |g.keys|
      ensures level[p] == other[p]
    {
      DepthIsNoMore(g, level, other, p);
      DepthIsNoMore(g, other, level, p);
    }
  }

  // ---- an ordering excludes cycles ----

  lemma OneDown(g: Graph, level: seq<int>, k: Key, d: Key)
    requires g.Valid() && IsDepth(g, level) && g.Needs(k, d)
    ensures level[g.Speaker(d)] < level[g.Speaker(k)]
  {
    assert AboveItsNeeds(g, level, g.Speaker(k));
    assert DependsOn(g, g.Speaker(k), g.Speaker(d));
  }

  ghost predicate LiesBelow(g: Graph, level: seq<int>, k: Key, top: Key, drop: nat)
    requires |level| == |g.keys|
  {
    k in g.keys && top in g.keys && level[g.Speaker(k)] + drop <= level[g.Speaker(top)]
  }

  lemma {:induction false} WalkGoesDown(g: Graph, level: seq<int>, walk: seq<Key>, k: nat)
    requires g.Valid() && IsDepth(g, level) && IsCycle(g, walk) && k < |walk|
    ensures LiesBelow(g, level, walk[k], walk[0], k)
  {
    if k == 0 {
      assert Link(g, walk, 0);
    } else {
      WalkGoesDown(g, level, walk, k - 1);
      assert Link(g, walk, k - 1);
      OneDown(g, level, walk[k - 1], walk[k]);
    }
  }

  lemma OrderingExcludesCycles(g: Graph, level: seq<int>, walk: seq<Key>)
    requires g.Valid() && IsDepth(g, level)
    ensures !IsCycle(g, walk)
  {
    if IsCycle(g, walk) { WalkGoesDown(g, level, walk, |walk| - 1); }
  }

  lemma ThereAndBack(g: Graph, a: Key, b: Key)
    requires g.Valid() && g.Needs(a, b) && g.Needs(b, a)
    ensures IsCycle(g, [a, b, a])
  {
    assert Link(g, [a, b, a], 0) && Link(g, [a, b, a], 1);
  }

  // ---- walks from one graph to another ----

  /** A renaming that carries every dependency carries every closed walk. */
  lemma CycleCarries(g: Graph, h: Graph, f: map<Key, Key>, walk: seq<Key>) returns (image: seq<Key>)
    requires g.Valid() && h.Valid() && IsCycle(g, walk)
    requires forall k, d {:trigger g.Needs(k, d)} :: g.Needs(k, d) ==> k in f && d in f && h.Needs(f[k], f[d])
    ensures IsCycle(h, image)
  {
    forall i | 0 <= i < |walk|
      ensures walk[i] in f
    {
      assert Link(g, walk, if i > 0 then i - 1 else 0);
    }
    image := seq(|walk|, i requires 0 <= i < |walk| => f[walk[i]]);
    forall i | 0 <= i < |image| - 1
      ensures Link(h, image, i)
    {
      assert Link(g, walk, i);
    }
  }

  // ---- a stuck round has a cycle ----

  ghost predicate NeedsOneOf(g: Graph, k: Key, rest: set<Key>)
    requires g.Valid()
  {
    exists d :: d in rest && g.Needs(k, d)
  }

  ghost predicate Stuck(g: Graph, rest: set<Key>)
    requires g.Valid()
  {
    rest != {} && forall k {:trigger NeedsOneOf(g, k, rest)} :: k in rest ==> NeedsOneOf(g, k, rest)
  }

  lemma Closing(g: Graph, path: seq<Key>, d: Key, i: nat)
    requires g.Valid() && IsWalk(g, path) && i < |path| && path[i] == d && g.Needs(path[|path| - 1], d)
    ensures IsCycle(g, path[i..] + [d])
  {
    var walk := path[i..] + [d];
    forall k | 0 <= k < |walk| - 1
      ensures Link(g, walk, k)
    {
      assert walk[k] == path[i + k];
      if i + k + 1 < |path| { assert Link(g, path, i + k); }
    }
  }

  ghost predicate Holds(path: seq<Key>, seen: set<Key>) {
    forall k :: k in path <==> k in seen
  }

  lemma NextNeed(g: Graph, rest: set<Key>, k: Key) returns (d: Key)
    requires g.Valid() && Stuck(g, rest) && k in rest
    ensures d in rest && g.Needs(k, d)
  {
    assert NeedsOneOf(g, k, rest);
    d :| d in rest && g.Needs(k, d);
  }

  lemma Longer(g: Graph, path: seq<Key>, seen: set<Key>, d: Key)
    requires g.Valid() && path != [] && IsWalk(g, path) && Holds(path, seen) && g.Needs(path[|path| - 1], d)
    ensures IsWalk(g, path + [d]) && Holds(path + [d], seen + {d})
  {
    var longer := path + [d];
    forall i | 0 <= i < |longer| - 1
      ensures Link(g, longer, i)
    {
      if i + 1 < |path| { assert Link(g, path, i); }
    }
  }

  lemma Place(path: seq<Key>, seen: set<Key>, d: Key) returns (i: nat)
    requires Holds(path, seen) && d in seen
    ensures i < |path| && path[i] == d
  {
    assert d in path;
    i :| 0 <= i < |path| && path[i] == d;
  }

  lemma {:induction false} FollowToACycle(g: Graph, rest: set<Key>, path: seq<Key>,
                                          seen: set<Key>) returns (walk: seq<Key>)
    requires g.Valid() && Stuck(g, rest) && path != [] && IsWalk(g, path) && Holds(path, seen)
    requires path[|path| - 1] in rest
    ensures IsCycle(g, walk)
    decreases rest - seen
  {
    var d := NextNeed(g, rest, path[|path| - 1]);
    if d in seen {
      var i := Place(path, seen, d);
      Closing(g, path, d, i);
      walk := path[i..] + [d];
    } else {
      Longer(g, path, seen, d);
      walk := FollowToACycle(g, rest, path + [d], seen + {d});
    }
  }

  // ---- counting positions ----

  function Upto(n: nat): (s: set<nat>)
    ensures forall p: nat :: p in s <==> p < n
    ensures |s| == n
  {
    if n == 0 then {} else Upto(n - 1) + {n - 1}
  }

  lemma SubsetSize(a: set<nat>, b: set<nat>)
    requires a <= b
    ensures |a| <= |b| && (|a| == |b| <==> a == b)
  {
    assert b == a + (b - a) && |b| == |a| + |b - a|;
  }

  /** Distinct positions below `n` number `n` exactly when none is missing. */
  lemma FullWhenCounted(order: seq<nat>, n: nat)
    requires NoDup(order) && forall i :: 0 <= i < |order| ==> order[i] < n
    ensures |order| <= n
    ensures |order| == n <==> forall p: nat :: p < n ==> p in order
  {
    ElementsOfDistinct(order);
    SubsetSize(Elements(order), Upto(n));
  }

  // ---- the rounds ----

  /** An unplaced item waits for something of the last round, or for something unplaced itself. */
  ghost predicate Waits(g: Graph, level: seq<int>, p: nat, round: nat)
    requires g.Valid() && |level| == |g.keys| && p < |level|
  {
    round == 0 || exists q: nat :: DependsOn(g, p, q) && (level[q] < 0 || level[q] == round - 1)
  }

  ghost predicate Placed(g: Graph, level: seq<int>, done: set<Key>, order: seq<nat>, round: nat)
    requires g.Valid() && |level| == |g.keys|
  {
    forall p: nat :: p < |level| ==> level[p] < round && (level[p] >= 0 <==> g.keys[p] in done) && (level[p] >= 0 <==>
        p in order)
  }

  ghost predicate InPlace(g: Graph, level: seq<int>, p: nat, round: nat)
    requires g.Valid() && |level| == |g.keys| && p < |level|
  {
    if level[p] >= 0 then AboveItsNeeds(g, level, p) && JustAbove(g, level, p) else Waits(g, level, p, round)
  }

  ghost predicate Grounded(g: Graph, level: seq<int>, round: nat)
    requires g.Valid() && |level| == |g.keys|
  {
    forall p: nat {:trigger InPlace(g, level, p, round)} :: p < |level| ==> InPlace(g, level, p, round)
  }

  /** After `round` rounds: what is placed is placed right, and `done` is its keys. */
  ghost predicate Rounds(g: Graph, level: seq<int>, done: set<Key>, order: seq<nat>, round: nat)
    requires g.Valid()
  {
    |level| == |g.keys| && Placed(g, level, done, order, round) && SortedBy(level, order) && Grounded(g, level, round)
  }

  ghost function Raised(level: seq<int>, ready: seq<nat>, round: nat): (next: seq<int>)
    ensures |next| == |level|
  {
    seq(|level|, p requires 0 <= p < |level| => if p in ready then round else level[p])
  }

  ghost function KeysAt(g: Graph, places: seq<nat>): (ks: set<Key>)
    requires forall i :: 0 <= i < |places| ==> places[i] < |g.keys|
    ensures forall k :: k in ks <==> exists i :: 0 <= i < |places| && g.keys[places[i]] == k
  {
    set i | 0 <= i < |places| :: g.keys[places[i]]
  }

  function Speakers(g: Graph, places: seq<nat>): (s: seq<nat>)
    requires forall i :: 0 <= i < |places| ==> places[i] < |g.keys|
    ensures |s| == |places|
    ensures forall i :: 0 <= i < |places| ==> s[i] == g.Speaker(g.keys[places[i]])
  {
    seq(|places|, i requires 0 <= i < |places| => g.Speaker(g.keys[places[i]]))
  }

  /** Items with the same key are ready in the same round. */
  lemma ReadyKeys(g: Graph, done: set<Key>, ready: seq<nat>, p: nat)
    requires g.Valid() && ready == g.AllReady(done) && p < |g.keys|
    ensures forall i :: 0 <= i < |ready| ==> ready[i] < |g.keys|
    ensures p in ready <==> Ready(g, done, p)
    ensures g.keys[p] in KeysAt(g, ready) <==> p in ready
  {
    forall i | 0 <= i < |ready|
      ensures ready[i] < |g.keys| && g.Ready(done, g.keys[ready[i]])
    {
      assert ready[i] in ready;
    }
  }

  ghost predicate Ready(g: Graph, done: set<Key>, p: nat)
    requires g.Valid() && p < |g.keys|
  {
    g.Ready(done, g.keys[p])
  }

  lemma StillGrounded(g: Graph, level: seq<int>, done: set<Key>, order: seq<nat>, round: nat, ready: seq<nat>, p: nat)
    requires g.Valid() && Rounds(g, level, done, order, round) && ready == g.AllReady(done)
    requires p < |level|
    ensures InPlace(g, Raised(level, ready, round), p, round + 1)
  {
    var next := Raised(level, ready, round);
    assert InPlace(g, level, p, round);
    ReadyKeys(g, done, ready, p);
    if level[p] >= 0 {
      assert p !in ready;
      forall q: nat | DependsOn(g, p, q)
        ensures next[q] == level[q]
      {
        assert AboveItsNeeds(g, level, p);
        ReadyKeys(g, done, ready, q);
      }
    } else if p in ready {
      forall q: nat | DependsOn(g, p, q)
        ensures next[q] == level[q] && 0 <= level[q] < round
      {
        ReadyKeys(g, done, ready, q);
      }
      assert Waits(g, level, p, round);
    } else {
      var d :| d in g.depends[g.Speaker(g.keys[p])] && d in g.keys && d !in done;
      var q := g.Speaker(d);
      assert DependsOn(g, p, q) && level[q] < 0;
    }
  }

  lemma StillPlaced(g: Graph, level: seq<int>, done: set<Key>, order: seq<nat>, round: nat, ready: seq<nat>)
    requires g.Valid() && Rounds(g, level, done, order, round) && ready == g.AllReady(done)
    requires forall i :: 0 <= i < |ready| ==> ready[i] < |g.keys|
    ensures Placed(g, Raised(level, ready, round), done + KeysAt(g, ready), order + ready, round + 1)
  {
    var next := Raised(level, ready, round);
    forall p: nat | p < |level|
      ensures next[p] < round + 1
      ensures next[p] >= 0 <==> g.keys[p] in done + KeysAt(g, ready)
      ensures next[p] >= 0 <==> p in order + ready
    {
      ReadyKeys(g, done, ready, p);
    }
  }

  lemma NextRound(g: Graph, level: seq<int>, done: set<Key>, order: seq<nat>, round: nat, ready: seq<nat>)
    requires g.Valid() && Rounds(g, level, done, order, round) && ready == g.AllReady(done)
    ensures forall i :: 0 <= i < |ready| ==> ready[i] < |g.keys|
    ensures Rounds(g, Raised(level, ready, round), done + KeysAt(g, ready), order + ready, round + 1)
  {
    InRange(g, done, ready);
    StillPlaced(g, level, done, order, round, ready);
    StillSorted(g, level, done, order, round, ready);
    AllStillGrounded(g, level, done, order, round, ready);
  }

  lemma AllStillGrounded(g: Graph, level: seq<int>, done: set<Key>, order: seq<nat>, round: nat, ready: seq<nat>)
    requires g.Valid() && Rounds(g, level, done, order, round) && ready == g.AllReady(done)
    ensures Grounded(g, Raised(level, ready, round), round + 1)
  {
    var next, following := Raised(level, ready, round), round + 1;
    forall p: nat | p < |level|
      ensures InPlace(g, next, p, following)
    {
      StillGrounded(g, level, done, order, round, ready, p);
    }
  }

  lemma InRange(g: Graph, done: set<Key>, ready: seq<nat>)
    requires g.Valid() && ready == g.AllReady(done)
    ensures forall i :: 0 <= i < |ready| ==> ready[i] < |g.keys| && Ready(g, done, ready[i])
  {
    forall i | 0 <= i < |ready|
      ensures ready[i] < |g.keys| && Ready(g, done, ready[i])
    {
      assert ready[i] in ready;
    }
  }

  lemma StillSorted(g: Graph, level: seq<int>, done: set<Key>, order: seq<nat>, round: nat, ready: seq<nat>)
    requires g.Valid() && Rounds(g, level, done, order, round) && ready == g.AllReady(done)
    ensures SortedBy(Raised(level, ready, round), order + ready)
  {
    var next := Raised(level, ready, round);
    InRange(g, done, ready);
    forall i | 0 <= i < |order|
      ensures order[i] < |level| && next[order[i]] == level[order[i]] < round
    {
      assert order[i] in order;
      assert level[order[i]] >= 0;
    }
    forall i | 0 <= i < |ready|
      ensures next[ready[i]] == round
    {
      assert ready[i] in ready;
    }
  }

  ghost function Undone(g: Graph, done: set<Key>): (rest: set<Key>)
    ensures forall k :: k in rest <==> k in g.keys && k !in done
  {
    set k | k in g.keys && k !in done
  }

  lemma NotReadyMeansBlocked(g: Graph, done: set<Key>, k: Key)
    requires g.Valid() && g.AllReady(done) == [] && k in Undone(g, done)
    ensures NeedsOneOf(g, k, Undone(g, done))
  {
    assert g.Speaker(k) !in g.AllReady(done);
    assert !g.Ready(done, k);
    var d :| d in g.depends[g.Speaker(k)] && d in g.keys && d !in done;
    assert d in Undone(g, done) && g.Needs(k, d);
  }

  lemma NothingReady(g: Graph, level: seq<int>, done: set<Key>, order: seq<nat>, round: nat) returns (walk: seq<Key>)
    requires g.Valid() && Rounds(g, level, done, order, round) && g.AllReady(done) == []
    requires |order| < |g.keys|
    ensures IsCycle(g, walk)
  {
    var k := SomethingUndone(g, level, done, order, round);
    forall k | k in Undone(g, done)
      ensures NeedsOneOf(g, k, Undone(g, done))
    {
      NotReadyMeansBlocked(g, done, k);
    }
    assert Holds([k], {k});
    walk := FollowToACycle(g, Undone(g, done), [k], {k});
  }

  lemma SomethingUndone(g: Graph, level: seq<int>, done: set<Key>, order: seq<nat>, round: nat) returns (k: Key)
    requires g.Valid() && Rounds(g, level, done, order, round) && |order| < |g.keys|
    ensures k in Undone(g, done)
  {
    FullWhenCounted(order, |g.keys|);
    var p: nat :| p < |g.keys| && p !in order;
    k := g.keys[p];
  }

  lemma Finished(g: Graph, level: seq<int>, done: set<Key>, order: seq<nat>, round: nat)
    requires g.Valid() && Rounds(g, level, done, order, round)
    ensures |order| <= |g.keys|
    ensures |order| == |g.keys| ==> IsOrdering(g, level, order)
  {
    FullWhenCounted(order, |g.keys|);
    if |order| == |g.keys| {
      forall p: nat | p < |level|
        ensures level[p] >= 0 && AboveItsNeeds(g, level, p) && JustAbove(g, level, p)
      {
        assert InPlace(g, level, p, round);
      }
    }
  }

  lemma SpeakersSplit(g: Graph, a: seq<nat>, b: seq<nat>)
    requires forall i :: 0 <= i < |a| ==> a[i] < |g.keys|
    requires forall i :: 0 <= i < |b| ==> b[i] < |g.keys|
    ensures Speakers(g, a + b) == Speakers(g, a) + Speakers(g, b)
  {
  }

  lemma DistinctSpeakForThemselves(g: Graph, places: seq<nat>)
    requires NoDup(g.keys) && forall i :: 0 <= i < |places| ==> places[i] < |g.keys|
    ensures Speakers(g, places) == places
  {
    forall i | 0 <= i < |places|
      ensures Speakers(g, places)[i] == places[i]
    {
      SpeaksForItself(g.keys, places[i]);
    }
  }

  /**
   Orders the items, or refuses. The result lists items by position; with distinct keys it is the ordering
   itself. It refuses exactly when the known dependencies close a cycle.
  */
  method Sort(g: Graph) returns (r: Option<seq<nat>>, ghost level: seq<int>, ghost order: seq<nat>)
    requires g.Valid()
    ensures r.Some? ==> IsOrdering(g, level, order) && r.value == Speakers(g, order)
    ensures r.Some? && NoDup(g.keys) ==> r.value == order
    ensures r.None? <==> exists walk :: IsCycle(g, walk)
  {
    var out: seq<nat>, done: set<Key> := [], {};
    ghost var round: nat := 0;
    level, order := seq(|g.keys|, _ => -1), [];
    assert Rounds(g, level, done, order, round);
    while |out| < |g.keys|
      invariant Rounds(g, level, done, order, round) && out == Speakers(g, order)
      decreases |g.keys| - |out|
    {
      var ready := g.AllReady(done);
      if ready == [] {
        ghost var walk := NothingReady(g, level, done, order, round);
        return None, level, order;
      }
      NextRound(g, level, done, order, round, ready);
      SpeakersSplit(g, order, ready);
      out, done := TakeAll(g, ready, out, done);
      level, order, round := Raised(level, ready, round), order + ready, round + 1;
    }
    Finished(g, level, done, order, round);
    NoCycle(g, level);
    if NoDup(g.keys) { DistinctSpeakForThemselves(g, order); }
    r := Some(out);
  }

  lemma NoCycle(g: Graph, level: seq<int>)
    requires g.Valid() && IsDepth(g, level)
    ensures !exists walk :: IsCycle(g, walk)
  {
    forall walk
      ensures !IsCycle(g, walk)
    {
      OrderingExcludesCycles(g, level, walk);
    }
  }

  lemma OneTaken(g: Graph, ready: seq<nat>, j: nat)
    requires j < |ready| && forall i :: 0 <= i < |ready| ==> ready[i] < |g.keys|
    ensures Speakers(g, ready[..j + 1]) == Speakers(g, ready[..j]) + [g.Speaker(g.keys[ready[j]])]
    ensures KeysAt(g, ready[..j + 1]) == KeysAt(g, ready[..j]) + {g.keys[ready[j]]}
  {
    assert ready[..j + 1][j] == ready[j];
    assert forall i :: 0 <= i < j ==> ready[..j + 1][i] == ready[..j][i];
  }

  method TakeAll(g: Graph, ready: seq<nat>, out0: seq<nat>, done0: set<Key>) returns (out: seq<nat>, done: set<Key>)
    requires forall i :: 0 <= i < |ready| ==> ready[i] < |g.keys|
    ensures out == out0 + Speakers(g, ready) && done == done0 + KeysAt(g, ready)
  {
    out, done := out0, done0;
    for j := 0 to |ready|
      invariant out == out0 + Speakers(g, ready[..j]) && done == done0 + KeysAt(g, ready[..j])
    {
      out, done := out + [g.Speaker(g.keys[ready[j]])], done + {g.keys[ready[j]]};
      OneTaken(g, ready, j);
    }
    assert ready[..|ready|] == ready;
  }
}
