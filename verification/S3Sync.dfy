/**
 Push and pull of a vault against an object store. Each method gets a budget of network requests and
 stops short when it is used up, so a run may break off after any single request. One push or pull at a
 time has the bucket to itself. Content hashes are modelled as injective: contents are compared directly.
*/
module S3Sync {
  import opened ShardLog

  type Bytes = string

  /** The shards of a log, by sequence number. */
  type Shards = map<nat, Bytes>

  /** No number below a present one is missing. */
  ghost predicate NoGap(log: Shards) {
    forall p: nat, q: nat :: q in log && p < q ==> p in log
  }

  ghost predicate Includes(whole: Shards, part: Shards) {
    forall q :: q in part ==> q in whole && whole[q] == part[q]
  }

  /** A node's vault: its shards, its other files, and the file hashes recorded at the last sync. */
  datatype NodeState = NodeState(log: Shards, files: map<string, Bytes>, baseline: map<string, Bytes>)

  /** The bucket; `past` collects every content a file object has had. */
  datatype BucketState = BucketState(log: Shards, files: map<string, Bytes>, past: set<(string, Bytes)>)

  datatype Outcome =
    | Done
    | PullFirst                      // push: the bucket has shards this vault lacks
    | NothingToPull
    | Gapped                         // pull: the shards would not be gapless
    | GappedAfterwards               // pull: they are not gapless after the download
    | Fork(at: nat)                  // one number, two contents
    | EditedLocally(file: string)    // pull: would overwrite a local edit
    | Interrupted

  // ---- what a push and a pull do, as relations ----

  /** `after` is `before` plus an initial part of what `source` has on top of it. */
  ghost predicate Copied(before: Shards, source: Shards, after: Shards) {
    && Includes(after, before)
    && (forall q :: q in after && q !in before ==> q in source && after[q] == source[q])
    && (forall p, q :: q in after && q !in before && p in source && p < q ==> p in after)
  }

  /** The two logs disagree at `at`, and agree on every number below it. */
  ghost predicate ForkAt(a: Shards, b: Shards, at: nat) {
    && at in a && at in b && a[at] != b[at]
    && forall q :: q in a && q in b && q < at ==> a[q] == b[q]
  }

  ghost predicate NewOnlyBelow(before: Shards, after: Shards, limit: nat) {
    forall q :: q in after && q !in before ==> q < limit
  }

  /** File objects are overwritten with local contents one by one, and remembered. */
  ghost predicate FilesPut(local: map<string, Bytes>, b: BucketState, b': BucketState) {
    && b.files.Keys <= b'.files.Keys && b.past <= b'.past
    && (forall f :: f in b'.files ==>
          || (f in b.files && b'.files[f] == b.files[f])
          || (f in local && b'.files[f] == local[f] && (f, local[f]) in b'.past))
    && (forall e :: e in b'.past && e !in b.past ==>
          e.0 in local && e.1 == local[e.0] && e.0 in b'.files && b'.files[e.0] == e.1)
  }

  ghost predicate SameFiles(files: map<string, Bytes>, part: map<string, Bytes>) {
    forall f :: f in part ==> f in files && files[f] == part[f]
  }

  ghost predicate Pushed(n: NodeState, b: BucketState, n': NodeState, b': BucketState, outcome: Outcome) {
    && n'.log == n.log && n'.files == n.files
    && Copied(b.log, n.log, b'.log)
    && FilesPut(n.files, b, b')
    && (outcome == PullFirst <==> !(b.log.Keys <= n.log.Keys))
    && match outcome
       case Done => Includes(b'.log, n.log) && SameFiles(b'.files, n.files) && n'.baseline == n.files
       case PullFirst => b' == b && n' == n
       case Fork(at) => ForkAt(n.log, b.log, at) && NewOnlyBelow(b.log, b'.log, at) && b'.files == b.files && n' == n
       case Interrupted => n' == n && (b'.files == b.files || Includes(b'.log, n.log))
       case _ => false
  }

  /** The remote file is what it was at the last sync. */
  ghost predicate Unmoved(f: string, n: NodeState, remote: map<string, Bytes>) {
    f in remote && f in n.baseline && n.baseline[f] == remote[f]
  }

  /** A remote file takes the local one's place: new here, or another one that moved where the local may be given up. */
  ghost predicate Replaces(f: string, n: NodeState, remote: map<string, Bytes>, force: bool) {
    && f in remote
    && (f in n.files ==> n.files[f] != remote[f] && !Unmoved(f, n, remote) && (Unedited(f, n) || force))
  }

  /** A file of the vault is as it was, or replaced by the remote one. */
  ghost predicate FileKept(f: string, n: NodeState, remote: map<string, Bytes>, after: Bytes, force: bool) {
    || (f in n.files && after == n.files[f])
    || (Replaces(f, n, remote, force) && after == remote[f])
  }

  ghost predicate Unedited(f: string, n: NodeState) {
    f in n.files && f in n.baseline && n.baseline[f] == n.files[f]
  }

  /** The remote file is dealt with: it did not have to be refused, and took the local one's place if it does. */
  ghost predicate FileSettled(f: string, n: NodeState, remote: map<string, Bytes>, after: map<string, Bytes>,
                              force: bool) {
    && f in after && !MustRefuse(f, n, remote, force)
    && (Replaces(f, n, remote, force) ==> after[f] == remote[f])
    && (!Replaces(f, n, remote, force) ==> f in n.files && after[f] == n.files[f])
  }

  /** The local file was edited and the remote one has moved. */
  ghost predicate MustRefuse(f: string, n: NodeState, remote: map<string, Bytes>, force: bool) {
    && f in remote && f in n.files && n.files[f] != remote[f] && !Unedited(f, n) && !force && !Unmoved(f, n, remote)
  }

  ghost predicate FilesPulled(n: NodeState, remote: map<string, Bytes>, after: map<string, Bytes>, force: bool) {
    n.files.Keys <= after.Keys && forall f :: f in after ==> FileKept(f, n, remote, after[f], force)
  }

  ghost predicate Planned(n: NodeState, b: BucketState) {
    forall p: nat, q: nat :: (q in n.log || q in b.log) && p < q ==> p in n.log || p in b.log
  }

  ghost predicate Pulled(n: NodeState, b: BucketState, n': NodeState, outcome: Outcome, force: bool) {
    && Copied(n.log, b.log, n'.log)
    && FilesPulled(n, b.files, n'.files, force)
    && (outcome == NothingToPull <==> b.log == map[] && b.files == map[])
    && (outcome == Gapped <==> !(b.log == map[] && b.files == map[]) && !Planned(n, b))
    && match outcome
       case Done =>
         && Includes(n'.log, b.log) && NoGap(n'.log)
         && (forall f :: f in b.files ==> FileSettled(f, n, b.files, n'.files, force))
         && n'.baseline == n.baseline + b.files
       case NothingToPull => n' == n
       case Gapped => n' == n
       case Fork(at) => ForkAt(b.log, n.log, at) && NewOnlyBelow(n.log, n'.log, at) && n'.files == n.files
           && n'.baseline == n.baseline
       case EditedLocally(f) =>
         MustRefuse(f, n, b.files, force) && Includes(n'.log, b.log) && n'.baseline == n.baseline
       case Interrupted => n'.baseline == n.baseline && (n'.files == n.files || Includes(n'.log, b.log))
       case _ => false
  }

  // ---- the methods ----

  class Node {
    var log: Shards
    var files: map<string, Bytes>
    var baseline: map<string, Bytes>

    ghost function State(): NodeState
      reads this
    {
      NodeState(log, files, baseline)
    }
  }

  class Bucket {
    var log: Shards
    var files: map<string, Bytes>
    ghost var past: set<(string, Bytes)>

    ghost function State(): BucketState
      reads this
    {
      BucketState(log, files, past)
    }
  }

  datatype Leg = Leg(ok: bool, outcome: Outcome, left: nat)

  /** How many shards a log has below q. */
  ghost function Count(log: Shards, q: nat): nat {
    if q == 0 then 0 else Count(log, q - 1) + (if q - 1 in log then 1 else 0)
  }

  lemma {:induction false} CountGrows(log: Shards, p: nat, q: nat)
    requires p <= q
    ensures Count(log, p) <= Count(log, q)
  {
    if p < q { CountGrows(log, p, q - 1); }
  }

  lemma {:induction false} CountsBelow(log: Shards, q: nat)
    ensures Count(log, q) == |set p | p in log.Keys && p < q|
  {
    var below := set p | p in log.Keys && p < q;
    if q == 0 {
      assert below == {};
    } else {
      CountsBelow(log, q - 1);
      var before := set p | p in log.Keys && p < q - 1;
      assert below == if q - 1 in log then before + {q - 1} else before;
    }
  }

  lemma CountsAll(log: Shards, q: nat)
    requires forall p :: p in log ==> p < q
    ensures Count(log, q) == |log|
  {
    CountsBelow(log, q);
    assert (set p | p in log.Keys && p < q) == log.Keys;
  }

  /** The shard leg of a push: ascending numbers, compare what is there, put what is missing. */
  method PushShards(node: Node, bucket: Bucket, budget: nat) returns (leg: Leg)
    requires bucket.log.Keys <= node.log.Keys
    modifies bucket`log
    ensures Copied(old(bucket.log), node.log, bucket.log)
    ensures leg.ok ==> Includes(bucket.log, node.log)
    ensures !leg.ok ==> leg.outcome.Fork? || leg.outcome.Interrupted?
    ensures !leg.ok && leg.outcome.Fork? ==> ForkAt(node.log, old(bucket.log), leg.outcome.at)
    ensures !leg.ok && leg.outcome.Fork? ==> NewOnlyBelow(old(bucket.log), bucket.log, leg.outcome.at)
    ensures leg.ok ==> leg.outcome == Done && leg.left + |node.log| == budget
    ensures leg.outcome == Interrupted ==> budget < |node.log|
  {
    ghost var before := bucket.log;
    var end := NextSeq(node.log);
    CountsAll(node.log, end);
    var left: nat := budget;
    for q := 0 to end
      invariant left + Count(node.log, q) == budget
      invariant Copied(before, node.log, bucket.log) && NewOnlyBelow(before, bucket.log, q)
      invariant forall p: nat :: p < q && p in node.log ==> p in bucket.log && bucket.log[p] == node.log[p]
      invariant forall p: nat :: p < q && p in node.log && p in before ==> before[p] == node.log[p]
    {
      if q in node.log {
        if left == 0 {
          CountGrows(node.log, q + 1, end);
          return Leg(false, Interrupted, 0);
        }
        left := left - 1;
        if q in bucket.log {
          if bucket.log[q] != node.log[q] {
            return Leg(false, Fork(q), left);
          }
        } else {
          bucket.log := bucket.log[q := node.log[q]];
        }
      }
    }
    leg := Leg(true, Done, left);
  }

  lemma PutOneFile(local: map<string, Bytes>, b: BucketState, was: BucketState, b': BucketState, f: string)
    requires FilesPut(local, b, was) && f in local && b'.files == was.files[f := local[f]]
    requires b'.past == was.past + {(f, local[f])} || (b'.past == was.past && b'.files == was.files)
    ensures FilesPut(local, b, b')
  {
  }

  /** The remote file is there and is another. */
  ghost predicate Clobbers(local: map<string, Bytes>, remote: map<string, Bytes>, f: string) {
    f in local && f in remote && remote[f] != local[f]
  }

  /** One file of a push: compared if it is there already, and put if it is not or is another. */
  method PushFile(node: Node, bucket: Bucket, f: string, left: nat) returns (ok: bool, rest: nat)
    requires f in node.files
    modifies bucket`files, bucket`past
    ensures ok <==> left >= if Clobbers(node.files, old(bucket.files), f) then 2 else 1
    ensures ok ==> rest == left - if Clobbers(node.files, old(bucket.files), f) then 2 else 1
    ensures ok ==> bucket.files == old(bucket.files)[f := node.files[f]]
    ensures ok ==>
              bucket.past == old(bucket.past) + (if SameAt(old(bucket.files), f, node.files[f]) then {}
                                                 else {(f, node.files[f])})
    ensures !ok ==> bucket.State() == old(bucket.State())
  {
    var known := f in bucket.files;
    var differs := known && bucket.files[f] != node.files[f];
    if left < (if differs then 2 else 1) {
      return false, left;
    }
    ok, rest := true, left - (if differs then 2 else 1);
    if !known || differs {
      bucket.files, bucket.past := bucket.files[f := node.files[f]], bucket.past + {(f, node.files[f])};
    }
  }

  ghost predicate SameAt(files: map<string, Bytes>, f: string, c: Bytes) {
    f in files && files[f] == c
  }

  /** The file leg of a push: the last writer wins, file by file. */
  method PushFiles(node: Node, bucket: Bucket, budget: nat) returns (ok: bool)
    modifies bucket`files, bucket`past
    ensures FilesPut(node.files, old(bucket.State()), bucket.State())
    ensures ok ==> SameFiles(bucket.files, node.files)
    ensures ok ==> budget >= |node.files|
    ensures budget >= 2 * |node.files| ==> ok
  {
    ghost var before := bucket.State();
    var todo := node.files.Keys;
    var left: nat := budget;
    while todo != {}
      invariant todo <= node.files.Keys && bucket.log == before.log
      invariant left + |node.files| <= budget + |todo| && budget + 2 * |todo| <= left + 2 * |node.files|
      invariant FilesPut(node.files, before, bucket.State())
      invariant forall f :: f in node.files && f !in todo ==> SameAt(bucket.files, f, node.files[f])
      decreases |todo|
    {
      var f :| f in todo;
      ghost var was := bucket.State();
      ok, left := PushFile(node, bucket, f, left);
      if !ok {
        return;
      }
      PutOneFile(node.files, before, was, bucket.State(), f);
      todo := todo - {f};
    }
    ok := true;
  }

  /** Push: pull-first guard, then shards in order, then files, and the baseline only at the very end. */
  method SyncPush(node: Node, bucket: Bucket, budget: nat) returns (outcome: Outcome)
    modifies node`baseline, bucket
    ensures Pushed(old(node.State()), old(bucket.State()), node.State(), bucket.State(), outcome)
    ensures outcome == Done ==> budget >= |node.log| + |node.files|
    ensures outcome == Interrupted ==> budget < |node.log| + 2 * |node.files|
  {
    if !(bucket.log.Keys <= node.log.Keys) {
      return PullFirst;
    }
    var leg := PushShards(node, bucket, budget);
    if !leg.ok {
      return leg.outcome;
    }
    var ok := PushFiles(node, bucket, leg.left);
    if !ok {
      return Interrupted;
    }
    node.baseline := node.files;
    outcome := Done;
  }

  /** The planned set, the local shards and the remote ones, has no gap: every number but 0 has its predecessor. */
  method PlanIsGapless(node: Node, bucket: Bucket) returns (ok: bool)
    ensures ok <==> Planned(node.State(), bucket.State())
  {
    var planned := node.log.Keys + bucket.log.Keys;
    ok := HavePredecessors(planned);
    ClosedDownwards(planned);
    PlannedKeys(node.State(), bucket.State(), planned);
  }

  lemma PlannedKeys(n: NodeState, b: BucketState, planned: set<nat>)
    requires planned == n.log.Keys + b.log.Keys
    ensures Planned(n, b) <==> (forall p: nat, q: nat :: q in planned && p < q ==> p in planned)
  {
    if Planned(n, b) {
      forall p: nat, q: nat | q in planned && p < q
        ensures p in planned
      {
        assert q in n.log || q in b.log;
      }
    }
    if forall p: nat, q: nat :: q in planned && p < q ==> p in planned {
      forall p: nat, q: nat | (q in n.log || q in b.log) && p < q
        ensures p in n.log || p in b.log
      {
        assert q in planned && p in planned;
      }
    }
  }

  predicate HavePredecessors(planned: set<nat>) {
    forall q :: q in planned && q > 0 ==> q - 1 in planned
  }

  lemma {:induction false} PredecessorsReachDown(planned: set<nat>, p: nat, q: nat)
    requires HavePredecessors(planned)
    requires q in planned && p <= q
    ensures p in planned
    decreases q
  {
    if p < q { PredecessorsReachDown(planned, p, q - 1); }
  }

  lemma ClosedDownwards(planned: set<nat>)
    ensures HavePredecessors(planned) <==> (forall p: nat, q: nat :: q in planned && p < q ==> p in planned)
  {
    if HavePredecessors(planned) {
      forall p: nat, q: nat | q in planned && p < q
        ensures p in planned
      {
        PredecessorsReachDown(planned, p, q);
      }
    }
  }

  /** The shard leg of a pull: ascending numbers, compare what is here, fetch what is missing. */
  method PullShards(node: Node, bucket: Bucket, budget: nat) returns (leg: Leg)
    modifies node`log
    ensures Copied(old(node.log), bucket.log, node.log)
    ensures leg.ok ==> Includes(node.log, bucket.log)
    ensures !leg.ok ==> leg.outcome.Fork? || leg.outcome.Interrupted?
    ensures !leg.ok && leg.outcome.Fork? ==> ForkAt(bucket.log, old(node.log), leg.outcome.at)
    ensures !leg.ok && leg.outcome.Fork? ==> NewOnlyBelow(old(node.log), node.log, leg.outcome.at)
    ensures leg.ok ==> leg.outcome == Done && leg.left + |bucket.log| == budget
    ensures leg.outcome == Interrupted ==> budget < |bucket.log|
  {
    ghost var before := node.log;
    var end := NextSeq(bucket.log);
    CountsAll(bucket.log, end);
    var left: nat := budget;
    for q := 0 to end
      invariant left + Count(bucket.log, q) == budget
      invariant Copied(before, bucket.log, node.log) && NewOnlyBelow(before, node.log, q)
      invariant forall p: nat :: p < q && p in bucket.log ==> p in node.log && node.log[p] == bucket.log[p]
      invariant forall p: nat :: p < q && p in bucket.log && p in before ==> before[p] == bucket.log[p]
    {
      if q in bucket.log {
        if left == 0 {
          CountGrows(bucket.log, q + 1, end);
          return Leg(false, Interrupted, 0);
        }
        left := left - 1;
        if q in node.log {
          if node.log[q] != bucket.log[q] {
            return Leg(false, Fork(q), left);
          }
        } else {
          node.log := node.log[q := bucket.log[q]];
        }
      }
    }
    leg := Leg(true, Done, left);
  }

  /** What to do with one remote file, given the local one and the content recorded at the last sync. */
  datatype Merge = Take | Keep | Refuse

  function MergeFile(local: map<string, Bytes>, baseline: map<string, Bytes>, f: string, remote: Bytes,
                     force: bool): Merge {
    if f !in local then Take
    else if local[f] == remote then Keep
    else if f in baseline && baseline[f] == remote then Keep
    else if f in baseline && baseline[f] == local[f] then Take
    else if !force then Refuse
    else Take
  }

  lemma TakeOneFile(n: NodeState, remote: map<string, Bytes>, after: map<string, Bytes>, f: string, force: bool)
    requires FilesPulled(n, remote, after, force) && f in remote
    requires f in after ==> f in n.files && after[f] == n.files[f]
    requires MergeFile(after, n.baseline, f, remote[f], force) == Take
    ensures FilesPulled(n, remote, after[f := remote[f]], force)
  {
    var taken := after[f := remote[f]];
    assert FileKept(f, n, remote, remote[f], force);
    forall g | g in taken
      ensures FileKept(g, n, remote, taken[g], force)
    {
      if g != f { assert FileKept(g, n, remote, after[g], force); }
    }
  }

  /** The file leg of a pull: a three-way merge on the baseline; `edited` names the file that stopped it. */
  method PullFiles(node: Node, bucket: Bucket, force: bool, budget: nat) returns (outcome: Outcome)
    modifies node`files
    ensures FilesPulled(old(node.State()), bucket.files, node.files, force)
    ensures outcome == Done ==> forall f :: f in bucket.files ==>
        FileSettled(f, old(node.State()), bucket.files, node.files, force)
    ensures outcome.EditedLocally? ==> MustRefuse(outcome.file, old(node.State()), bucket.files, force)
    ensures outcome.Done? || outcome.EditedLocally? || outcome.Interrupted?
    ensures outcome == Done ==> budget >= |bucket.files|
    ensures outcome == Interrupted ==> budget < |bucket.files|
  {
    ghost var n := node.State();
    var todo := bucket.files.Keys;
    var left: nat := budget;
    while todo != {}
      invariant todo <= bucket.files.Keys && node.log == n.log && node.baseline == n.baseline
      invariant left + |bucket.files| == budget + |todo|
      invariant FilesPulled(n, bucket.files, node.files, force)
      invariant forall f :: f in todo ==> (f in node.files <==> f in n.files) && (f in n.files ==>
          node.files[f] == n.files[f])
      invariant forall f :: f in bucket.files && f !in todo ==> FileSettled(f, n, bucket.files, node.files, force)
      decreases |todo|
    {
      var f :| f in todo;
      if left == 0 {
        return Interrupted;
      }
      left := left - 1;
      var merge := MergeFile(node.files, node.baseline, f, bucket.files[f], force);
      if merge == Refuse {
        return EditedLocally(f);
      }
      if merge == Take {
        TakeOneFile(n, bucket.files, node.files, f, force);
        node.files := node.files[f := bucket.files[f]];
      }
      todo := todo - {f};
    }
    outcome := Done;
  }

  /** The rest of a pull, once the shards are here: the files, and then the baseline. */
  method MergeFiles(node: Node, bucket: Bucket, force: bool, budget: nat, ghost n: NodeState)
    returns (outcome: Outcome)
    requires node.files == n.files && node.baseline == n.baseline && Planned(n, bucket.State())
    requires Copied(n.log, bucket.log, node.log) && Includes(node.log, bucket.log) && NoGap(node.log)
    requires bucket.log != map[] || bucket.files != map[]
    modifies node`files, node`baseline
    ensures Pulled(n, bucket.State(), node.State(), outcome, force)
    ensures outcome == Done ==> budget >= |bucket.files|
    ensures outcome == Interrupted ==> budget < |bucket.files|
  {
    ghost var before := node.State();
    outcome := PullFiles(node, bucket, force, budget);
    SameMerge(n, before, bucket.files, node.files, force);
    if outcome == Done {
      node.baseline := node.baseline + bucket.files;
    }
  }

  /** The merge looks at files and baseline only. */
  lemma SameMerge(n: NodeState, m: NodeState, remote: map<string, Bytes>, after: map<string, Bytes>, force: bool)
    requires n.files == m.files && n.baseline == m.baseline
    ensures FilesPulled(n, remote, after, force) <==> FilesPulled(m, remote, after, force)
    ensures forall f :: FileSettled(f, n, remote, after, force) <==> FileSettled(f, m, remote, after, force)
    ensures forall f :: MustRefuse(f, n, remote, force) <==> MustRefuse(f, m, remote, force)
  {
    forall f | f in after
      ensures FileKept(f, n, remote, after[f], force) <==> FileKept(f, m, remote, after[f], force)
    {
    }
  }

  /** Pull: check the plan before writing anything, then shards in order, then files, then the baseline. */
  method SyncPull(node: Node, bucket: Bucket, force: bool, budget: nat) returns (outcome: Outcome)
    modifies node
    ensures Pulled(old(node.State()), bucket.State(), node.State(), outcome, force)
    ensures outcome == Done ==> budget >= |bucket.log| + |bucket.files|
    ensures outcome == Interrupted ==> budget < |bucket.log| + |bucket.files|
  {
    if bucket.log == map[] && bucket.files == map[] {
      return NothingToPull;
    }
    var gapless := PlanIsGapless(node, bucket);
    if !gapless {
      return Gapped;
    }
    var leg := PullShards(node, bucket, budget);
    if !leg.ok {
      return leg.outcome;
    }
    var sound := LogIsGapless(node);
    if !sound {
      return GappedAfterwards;
    }
    outcome := MergeFiles(node, bucket, force, leg.left, old(node.State()));
  }

  /** The check after the download. */
  method LogIsGapless(node: Node) returns (ok: bool)
    ensures ok <==> NoGap(node.log)
  {
    ok := HavePredecessors(node.log.Keys);
    ClosedDownwards(node.log.Keys);
  }

  // ---- many nodes, one bucket, any run ----

  datatype System = System(nodes: seq<NodeState>, bucket: BucketState)

  datatype Step =
    | Append(node: nat, entry: Bytes)
    | Edit(node: nat, files: map<string, Bytes>)
    | Push(node: nat, outcome: Outcome)
    | Pull(node: nat, outcome: Outcome, force: bool)

  ghost predicate Takes(s: System, step: Step, s': System) {
    && step.node < |s.nodes| && |s'.nodes| == |s.nodes|
    && (forall i :: 0 <= i < |s.nodes| && i != step.node ==> s'.nodes[i] == s.nodes[i])
    && var n, n' := s.nodes[step.node], s'.nodes[step.node];
       match step
       case Append(_, entry) =>
         && n' == n.(log := n'.log) && s'.bucket == s.bucket && Appended(n.log, entry, n'.log)
       case Edit(_, files) => n' == n.(files := files) && s'.bucket == s.bucket
       case Push(_, outcome) => Pushed(n, s.bucket, n', s'.bucket, outcome)
       case Pull(_, outcome, force) => Pulled(n, s.bucket, n', outcome, force) && s'.bucket == s.bucket
  }

  /** A local append takes the number after the highest. */
  ghost predicate Appended(log: Shards, entry: Bytes, log': Shards) {
    exists q: nat :: IsNext(log, q) && log' == log[q := entry]
  }

  ghost predicate IsNext(log: Shards, q: nat) {
    (forall p :: p in log ==> p < q) && (q == 0 || q - 1 in log)
  }

  /** A run starts from gapless vaults that have never synced and a bucket whose history is its content. */
  ghost predicate IsRun(run: seq<System>, steps: seq<Step>) {
    && |run| == |steps| + 1
    && NoGap(run[0].bucket.log)
    && (forall e :: e in run[0].bucket.past ==> WasRemote(run, 0, e.0, e.1))
    && (forall i :: 0 <= i < |run[0].nodes| ==> NoGap(run[0].nodes[i].log) && run[0].nodes[i].baseline == map[])
    && (forall f :: f in run[0].bucket.files ==> (f, run[0].bucket.files[f]) in run[0].bucket.past)
    && (forall i :: 0 <= i < |steps| ==> Takes(run[i], steps[i], run[i + 1]))
  }

  /** Object `f` had content `c` in the bucket at some state up to i. */
  ghost predicate WasRemote(run: seq<System>, i: nat, f: string, c: Bytes)
    requires i < |run|
  {
    exists j :: 0 <= j <= i && f in run[j].bucket.files && run[j].bucket.files[f] == c
  }

  ghost predicate Inv(s: System) {
    && NoGap(s.bucket.log)
    && (forall f :: f in s.bucket.files ==> (f, s.bucket.files[f]) in s.bucket.past)
    && (forall i :: 0 <= i < |s.nodes| ==> NodeInv(s.nodes[i], s.bucket.past))
  }

  ghost predicate NodeInv(n: NodeState, past: set<(string, Bytes)>) {
    NoGap(n.log) && forall f :: f in n.baseline ==> (f, n.baseline[f]) in past
  }

  lemma CopiedHasNoGap(before: Shards, source: Shards, after: Shards)
    requires NoGap(before) && NoGap(source) && Copied(before, source, after)
    ensures NoGap(after)
  {
    forall p: nat, q: nat | q in after && p < q
      ensures p in after
    {
      if q in before { assert p in before; } else { assert p in source; }
    }
  }

  lemma StepKeepsInv(s: System, step: Step, s': System)
    requires Inv(s) && Takes(s, step, s')
    ensures Inv(s')
    ensures Includes(s'.bucket.log, s.bucket.log) && s.bucket.past <= s'.bucket.past
    ensures forall i :: 0 <= i < |s.nodes| ==> Includes(s'.nodes[i].log, s.nodes[i].log)
  {
    var n, n' := s.nodes[step.node], s'.nodes[step.node];
    assert NodeInv(n, s.bucket.past);
    match step {
      case Append(_, entry) => AppendHasNoGap(n.log, entry, n'.log);
      case Edit(_, _) =>
      case Push(_, _) => CopiedHasNoGap(s.bucket.log, n.log, s'.bucket.log);
      case Pull(_, _, _) => CopiedHasNoGap(n.log, s.bucket.log, n'.log);
    }
    StepKeepsNodes(s, step, s');
  }

  lemma AppendHasNoGap(log: Shards, entry: Bytes, log': Shards)
    requires NoGap(log) && Appended(log, entry, log')
    ensures NoGap(log') && Includes(log', log)
  {
    var q: nat :| IsNext(log, q) && log' == log[q := entry];
    forall p: nat, r: nat | r in log' && p < r
      ensures p in log'
    {
      if r == q && p != q - 1 { assert q - 1 in log && p < q - 1; }
    }
  }

  lemma StepKeepsNodes(s: System, step: Step, s': System)
    requires Inv(s) && Takes(s, step, s') && s.bucket.past <= s'.bucket.past
    requires NoGap(s'.nodes[step.node].log)
    ensures forall i :: 0 <= i < |s'.nodes| ==> NodeInv(s'.nodes[i], s'.bucket.past)
    ensures forall f :: f in s'.bucket.files ==> (f, s'.bucket.files[f]) in s'.bucket.past
  {
    forall i | 0 <= i < |s'.nodes|
      ensures NodeInv(s'.nodes[i], s'.bucket.past)
    {
      assert NodeInv(s.nodes[i], s.bucket.past);
      if i == step.node && step.Push? && step.outcome == Done {
        PushedFilesAreRemembered(s.nodes[i], s.bucket, s'.nodes[i], s'.bucket);
      }
    }
  }

  lemma PushedFilesAreRemembered(n: NodeState, b: BucketState, n': NodeState, b': BucketState)
    requires Pushed(n, b, n', b', Done)
    requires forall f :: f in b.files ==> (f, b.files[f]) in b.past
    ensures forall f :: f in n'.baseline ==> (f, n'.baseline[f]) in b'.past
  {
    forall f | f in n.files
      ensures (f, n.files[f]) in b'.past
    {
      assert f in b'.files && b'.files[f] == n.files[f];
    }
  }

  lemma {:induction false} RunKeepsInv(run: seq<System>, steps: seq<Step>, i: nat)
    requires IsRun(run, steps) && i < |run|
    ensures Inv(run[i])
  {
    if i > 0 {
      RunKeepsInv(run, steps, i - 1);
      assert Takes(run[i - 1], steps[i - 1], run[i]);
      StepKeepsInv(run[i - 1], steps[i - 1], run[i]);
    }
  }

  /** In every run every log, local or remote, is gapless from 0 at every moment. */
  lemma LogsAreAlwaysGapless(run: seq<System>, steps: seq<Step>, i: nat)
    requires IsRun(run, steps) && i < |run|
    ensures NoGap(run[i].bucket.log)
    ensures forall k :: 0 <= k < |run[i].nodes| ==> NoGap(run[i].nodes[k].log)
  {
    RunKeepsInv(run, steps, i);
    forall k | 0 <= k < |run[i].nodes|
      ensures NoGap(run[i].nodes[k].log)
    {
      assert NodeInv(run[i].nodes[k], run[i].bucket.past);
    }
  }

  /** A shard once written, remotely or locally, is there with the same content ever after. */
  lemma {:induction false} ShardsNeverChange(run: seq<System>, steps: seq<Step>, i: nat, j: nat, k: nat)
    requires IsRun(run, steps) && i <= j < |run| && k < |run[i].nodes|
    ensures |run[j].nodes| == |run[i].nodes|
    ensures Includes(run[j].bucket.log, run[i].bucket.log)
    ensures Includes(run[j].nodes[k].log, run[i].nodes[k].log)
    decreases j
  {
    if i < j {
      ShardsNeverChange(run, steps, i, j - 1, k);
      StepKeepsShards(run, steps, j - 1, k);
    }
  }

  lemma StepKeepsShards(run: seq<System>, steps: seq<Step>, i: nat, k: nat)
    requires IsRun(run, steps) && i < |steps| && k < |run[i].nodes|
    ensures |run[i + 1].nodes| == |run[i].nodes|
    ensures Includes(run[i + 1].bucket.log, run[i].bucket.log)
    ensures Includes(run[i + 1].nodes[k].log, run[i].nodes[k].log)
  {
    RunKeepsInv(run, steps, i);
    assert Takes(run[i], steps[i], run[i + 1]);
    StepKeepsInv(run[i], steps[i], run[i + 1]);
  }

  /** A sync that refuses a fork has written no shard, on either side. */
  lemma ForkRefusalWritesNoShard(run: seq<System>, steps: seq<Step>, i: nat)
    requires IsRun(run, steps) && i < |steps|
    requires (steps[i].Push? || steps[i].Pull?) && steps[i].outcome.Fork?
    ensures run[i + 1].bucket.log == run[i].bucket.log
    ensures run[i + 1].nodes[steps[i].node].log == run[i].nodes[steps[i].node].log
  {
    RunKeepsInv(run, steps, i);
    assert Takes(run[i], steps[i], run[i + 1]);
    var n, b := run[i].nodes[steps[i].node], run[i].bucket;
    assert NodeInv(n, b.past);
    if steps[i].Push? {
      NothingNew(b.log, n.log, run[i + 1].bucket.log, steps[i].outcome.at);
    } else {
      NothingNew(n.log, b.log, run[i + 1].nodes[steps[i].node].log, steps[i].outcome.at);
    }
  }

  lemma NothingNew(before: Shards, source: Shards, after: Shards, at: nat)
    requires NoGap(before) && at in before && Copied(before, source, after) && NewOnlyBelow(before, after, at)
    ensures after == before
  {
  }

  /**
   After a pull that succeeds the local log starts with the whole remote log, and in a run no pull is ever
   refused for a gap.
  */
  lemma PullBringsTheWholeLog(run: seq<System>, steps: seq<Step>, i: nat)
    requires IsRun(run, steps) && i < |steps| && steps[i].Pull?
    ensures steps[i].outcome == Done ==> Includes(run[i + 1].nodes[steps[i].node].log, run[i].bucket.log)
    ensures steps[i].outcome != Gapped && steps[i].outcome != GappedAfterwards
  {
    RunKeepsInv(run, steps, i);
    assert Takes(run[i], steps[i], run[i + 1]);
    assert NodeInv(run[i].nodes[steps[i].node], run[i].bucket.past);
  }

  /** After a push that succeeds the remote log is the local log. */
  lemma PushMakesTheLogsEqual(run: seq<System>, steps: seq<Step>, i: nat)
    requires IsRun(run, steps) && i < |steps| && steps[i].Push? && steps[i].outcome == Done
    ensures run[i + 1].bucket.log == run[i + 1].nodes[steps[i].node].log
  {
    assert Takes(run[i], steps[i], run[i + 1]);
    var n, b, b' := run[i].nodes[steps[i].node], run[i].bucket, run[i + 1].bucket;
    forall q | q in b'.log
      ensures q in n.log && b'.log[q] == n.log[q]
    {
      if q in b.log { assert q in n.log.Keys; }
    }
    assert b'.log.Keys == n.log.Keys;
  }

  lemma {:induction false} PastWasRemote(run: seq<System>, steps: seq<Step>, i: nat, f: string, c: Bytes)
    requires IsRun(run, steps) && i < |run| && (f, c) in run[i].bucket.past
    ensures WasRemote(run, i, f, c)
  {
    if i > 0 {
      assert Takes(run[i - 1], steps[i - 1], run[i]);
      if (f, c) in run[i - 1].bucket.past {
        PastWasRemote(run, steps, i - 1, f, c);
      }
    } else {
      var e := (f, c);
      assert e in run[0].bucket.past;
    }
  }

  ghost predicate HasFile(s: System, node: nat, f: string) {
    node < |s.nodes| && f in s.nodes[node].files
  }

  /**
   NO LOST EDIT. Whatever a pull without --force replaces or whatever state it stops in, the local content
   it replaces was itself the remote content of that object at some earlier moment of the run.
  */
  lemma PullOnlyReplacesOldRemoteContent(run: seq<System>, steps: seq<Step>, i: nat, f: string)
    requires IsRun(run, steps) && i < |steps| && steps[i].Pull? && !steps[i].force
    requires HasFile(run[i], steps[i].node, f)
    ensures HasFile(run[i + 1], steps[i].node, f)
    ensures run[i + 1].nodes[steps[i].node].files[f] == run[i].nodes[steps[i].node].files[f]
         || WasRemote(run, i, f, run[i].nodes[steps[i].node].files[f])
  {
    RunKeepsInv(run, steps, i);
    assert Takes(run[i], steps[i], run[i + 1]);
    var n, n' := run[i].nodes[steps[i].node], run[i + 1].nodes[steps[i].node];
    assert NodeInv(n, run[i].bucket.past);
    assert FileKept(f, n, run[i].bucket.files, n'.files[f], false);
    if n'.files[f] != n.files[f] {
      PastWasRemote(run, steps, i, f, n.files[f]);
    }
  }

  /**
   WHAT IS AHEAD STAYS. With or without force, and wherever the pull stops: a local file whose remote one is as it was
   at the last sync is left alone, however it was edited.
  */
  lemma PullKeepsWhatIsAhead(run: seq<System>, steps: seq<Step>, i: nat, f: string)
    requires IsRun(run, steps) && i < |steps| && steps[i].Pull? && HasFile(run[i], steps[i].node, f)
    requires var base, remote := run[i].nodes[steps[i].node].baseline, run[i].bucket.files;
             f in base && f in remote && base[f] == remote[f]
    ensures HasFile(run[i + 1], steps[i].node, f)
    ensures run[i + 1].nodes[steps[i].node].files[f] == run[i].nodes[steps[i].node].files[f]
  {
    assert Takes(run[i], steps[i], run[i + 1]);
    var n, n' := run[i].nodes[steps[i].node], run[i + 1].nodes[steps[i].node];
    assert FileKept(f, n, run[i].bucket.files, n'.files[f], steps[i].force);
  }

  /** The remote file is another than the local one, and has moved since the last sync. */
  ghost predicate Differs(s: System, node: nat, f: string)
    requires HasFile(s, node, f)
  {
    var n, remote := s.nodes[node], s.bucket.files;
    f in remote && remote[f] != n.files[f] && !(f in n.baseline && n.baseline[f] == remote[f])
  }

  /**
   EXACTLY WHAT A PULL REPLACES. A pull that succeeds replaces a local file if and only if the remote one is another and
   has moved since the last sync. Without force it succeeds only if each such file was unedited; any pull at all
   replaces only such files, and only unedited ones without force.
  */
  lemma PullReplacesExactly(run: seq<System>, steps: seq<Step>, i: nat, f: string)
    requires IsRun(run, steps) && i < |steps| && steps[i].Pull? && HasFile(run[i], steps[i].node, f)
    ensures HasFile(run[i + 1], steps[i].node, f)
    ensures var n, was, now := run[i].nodes[steps[i].node], run[i].nodes[steps[i].node].files[f],
                               run[i + 1].nodes[steps[i].node].files[f];
            && (steps[i].outcome == Done ==> (now != was <==> Differs(run[i], steps[i].node, f)))
            && (now != was ==> Differs(run[i], steps[i].node, f) && now == run[i].bucket.files[f])
            && (now != was && !steps[i].force ==> f in n.baseline && n.baseline[f] == was)
            && (steps[i].outcome == Done && !steps[i].force && Differs(run[i], steps[i].node, f) ==>
                f in n.baseline && n.baseline[f] == was)
  {
    assert Takes(run[i], steps[i], run[i + 1]);
    var n, n' := run[i].nodes[steps[i].node], run[i + 1].nodes[steps[i].node];
    assert FileKept(f, n, run[i].bucket.files, n'.files[f], steps[i].force);
    assert steps[i].outcome == Done && f in run[i].bucket.files ==>
        FileSettled(f, n, run[i].bucket.files, n'.files, steps[i].force);
  }

  /** A new remote file arrives with every pull that succeeds, and files of one side only are never touched. */
  lemma PullBringsNewFiles(run: seq<System>, steps: seq<Step>, i: nat, f: string)
    requires IsRun(run, steps) && i < |steps| && steps[i].Pull? && steps[i].node < |run[i].nodes|
    requires f !in run[i].nodes[steps[i].node].files
    ensures steps[i].node < |run[i + 1].nodes|
    ensures var after, remote := run[i + 1].nodes[steps[i].node].files, run[i].bucket.files;
            && (f in after ==> f in remote && after[f] == remote[f])
            && (steps[i].outcome == Done && f in remote ==> f in after)
  {
    assert Takes(run[i], steps[i], run[i + 1]);
    var n, n' := run[i].nodes[steps[i].node], run[i + 1].nodes[steps[i].node];
    assert f in n'.files ==> FileKept(f, n, run[i].bucket.files, n'.files[f], steps[i].force);
    assert steps[i].outcome == Done && f in run[i].bucket.files ==>
        FileSettled(f, n, run[i].bucket.files, n'.files, steps[i].force);
  }
}
