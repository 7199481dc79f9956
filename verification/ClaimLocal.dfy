/**
 The reference claim backend on one file system: lock-free creation by linking a finished scratch file
 to the HELD name, and removal under a sidecar lock. Names and inodes are kept apart, because the
 scratch name and the HELD name are two names of one inode between the link and the unlink.
*/
module ClaimLocal {
  import opened Common
  import opened ClaimRegister

  datatype Content = Torn | Full(body: Body)

  datatype Answer = Created | Exists(body: Body) | Unverifiable | Failed

  datatype CreatePhase =
    | Opening                    // about to open the scratch name with O_CREAT | O_TRUNC
    | Writing
    | Linking
    | Reading(attempt: nat)      // the link found HELD taken: about to read it back
    | Relinking
    | Unlinking(answer: Answer)
    | Done(answer: Answer)
    | Crashed

  datatype RemovePhase = Waiting | Checking | Removing(inode: nat) | Unlocking(said: bool) | Stopped(said: bool) | Died

  datatype Op =
    | Create(body: Body, tmp: string, fd: nat, since: nat, phase: CreatePhase)
    | Remove(email: string, stage: RemovePhase)
  {
    /** The operation has its scratch file open under its scratch name. */
    predicate Live() {
      Create? && (phase.Writing? || phase.Linking? || phase.Reading? || phase.Relinking? || phase.Unlinking?)
    }

    /** The operation has opened its scratch file and not yet published it. */
    predicate Preparing() {
      Create? && (phase.Writing? || phase.Linking? || phase.Reading? || phase.Relinking?)
    }

    predicate Opened() {
      Live() || (Create? && phase.Done?)
    }

    predicate HoldsLock() {
      Remove? && (stage.Checking? || stage.Removing? || stage.Unlocking?)
    }
  }

  /** `removed` counts the removals that took effect so far. */
  datatype State = State(inodes: map<nat, Content>, target: Option<nat>, scratch: map<string, nat>,
                         lock: Option<nat>, removed: nat, ops: map<nat, Op>)
  {
    function With(id: nat, op: Op): State {
      this.(ops := ops[id := op])
    }

    /** What reading the HELD path yields: nothing when it is absent or torn. */
    function Visible(): Option<Body> {
      if target.Some? && target.value in inodes && inodes[target.value].Full? then Some(inodes[target.value].body)
      else None
    }
  }

  datatype Step =
    | StartCreate(id: nat, body: Body, tmp: string)
    | Open(id: nat, newInode: nat)
    | Write(id: nat)
    | Link(id: nat)              // the first or the second link
    | Read(id: nat)
    | Unlink(id: nat)
    | StartRemove(id: nat, email: string)
    | Lock(id: nat)
    | Check(id: nat)
    | Delete(id: nat)
    | Unlock(id: nat)
    | Crash(id: nat)

  function Opens(s: State, id: nat, newInode: nat): Option<State>
    requires id in s.ops && s.ops[id].Create? && s.ops[id].phase == Opening
  {
    var op := s.ops[id];
    if op.tmp in s.scratch then
      Some(s.With(id, op.(fd := s.scratch[op.tmp], phase := Writing)).(inodes := s.inodes[s.scratch[op.tmp] := Torn]))
    else if newInode in s.inodes then None
    else Some(s.With(id, op.(fd := newInode, phase := Writing))
              .(inodes := s.inodes[newInode := Torn], scratch := s.scratch[op.tmp := newInode]))
  }

  function Links(s: State, id: nat): State
    requires id in s.ops && s.ops[id].Create?
  {
    var op := s.ops[id];
    if op.tmp !in s.scratch then s.With(id, op.(phase := Unlinking(Failed)))
    else if s.target == None then
      s.With(id, op.(phase := Unlinking(Created))).(target := Some(s.scratch[op.tmp]))
    else s.With(id, op.(phase := Reading(if op.phase == Linking then 1 else 2)))
  }

  function Reads(s: State, id: nat): State
    requires id in s.ops && s.ops[id].Create? && s.ops[id].phase.Reading?
  {
    var op := s.ops[id];
    s.With(id, op.(phase := match s.Visible()
                            case Some(body) => Unlinking(Exists(body))
                            case None => if op.phase.attempt == 1 then Relinking else Unlinking(Unverifiable)))
  }

  function Checks(s: State, id: nat): State
    requires id in s.ops && s.ops[id].Remove?
  {
    var op := s.ops[id];
    s.With(id, op.(stage := match s.Visible()
                            case Some(body) => if Norm(body.email) == Norm(op.email) then Removing(s.target.value)
                                else Unlocking(false)
                            case None => Unlocking(false)))
  }

  /** What one step does to the system, or None where the step cannot be taken. */
  function Apply(s: State, step: Step): Option<State> {
    match step
    case StartCreate(id, body, tmp) =>
      if id in s.ops then None else Some(s.With(id, Create(body, tmp, 0, s.removed, Opening)))
    case StartRemove(id, email) =>
      if id in s.ops then None else Some(s.With(id, Remove(email, Waiting)))
    case _ =>
      if step.id !in s.ops then None else ApplyTo(s, step, s.ops[step.id])
  }

  function ApplyTo(s: State, step: Step, op: Op): Option<State>
    requires step.id in s.ops && op == s.ops[step.id]
  {
    match step
    case Open(id, newInode) =>
      if op.Create? && op.phase == Opening then Opens(s, id, newInode) else None
    case Write(id) =>
      if op.Create? && op.phase == Writing then
        Some(s.With(id, op.(phase := Linking)).(inodes := s.inodes[op.fd := Full(op.body)]))
      else None
    case Link(id) =>
      if op.Create? && (op.phase == Linking || op.phase == Relinking) then Some(Links(s, id)) else None
    case Read(id) =>
      if op.Create? && op.phase.Reading? then Some(Reads(s, id)) else None
    case Unlink(id) =>
      if op.Create? && op.phase.Unlinking? then
        Some(s.With(id, op.(phase := Done(op.phase.answer))).(scratch := s.scratch - {op.tmp}))
      else None
    case Lock(id) =>
      if op.Remove? && op.stage == Waiting && s.lock == None then
        Some(s.With(id, op.(stage := Checking)).(lock := Some(id)))
      else None
    case Check(id) =>
      if op.Remove? && op.stage == Checking then Some(Checks(s, id)) else None
    case Delete(id) =>
      if op.Remove? && op.stage.Removing? then
        Some(s.With(id, op.(stage := Unlocking(true)))
              .(target := None, removed := if s.target.Some? then s.removed + 1 else s.removed))
      else None
    case Unlock(id) =>
      if op.Remove? && op.stage.Unlocking? then
        Some(s.With(id, op.(stage := Stopped(op.stage.said))).(lock := None))
      else None
    case Crash(id) =>
      if op.Create? && !op.phase.Done? then Some(s.With(id, op.(phase := Crashed)))
      else if op.Remove? && !op.stage.Stopped? then
        Some(s.With(id, op.(stage := Died)).(lock := if op.HoldsLock() then None else s.lock))
      else None
    case _ => None
  }

  ghost predicate IsRun(states: seq<State>, steps: seq<Step>) {
    && |states| == |steps| + 1
    && states[0].ops == map[] && states[0].scratch == map[] && states[0].lock == None
    && (states[0].target.Some? ==> states[0].Visible().Some?)
    && forall i :: 0 <= i < |steps| ==> Apply(states[i], steps[i]) == Some(states[i + 1])
  }

  // ---- the register, whatever the scratch names are ----

  ghost function Targets(states: seq<State>): (values: seq<Option<nat>>)
    ensures |values| == |states|
    ensures forall i :: 0 <= i < |states| ==> values[i] == states[i].target
  {
    seq(|states|, i requires 0 <= i < |states| => states[i].target)
  }

  /** The lock has at most one holder, and what a remover is about to delete is still what it checked. */
  ghost predicate LockInv(s: State) {
    forall id | id in s.ops ::
      && (s.ops[id].HoldsLock() ==> s.lock == Some(id))
      && (s.ops[id].Remove? && s.ops[id].stage.Removing? ==> s.target == Some(s.ops[id].stage.inode))
  }

  lemma LockStep(s: State, step: Step, after: State)
    requires LockInv(s) && Apply(s, step) == Some(after)
    ensures LockInv(after)
    ensures Sticks(s.target, after.target)
    ensures s.target.Some? && after.target == None ==>
              step.Delete? && s.ops[step.id].Remove? && s.ops[step.id].stage == Removing(s.target.value)
  {
    forall id | id in after.ops
      ensures after.ops[id].HoldsLock() ==> after.lock == Some(id)
      ensures after.ops[id].Remove? && after.ops[id].stage.Removing? ==> after.target == Some(after.ops[id].stage.inode)
    {
      if id != step.id { assert id in s.ops && after.ops[id] == s.ops[id]; }
    }
  }

  lemma {:induction false} RunKeepsLock(states: seq<State>, steps: seq<Step>, n: nat)
    requires IsRun(states, steps) && n < |states|
    ensures LockInv(states[n])
  {
    if n > 0 {
      RunKeepsLock(states, steps, n - 1);
      LockStep(states[n - 1], steps[n - 1], states[n]);
    }
  }

  /** The HELD name is a write-once register of inodes: a link never replaces, only a removal clears. */
  lemma RunIsSticky(states: seq<State>, steps: seq<Step>)
    requires IsRun(states, steps)
    ensures Sticky(Targets(states))
  {
    forall i | 0 <= i < |states| - 1
      ensures Sticks(Targets(states)[i], Targets(states)[i + 1])
    {
      RunKeepsLock(states, steps, i);
      LockStep(states[i], steps[i], states[i + 1]);
    }
  }

  /** Release `id` checked this inode's owner at step j, and the HELD name has not moved since. */
  ghost predicate CheckedAt(states: seq<State>, steps: seq<Step>, j: int, n: nat, id: nat, inode: nat)
    requires |states| == |steps| + 1
  {
    && 0 <= j < n < |states| && steps[j] == Check(id)
    && id in states[n].ops && states[n].ops[id].Remove?
    && states[j].Visible().Some? && Norm(states[j].Visible().value.email) == Norm(states[n].ops[id].email)
    && forall x :: j <= x <= n ==> states[x].target == Some(inode)
  }

  lemma StillChecked(states: seq<State>, steps: seq<Step>, j: int, n: nat, id: nat, inode: nat)
    requires |states| == |steps| + 1 && 0 < n < |states| && CheckedAt(states, steps, j, n - 1, id, inode)
    requires id in states[n].ops && states[n].ops[id] == states[n - 1].ops[id]
    requires states[n].target == Some(inode)
    ensures CheckedAt(states, steps, j, n, id, inode)
  {
  }

  /** A release is about to delete because it has just checked, or because it was already about to. */
  lemma AboutToRemove(before: State, step: Step, after: State, id: nat)
    requires Apply(before, step) == Some(after)
    requires id in after.ops && after.ops[id].Remove? && after.ops[id].stage.Removing?
    ensures step != Check(id) ==> id in before.ops && before.ops[id] == after.ops[id]
    ensures step == Check(id)
        ==> before.Visible().Some? && before.target == Some(after.ops[id].stage.inode) == after.target
    ensures step == Check(id) ==> Norm(before.Visible().value.email) == Norm(after.ops[id].email)
  {
  }

  lemma RemoverHoldsTheFile(states: seq<State>, steps: seq<Step>, n: nat, id: nat, inode: nat)
    requires IsRun(states, steps) && n < |states| && id in states[n].ops
    requires states[n].ops[id].Remove? && states[n].ops[id].stage == Removing(inode)
    ensures states[n].target == Some(inode)
  {
    RunKeepsLock(states, steps, n);
  }

  lemma {:induction false} RemoverHasChecked(states: seq<State>, steps: seq<Step>, n: nat, id: nat)
    requires IsRun(states, steps) && n < |states|
    requires id in states[n].ops && states[n].ops[id].Remove? && states[n].ops[id].stage.Removing?
    ensures exists j :: CheckedAt(states, steps, j, n, id, states[n].ops[id].stage.inode)
  {
    assert n > 0;
    var inode := states[n].ops[id].stage.inode;
    assert Apply(states[n - 1], steps[n - 1]) == Some(states[n]);
    AboutToRemove(states[n - 1], steps[n - 1], states[n], id);
    if steps[n - 1] == Check(id) {
      JustChecked(states, steps, n, id, inode);
    } else {
      RemoverHasChecked(states, steps, n - 1, id);
      RemoverHoldsTheFile(states, steps, n, id, inode);
      var j :| CheckedAt(states, steps, j, n - 1, id, inode);
      StillChecked(states, steps, j, n, id, inode);
    }
  }

  lemma JustChecked(states: seq<State>, steps: seq<Step>, n: nat, id: nat, inode: nat)
    requires |states| == |steps| + 1 && 0 < n < |states| && steps[n - 1] == Check(id)
    requires id in states[n].ops && states[n].ops[id].Remove? && states[n - 1].Visible().Some?
    requires Norm(states[n - 1].Visible().value.email) == Norm(states[n].ops[id].email)
    requires states[n - 1].target == Some(inode) == states[n].target
    ensures CheckedAt(states, steps, n - 1, n, id, inode)
  {
  }

  /**
   COMPARE-AND-DELETE. A removal that takes effect deletes the very file whose owner it had compared:
   between its check and its delete the HELD name never named anything else.
  */
  lemma RemovalDeletesWhatItChecked(states: seq<State>, steps: seq<Step>, i: nat)
    requires IsRun(states, steps) && i < |steps|
    requires states[i].target.Some? && states[i + 1].target == None
    ensures steps[i].Delete?
    ensures exists j :: CheckedAt(states, steps, j, i, steps[i].id, states[i].target.value)
  {
    RunKeepsLock(states, steps, i);
    LockStep(states[i], steps[i], states[i + 1]);
    RemoverHasChecked(states, steps, i, steps[i].id);
  }

  // ---- completeness of the visible HELD ----

  predicate Finished(s: State, inode: nat) {
    inode in s.inodes && s.inodes[inode].Full?
  }

  /** The HELD name is free, or leads to a finished record. */
  predicate Complete(s: State) {
    s.target.Some? ==> Finished(s, s.target.value)
  }

  /** A creator truncates the visible record: its scratch name is a second name of it. */
  predicate TearsByOpening(s: State, step: Step) {
    && step.Open? && step.id in s.ops && s.ops[step.id].Create? && s.target.Some?
    && s.ops[step.id].tmp in s.scratch && s.scratch[s.ops[step.id].tmp] == s.target.value
  }

  /** A creator publishes an unfinished file: somebody else has truncated it under the shared scratch name. */
  predicate TearsByLinking(s: State, step: Step) {
    && step.Link? && step.id in s.ops && s.ops[step.id].Create? && s.target == None
    && s.ops[step.id].tmp in s.scratch && !Finished(s, s.scratch[s.ops[step.id].tmp])
  }

  predicate Tears(s: State, step: Step) {
    TearsByOpening(s, step) || TearsByLinking(s, step)
  }

  /** One step tears a complete HELD exactly in these two ways, and either way leaves it torn. */
  lemma StepTearsExactly(s: State, step: Step, after: State)
    requires Apply(s, step) == Some(after)
    ensures Complete(s) ==> (Complete(after) <==> !Tears(s, step))
    ensures Tears(s, step) ==> !Complete(after)
  {
  }

  lemma {:induction false} CompleteWithoutTears(states: seq<State>, steps: seq<Step>, n: nat)
    requires IsRun(states, steps) && n < |states| && forall i :: 0 <= i < |steps| ==> !Tears(states[i], steps[i])
    ensures Complete(states[n])
  {
    if n > 0 {
      CompleteWithoutTears(states, steps, n - 1);
      StepTearsExactly(states[n - 1], steps[n - 1], states[n]);
    }
  }

  /**
   EXACTLY WHEN THE HELD STAYS COMPLETE: at every moment of a run it is whole if and only if no creator opens a
   second name of it and none links a scratch name that leads to an unfinished file.
  */
  lemma CompleteExactlyWhenNothingTears(states: seq<State>, steps: seq<Step>)
    requires IsRun(states, steps)
    ensures (forall n :: 0 <= n < |states| ==> Complete(states[n]))
       <==> (forall i :: 0 <= i < |steps| ==> !Tears(states[i], steps[i]))
  {
    if forall i :: 0 <= i < |steps| ==> !Tears(states[i], steps[i]) {
      forall n | 0 <= n < |states|
        ensures Complete(states[n])
      {
        CompleteWithoutTears(states, steps, n);
      }
    }
    if i :| 0 <= i < |steps| && Tears(states[i], steps[i]) {
      StepTearsExactly(states[i], steps[i], states[i + 1]);
    }
  }

  lemma Continue(states: seq<State>, steps: seq<Step>, step: Step) returns (more: seq<State>, played: seq<Step>)
    requires IsRun(states, steps) && Apply(states[|steps|], step).Some?
    ensures IsRun(more, played) && played == steps + [step]
    ensures more == states + [Apply(states[|steps|], step).value]
  {
    more, played := states + [Apply(states[|steps|], step).value], steps + [step];
  }

  /** A create that gets as far as its link: the record is visible, under its scratch name as well. */
  lemma WrittenNotLinked(body: Body, tmp: string) returns (states: seq<State>, steps: seq<Step>)
    ensures IsRun(states, steps) && |steps| == 3
    ensures states[3] == State(map[7 := Full(body)], None, map[tmp := 7], None, 0,
                               map[0 := Create(body, tmp, 7, 0, Linking)])
  {
    states, steps := [State(map[], None, map[], None, 0, map[])], [];
    states, steps := Continue(states, steps, StartCreate(0, body, tmp));
    states, steps := Continue(states, steps, Open(0, 7));
    states, steps := Continue(states, steps, Write(0));
  }

  lemma LinkedNotUnlinked(body: Body, tmp: string) returns (states: seq<State>, steps: seq<Step>)
    ensures IsRun(states, steps) && |steps| == 4
    ensures states[4] == State(map[7 := Full(body)], Some(7), map[tmp := 7], None, 0,
                               map[0 := Create(body, tmp, 7, 0, Unlinking(Created))])
  {
    states, steps := WrittenNotLinked(body, tmp);
    states, steps := Continue(states, steps, Link(0));
  }

  /**
   The condition is needed: a creator that dies between its link and its unlink leaves the scratch name
   as a second name of the HELD, and a retry under the same scratch name truncates the live HELD.
  */
  lemma RetryAfterACrashTearsTheHeld(body: Body, tmp: string) returns (states: seq<State>, steps: seq<Step>)
    ensures IsRun(states, steps) && |steps| == 7
    ensures states[5].Visible() == Some(body)
    ensures states[7].target.Some? && states[7].Visible() == None
  {
    states, steps := LinkedNotUnlinked(body, tmp);
    states, steps := Continue(states, steps, Crash(0));
    states, steps := Continue(states, steps, StartCreate(1, body, tmp));
    states, steps := Continue(states, steps, Open(1, 8));
  }

  /** The other way: two creators share a scratch name, and one publishes what the other has just truncated. */
  lemma SharedNameTearsTheHeld(body: Body, other: Body, tmp: string) returns (states: seq<State>, steps: seq<Step>)
    ensures IsRun(states, steps) && |steps| == 6
    ensures TearsByLinking(states[5], steps[5])
    ensures states[6].target.Some? && states[6].Visible() == None
  {
    states, steps := WrittenNotLinked(body, tmp);
    states, steps := Continue(states, steps, StartCreate(1, other, tmp));
    states, steps := Continue(states, steps, Open(1, 8));
    states, steps := Continue(states, steps, Link(0));
  }

  // ---- a creator's own file ----

  /** Each file belongs to one scratch name for good: the one it was created under. */
  ghost predicate NamesInv(s: State) {
    && NamesApart(s)
    && (forall id :: id in s.ops && s.ops[id].Opened() ==> FileOf(s, s.ops[id]))
    && (forall a, b ::
          a in s.ops && b in s.ops && s.ops[a].Opened() && s.ops[b].Opened() ==> SameFileSameName(s.ops[a], s.ops[b]))
  }

  ghost predicate NamesApart(s: State) {
    && (forall name :: name in s.scratch ==> s.scratch[name] in s.inodes)
    && (forall name, other ::
          name in s.scratch && other in s.scratch && s.scratch[name] == s.scratch[other] ==> name == other)
  }

  ghost predicate FileOf(s: State, op: Op)
    requires op.Create?
  {
    op.fd in s.inodes && forall name :: name in s.scratch && s.scratch[name] == op.fd ==> name == op.tmp
  }

  ghost predicate SameFileSameName(a: Op, b: Op)
    requires a.Create? && b.Create?
  {
    a.fd == b.fd ==> a.tmp == b.tmp
  }

  lemma OpenKeepsNames(s: State, id: nat, newInode: nat, after: State)
    requires NamesInv(s) && Apply(s, Open(id, newInode)) == Some(after)
    ensures NamesInv(after)
  {
    forall other | other in s.ops && other != id && s.ops[other].Opened()
      ensures FileOf(after, after.ops[other])
      ensures SameFileSameName(after.ops[other], after.ops[id]) && SameFileSameName(after.ops[id], after.ops[other])
    {
      assert FileOf(s, s.ops[other]);
    }
    assert FileOf(after, after.ops[id]);
  }

  /** Only an open makes a scratch name or gives a creator its file. */
  lemma OtherStepAddsNoName(s: State, step: Step, after: State)
    requires Apply(s, step) == Some(after) && !step.Open?
    ensures forall name :: name in after.scratch ==> name in s.scratch && after.scratch[name] == s.scratch[name]
    ensures forall id :: id in after.ops && after.ops[id].Opened() ==>
              id in s.ops && s.ops[id].Opened() && SameFile(s.ops[id], after.ops[id])
    ensures s.inodes.Keys <= after.inodes.Keys
  {
  }

  ghost predicate SameFile(a: Op, b: Op)
    requires a.Create? && b.Create?
  {
    a.fd == b.fd && a.tmp == b.tmp
  }

  lemma OtherStepKeepsNames(s: State, step: Step, after: State)
    requires NamesInv(s) && Apply(s, step) == Some(after) && !step.Open?
    ensures NamesInv(after)
  {
    OtherStepAddsNoName(s, step, after);
  }

  lemma StepKeepsNames(s: State, step: Step, after: State)
    requires NamesInv(s) && Apply(s, step) == Some(after)
    ensures NamesInv(after)
  {
    if step.Open? {
      OpenKeepsNames(s, step.id, step.newInode, after);
    } else {
      OtherStepKeepsNames(s, step, after);
    }
  }

  lemma {:induction false} RunKeepsNames(states: seq<State>, steps: seq<Step>, n: nat)
    requires IsRun(states, steps) && n < |states|
    ensures NamesInv(states[n])
  {
    if n > 0 {
      RunKeepsNames(states, steps, n - 1);
      StepKeepsNames(states[n - 1], steps[n - 1], states[n]);
    }
  }

  /** The step opens or writes a scratch file under this name for a creator other than `id`. */
  predicate Meddles(s: State, step: Step, id: nat, tmp: string) {
    && (step.Open? || step.Write?) && step.id != id
    && step.id in s.ops && s.ops[step.id].Create? && s.ops[step.id].tmp == tmp
  }

  /** From its own open to its own link no other creator opens or writes the scratch name of call `id`. */
  ghost predicate Undisturbed(states: seq<State>, steps: seq<Step>, id: nat)
    requires |states| == |steps| + 1
  {
    forall k {:trigger steps[k]} :: 0 <= k < |steps| && id in states[k].ops && states[k].ops[id].Preparing() ==>
      !Meddles(states[k], steps[k], id, states[k].ops[id].tmp)
  }

  /** The scratch name leads to the creator's own file or nowhere, and once written the file holds its own body. */
  ghost predicate OwnFile(s: State, id: nat) {
    id in s.ops && s.ops[id].Preparing() ==>
      var op := s.ops[id];
      && (op.tmp in s.scratch ==> s.scratch[op.tmp] == op.fd)
      && (!op.phase.Writing? ==> op.fd in s.inodes && s.inodes[op.fd] == Full(op.body))
  }

  lemma StepKeepsOwnFile(s: State, step: Step, after: State, id: nat)
    requires NamesInv(s) && OwnFile(s, id) && Apply(s, step) == Some(after)
    requires id in s.ops && s.ops[id].Preparing() ==> !Meddles(s, step, id, s.ops[id].tmp)
    ensures OwnFile(after, id)
  {
    if step.id != id && id in s.ops && s.ops[id].Preparing() {
      assert after.ops[id] == s.ops[id] && FileOf(s, s.ops[id]);
    }
  }

  lemma {:induction false} UndisturbedKeepsItsFile(states: seq<State>, steps: seq<Step>, n: nat, id: nat)
    requires IsRun(states, steps) && Undisturbed(states, steps, id) && n < |states|
    ensures OwnFile(states[n], id)
  {
    if n > 0 {
      UndisturbedKeepsItsFile(states, steps, n - 1, id);
      RunKeepsNames(states, steps, n - 1);
      assert Apply(states[n - 1], steps[n - 1]) == Some(states[n]);
      StepKeepsOwnFile(states[n - 1], steps[n - 1], states[n], id);
    }
  }

  /**
   The scratch name a creator is about to open is not in use: no other operation has it open, and it is
   not a second name of the visible HELD.
  */
  predicate NameFree(s: State, tmp: string) {
    && (forall id :: id in s.ops && s.ops[id].Live() ==> s.ops[id].tmp != tmp)
    && (tmp in s.scratch ==> s.target != Some(s.scratch[tmp]))
  }

  ghost predicate NamesStayFree(states: seq<State>, steps: seq<Step>)
    requires |states| == |steps| + 1
  {
    forall i {:trigger steps[i]} ::
      0 <= i < |steps| && steps[i].Open? && steps[i].id in states[i].ops && states[i].ops[steps[i].id].Create? ==>
        NameFree(states[i], states[i].ops[steps[i].id].tmp)
  }

  ghost predicate OnePerName(s: State) {
    forall a, b ::
      a in s.ops && b in s.ops && s.ops[a].Live() && s.ops[b].Live() && s.ops[a].tmp == s.ops[b].tmp ==> a == b
  }

  lemma {:induction false} FreeNamesAreNotShared(states: seq<State>, steps: seq<Step>, n: nat)
    requires IsRun(states, steps) && NamesStayFree(states, steps) && n < |states|
    ensures OnePerName(states[n])
  {
    if n > 0 {
      FreeNamesAreNotShared(states, steps, n - 1);
      StepKeepsOnePerName(states[n - 1], steps[n - 1], states[n]);
    }
  }

  lemma StepKeepsOnePerName(s: State, step: Step, after: State)
    requires OnePerName(s) && Apply(s, step) == Some(after)
    requires step.Open? && step.id in s.ops && s.ops[step.id].Create? ==> NameFree(s, s.ops[step.id].tmp)
    ensures OnePerName(after)
  {
    forall a | a in after.ops && after.ops[a].Live() && !(step.Open? && a == step.id)
      ensures a in s.ops && s.ops[a].Live() && s.ops[a].tmp == after.ops[a].tmp
    {
    }
  }

  /** Where scratch names are never reused while in use, no call is disturbed and no step tears the record. */
  lemma FreeNamesNeverTear(states: seq<State>, steps: seq<Step>, i: nat, id: nat)
    requires IsRun(states, steps) && NamesStayFree(states, steps) && i < |steps|
    ensures Undisturbed(states, steps, id) && !Tears(states[i], steps[i])
  {
    NobodyMeddles(states, steps, id);
    NobodyMeddles(states, steps, steps[i].id);
    UndisturbedKeepsItsFile(states, steps, i, steps[i].id);
    assert Apply(states[i], steps[i]) == Some(states[i + 1]);
  }

  lemma NobodyMeddles(states: seq<State>, steps: seq<Step>, id: nat)
    requires IsRun(states, steps) && NamesStayFree(states, steps)
    ensures Undisturbed(states, steps, id)
  {
    forall k | 0 <= k < |steps| && id in states[k].ops && states[k].ops[id].Preparing()
      ensures !Meddles(states[k], steps[k], id, states[k].ops[id].tmp)
    {
      FreeNamesAreNotShared(states, steps, k);
      assert Apply(states[k], steps[k]) == Some(states[k + 1]);
    }
  }

  // ---- what the answers mean ----

  ghost predicate Active(s: State, id: nat) {
    id in s.ops && s.ops[id].Create? && !s.ops[id].phase.Done? && !s.ops[id].phase.Crashed?
  }

  ghost predicate VisibleDuring(states: seq<State>, n: nat, id: nat, body: Body) {
    exists i :: 0 <= i <= n < |states| && Active(states[i], id) && states[i].Visible() == Some(body)
  }

  /** At step i call `id` publishes the file its scratch name leads to, finding the HELD name free. */
  ghost predicate Publishes(states: seq<State>, steps: seq<Step>, i: int, id: nat)
    requires |states| == |steps| + 1
  {
    && 0 <= i < |steps| && steps[i] == Link(id) && Active(states[i], id) && Active(states[i + 1], id)
    && states[i].ops[id].Preparing() && states[i].ops[id].tmp in states[i].scratch
    && states[i].target == None && states[i + 1].target == Some(states[i].scratch[states[i].ops[id].tmp])
  }

  ghost predicate PublishedBefore(states: seq<State>, steps: seq<Step>, n: nat, id: nat)
    requires |states| == |steps| + 1
  {
    exists i :: i < n && Publishes(states, steps, i, id)
  }

  function AnswerOf(op: Op): Option<Answer>
    requires op.Create?
  {
    match op.phase
    case Unlinking(answer) => Some(answer)
    case Done(answer) => Some(answer)
    case _ => None
  }

  ghost predicate Grounded(states: seq<State>, steps: seq<Step>, n: nat, id: nat)
    requires |states| == |steps| + 1 && n < |states|
  {
    id in states[n].ops && states[n].ops[id].Create? && AnswerOf(states[n].ops[id]).Some? ==>
      match AnswerOf(states[n].ops[id]).value
      case Created => PublishedBefore(states, steps, n, id)
      case Exists(body) => VisibleDuring(states, n, id, body)
      case _ => true
  }

  lemma StepKeepsGrounded(states: seq<State>, steps: seq<Step>, n: nat, id: nat)
    requires IsRun(states, steps) && n < |steps| && Grounded(states, steps, n, id)
    ensures Grounded(states, steps, n + 1, id)
  {
    var s, step, after := states[n], steps[n], states[n + 1];
    assert Apply(s, step) == Some(after);
    if step == Link(id) {
      assert AnswerOf(after.ops[id]) == Some(Created) ==> Publishes(states, steps, n, id);
    } else if step == Read(id) {
      assert Active(s, id);
    } else if id in after.ops && after.ops[id].Create? && AnswerOf(after.ops[id]).Some? {
      assert id in s.ops && s.ops[id].Create? && AnswerOf(s.ops[id]) == AnswerOf(after.ops[id]);
    }
  }

  lemma {:induction false} RunIsGrounded(states: seq<State>, steps: seq<Step>, n: nat, id: nat)
    requires IsRun(states, steps) && n < |states|
    ensures Grounded(states, steps, n, id)
  {
    if n > 0 {
      RunIsGrounded(states, steps, n - 1, id);
      StepKeepsGrounded(states, steps, n - 1, id);
    }
  }

  ghost predicate Told(s: State, id: nat, answer: Answer) {
    id in s.ops && s.ops[id].Create? && s.ops[id].phase == Done(answer)
  }

  /** IN EVERY RUN. CREATED: this call's own link published a file. EXISTS: the body handed back was visible. */
  lemma AnswersWereTrueDuringTheCall(states: seq<State>, steps: seq<Step>, id: nat, answer: Answer)
    requires IsRun(states, steps) && Told(states[|steps|], id, answer)
    ensures answer == Created ==> PublishedBefore(states, steps, |steps|, id)
    ensures answer.Exists? ==> VisibleDuring(states, |steps|, id, answer.body)
  {
    RunIsGrounded(states, steps, |steps|, id);
  }

  /** What a creator publishes is its own finished body, as long as nobody else used its scratch name meanwhile. */
  lemma CreatedShowsItsOwnBody(states: seq<State>, steps: seq<Step>, id: nat)
    requires IsRun(states, steps) && Told(states[|steps|], id, Created) && Undisturbed(states, steps, id)
    ensures VisibleDuring(states, |steps|, id, states[|steps|].ops[id].body)
  {
    var i := PublishingStep(states, steps, id);
    UndisturbedKeepsItsFile(states, steps, i, id);
    assert Apply(states[i], steps[i]) == Some(states[i + 1]);
    BodyStays(states, steps, i, |steps|, id);
    assert states[i + 1].Visible() == Some(states[i].ops[id].body);
  }

  lemma {:induction false} BodyStays(states: seq<State>, steps: seq<Step>, i: nat, j: nat, id: nat)
    requires IsRun(states, steps) && i <= j < |states| && id in states[i].ops && states[i].ops[id].Create?
    ensures id in states[j].ops && states[j].ops[id].Create? && states[j].ops[id].body == states[i].ops[id].body
    decreases j
  {
    if i < j {
      BodyStays(states, steps, i, j - 1, id);
      assert Apply(states[j - 1], steps[j - 1]) == Some(states[j]);
    }
  }

  // ---- exactly what a link publishes ----

  /** The step opens or writes this file. */
  predicate Touches(s: State, step: Step, inode: nat) {
    && step.id in s.ops && s.ops[step.id].Create?
    && match step
       case Open(id, newInode) => inode == if s.ops[id].tmp in s.scratch then s.scratch[s.ops[id].tmp] else newInode
       case Write(id) => inode == s.ops[id].fd
       case _ => false
  }

  /** Step k wrote this body into the file, and nobody touched the file between it and moment n. */
  ghost predicate LastWrote(states: seq<State>, steps: seq<Step>, k: int, n: int, inode: nat, body: Body)
    requires |states| == |steps| + 1
  {
    && 0 <= k < n < |states| && steps[k].Write? && Touches(states[k], steps[k], inode)
    && states[k].ops[steps[k].id].body == body
    && forall j {:trigger steps[j]} :: k < j < n ==> !Touches(states[j], steps[j], inode)
  }

  ghost predicate Holds(s: State, inode: nat, body: Body) {
    inode in s.inodes && s.inodes[inode] == Full(body)
  }

  lemma OnlyATouchChanges(s: State, step: Step, after: State, inode: nat, body: Body)
    requires Apply(s, step) == Some(after)
    ensures !Touches(s, step, inode) ==> (Holds(after, inode, body) <==> Holds(s, inode, body))
    ensures Touches(s, step, inode) ==>
              (Holds(after, inode, body) <==> step.Write? && s.ops[step.id].body == body)
  {
  }

  /** A file made in the run holds a body exactly when the last to touch it wrote that body. */
  lemma {:induction false} HoldsWhatWasLastWritten(states: seq<State>, steps: seq<Step>, n: nat, inode: nat, body: Body)
    requires IsRun(states, steps) && n < |states| && inode !in states[0].inodes
    ensures Holds(states[n], inode, body) <==> exists k :: LastWrote(states, steps, k, n, inode, body)
  {
    if n > 0 {
      HoldsWhatWasLastWritten(states, steps, n - 1, inode, body);
      OnlyATouchChanges(states[n - 1], steps[n - 1], states[n], inode, body);
      if Holds(states[n], inode, body) {
        if Touches(states[n - 1], steps[n - 1], inode) {
          assert LastWrote(states, steps, n - 1, n, inode, body);
        } else {
          var k :| LastWrote(states, steps, k, n - 1, inode, body);
          assert LastWrote(states, steps, k, n, inode, body);
        }
      }
      if k :| LastWrote(states, steps, k, n, inode, body) {
        LastWroteBefore(states, steps, k, n, inode, body);
      }
    }
  }

  lemma LastWroteBefore(states: seq<State>, steps: seq<Step>, k: int, n: int, inode: nat, body: Body)
    requires IsRun(states, steps) && LastWrote(states, steps, k, n, inode, body)
    ensures k < n - 1 ==> !Touches(states[n - 1], steps[n - 1], inode)
    ensures k < n - 1 ==> LastWrote(states, steps, k, n - 1, inode, body)
  {
  }

  /** No scratch name leads to a file from before the run. */
  lemma {:induction false} ScratchFilesAreNew(states: seq<State>, steps: seq<Step>, n: nat)
    requires IsRun(states, steps) && n < |states|
    ensures states[0].inodes.Keys <= states[n].inodes.Keys
    ensures forall name :: name in states[n].scratch ==> states[n].scratch[name] !in states[0].inodes
  {
    if n > 0 {
      ScratchFilesAreNew(states, steps, n - 1);
      RunKeepsNames(states, steps, n - 1);
      assert Apply(states[n - 1], steps[n - 1]) == Some(states[n]);
      StepAddsNewNames(states[n - 1], steps[n - 1], states[n]);
    }
  }

  lemma StepAddsNewNames(s: State, step: Step, after: State)
    requires NamesInv(s) && Apply(s, step) == Some(after)
    ensures s.inodes.Keys <= after.inodes.Keys
    ensures forall name :: name in after.scratch ==>
              if name in s.scratch then after.scratch[name] == s.scratch[name] else after.scratch[name] !in s.inodes
  {
    if step.id in s.ops && s.ops[step.id].Create? && s.ops[step.id].Opened() {
      assert FileOf(s, s.ops[step.id]);
    }
  }

  /**
   EXACTLY WHAT A LINK PUBLISHES, IN EVERY RUN: the visible record is then this body, the creator's own or any other,
   if and only if the last to touch the file under the scratch name had written this body into it.
  */
  lemma PublishesWhatWasLastWritten(states: seq<State>, steps: seq<Step>, i: nat, id: nat, body: Body)
    requires IsRun(states, steps) && Publishes(states, steps, i, id)
    ensures states[i + 1].Visible() == Some(body)
       <==> exists k :: LastWrote(states, steps, k, i, states[i].scratch[states[i].ops[id].tmp], body)
  {
    var inode := states[i].scratch[states[i].ops[id].tmp];
    ScratchFilesAreNew(states, steps, i);
    HoldsWhatWasLastWritten(states, steps, i, inode, body);
    assert Apply(states[i], steps[i]) == Some(states[i + 1]);
  }

  /** A second creator under the same scratch name comes and goes, and with it the name of the first one's file. */
  lemma NameIsTakenAway(held: Body, a: Body, b: Body, tmp: string) returns (states: seq<State>, steps: seq<Step>)
    ensures IsRun(states, steps) && |steps| == 8
    ensures states[8] == State(map[3 := Full(held), 7 := Full(b)], Some(3), map[], None, 0,
                               map[0 := Create(a, tmp, 7, 0, Writing),
                                   1 := Create(b, tmp, 7, 0, Done(Exists(held)))])
  {
    states, steps := TwoOpenOneName(held, a, b, tmp);
    states, steps := Continue(states, steps, Write(1));
    states, steps := Continue(states, steps, Link(1));
    states, steps := Continue(states, steps, Read(1));
    states, steps := Continue(states, steps, Unlink(1));
  }

  lemma TwoOpenOneName(held: Body, a: Body, b: Body, tmp: string) returns (states: seq<State>, steps: seq<Step>)
    ensures IsRun(states, steps) && |steps| == 4
    ensures states[4] == State(map[3 := Full(held), 7 := Torn], Some(3), map[tmp := 7], None, 0,
                               map[0 := Create(a, tmp, 7, 0, Writing), 1 := Create(b, tmp, 7, 0, Writing)])
  {
    states, steps := [State(map[3 := Full(held)], Some(3), map[], None, 0, map[])], [];
    states, steps := Continue(states, steps, StartCreate(0, a, tmp));
    states, steps := Continue(states, steps, Open(0, 7));
    states, steps := Continue(states, steps, StartCreate(1, b, tmp));
    states, steps := Continue(states, steps, Open(1, 8));
  }

  /** A third creator puts a finished file of its own under the scratch name. */
  lemma ThirdTakesTheName(before: seq<State>, done: seq<Step>, c: Body, tmp: string)
      returns (states: seq<State>, steps: seq<Step>)
    requires IsRun(before, done) && before[|done|].scratch == map[]
    requires 2 !in before[|done|].ops && 8 !in before[|done|].inodes
    ensures IsRun(states, steps) && |steps| == |done| + 3
    ensures var s := before[|done|];
            states[|steps|] ==
            s.With(2, Create(c, tmp, 8, s.removed, Linking)).(inodes := s.inodes[8 := Full(c)],
                                                             scratch := map[tmp := 8])
  {
    states, steps := Continue(before, done, StartCreate(2, c, tmp));
    states, steps := Continue(states, steps, Open(2, 8));
    states, steps := Continue(states, steps, Write(2));
  }

  /** The record is removed by its owner. */
  lemma OwnerRemoves(before: seq<State>, done: seq<Step>, held: Body) returns (states: seq<State>, steps: seq<Step>)
    requires IsRun(before, done) && before[|done|].lock == None && 3 !in before[|done|].ops
    requires before[|done|].Visible() == Some(held)
    ensures IsRun(states, steps) && |steps| == |done| + 4
    ensures var s := before[|done|];
            states[|steps|] ==
            s.With(3, Remove(held.email, Unlocking(true))).(target := None, lock := Some(3), removed := s.removed + 1)
  {
    states, steps := OwnerTakesTheLock(before, done, held.email);
    states, steps := Continue(states, steps, Check(3));
    states, steps := Continue(states, steps, Delete(3));
  }

  lemma OwnerTakesTheLock(before: seq<State>, done: seq<Step>, email: string)
      returns (states: seq<State>, steps: seq<Step>)
    requires IsRun(before, done) && before[|done|].lock == None && 3 !in before[|done|].ops
    ensures IsRun(states, steps) && |steps| == |done| + 2
    ensures states[|steps|] == before[|done|].With(3, Remove(email, Checking)).(lock := Some(3))
  {
    states, steps := Continue(before, done, StartRemove(3, email));
    states, steps := Continue(states, steps, Lock(3));
  }

  /**
   That nobody else uses the scratch name must hold from the call's own OPEN on. Here the name is taken away and
   given to another creator's file before the call writes; its write and its link follow on each other, and it
   publishes, and is told CREATED for, somebody else's record.
  */
  lemma CreatedForAnothersRecord(held: Body, a: Body, b: Body, c: Body, tmp: string)
      returns (states: seq<State>, steps: seq<Step>)
    ensures IsRun(states, steps) && |steps| == 17
    ensures steps[15] == Write(0) && Publishes(states, steps, 16, 0) && states[16].ops[0].body == a
    ensures states[17].Visible() == Some(c) && AnswerOf(states[17].ops[0]) == Some(Created)
  {
    states, steps := NameIsTakenAway(held, a, b, tmp);
    states, steps := ThirdTakesTheName(states, steps, c, tmp);
    states, steps := OwnerRemoves(states, steps, held);
    states, steps := Continue(states, steps, Write(0));
    states, steps := Continue(states, steps, Link(0));
  }

  /** One call publishes a file, a removal takes that very file out, and the other call publishes. */
  ghost predicate Handover(states: seq<State>, steps: seq<Step>, i: int, at: int, j: int, first: nat, second: nat)
    requires |states| == |steps| + 1
  {
    && i < at < j && Publishes(states, steps, i, first) && Publishes(states, steps, j, second)
    && steps[at].Delete? && states[at].target == states[i + 1].target && states[at + 1].target == None
  }

  /** MUTUAL EXCLUSION, IN EVERY RUN. Two calls are both told CREATED only if a removal came in between. */
  lemma TwoCreatedNeedARemoval(states: seq<State>, steps: seq<Step>, a: nat, b: nat)
    requires IsRun(states, steps) && a != b
    requires Told(states[|steps|], a, Created) && Told(states[|steps|], b, Created)
    ensures exists i, at, j :: Handover(states, steps, i, at, j, a, b) || Handover(states, steps, i, at, j, b, a)
  {
    var i := PublishingStep(states, steps, a);
    var j := PublishingStep(states, steps, b);
    if i < j {
      var at := RemovedInBetween(states, steps, i, j, a, b);
    } else {
      var at := RemovedInBetween(states, steps, j, i, b, a);
    }
  }

  lemma PublishingStep(states: seq<State>, steps: seq<Step>, id: nat) returns (i: nat)
    requires IsRun(states, steps) && Told(states[|steps|], id, Created)
    ensures i < |steps| && Publishes(states, steps, i, id) && steps[i] == Link(id)
  {
    AnswersWereTrueDuringTheCall(states, steps, id, Created);
    i :| i < |steps| && Publishes(states, steps, i, id);
  }

  lemma RemovedInBetween(states: seq<State>, steps: seq<Step>, i: int, j: int, first: nat, second: nat)
      returns (at: int)
    requires IsRun(states, steps) && i < j && Publishes(states, steps, i, first) && Publishes(states, steps, j, second)
    ensures Handover(states, steps, i, at, j, first, second)
  {
    RunIsSticky(states, steps);
    at := ClearedBetween(Targets(states), i + 1, j, states[i + 1].target.value);
    RemovalDeletesWhatItChecked(states, steps, at);
  }

  /** How many removals a creator must have lived through to be where it is, if it only met complete records. */
  ghost predicate RemovalsSeen(s: State, id: nat) {
    id in s.ops && s.ops[id].Create? ==>
      var op := s.ops[id];
      && op.since <= s.removed
      && (op.phase == Reading(1) ==> s.target.Some? || s.removed >= op.since + 1)
      && (op.phase == Relinking ==> s.removed >= op.since + 1)
      && (op.phase.Reading? && op.phase.attempt != 1 ==> s.removed >= op.since + (if s.target.Some? then 1 else 2))
      && (AnswerOf(op) == Some(Unverifiable) ==> s.removed >= op.since + 2)
  }

  lemma StepKeepsRemovalsSeen(s: State, step: Step, after: State, id: nat)
    requires RemovalsSeen(s, id) && Apply(s, step) == Some(after) && (Active(s, id) ==> Complete(s))
    ensures RemovalsSeen(after, id)
  {
    if step.id == id {
      OwnStepKeepsRemovalsSeen(s, step, after);
    } else {
      OthersKeepRemovalsSeen(s, step, after, id);
    }
  }

  lemma OwnStepKeepsRemovalsSeen(s: State, step: Step, after: State)
    requires RemovalsSeen(s, step.id) && Apply(s, step) == Some(after) && (Active(s, step.id) ==> Complete(s))
    ensures RemovalsSeen(after, step.id)
  {
  }

  lemma OthersKeepRemovalsSeen(s: State, step: Step, after: State, id: nat)
    requires RemovalsSeen(s, id) && Apply(s, step) == Some(after) && step.id != id
    ensures RemovalsSeen(after, id)
  {
    assert id in after.ops ==> id in s.ops && after.ops[id] == s.ops[id];
  }

  lemma {:induction false} RunKeepsRemovalsSeen(states: seq<State>, steps: seq<Step>, n: nat, id: nat)
    requires IsRun(states, steps) && n < |states|
    requires forall i :: 0 <= i < |states| && Active(states[i], id) ==> Complete(states[i])
    ensures RemovalsSeen(states[n], id)
  {
    if n > 0 {
      RunKeepsRemovalsSeen(states, steps, n - 1, id);
      StepKeepsRemovalsSeen(states[n - 1], steps[n - 1], states[n], id);
    }
  }

  /** UNVERIFIABLE, IN EVERY RUN: two removals took effect during that call, or it met a torn record. */
  lemma UnverifiableNeedsTwoRemovals(states: seq<State>, steps: seq<Step>, id: nat)
    requires IsRun(states, steps) && Told(states[|steps|], id, Unverifiable)
    ensures || states[|steps|].removed >= states[|steps|].ops[id].since + 2
            || exists i :: 0 <= i < |states| && Active(states[i], id) && !Complete(states[i])
  {
    if forall i :: 0 <= i < |states| && Active(states[i], id) ==> Complete(states[i]) {
      RunKeepsRemovalsSeen(states, steps, |steps|, id);
    }
  }

  /** So in a run in which no step tears the record, UNVERIFIABLE always means two removals. */
  lemma UnverifiableWithoutTears(states: seq<State>, steps: seq<Step>, id: nat)
    requires IsRun(states, steps) && Told(states[|steps|], id, Unverifiable)
    requires forall i :: 0 <= i < |steps| ==> !Tears(states[i], steps[i])
    ensures states[|steps|].removed >= states[|steps|].ops[id].since + 2
  {
    CompleteExactlyWhenNothingTears(states, steps);
    UnverifiableNeedsTwoRemovals(states, steps, id);
  }
}
