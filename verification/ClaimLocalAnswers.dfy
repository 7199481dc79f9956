/**
 Exactly what each caller of the local register is told, in terms of what it met: its own links, the HELD record at
 the moments at which it read or checked it, and what its own delete took away.
*/
module ClaimLocalAnswers {
  import opened Common
  import opened ClaimRegister
  import opened ClaimLocal

  /** One thing that a caller meets. */
  datatype Fact =
    | Linked                              // its link found the HELD name free
    | Taken                               // its link found the HELD name in use
    | NoFile                              // its scratch name was gone
    | Saw(held: Option<Body>)             // a read of the HELD
    | Checked(held: Option<Body>)         // the read under the lock
    | Cleared(inode: Option<nat>)         // its delete, and the file that the HELD name led to until then
    | NameDropped                         // it unlinked its scratch name
    | LockDropped                         // it gave the lock back
    | Felled                              // it crashed

  /** What a step lets operation `id` meet. */
  function Met(s: State, step: Step, id: nat): seq<Fact> {
    if step.id != id || id !in s.ops then []
    else
      match step
      case Link(_) =>
        if s.ops[id].Remove? then []
        else if s.ops[id].tmp !in s.scratch then [NoFile]
        else if s.target == None then [Linked]
        else [Taken]
      case Read(_) => [Saw(s.Visible())]
      case Check(_) => [Checked(s.Visible())]
      case Delete(_) => [Cleared(s.target)]
      case Unlink(_) => [NameDropped]
      case Unlock(_) => [LockDropped]
      case Crash(_) => [Felled]
      case _ => []
  }

  /** All that operation `id` has met up to moment n, in order. */
  ghost function Story(states: seq<State>, steps: seq<Step>, n: nat, id: nat): seq<Fact>
    requires |states| == |steps| + 1 && n < |states|
  {
    if n == 0 then [] else Story(states, steps, n - 1, id) + Met(states[n - 1], steps[n - 1], id)
  }

  // ---- creates ----

  /** The answer that is due on a story. */
  predicate Due(story: seq<Fact>, answer: Answer) {
    match answer
    case Created => story == [Linked] || story == [Taken, Saw(None), Linked]
    case Failed => story == [NoFile] || story == [Taken, Saw(None), NoFile]
    case Exists(body) =>
      story == [Taken, Saw(Some(body))] || story == [Taken, Saw(None), Taken, Saw(Some(body))]
    case Unverifiable => story == [Taken, Saw(None), Taken, Saw(None)]
  }

  predicate CreateStands(story: seq<Fact>, phase: CreatePhase) {
    match phase
    case Opening => story == []
    case Writing => story == []
    case Linking => story == []
    case Reading(attempt) => story == if attempt == 1 then [Taken] else [Taken, Saw(None), Taken]
    case Relinking => story == [Taken, Saw(None)]
    case Unlinking(answer) => Due(story, answer)
    case Done(answer) => Last(story, NameDropped) && Due(story[..|story| - 1], answer)
    case Crashed => Last(story, Felled)
  }

  predicate Last(story: seq<Fact>, fact: Fact) {
    story != [] && story[|story| - 1] == fact
  }

  // ---- removals ----

  predicate IsOwn(held: Option<Body>, email: string) {
    held.Some? && Norm(held.value.email) == Norm(email)
  }

  /** It checked its own record and took the file away that the HELD name led to. */
  predicate TookAway(email: string, story: seq<Fact>) {
    && |story| == 2 && story[0].Checked? && IsOwn(story[0].held, email)
    && story[1].Cleared? && story[1].inode.Some?
  }

  /** It checked, and found nothing or somebody else's record. */
  predicate NotItsOwn(email: string, story: seq<Fact>) {
    |story| == 1 && story[0].Checked? && !IsOwn(story[0].held, email)
  }

  predicate RemoveStands(email: string, story: seq<Fact>, stage: RemovePhase) {
    match stage
    case Waiting => story == []
    case Checking => story == []
    case Removing(_) => |story| == 1 && story[0].Checked? && IsOwn(story[0].held, email)
    case Unlocking(said) => if said then TookAway(email, story) else NotItsOwn(email, story)
    case Stopped(said) =>
      && Last(story, LockDropped)
      && (var before := story[..|story| - 1]; if said then TookAway(email, before) else NotItsOwn(email, before))
    case Died => Last(story, Felled)
  }

  // ---- over every run ----

  predicate StandsIn(s: State, id: nat, story: seq<Fact>) {
    if id !in s.ops then story == []
    else
      match s.ops[id]
      case Create(_, _, _, _, phase) => CreateStands(story, phase)
      case Remove(email, stage) => RemoveStands(email, story, stage)
  }

  lemma OtherOps(s: State, step: Step, after: State, id: nat)
    requires Apply(s, step) == Some(after) && step.id != id
    ensures id in after.ops <==> id in s.ops
    ensures id in s.ops ==> after.ops[id] == s.ops[id]
  {
  }

  lemma OwnStepOfACreate(s: State, step: Step, after: State, story: seq<Fact>)
    requires Apply(s, step) == Some(after) && step.id in s.ops && s.ops[step.id].Create?
    requires CreateStands(story, s.ops[step.id].phase)
    ensures step.id in after.ops && after.ops[step.id].Create?
    ensures CreateStands(story + Met(s, step, step.id), after.ops[step.id].phase)
  {
  }

  lemma OwnStepOfARemove(s: State, step: Step, after: State, story: seq<Fact>)
    requires Apply(s, step) == Some(after) && LockInv(s) && step.id in s.ops && s.ops[step.id].Remove?
    requires RemoveStands(s.ops[step.id].email, story, s.ops[step.id].stage)
    ensures step.id in after.ops && after.ops[step.id].Remove? && after.ops[step.id].email == s.ops[step.id].email
    ensures RemoveStands(s.ops[step.id].email, story + Met(s, step, step.id), after.ops[step.id].stage)
  {
  }

  lemma StepKeepsStory(s: State, step: Step, after: State, id: nat, story: seq<Fact>)
    requires Apply(s, step) == Some(after) && LockInv(s) && StandsIn(s, id, story)
    ensures StandsIn(after, id, story + Met(s, step, id))
  {
    if step.id != id {
      OtherOps(s, step, after, id);
      assert story + Met(s, step, id) == story;
    } else if id in s.ops {
      if s.ops[id].Create? {
        OwnStepOfACreate(s, step, after, story);
      } else {
        OwnStepOfARemove(s, step, after, story);
      }
    }
  }

  lemma {:induction false} EveryoneStands(states: seq<State>, steps: seq<Step>, n: nat, id: nat)
    requires IsRun(states, steps) && n < |states|
    ensures StandsIn(states[n], id, Story(states, steps, n, id))
  {
    if n > 0 {
      EveryoneStands(states, steps, n - 1, id);
      RunKeepsLock(states, steps, n - 1);
      var story := Story(states, steps, n - 1, id);
      assert Story(states, steps, n, id) == story + Met(states[n - 1], steps[n - 1], id);
      StepKeepsStory(states[n - 1], steps[n - 1], states[n], id, story);
    }
  }

  ghost predicate AnsweredCreate(s: State, id: nat) {
    id in s.ops && s.ops[id].Create? && s.ops[id].phase.Done?
  }

  /**
   EXACTLY WHAT A CREATE IS TOLD, IN EVERY RUN. CREATED: its first or its second link found the name free. EXISTS: its
   last read saw this body. UNVERIFIABLE: it met the name taken twice, and saw nothing both times. Failed: its scratch
   name was gone. Whatever it is told, the last thing it did was to unlink its scratch name.
  */
  lemma CreateIsToldExactly(states: seq<State>, steps: seq<Step>, id: nat)
    requires IsRun(states, steps) && AnsweredCreate(states[|steps|], id)
    ensures var s, story := states[|steps|], Story(states, steps, |steps|, id);
            && Last(story, NameDropped)
            && var met := story[..|story| - 1];
            && (Told(s, id, Created) <==> met == [Linked] || met == [Taken, Saw(None), Linked])
            && (forall body :: Told(s, id, Exists(body)) <==>
                  met == [Taken, Saw(Some(body))] || met == [Taken, Saw(None), Taken, Saw(Some(body))])
            && (Told(s, id, Unverifiable) <==> met == [Taken, Saw(None), Taken, Saw(None)])
            && (Told(s, id, Failed) <==> met == [NoFile] || met == [Taken, Saw(None), NoFile])
  {
    var story := Story(states, steps, |steps|, id);
    EveryoneStands(states, steps, |steps|, id);
    OneAnswer(story[..|story| - 1], states[|steps|].ops[id].phase.answer);
  }

  lemma OneAnswer(story: seq<Fact>, answer: Answer)
    requires Due(story, answer)
    ensures forall other :: Due(story, other) <==> other == answer
  {
  }

  ghost predicate EndedWith(s: State, id: nat, removed: bool) {
    id in s.ops && s.ops[id].Remove? && s.ops[id].stage == Stopped(removed)
  }

  /** Operation `id` met this at step k. */
  ghost predicate MetAt(states: seq<State>, steps: seq<Step>, k: int, id: nat, fact: Fact)
    requires |states| == |steps| + 1
  {
    0 <= k < |steps| && Met(states[k], steps[k], id) == [fact]
  }

  /** A story is made of what happened: nothing in it is invented, and nothing that was met is missing. */
  lemma {:induction false} StoryTells(states: seq<State>, steps: seq<Step>, n: nat, id: nat, fact: Fact)
    requires |states| == |steps| + 1 && n < |states|
    ensures fact in Story(states, steps, n, id) <==> exists k :: k < n && MetAt(states, steps, k, id, fact)
  {
    if n > 0 {
      StoryTells(states, steps, n - 1, id, fact);
      OneAtATime(states[n - 1], steps[n - 1], id, fact);
      var met := Met(states[n - 1], steps[n - 1], id);
      assert Story(states, steps, n, id) == Story(states, steps, n - 1, id) + met;
      assert fact in met <==> MetAt(states, steps, n - 1, id, fact);
    }
  }

  lemma OneAtATime(s: State, step: Step, id: nat, fact: Fact)
    ensures fact in Met(s, step, id) <==> Met(s, step, id) == [fact]
  {
  }

  /** Step k is this removal's own delete, and it took the HELD away. */
  ghost predicate DeletedAt(states: seq<State>, steps: seq<Step>, k: int, id: nat)
    requires |states| == |steps| + 1
  {
    0 <= k < |steps| && steps[k] == Delete(id) && states[k].target.Some? && states[k + 1].target == None
  }

  /** Step k is this removal's own check, and it saw nothing or somebody else's record. */
  ghost predicate CheckFailedAt(states: seq<State>, steps: seq<Step>, k: int, id: nat, email: string)
    requires |states| == |steps| + 1
  {
    0 <= k < |steps| && steps[k] == Check(id) && !IsOwn(states[k].Visible(), email)
  }

  lemma ClearedMeansDeleted(states: seq<State>, steps: seq<Step>, k: int, id: nat, inode: Option<nat>)
    requires IsRun(states, steps) && MetAt(states, steps, k, id, Cleared(inode)) && inode.Some?
    ensures DeletedAt(states, steps, k, id)
  {
    assert Apply(states[k], steps[k]) == Some(states[k + 1]);
  }

  lemma DeletedMeansCleared(states: seq<State>, steps: seq<Step>, k: int, id: nat)
    requires IsRun(states, steps) && DeletedAt(states, steps, k, id)
    ensures MetAt(states, steps, k, id, Cleared(states[k].target))
  {
    assert Apply(states[k], steps[k]) == Some(states[k + 1]);
  }

  lemma CheckedMeansMet(states: seq<State>, steps: seq<Step>, k: int, id: nat, email: string)
    requires IsRun(states, steps) && CheckFailedAt(states, steps, k, id, email)
    ensures MetAt(states, steps, k, id, Checked(states[k].Visible()))
  {
    assert Apply(states[k], steps[k]) == Some(states[k + 1]);
  }

  lemma WhenMet(states: seq<State>, steps: seq<Step>, id: nat, fact: Fact) returns (k: int)
    requires |states| == |steps| + 1 && fact in Story(states, steps, |steps|, id)
    ensures MetAt(states, steps, k, id, fact)
  {
    StoryTells(states, steps, |steps|, id, fact);
    k :| k < |steps| && MetAt(states, steps, k, id, fact);
  }

  lemma MetIsTold(states: seq<State>, steps: seq<Step>, id: nat, k: int, fact: Fact)
    requires |states| == |steps| + 1 && MetAt(states, steps, k, id, fact)
    ensures fact in Story(states, steps, |steps|, id)
  {
    StoryTells(states, steps, |steps|, id, fact);
  }

  /** What is, and what is not, in the story of a removal that has ended. */
  lemma InTheStory(story: seq<Fact>, email: string)
    requires Last(story, LockDropped)
    ensures TookAway(email, story[..|story| - 1]) ==>
              && story[1] in story && story[1].Cleared? && story[1].inode.Some?
              && forall held :: Checked(held) in story ==> IsOwn(held, email)
    ensures NotItsOwn(email, story[..|story| - 1]) ==>
              && story[0] in story && story[0].Checked? && !IsOwn(story[0].held, email)
              && forall inode :: Cleared(inode) !in story
  {
  }

  lemma RemovedMeansDeleted(states: seq<State>, steps: seq<Step>, id: nat, email: string)
    requires IsRun(states, steps)
    requires var story := Story(states, steps, |steps|, id);
             Last(story, LockDropped) && TookAway(email, story[..|story| - 1])
    ensures exists k :: DeletedAt(states, steps, k, id)
    ensures forall k :: !CheckFailedAt(states, steps, k, id, email)
  {
    var story := Story(states, steps, |steps|, id);
    InTheStory(story, email);
    var k := WhenMet(states, steps, id, story[1]);
    ClearedMeansDeleted(states, steps, k, id, story[1].inode);
    forall j
      ensures !CheckFailedAt(states, steps, j, id, email)
    {
      if CheckFailedAt(states, steps, j, id, email) {
        CheckedMeansMet(states, steps, j, id, email);
        MetIsTold(states, steps, id, j, Checked(states[j].Visible()));
      }
    }
  }

  lemma NotRemovedMeansCheckFailed(states: seq<State>, steps: seq<Step>, id: nat, email: string)
    requires IsRun(states, steps)
    requires var story := Story(states, steps, |steps|, id);
             Last(story, LockDropped) && NotItsOwn(email, story[..|story| - 1])
    ensures exists k :: CheckFailedAt(states, steps, k, id, email)
    ensures forall k :: !DeletedAt(states, steps, k, id)
  {
    var story := Story(states, steps, |steps|, id);
    InTheStory(story, email);
    var k := WhenMet(states, steps, id, story[0]);
    MetAtCheck(states, steps, k, id, story[0].held);
    assert CheckFailedAt(states, steps, k, id, email);
    forall j
      ensures !DeletedAt(states, steps, j, id)
    {
      if DeletedAt(states, steps, j, id) {
        DeletedMeansCleared(states, steps, j, id);
        MetIsTold(states, steps, id, j, Cleared(states[j].target));
      }
    }
  }

  lemma MetAtCheck(states: seq<State>, steps: seq<Step>, k: int, id: nat, held: Option<Body>)
    requires |states| == |steps| + 1 && MetAt(states, steps, k, id, Checked(held))
    ensures 0 <= k < |steps| && steps[k] == Check(id) && states[k].Visible() == held
  {
  }

  /**
   EXACTLY WHAT A REMOVAL IS TOLD, IN EVERY RUN: "removed" if and only if its own delete took the HELD away, and "not
   removed" if and only if its check under the lock saw nothing, or somebody else's record.
  */
  lemma RemovalIsToldExactly(states: seq<State>, steps: seq<Step>, id: nat)
    requires IsRun(states, steps)
    requires EndedWith(states[|steps|], id, true) || EndedWith(states[|steps|], id, false)
    ensures EndedWith(states[|steps|], id, true) <==> exists k :: DeletedAt(states, steps, k, id)
    ensures EndedWith(states[|steps|], id, false) <==>
       exists k :: CheckFailedAt(states, steps, k, id, states[|steps|].ops[id].email)
  {
    var email := states[|steps|].ops[id].email;
    EveryoneStands(states, steps, |steps|, id);
    if EndedWith(states[|steps|], id, true) {
      RemovedMeansDeleted(states, steps, id, email);
    } else {
      NotRemovedMeansCheckFailed(states, steps, id, email);
    }
  }

  // ---- nobody is stuck ----

  /** The lock is in the hands of somebody who is still at work under it. */
  ghost predicate LockInUse(s: State) {
    s.lock.Some? ==> s.lock.value in s.ops && s.ops[s.lock.value].HoldsLock()
  }

  lemma StepKeepsLockInUse(s: State, step: Step, after: State)
    requires Apply(s, step) == Some(after) && LockInv(s) && LockInUse(s)
    ensures LockInUse(after)
  {
  }

  /** IN EVERY RUN, crashes included, the lock is never left behind: whoever has it has yet to give it back. */
  lemma {:induction false} LockIsNeverLeftBehind(states: seq<State>, steps: seq<Step>, n: nat)
    requires IsRun(states, steps) && n < |states|
    ensures LockInUse(states[n])
  {
    if n > 0 {
      LockIsNeverLeftBehind(states, steps, n - 1);
      RunKeepsLock(states, steps, n - 1);
      assert Apply(states[n - 1], steps[n - 1]) == Some(states[n]);
      StepKeepsLockInUse(states[n - 1], steps[n - 1], states[n]);
    }
  }

  /** A creator that has not ended has a step to take, and so has a remover, unless another one has the lock. */
  lemma NobodyIsStuck(s: State, id: nat, newInode: nat) returns (step: Step)
    requires id in s.ops && newInode !in s.inodes
    requires s.ops[id].Create? ==> !s.ops[id].phase.Done? && !s.ops[id].phase.Crashed?
    requires s.ops[id].Remove? ==> !s.ops[id].stage.Stopped? && !s.ops[id].stage.Died?
    requires s.ops[id].Remove? && s.ops[id].stage == Waiting ==> s.lock == None
    ensures step.id == id && !step.Crash? && Apply(s, step).Some?
  {
    step := match s.ops[id]
      case Create(_, _, _, _, Opening) => Open(id, newInode)
      case Create(_, _, _, _, Writing) => Write(id)
      case Create(_, _, _, _, Reading(_)) => Read(id)
      case Create(_, _, _, _, Unlinking(_)) => Unlink(id)
      case Create(_, _, _, _, _) => Link(id)
      case Remove(_, Waiting) => Lock(id)
      case Remove(_, Checking) => Check(id)
      case Remove(_, Removing(_)) => Delete(id)
      case Remove(_, _) => Unlock(id);
  }
}
