/**
 Exactly what each caller of the git-backed register is told, in terms of what it heard: the replies to its own
 push, the moments at which its own reads and probes were served, and nothing else.
*/
module ClaimGitAnswers {
  import opened Common
  import opened Text
  import opened ClaimRegister
  import opened Porcelain
  import opened ClaimGit

  /** One thing that a caller hears. */
  datatype Fact =
    | Anonymous                           // its own body names nobody
    | Printed(flag: char)                 // the server's report on its push arrived, with this flag for the ref
    | Silence                             // no report arrived, or a failure without a word about the ref
    | Muddle                              // success was reported, but nothing about the ref
    | Saw(held: Option<Commit>)           // a fetch: what the register held, or nothing at all
    | Listing(listed: Option<Commit>)     // the probe was served: what the register held
    | NoListing                           // the probe failed

  /** What a step lets operation `id` hear. */
  function Heard(s: State, step: Step, id: nat): seq<Fact> {
    if step.id != id then []
    else
      match step
      case StartClaim(_, commit) => if Strip(commit.body.email) == "" then [Anonymous] else []
      case Reply(_, printed) => if Said(printed, s.ref).Some? then [Printed(Said(printed, s.ref).value)] else [Muddle]
      case Lose(_) => [Silence]
      case Garble(_, rc) => [if rc == 0 then Muddle else Silence]
      case Read(_, reached) => [Saw(if reached then s.reg else None)]
      case Probe(_, reached) => [if reached then Listing(s.reg) else NoListing]
      case _ => []
  }

  /** All that operation `id` has heard up to moment n, in order. */
  ghost function Story(states: seq<State>, steps: seq<Step>, n: nat, id: nat): seq<Fact>
    requires |states| == |steps| + 1 && n < |states|
  {
    if n == 0 then [] else Story(states, steps, n - 1, id) + Heard(states[n - 1], steps[n - 1], id)
  }

  /** The fetch brought a body that names an owner. */
  predicate Names(f: Fact) {
    f.Saw? && f.held.Some? && Norm(f.held.value.body.email) != ""
  }

  predicate SawNobody(f: Fact) {
    f.Saw? && !Names(f)
  }

  // ---- claims ----

  /** The push was turned down: the register must be read back, with one more try. */
  predicate TurnedDown(story: seq<Fact>) {
    |story| == 1 && story[0].Printed? && (story[0].flag == '!' || story[0].flag == '=')
  }

  /** After silence the probe found somebody else's claim: the register must be read back once. */
  predicate ForeignListed(commit: Commit, story: seq<Fact>) {
    |story| == 2 && story[0] == Silence && story[1].Listing? && story[1].listed.Some? && story[1].listed != Some(commit)
  }

  /** One read-back is left. */
  predicate OneTryLeft(commit: Commit, story: seq<Fact>) {
    ForeignListed(commit, story) || (|story| == 2 && TurnedDown(story[..1]) && SawNobody(story[1]))
  }

  predicate MayRead(commit: Commit, story: seq<Fact>) {
    TurnedDown(story) || OneTryLeft(commit, story)
  }

  /** The read-back named this body: the last thing heard. */
  predicate NamedLast(commit: Commit, story: seq<Fact>, body: Body) {
    && story != [] && MayRead(commit, story[..|story| - 1])
    && Names(story[|story| - 1]) && story[|story| - 1].held.value.body == body
  }

  /** All permitted read-backs named nobody. */
  predicate NamedNobody(commit: Commit, story: seq<Fact>) {
    && story != [] && OneTryLeft(commit, story[..|story| - 1]) && SawNobody(story[|story| - 1])
  }

  /** Where a claim stands, given all it has heard. */
  ghost predicate ClaimStands(commit: Commit, story: seq<Fact>, phase: ClaimPhase) {
    match phase
    case Pushing => story == []
    case Probing => story == [Silence]
    case Listed(listed) => story == [Silence, Listing(listed)]
    case Reading(retries) => if retries == 1 then TurnedDown(story) else retries == 0 && OneTryLeft(commit, story)
    case ReadBack(retries, seen) =>
      && story != [] && story[|story| - 1] == Saw(seen)
      && if retries == 1 then TurnedDown(story[..|story| - 1])
         else retries == 0 && OneTryLeft(commit, story[..|story| - 1])
    case Answered(Created) => story == [Printed('*')] || story == [Silence, Listing(Some(commit))]
    case Answered(Exists(body)) => NamedLast(commit, story, body)
    case Answered(NothingSeen) => story == [Silence, Listing(None)]
    case Answered(CannotTell) =>
      || story == [Anonymous] || story == [Muddle] || story == [Silence, NoListing]
      || NamedNobody(commit, story)
  }

  ghost predicate ClaimStandsIn(s: State, id: nat, story: seq<Fact>) {
    if id !in s.ops then story == []
    else
      match s.ops[id]
      case Claim(commit, push, phase) =>
        && ClaimStands(commit, story, phase)
        && (push.Carried? ==> push.flag == '*' || push.flag == '!' || push.flag == '=')
      case Release(_, _, _, _) => true
  }

  /** A claim that has heard this story takes a step of its own. */
  ghost predicate Stepping(s: State, step: Step, after: State, story: seq<Fact>) {
    && Apply(s, step) == Some(after) && step.id in s.ops && s.ops[step.id].Claim?
    && ClaimStandsIn(s, step.id, story)
  }

  lemma OwnReply(s: State, step: Step, after: State, story: seq<Fact>)
    requires Stepping(s, step, after, story) && step.Reply?
    ensures ClaimStandsIn(after, step.id, story + Heard(s, step, step.id))
  {
    ClassifierTable(Some(ExitCode(s.ops[step.id].push.flag)), step.printed, s.ref);
  }

  lemma OwnRead(s: State, step: Step, after: State, story: seq<Fact>)
    requires Stepping(s, step, after, story) && step.Read?
    ensures ClaimStandsIn(after, step.id, story + Heard(s, step, step.id))
  {
    var more := story + Heard(s, step, step.id);
    assert more[..|more| - 1] == story;
  }

  lemma OwnDecision(s: State, step: Step, after: State, story: seq<Fact>)
    requires Stepping(s, step, after, story) && step.Decide?
    ensures ClaimStandsIn(after, step.id, story + Heard(s, step, step.id))
  {
    assert story + Heard(s, step, step.id) == story;
  }

  lemma OwnOtherStep(s: State, step: Step, after: State, story: seq<Fact>)
    requires Stepping(s, step, after, story) && !step.Reply? && !step.Read? && !step.Decide?
    ensures ClaimStandsIn(after, step.id, story + Heard(s, step, step.id))
  {
    if step.Probe? {
      OwnProbe(s, step, after, story);
    } else if step.Lose? || step.Garble? {
      OwnSilence(s, step, after, story);
    } else {
      OwnQuietStep(s, step, after, story);
    }
  }

  lemma OwnProbe(s: State, step: Step, after: State, story: seq<Fact>)
    requires Stepping(s, step, after, story) && step.Probe?
    ensures ClaimStandsIn(after, step.id, story + Heard(s, step, step.id))
  {
    assert story == [Silence];
  }

  lemma OwnSilence(s: State, step: Step, after: State, story: seq<Fact>)
    requires Stepping(s, step, after, story) && (step.Lose? || step.Garble?)
    ensures ClaimStandsIn(after, step.id, story + Heard(s, step, step.id))
  {
    assert story == [];
  }

  lemma OwnQuietStep(s: State, step: Step, after: State, story: seq<Fact>)
    requires Stepping(s, step, after, story)
    requires !step.Reply? && !step.Read? && !step.Decide? && !step.Probe? && !step.Lose? && !step.Garble?
    ensures ClaimStandsIn(after, step.id, story + Heard(s, step, step.id))
  {
    assert story + Heard(s, step, step.id) == story;
  }

  /** What one step of its own does to a claim. */
  lemma OwnStepOfAClaim(s: State, step: Step, after: State, story: seq<Fact>)
    requires Stepping(s, step, after, story)
    ensures ClaimStandsIn(after, step.id, story + Heard(s, step, step.id))
  {
    if step.Reply? {
      OwnReply(s, step, after, story);
    } else if step.Read? {
      OwnRead(s, step, after, story);
    } else if step.Decide? {
      OwnDecision(s, step, after, story);
    } else {
      OwnOtherStep(s, step, after, story);
    }
  }

  lemma StepKeepsClaim(s: State, step: Step, after: State, id: nat, story: seq<Fact>)
    requires Apply(s, step) == Some(after) && ClaimStandsIn(s, id, story)
    ensures ClaimStandsIn(after, id, story + Heard(s, step, id))
  {
    if step.id != id {
      OthersStandStill(s, step, after, id);
      assert story + Heard(s, step, id) == story;
    } else if id in s.ops && s.ops[id].Claim? {
      OwnStepOfAClaim(s, step, after, story);
    }
  }

  lemma {:induction false} ClaimsStand(states: seq<State>, steps: seq<Step>, n: nat, id: nat)
    requires IsRun(states, steps) && n < |states|
    ensures ClaimStandsIn(states[n], id, Story(states, steps, n, id))
  {
    if n > 0 {
      ClaimsStand(states, steps, n - 1, id);
      var story := Story(states, steps, n - 1, id);
      assert Story(states, steps, n, id) == story + Heard(states[n - 1], steps[n - 1], id);
      StepKeepsClaim(states[n - 1], steps[n - 1], states[n], id, story);
    }
  }

  ghost predicate AnsweredClaim(s: State, id: nat) {
    id in s.ops && s.ops[id].Claim? && s.ops[id].Over()
  }

  /**
   EXACTLY WHAT A CLAIM IS TOLD, IN EVERY RUN. CREATED: the server printed `*` for the ref, or after silence the probe
   found this very commit. EXISTS: the last fetch named this body, after a push turned down or a foreign claim listed.
   "Nothing committed": after silence the probe found nothing. UNVERIFIABLE: an anonymous claim, a report without a
   word on the ref, a failed probe, or no permitted fetch that named anybody.
  */
  lemma ClaimIsToldExactly(states: seq<State>, steps: seq<Step>, id: nat)
    requires IsRun(states, steps) && AnsweredClaim(states[|steps|], id)
    ensures var s, story, commit := states[|steps|], Story(states, steps, |steps|, id), states[|steps|].ops[id].commit;
            && (Told(s, id, Created) <==> story == [Printed('*')] || story == [Silence, Listing(Some(commit))])
            && (forall body :: Told(s, id, Exists(body)) <==> NamedLast(commit, story, body))
            && (Told(s, id, NothingSeen) <==> story == [Silence, Listing(None)])
            && (Told(s, id, CannotTell) <==>
                || story == [Anonymous] || story == [Muddle] || story == [Silence, NoListing]
                || NamedNobody(commit, story))
  {
    ClaimsStand(states, steps, |steps|, id);
    var op := states[|steps|].ops[id];
    OneAnswer(op.commit, Story(states, steps, |steps|, id), op.phase.answer);
  }

  /** No two answers are due on the same story. */
  lemma OneAnswer(commit: Commit, story: seq<Fact>, answer: Answer)
    requires ClaimStands(commit, story, Answered(answer))
    ensures answer == Created <==> story == [Printed('*')] || story == [Silence, Listing(Some(commit))]
    ensures forall body :: answer == Exists(body) <==> NamedLast(commit, story, body)
    ensures answer == NothingSeen <==> story == [Silence, Listing(None)]
    ensures answer == CannotTell <==>
       || story == [Anonymous] || story == [Muddle] || story == [Silence, NoListing]
       || NamedNobody(commit, story)
  {
  }

  /** The server's `*`, once it arrives, is CREATED there and then. */
  lemma AStarIsCreated(states: seq<State>, steps: seq<Step>, id: nat)
    requires IsRun(states, steps) && id in states[|steps|].ops && states[|steps|].ops[id].Claim?
    requires Story(states, steps, |steps|, id) == [Printed('*')]
    ensures Told(states[|steps|], id, Created)
  {
    ClaimsStand(states, steps, |steps|, id);
    var op := states[|steps|].ops[id];
    StarEndsIt(op.commit, Story(states, steps, |steps|, id), op.phase);
  }

  lemma StarEndsIt(commit: Commit, story: seq<Fact>, phase: ClaimPhase)
    requires ClaimStands(commit, story, phase) && story == [Printed('*')]
    ensures phase == Answered(Created)
  {
    assert story[0] == Printed('*') && story[..0] == [];
  }

  // ---- releases ----

  /** The fetch brought a claim under the releaser's own address. */
  predicate SawOwn(f: Fact, email: string) {
    Names(f) && Norm(f.held.value.body.email) == Norm(email)
  }

  /** It read its own claim and sent a delete that names it. */
  predicate Sent(email: string, lease: Option<Commit>, story: seq<Fact>) {
    |story| >= 1 && SawOwn(story[0], email) && lease == story[0].held
  }

  ghost predicate ReleaseStands(email: string, lease: Option<Commit>, story: seq<Fact>, stage: ReleasePhase) {
    match stage
    case Looking => story == [] && lease == None
    case Looked(found) => story == [Saw(found)] && lease == None
    case Deleting(commit) => |story| == 1 && Sent(email, lease, story) && lease == Some(commit)
    case Stopped(true) => |story| == 2 && Sent(email, lease, story) && story[1] == Printed('-')
    case Stopped(false) =>
      || (|story| == 1 && story[0].Saw? && !SawOwn(story[0], email) && lease == None)
      || (|story| == 2 && Sent(email, lease, story) && (story[1] == Silence || story[1] == Printed('!')))
  }

  ghost predicate ReleaseStandsIn(s: State, id: nat, story: seq<Fact>) {
    if id !in s.ops then story == []
    else
      match s.ops[id]
      case Claim(_, _, _) => true
      case Release(email, lease, push, stage) =>
        && ReleaseStands(email, lease, story, stage)
        && (push.Carried? ==> push.flag == '-' || push.flag == '!')
        && ReportIsTheFlag(story, push)
  }

  predicate ReportIsTheFlag(story: seq<Fact>, push: Push) {
    |story| == 2 && story[1].Printed? ==> push == Carried(story[1].flag)
  }

  lemma OwnStepOfARelease(s: State, step: Step, after: State, story: seq<Fact>)
    requires Apply(s, step) == Some(after) && step.id in s.ops && s.ops[step.id].Release?
    requires ReleaseStands(s.ops[step.id].email, s.ops[step.id].lease, story, s.ops[step.id].stage)
    requires s.ops[step.id].push.Carried? ==> s.ops[step.id].push.flag in {'-', '!'}
    requires ReportIsTheFlag(story, s.ops[step.id].push)
    ensures ReportIsTheFlag(story + Heard(s, step, step.id), after.ops[step.id].push)
    ensures step.id in after.ops && after.ops[step.id].Release? && after.ops[step.id].email == s.ops[step.id].email
    ensures ReleaseStands(s.ops[step.id].email, after.ops[step.id].lease, story + Heard(s, step, step.id),
                          after.ops[step.id].stage)
    ensures after.ops[step.id].push.Carried? ==> after.ops[step.id].push.flag in {'-', '!'}
  {
    var more := story + Heard(s, step, step.id);
    if step.Reply? {
      FlagIsWhatTheServerSaid(step.printed, s.ref);
      assert [s.ops[step.id].push.flag][0] == s.ops[step.id].push.flag && "-"[0] == '-';
    } else if step.Decide? {
      assert more == story;
    }
  }

  lemma StepKeepsRelease(s: State, step: Step, after: State, id: nat, story: seq<Fact>)
    requires Apply(s, step) == Some(after) && ReleaseStandsIn(s, id, story)
    ensures ReleaseStandsIn(after, id, story + Heard(s, step, id))
  {
    if step.id != id {
      OthersStandStill(s, step, after, id);
      assert story + Heard(s, step, id) == story;
    } else if id !in s.ops {
      StartsAnew(s, step, after);
    } else if s.ops[id].Release? {
      OwnStepOfARelease(s, step, after, story);
    } else {
      ClaimsStayClaims(s, step, after);
    }
  }

  lemma {:induction false} ReleasesStand(states: seq<State>, steps: seq<Step>, n: nat, id: nat)
    requires IsRun(states, steps) && n < |states|
    ensures ReleaseStandsIn(states[n], id, Story(states, steps, n, id))
  {
    if n > 0 {
      ReleasesStand(states, steps, n - 1, id);
      var story := Story(states, steps, n - 1, id);
      assert Story(states, steps, n, id) == story + Heard(states[n - 1], steps[n - 1], id);
      StepKeepsRelease(states[n - 1], steps[n - 1], states[n], id, story);
    }
  }

  lemma StartsAnew(s: State, step: Step, after: State)
    requires Apply(s, step) == Some(after) && step.id !in s.ops
    ensures step.StartClaim? || step.StartRelease?
    ensures step.StartRelease? ==> Heard(s, step, step.id) == []
    ensures step.StartRelease? ==> after.ops[step.id] == Release(step.email, None, Carried('!'), Looking)
    ensures step.StartClaim? ==> after.ops[step.id].Claim?
  {
  }

  lemma ClaimsStayClaims(s: State, step: Step, after: State)
    requires Apply(s, step) == Some(after) && step.id in s.ops && s.ops[step.id].Claim?
    ensures step.id in after.ops && after.ops[step.id].Claim?
  {
  }

  ghost predicate EndedWith(s: State, id: nat, removed: bool) {
    id in s.ops && s.ops[id].Release? && s.ops[id].stage == Stopped(removed)
  }

  /**
   EXACTLY WHAT A RELEASE IS TOLD, IN EVERY RUN. Removed: it fetched a claim under its own address and the server
   printed `-` for the ref. Not removed: it fetched nothing of its own, its delete was turned down, or no report came.
  */
  lemma ReleaseIsToldExactly(states: seq<State>, steps: seq<Step>, id: nat)
    requires IsRun(states, steps)
    requires EndedWith(states[|steps|], id, true) || EndedWith(states[|steps|], id, false)
    ensures var s, story, email := states[|steps|], Story(states, steps, |steps|, id), states[|steps|].ops[id].email;
            && (EndedWith(s, id, true) <==> |story| == 2 && SawOwn(story[0], email) && story[1] == Printed('-'))
            && (EndedWith(s, id, false) <==>
                || (|story| == 1 && story[0].Saw? && !SawOwn(story[0], email))
                || (|story| == 2 && SawOwn(story[0], email) && (story[1] == Silence || story[1] == Printed('!'))))
  {
    ReleasesStand(states, steps, |steps|, id);
    var op := states[|steps|].ops[id];
    ToldApart(op.email, op.lease, Story(states, steps, |steps|, id), op.stage);
  }

  lemma ToldApart(email: string, lease: Option<Commit>, story: seq<Fact>, stage: ReleasePhase)
    requires ReleaseStands(email, lease, story, stage) && stage.Stopped?
    ensures stage == Stopped(true) <==> |story| == 2 && SawOwn(story[0], email) && story[1] == Printed('-')
    ensures stage == Stopped(false) <==>
            || (|story| == 1 && story[0].Saw? && !SawOwn(story[0], email))
            || (|story| == 2 && SawOwn(story[0], email) && (story[1] == Silence || story[1] == Printed('!')))
  {
    assert |story| == 2 && SawOwn(story[0], email) <==> |story| == 2;
  }

  // ---- what a release did, and what it says ----

  /** The delete of this release has been carried out, with this flag, and that is final. */
  ghost predicate CarriedOut(s: State, id: nat, flag: char) {
    id in s.ops && s.ops[id].Release? && s.ops[id].lease.Some? && s.ops[id].push == Carried(flag)
    && (s.ops[id].stage.Deleting? || s.ops[id].stage.Stopped?)
  }

  lemma CarriedOutStays(s: State, step: Step, after: State, id: nat, flag: char)
    requires Apply(s, step) == Some(after) && CarriedOut(s, id, flag)
    ensures CarriedOut(after, id, flag)
  {
  }

  lemma DeleteIsCarriedOut(states: seq<State>, steps: seq<Step>, i: nat, commit: Commit)
    requires IsRun(states, steps) && i < |steps| && Deletes(states, steps, i, commit)
    ensures CarriedOut(states[i + 1], steps[i].id, '-')
  {
    ReleasesStand(states, steps, i, steps[i].id);
    assert Apply(states[i], steps[i]) == Some(states[i + 1]);
  }

  lemma {:induction false} DeletedMeansCarriedOut(states: seq<State>, steps: seq<Step>, n: nat, id: nat, commit: Commit)
    requires IsRun(states, steps) && n < |states| && DeletedBy(states, steps, n, id, commit)
    ensures CarriedOut(states[n], id, '-')
  {
    var i: nat :| i < n && i < |steps| && steps[i].id == id && Deletes(states, steps, i, commit);
    assert Apply(states[n - 1], steps[n - 1]) == Some(states[n]);
    if i == n - 1 {
      DeleteIsCarriedOut(states, steps, i, commit);
    } else {
      assert DeletedBy(states, steps, n - 1, id, commit);
      DeletedMeansCarriedOut(states, steps, n - 1, id, commit);
      CarriedOutStays(states[n - 1], steps[n - 1], states[n], id, '-');
    }
  }

  /**
   EXACTLY WHEN "REMOVED" IS SAID: a release that has ended answers true if and only if its own delete took effect and
   the report on it arrived. A delete whose report is lost is answered false.
  */
  lemma RemovedExactly(states: seq<State>, steps: seq<Step>, id: nat)
    requires IsRun(states, steps)
    requires EndedWith(states[|steps|], id, true) || EndedWith(states[|steps|], id, false)
    ensures var story := Story(states, steps, |steps|, id);
            EndedWith(states[|steps|], id, true) <==>
            |story| == 2 && story[1].Printed? && exists commit :: DeletedBy(states, steps, |steps|, id, commit)
  {
    var story := Story(states, steps, |steps|, id);
    ReleasesStand(states, steps, |steps|, id);
    ReleasesAreGrounded(states, steps, |steps|, id);
    if commit :| DeletedBy(states, steps, |steps|, id, commit) {
      DeletedMeansCarriedOut(states, steps, |steps|, id, commit);
    }
  }

  // ---- nobody is stuck ----

  /** A caller that has not ended always has a step to take, whatever the server does. */
  lemma NobodyIsStuck(s: State, id: nat) returns (step: Step)
    requires Active(s, id)
    ensures step.id == id && (step.Lose? || step == Read(id, true) || step == Probe(id, true) || step.Decide?)
    ensures Apply(s, step).Some?
  {
    step := match s.ops[id]
      case Claim(_, _, Pushing) => Lose(id)
      case Claim(_, _, Reading(_)) => Read(id, true)
      case Claim(_, _, Probing) => Probe(id, true)
      case Release(_, _, _, Looking) => Read(id, true)
      case Release(_, _, _, Deleting(_)) => Lose(id)
      case _ => Decide(id);
  }
}
