/**
 The git-backed claim register as a distributed protocol on one ref: any number of claimants and
 releasers, pushes that may land after their sender gave up, lost replies, a server that declines,
 and read-backs that see the ref at one moment or not at all.

 A step is one server-side event or one client-side decision; a run is any sequence of steps.
*/
module ClaimGit {
  import opened Common
  import opened Text
  import opened ClaimRegister
  import opened Porcelain

  /** A forged claim object. Its hash is modelled as injective, so a commit is its own contents:
      the HELD body and the committer time stamp. */
  datatype Commit = Commit(body: Body, stamp: nat)

  /** A body that can name an owner. */
  predicate Usable(body: Body) {
    Norm(body.email) != ""
  }

  datatype Answer = Created | Exists(body: Body) | NothingSeen | CannotTell

  /** One push on its way to the server, or carried out there with a status flag. */
  datatype Push = InFlight | Carried(flag: char)

  datatype ClaimPhase =
    | Pushing
    | Reading(retries: nat)
    | ReadBack(retries: nat, seen: Option<Commit>)
    | Probing
    | Listed(listed: Option<Commit>)
    | Answered(answer: Answer)

  datatype ReleasePhase =
    | Looking
    | Looked(found: Option<Commit>)
    | Deleting(lease: Commit)
    | Stopped(removed: bool)

  datatype Op =
    | Claim(commit: Commit, push: Push, phase: ClaimPhase)
    | Release(email: string, lease: Option<Commit>, push: Push, stage: ReleasePhase)
  {
    predicate Over() {
      match this
      case Claim(_, _, phase) => phase.Answered?
      case Release(_, _, _, stage) => stage.Stopped?
    }

    function Carrying(flag: char): Op {
      match this
      case Claim(commit, _, phase) => Claim(commit, Carried(flag), phase)
      case Release(email, lease, _, stage) => Release(email, lease, Carried(flag), stage)
    }
  }

  datatype State = State(ref: string, reg: Option<Commit>, ops: map<nat, Op>) {
    function With(id: nat, op: Op): State {
      this.(ops := ops[id := op])
    }
  }

  datatype Step =
    | StartClaim(id: nat, commit: Commit)
    | StartRelease(id: nat, email: string)
    | LandClaim(id: nat)                          // the server carries out a create push
    | LandDelete(id: nat)                         // the server carries out a delete push
    | Decline(id: nat)                            // the server refuses without looking at the ref
    | Reply(id: nat, printed: seq<Status>)        // the porcelain report reaches the client
    | Lose(id: nat)                               // it never does: a timeout or a dropped connection
    | Garble(id: nat, rc: int)                    // the push ends with this exit code and no word about the ref
    | Read(id: nat, reached: bool)                // a fetch is served, or fails
    | Probe(id: nat, reached: bool)               // ls-remote is served, or fails
    | Decide(id: nat)                             // the client acts on what it read

  function AfterVerdict(verdict: Verdict): ClaimPhase {
    match verdict
    case Won => Answered(Created)
    case Rejected => Reading(1)
    case Transient => Probing
    case Indeterminate => Answered(CannotTell)
  }

  /** The decision taken on a read-back: name the owner, try once more, or fail closed. */
  function AfterRead(retries: nat, seen: Option<Commit>): ClaimPhase {
    if seen.Some? && Usable(seen.value.body) then Answered(Exists(seen.value.body))
    else if retries > 0 then Reading(retries - 1)
    else Answered(CannotTell)
  }

  /** The decision taken on the existence probe. */
  function AfterProbe(ours: Commit, listed: Option<Commit>): ClaimPhase {
    match listed
    case None => Answered(NothingSeen)
    case Some(commit) => if commit == ours then Answered(Created) else Reading(0)
  }

  function AfterLook(email: string, found: Option<Commit>): ReleasePhase {
    match found
    case None => Stopped(false)
    case Some(commit) =>
      if Usable(commit.body) && Norm(commit.body.email) == Norm(email) then Deleting(commit)
      else Stopped(false)
  }

  /** The server side of `--force-with-lease=<ref>:`, the ref must not exist. */
  function CreateFlag(reg: Option<Commit>, commit: Commit): char {
    if reg == None then '*' else if reg == Some(commit) then '=' else '!'
  }

  /** The server side of a delete under `--force-with-lease=<ref>:<sha>`. */
  function DeleteFlag(reg: Option<Commit>, lease: Commit): char {
    if reg == Some(lease) then '-' else '!'
  }

  function ExitCode(flag: char): int {
    if flag == '!' then 1 else 0
  }

  /** What one step does to the system, or None where the step cannot be taken. */
  ghost function Apply(s: State, step: Step): Option<State> {
    match step
    case StartClaim(id, commit) =>
      if id in s.ops then None
      else if Strip(commit.body.email) == "" then Some(s.With(id, Claim(commit, Carried('!'), Answered(CannotTell))))
      else Some(s.With(id, Claim(commit, InFlight, Pushing)))
    case StartRelease(id, email) =>
      if id in s.ops then None
      else Some(s.With(id, Release(email, None, Carried('!'), Looking)))
    case LandClaim(id) =>
      if id in s.ops && s.ops[id].Claim? && s.ops[id].push == InFlight then
        var op := s.ops[id];
        var flag := CreateFlag(s.reg, op.commit);
        Some(s.With(id, op.Carrying(flag)).(reg := if flag == '*' then Some(op.commit) else s.reg))
      else None
    case LandDelete(id) =>
      if id in s.ops && s.ops[id].Release? && s.ops[id].push == InFlight && s.ops[id].lease.Some? then
        var op := s.ops[id];
        var flag := DeleteFlag(s.reg, op.lease.value);
        Some(s.With(id, op.Carrying(flag)).(reg := if flag == '-' then None else s.reg))
      else None
    case Decline(id) =>
      if id in s.ops && s.ops[id].push == InFlight then Some(s.With(id, s.ops[id].Carrying('!')))
      else None
    case Reply(id, printed) =>
      if id in s.ops && s.ops[id].push.Carried? && AllPrintable(printed)
          && Said(printed, s.ref) == Some(s.ops[id].push.flag) then
        var op := s.ops[id];
        var out := Lines(printed);
        match op {
          case Claim(_, push, Pushing) =>
            Some(s.With(id, op.(phase := AfterVerdict(ClassifyPush(Some(ExitCode(push.flag)), out, s.ref)))))
          case Release(_, _, _, Deleting(_)) =>
            Some(s.With(id, op.(stage := Stopped(RefFlag(out, s.ref) == Some("-")))))
          case _ => None
        }
      else None
    case Lose(id) =>
      if id in s.ops then
        match s.ops[id] {
          case Claim(_, _, Pushing) => Some(s.With(id, s.ops[id].(phase := AfterVerdict(Transient))))
          case Release(_, _, _, Deleting(_)) => Some(s.With(id, s.ops[id].(stage := Stopped(false))))
          case _ => None
        }
      else None
    case Garble(id, rc) =>
      if id in s.ops && s.ops[id].Claim? && s.ops[id].phase == Pushing then
        Some(s.With(id, s.ops[id].(phase := AfterVerdict(ClassifyPush(Some(rc), [], s.ref)))))
      else None
    case Read(id, reached) =>
      var seen := if reached then s.reg else None;
      if id in s.ops then
        match s.ops[id] {
          case Claim(_, _, Reading(retries)) => Some(s.With(id, s.ops[id].(phase := ReadBack(retries, seen))))
          case Release(_, _, _, Looking) => Some(s.With(id, s.ops[id].(stage := Looked(seen))))
          case _ => None
        }
      else None
    case Probe(id, reached) =>
      if id in s.ops && s.ops[id].Claim? && s.ops[id].phase == Probing then
        Some(s.With(id, s.ops[id].(phase := if reached then Listed(s.reg) else Answered(CannotTell))))
      else None
    case Decide(id) =>
      if id in s.ops then
        match s.ops[id] {
          case Claim(_, _, ReadBack(retries, seen)) =>
            Some(s.With(id, s.ops[id].(phase := AfterRead(retries, seen))))
          case Claim(commit, _, Listed(listed)) =>
            Some(s.With(id, s.ops[id].(phase := AfterProbe(commit, listed))))
          case Release(email, _, _, Looked(found)) =>
            var stage := AfterLook(email, found);
            if stage.Deleting? then Some(s.With(id, Release(email, Some(stage.lease), InFlight, stage)))
            else Some(s.With(id, s.ops[id].(stage := stage)))
          case _ => None
        }
      else None
  }

  // ---- runs ----

  /** A run starts with no operation under way and whatever the register then holds. */
  ghost predicate IsRun(states: seq<State>, steps: seq<Step>) {
    && |states| == |steps| + 1
    && states[0].ops == map[]
    && forall i :: 0 <= i < |steps| ==> Apply(states[i], steps[i]) == Some(states[i + 1])
  }

  ghost predicate Active(s: State, id: nat) {
    id in s.ops && !s.ops[id].Over()
  }

  /** The register held `commit` at some moment up to state n at which operation `id` was under way. */
  ghost predicate HeldDuring(states: seq<State>, n: nat, id: nat, commit: Commit)
    requires n < |states|
  {
    exists i :: 0 <= i <= n && Active(states[i], id) && states[i].reg == Some(commit)
  }

  ghost predicate EmptyDuring(states: seq<State>, n: nat, id: nat)
    requires n < |states|
  {
    exists i :: 0 <= i <= n && Active(states[i], id) && states[i].reg == None
  }

  ghost predicate BodyHeldDuring(states: seq<State>, n: nat, id: nat, body: Body)
    requires n < |states|
  {
    exists commit: Commit :: commit.body == body && HeldDuring(states, n, id, commit)
  }

  /** Everything a client knows goes back to a moment within its own call. */
  ghost predicate Grounded(states: seq<State>, n: nat, id: nat)
    requires n < |states|
  {
    id in states[n].ops ==> OpGrounded(states, n, id, states[n].ops[id])
  }

  ghost predicate OpGrounded(states: seq<State>, n: nat, id: nat, op: Op)
    requires n < |states|
  {
    match op
    case Claim(commit, push, phase) =>
      && (phase == Pushing && push == Carried('*') ==> HeldDuring(states, n, id, commit))
      && PhaseGrounded(states, n, id, commit, phase)
    case Release(_, _, _, _) => true
  }

  ghost predicate PhaseGrounded(states: seq<State>, n: nat, id: nat, commit: Commit, phase: ClaimPhase)
    requires n < |states|
  {
    match phase
    case ReadBack(_, seen) => seen.Some? ==> HeldDuring(states, n, id, seen.value)
    case Listed(None) => EmptyDuring(states, n, id)
    case Listed(Some(listed)) => HeldDuring(states, n, id, listed)
    case Answered(NothingSeen) => EmptyDuring(states, n, id)
    case Answered(Created) => HeldDuring(states, n, id, commit)
    case Answered(Exists(body)) => BodyHeldDuring(states, n, id, body)
    case _ => true
  }

  lemma HeldStays(states: seq<State>, n: nat, id: nat)
    requires n + 1 < |states|
    ensures forall commit :: HeldDuring(states, n, id, commit) ==> HeldDuring(states, n + 1, id, commit)
    ensures EmptyDuring(states, n, id) ==> EmptyDuring(states, n + 1, id)
    ensures forall body :: BodyHeldDuring(states, n, id, body) ==> BodyHeldDuring(states, n + 1, id, body)
  {
  }

  lemma HeldNow(states: seq<State>, n: nat, m: nat, id: nat)
    requires n <= m < |states| && Active(states[n], id)
    ensures states[n].reg.Some? ==> HeldDuring(states, m, id, states[n].reg.value)
    ensures states[n].reg == None ==> EmptyDuring(states, m, id)
  {
  }

  /** What a client knew stays grounded while its operation stands still. */
  lemma IdleStaysGrounded(states: seq<State>, n: nat, id: nat)
    requires n + 1 < |states| && Grounded(states, n, id)
    requires id in states[n].ops && id in states[n + 1].ops && states[n].ops[id] == states[n + 1].ops[id]
    ensures Grounded(states, n + 1, id)
  {
    HeldStays(states, n, id);
  }

  lemma LandingStaysGrounded(states: seq<State>, steps: seq<Step>, n: nat, id: nat)
    requires IsRun(states, steps) && n < |steps| && Grounded(states, n, id)
    requires steps[n].id == id && (steps[n].LandClaim? || steps[n].LandDelete? || steps[n].Decline?)
    ensures Grounded(states, n + 1, id)
  {
    assert Apply(states[n], steps[n]) == Some(states[n + 1]);
    HeldStays(states, n, id);
    if Active(states[n + 1], id) { HeldNow(states, n + 1, n + 1, id); }
  }

  lemma ReplyStaysGrounded(states: seq<State>, steps: seq<Step>, n: nat, id: nat)
    requires IsRun(states, steps) && n < |steps| && Grounded(states, n, id)
    requires steps[n].id == id && steps[n].Reply?
    ensures Grounded(states, n + 1, id)
  {
    var s, printed := states[n], steps[n].printed;
    assert Apply(s, steps[n]) == Some(states[n + 1]);
    HeldStays(states, n, id);
    if s.ops[id].Claim? {
      ClassifierTable(Some(ExitCode(s.ops[id].push.flag)), printed, s.ref);
    }
  }

  lemma ReadingStaysGrounded(states: seq<State>, steps: seq<Step>, n: nat, id: nat)
    requires IsRun(states, steps) && n < |steps| && Grounded(states, n, id)
    requires steps[n].id == id && (steps[n].Read? || steps[n].Probe?)
    ensures Grounded(states, n + 1, id)
  {
    assert Apply(states[n], steps[n]) == Some(states[n + 1]);
    HeldStays(states, n, id);
    HeldNow(states, n, n + 1, id);
  }

  lemma ClientStaysGrounded(states: seq<State>, steps: seq<Step>, n: nat, id: nat)
    requires IsRun(states, steps) && n < |steps| && Grounded(states, n, id)
    requires steps[n].id == id && (steps[n].Lose? || steps[n].Garble? || steps[n].StartClaim? || steps[n].StartRelease?)
    ensures Grounded(states, n + 1, id)
  {
    assert Apply(states[n], steps[n]) == Some(states[n + 1]);
    HeldStays(states, n, id);
  }

  lemma DecisionStaysGrounded(states: seq<State>, steps: seq<Step>, n: nat, id: nat)
    requires IsRun(states, steps) && n < |steps| && Grounded(states, n, id)
    requires steps[n].id == id && steps[n].Decide?
    ensures Grounded(states, n + 1, id)
  {
    assert Apply(states[n], steps[n]) == Some(states[n + 1]);
    HeldStays(states, n, id);
    var op := states[n].ops[id];
    if op.Claim? && op.phase.ReadBack? && op.phase.seen.Some? {
      assert BodyHeldDuring(states, n + 1, id, op.phase.seen.value.body);
    }
  }

  lemma OthersStandStill(s: State, step: Step, after: State, id: nat)
    requires Apply(s, step) == Some(after) && step.id != id
    ensures id in after.ops <==> id in s.ops
    ensures id in s.ops ==> after.ops[id] == s.ops[id]
  {
  }

  lemma StepKeepsGrounded(states: seq<State>, steps: seq<Step>, n: nat, id: nat)
    requires IsRun(states, steps) && n < |steps| && Grounded(states, n, id)
    ensures Grounded(states, n + 1, id)
  {
    if steps[n].id != id {
      OthersStandStill(states[n], steps[n], states[n + 1], id);
      if id in states[n].ops { IdleStaysGrounded(states, n, id); }
    } else {
      match steps[n] {
        case LandClaim(_) => LandingStaysGrounded(states, steps, n, id);
        case LandDelete(_) => LandingStaysGrounded(states, steps, n, id);
        case Decline(_) => LandingStaysGrounded(states, steps, n, id);
        case Reply(_, _) => ReplyStaysGrounded(states, steps, n, id);
        case Read(_, _) => ReadingStaysGrounded(states, steps, n, id);
        case Probe(_, _) => ReadingStaysGrounded(states, steps, n, id);
        case Decide(_) => DecisionStaysGrounded(states, steps, n, id);
        case _ => ClientStaysGrounded(states, steps, n, id);
      }
    }
  }

  lemma {:induction false} RunIsGrounded(states: seq<State>, steps: seq<Step>, n: nat, id: nat)
    requires IsRun(states, steps) && n < |states|
    ensures Grounded(states, n, id)
  {
    if n > 0 {
      RunIsGrounded(states, steps, n - 1, id);
      StepKeepsGrounded(states, steps, n - 1, id);
    }
  }

  // ---- what the answers mean ----

  /** Operation `id` is a claim that has been answered, and `answer` is what it was told. */
  ghost predicate Told(s: State, id: nat, answer: Answer) {
    id in s.ops && s.ops[id].Claim? && s.ops[id].phase == Answered(answer)
  }

  /** The caller's reading of an answer: CREATED, or EXISTS with its own token, is a win. */
  ghost predicate Winner(s: State, id: nat, token: string) {
    && id in s.ops && s.ops[id].Claim? && s.ops[id].commit.body.token == token
    && (Told(s, id, Created) || exists body: Body :: body.token == token && Told(s, id, Exists(body)))
  }

  /**
   Every answer was true at a moment inside the call it answers: CREATED means the register held this
   very commit, EXISTS means it held the body handed back, and "nothing committed" means it was empty
   when probed.
  */
  lemma AnswersWereTrueDuringTheCall(states: seq<State>, steps: seq<Step>, id: nat, answer: Answer)
    requires IsRun(states, steps) && Told(states[|steps|], id, answer)
    ensures answer == Created ==> HeldDuring(states, |steps|, id, states[|steps|].ops[id].commit)
    ensures answer.Exists? ==> BodyHeldDuring(states, |steps|, id, answer.body)
    ensures answer == NothingSeen ==> EmptyDuring(states, |steps|, id)
  {
    RunIsGrounded(states, steps, |steps|, id);
  }

  ghost function Register(states: seq<State>): (values: seq<Option<Commit>>)
    ensures |values| == |states|
    ensures forall i :: 0 <= i < |states| ==> values[i] == states[i].reg
  {
    seq(|states|, i requires 0 <= i < |states| => states[i].reg)
  }

  /** The git protocol is an implementation of the write-once register. */
  lemma RunIsSticky(states: seq<State>, steps: seq<Step>)
    requires IsRun(states, steps)
    ensures Sticky(Register(states))
  {
    var values := Register(states);
    forall i | 0 <= i < |values| - 1
      ensures Sticks(values[i], values[i + 1])
    {
      assert Apply(states[i], steps[i]) == Some(states[i + 1]);
    }
  }

  /** Step i is a compare-and-delete that removes exactly `commit`, the one its lease names. */
  ghost predicate Deletes(states: seq<State>, steps: seq<Step>, i: nat, commit: Commit)
    requires i < |steps| && |states| == |steps| + 1
  {
    && steps[i].LandDelete? && steps[i].id in states[i].ops
    && states[i].ops[steps[i].id].Release? && states[i].ops[steps[i].id].lease == Some(commit)
    && states[i].reg == Some(commit) && states[i + 1].reg == None
  }

  lemma OnlyDeletesClear(states: seq<State>, steps: seq<Step>, i: nat, commit: Commit)
    requires IsRun(states, steps) && i < |steps|
    requires states[i].reg == Some(commit) && states[i + 1].reg == None
    ensures Deletes(states, steps, i, commit)
  {
    assert Apply(states[i], steps[i]) == Some(states[i + 1]);
  }

  /** `first` was taken out of the register by a compare-and-delete before `second` was in it. */
  ghost predicate Handover(states: seq<State>, steps: seq<Step>, first: string, second: string)
    requires |states| == |steps| + 1
  {
    exists i, commit: Commit ::
      && 0 <= i < |steps| && commit.body.token == first && Deletes(states, steps, i, commit)
      && HoldsAfter(states, i, second)
  }

  ghost predicate HoldsAfter(states: seq<State>, i: int, token: string) {
    exists j :: 0 <= i < j < |states| && states[j].reg.Some? && states[j].reg.value.body.token == token
  }

  lemma WinnerHeld(states: seq<State>, steps: seq<Step>, id: nat, token: string) returns (at: nat)
    requires IsRun(states, steps) && Winner(states[|steps|], id, token)
    ensures at < |states| && Active(states[at], id)
    ensures states[at].reg.Some? && states[at].reg.value.body.token == token
  {
    RunIsGrounded(states, steps, |steps|, id);
    if Told(states[|steps|], id, Created) {
      var commit := states[|steps|].ops[id].commit;
      assert HeldDuring(states, |steps|, id, commit);
      at :| at <= |steps| && Active(states[at], id) && states[at].reg == Some(commit);
    } else {
      var body: Body :| body.token == token && Told(states[|steps|], id, Exists(body));
      assert BodyHeldDuring(states, |steps|, id, body);
      var commit: Commit :| commit.body == body && HeldDuring(states, |steps|, id, commit);
      at :| at <= |steps| && Active(states[at], id) && states[at].reg == Some(commit);
    }
  }

  lemma HandoverBetween(states: seq<State>, steps: seq<Step>, i: nat, j: nat, first: string, second: string)
    requires IsRun(states, steps) && i < j < |states| && first != second
    requires states[i].reg.Some? && states[i].reg.value.body.token == first
    requires states[j].reg.Some? && states[j].reg.value.body.token == second
    ensures Handover(states, steps, first, second)
  {
    RunIsSticky(states, steps);
    var held := states[i].reg.value;
    var at := ClearedBetween(Register(states), i, j, held);
    OnlyDeletesClear(states, steps, at, held);
    assert HoldsAfter(states, at, second);
  }

  /**
   MUTUAL EXCLUSION. In every run, two claimants with different tokens both win only if one of them was
   removed in between by a compare-and-delete of its exact commit, whatever replies were lost and
   however late pushes landed.
  */
  lemma TwoWinnersNeedADelete(states: seq<State>, steps: seq<Step>, a: nat, b: nat, tokenA: string, tokenB: string)
    requires IsRun(states, steps) && tokenA != tokenB
    requires Winner(states[|steps|], a, tokenA) && Winner(states[|steps|], b, tokenB)
    ensures Handover(states, steps, tokenA, tokenB) || Handover(states, steps, tokenB, tokenA)
  {
    var i := WinnerHeld(states, steps, a, tokenA);
    var j := WinnerHeld(states, steps, b, tokenB);
    if i < j {
      HandoverBetween(states, steps, i, j, tokenA, tokenB);
    } else {
      HandoverBetween(states, steps, j, i, tokenB, tokenA);
    }
  }

  lemma {:induction false} OpsOnlyGrow(states: seq<State>, steps: seq<Step>, i: nat, j: nat, id: nat)
    requires IsRun(states, steps) && i <= j < |states| && id in states[i].ops
    ensures id in states[j].ops
    decreases j - i
  {
    if i < j {
      assert Apply(states[i], steps[i]) == Some(states[i + 1]);
      OpsOnlyGrow(states, steps, i + 1, j, id);
    }
  }

  /**
   AGREEMENT. Once the register holds a claim that nobody deletes, every claim called later is told
   about that very claim: no one else is told CREATED, and no one is told that nothing is there.
  */
  lemma LaterClaimsAreToldTheDecision(states: seq<State>, steps: seq<Step>, i: nat, held: Commit, id: nat,
                                      answer: Answer)
    requires IsRun(states, steps) && i < |states| && states[i].reg == Some(held) && id !in states[i].ops
    requires forall j :: i <= j < |steps| ==> !Deletes(states, steps, j, held)
    requires Told(states[|steps|], id, answer)
    ensures answer.Exists? ==> answer.body == held.body
    ensures answer == Created ==> states[|steps|].ops[id].commit == held
    ensures answer != NothingSeen
  {
    AnswersWereTrueDuringTheCall(states, steps, id, answer);
    forall j | 0 <= j < |states| && Active(states[j], id)
      ensures states[j].reg == Some(held)
    {
      if j <= i { OpsOnlyGrow(states, steps, j, i, id); }
      if states[j].reg != Some(held) {
        RunIsSticky(states, steps);
        var at := ClearedBetween(Register(states), i, j, held);
        OnlyDeletesClear(states, steps, at, held);
      }
    }
  }

  // ---- releases ----

  /** Step j is release `id` reading `commit` off the register. */
  ghost predicate ReadsAt(states: seq<State>, steps: seq<Step>, j: int, id: nat, commit: Commit)
    requires |states| == |steps| + 1
  {
    0 <= j < |steps| && steps[j] == Read(id, true) && states[j].reg == Some(commit)
  }

  /** What a release did and knows: it read the claim it leases, owns it, and says "removed" only after a delete. */
  ghost predicate ReleaseGrounded(states: seq<State>, steps: seq<Step>, n: nat, id: nat)
    requires |states| == |steps| + 1 && n < |states|
  {
    id in states[n].ops && states[n].ops[id].Release? ==>
      var op := states[n].ops[id];
      && (op.lease.Some? ==> LeaseGrounded(states, steps, n, id, op.email, op.lease.value))
      && (op.stage.Looked? && op.stage.found.Some? ==> WasRead(states, steps, n, id, op.stage.found.value))
      && (op.push == Carried('-') ==> op.lease.Some? && DeletedBy(states, steps, n, id, op.lease.value))
      && (op.stage == Stopped(true) ==> op.push == Carried('-'))
      && (op.stage.Deleting? ==> op.lease.Some?)
  }

  ghost predicate WasRead(states: seq<State>, steps: seq<Step>, n: nat, id: nat, commit: Commit)
    requires |states| == |steps| + 1
  {
    exists j :: j < n && ReadsAt(states, steps, j, id, commit)
  }

  ghost predicate LeaseGrounded(states: seq<State>, steps: seq<Step>, n: nat, id: nat, email: string, lease: Commit)
    requires |states| == |steps| + 1
  {
    WasRead(states, steps, n, id, lease) && Norm(lease.body.email) == Norm(email)
  }

  ghost predicate DeletedBy(states: seq<State>, steps: seq<Step>, n: nat, id: nat, commit: Commit)
    requires |states| == |steps| + 1
  {
    exists i: nat :: i < n && i < |steps| && steps[i].id == id && Deletes(states, steps, i, commit)
  }

  lemma {:induction false} ReleasesAreGrounded(states: seq<State>, steps: seq<Step>, n: nat, id: nat)
    requires IsRun(states, steps) && n < |states|
    ensures ReleaseGrounded(states, steps, n, id)
  {
    if n > 0 {
      ReleasesAreGrounded(states, steps, n - 1, id);
      var step := steps[n - 1];
      assert Apply(states[n - 1], step) == Some(states[n]);
      if step.id != id {
        OthersStandStill(states[n - 1], step, states[n], id);
      } else {
        OwnStepKeepsRelease(states, steps, n - 1, id);
      }
    }
  }

  lemma OwnStepKeepsRelease(states: seq<State>, steps: seq<Step>, n: nat, id: nat)
    requires IsRun(states, steps) && n < |steps| && steps[n].id == id
    requires ReleaseGrounded(states, steps, n, id)
    ensures ReleaseGrounded(states, steps, n + 1, id)
  {
    var step := steps[n];
    assert Apply(states[n], step) == Some(states[n + 1]);
    if step == Read(id, true) && states[n].reg.Some? {
      assert ReadsAt(states, steps, n, id, states[n].reg.value);
    }
    if step.LandDelete? && states[n].ops[id].lease == states[n].reg {
      assert Deletes(states, steps, n, states[n].reg.value);
    }
    if step.Reply? && states[n].ops[id].Release? {
      FlagIsWhatTheServerSaid(step.printed, states[n].ref);
      assert [states[n].ops[id].push.flag] == "-" ==> states[n].ops[id].push.flag == "-"[0];
    }
  }

  /**
   A delete that takes effect removes exactly the claim its own release had read, held under the
   releaser's own address, so a claim with any other token survives a stale release.
  */
  lemma DeleteRemovesWhatWasRead(states: seq<State>, steps: seq<Step>, i: nat, commit: Commit)
    requires IsRun(states, steps) && i < |steps| && Deletes(states, steps, i, commit)
    ensures WasRead(states, steps, i, steps[i].id, commit)
    ensures Norm(commit.body.email) == Norm(states[i].ops[steps[i].id].email)
  {
    ReleasesAreGrounded(states, steps, i, steps[i].id);
  }

  /** A release that reports "removed" did remove the claim it had read. */
  lemma ReportedRemovalHappened(states: seq<State>, steps: seq<Step>, id: nat)
    requires IsRun(states, steps) && id in states[|steps|].ops
    requires states[|steps|].ops[id].Release? && states[|steps|].ops[id].stage == Stopped(true)
    ensures exists commit ::
              DeletedBy(states, steps, |steps|, id, commit) && WasRead(states, steps, |steps|, id, commit)
  {
    ReleasesAreGrounded(states, steps, |steps|, id);
  }

  ghost predicate PushesAttributable(s: State) {
    && (s.reg.Some? ==> Strip(s.reg.value.body.email) != "")
    && forall id | id in s.ops :: s.ops[id].Claim? && s.ops[id].push == InFlight
        ==> Strip(s.ops[id].commit.body.email) != ""
  }

  /** An anonymous claim never reaches the register. */
  lemma {:induction false} NoAnonymousClaim(states: seq<State>, steps: seq<Step>, n: nat)
    requires IsRun(states, steps) && n < |states|
    requires states[0].reg.Some? ==> Strip(states[0].reg.value.body.email) != ""
    ensures PushesAttributable(states[n])
  {
    if n > 0 {
      NoAnonymousClaim(states, steps, n - 1);
      AttributableStep(states[n - 1], steps[n - 1], states[n]);
    }
  }

  lemma AttributableStep(s: State, step: Step, after: State)
    requires PushesAttributable(s) && Apply(s, step) == Some(after)
    ensures PushesAttributable(after)
  {
    forall id | id in after.ops && after.ops[id].Claim? && after.ops[id].push == InFlight
      ensures Strip(after.ops[id].commit.body.email) != ""
    {
      if id != step.id { OthersStandStill(s, step, after, id); }
    }
  }

  /** Only claim `id` ever pushes `commit`. */
  ghost predicate SolePush(states: seq<State>, commit: Commit, id: nat) {
    forall i, other | 0 <= i < |states| && other in states[i].ops ::
      states[i].ops[other].Claim? && states[i].ops[other].commit == commit ==> other == id
  }

  ghost predicate Spent(s: State, id: nat) {
    id in s.ops && s.ops[id].Claim? && s.ops[id].push.Carried?
  }

  lemma SpentStep(s: State, step: Step, after: State, id: nat)
    requires Apply(s, step) == Some(after) && Spent(s, id)
    ensures Spent(after, id) && after.ops[id].commit == s.ops[id].commit
  {
  }

  lemma EnteringSpends(s: State, step: Step, after: State, commit: Commit) returns (id: nat)
    requires Apply(s, step) == Some(after) && s.reg != Some(commit) && after.reg == Some(commit)
    ensures id in s.ops && s.ops[id].Claim? && s.ops[id].commit == commit && !Spent(s, id) && Spent(after, id)
  {
    id := step.id;
  }

  lemma {:induction false} HolderIsSpent(states: seq<State>, steps: seq<Step>, n: nat, commit: Commit, id: nat)
    requires IsRun(states, steps) && n < |states| && SolePush(states, commit, id)
    requires states[0].reg != Some(commit) && states[n].reg == Some(commit)
    ensures Spent(states[n], id)
    decreases n
  {
    assert Apply(states[n - 1], steps[n - 1]) == Some(states[n]);
    if states[n - 1].reg == Some(commit) {
      HolderIsSpent(states, steps, n - 1, commit, id);
      SpentStep(states[n - 1], steps[n - 1], states[n], id);
    } else {
      var entered := EnteringSpends(states[n - 1], steps[n - 1], states[n], commit);
    }
  }

  lemma {:induction false} SpentNeverReturns(states: seq<State>, steps: seq<Step>, i: nat, j: nat, commit: Commit,
                                             id: nat)
    requires IsRun(states, steps) && i <= j < |states| && SolePush(states, commit, id)
    requires Spent(states[i], id) && states[i].reg != Some(commit)
    ensures states[j].reg != Some(commit)
    decreases j - i
  {
    if i < j {
      assert Apply(states[i], steps[i]) == Some(states[i + 1]);
      SpentStep(states[i], steps[i], states[i + 1], id);
      if states[i + 1].reg == Some(commit) {
        var entered := EnteringSpends(states[i], steps[i], states[i + 1], commit);
      }
      SpentNeverReturns(states, steps, i + 1, j, commit, id);
    }
  }

  /** From the release's read to its delete the register held the claim without a break. */
  ghost predicate UnbrokenSinceRead(states: seq<State>, steps: seq<Step>, i: nat, id: nat, commit: Commit)
    requires |states| == |steps| + 1 && i < |states|
  {
    exists j :: j < i && ReadsAt(states, steps, j, id, commit) && forall x :: j <= x <= i ==>
        states[x].reg == Some(commit)
  }

  /** A push of this very commit takes effect at step k. */
  ghost predicate Lands(states: seq<State>, steps: seq<Step>, k: int, commit: Commit)
    requires |states| == |steps| + 1
  {
    0 <= k < |steps| && steps[k].LandClaim? && states[k].reg != Some(commit) && states[k + 1].reg == Some(commit)
  }

  ghost predicate NotPushedAgain(states: seq<State>, steps: seq<Step>, j: int, i: int, commit: Commit)
    requires |states| == |steps| + 1
  {
    forall k :: j <= k < i ==> !Lands(states, steps, k, commit)
  }

  lemma {:induction false} HeldSince(states: seq<State>, steps: seq<Step>, j: nat, i: nat, x: nat, commit: Commit)
    requires IsRun(states, steps) && j <= x <= i < |states| && states[i].reg == Some(commit)
    requires NotPushedAgain(states, steps, j, i, commit)
    ensures states[x].reg == Some(commit)
    decreases i
  {
    if x < i {
      assert Apply(states[i - 1], steps[i - 1]) == Some(states[i]);
      assert !Lands(states, steps, i - 1, commit);
      HeldSince(states, steps, j, i - 1, x, commit);
    }
  }

  /**
   EXACTLY WHEN A RELEASE DELETES WHAT NEVER LEFT. A delete that takes effect removes a claim that stood in the
   register without a break since the release read it, if and only if no push of the same commit landed between
   some read of it and the delete.
  */
  lemma UnbrokenExactlyWhenNotPushedAgain(states: seq<State>, steps: seq<Step>, i: nat, commit: Commit)
    requires IsRun(states, steps) && i < |steps| && Deletes(states, steps, i, commit)
    ensures UnbrokenSinceRead(states, steps, i, steps[i].id, commit)
       <==> exists j ::
              j < i && ReadsAt(states, steps, j, steps[i].id, commit) && NotPushedAgain(states, steps, j, i, commit)
  {
    forall j: nat | j < i && NotPushedAgain(states, steps, j, i, commit)
      ensures forall x :: j <= x <= i ==> states[x].reg == Some(commit)
    {
      forall x | j <= x <= i
        ensures states[x].reg == Some(commit)
      {
        HeldSince(states, steps, j, i, x, commit);
      }
    }
    if UnbrokenSinceRead(states, steps, i, steps[i].id, commit) {
      var j :| j < i && ReadsAt(states, steps, j, steps[i].id, commit)
               && forall x :: j <= x <= i ==> states[x].reg == Some(commit);
      assert NotPushedAgain(states, steps, j, i, commit);
    }
  }

  /**
   ABA-FREEDOM. When a commit is pushed by one claim only, the delete of a release removes the claim it
   read, and that claim had never left the register in the meantime.
  */
  lemma SolePushMeansNoAba(states: seq<State>, steps: seq<Step>, i: nat, commit: Commit, id: nat)
    requires IsRun(states, steps) && i < |steps| && Deletes(states, steps, i, commit)
    requires SolePush(states, commit, id) && states[0].reg != Some(commit)
    ensures UnbrokenSinceRead(states, steps, i, steps[i].id, commit)
  {
    DeleteRemovesWhatWasRead(states, steps, i, commit);
    var j :| j < i && ReadsAt(states, steps, j, steps[i].id, commit);
    HolderIsSpent(states, steps, j, commit, id);
    forall x | j <= x <= i
      ensures states[x].reg == Some(commit)
    {
      if states[x].reg != Some(commit) {
        SpentLasts(states, steps, j, x, id);
        SpentNeverReturns(states, steps, x, i, commit, id);
      }
    }
  }

  lemma {:induction false} SpentLasts(states: seq<State>, steps: seq<Step>, i: nat, j: nat, id: nat)
    requires IsRun(states, steps) && i <= j < |states| && Spent(states[i], id)
    ensures Spent(states[j], id)
    decreases j - i
  {
    if i < j {
      assert Apply(states[i], steps[i]) == Some(states[i + 1]);
      SpentStep(states[i], steps[i], states[i + 1], id);
      SpentLasts(states, steps, i + 1, j, id);
    }
  }

  lemma Continue(states: seq<State>, steps: seq<Step>, step: Step) returns (more: seq<State>, played: seq<Step>)
    requires IsRun(states, steps) && Apply(states[|steps|], step).Some?
    ensures IsRun(more, played) && played == steps + [step]
    ensures more == states + [Apply(states[|steps|], step).value]
  {
    more, played := states + [Apply(states[|steps|], step).value], steps + [step];
  }

  /** A release of the claim the register holds: it reads the claim and sends its delete. */
  lemma ReleaseSendsDelete(states: seq<State>, steps: seq<Step>, id: nat, commit: Commit)
      returns (more: seq<State>, played: seq<Step>)
    requires IsRun(states, steps) && id !in states[|steps|].ops
    requires states[|steps|].reg == Some(commit) && Usable(commit.body)
    ensures IsRun(more, played) && states <= more
    ensures played == steps + [StartRelease(id, commit.body.email), Read(id, true), Decide(id)]
    ensures more[|played|] == states[|steps|].With(id, Release(commit.body.email, Some(commit), InFlight,
        Deleting(commit)))
  {
    more, played := ReleaseReads(states, steps, id, commit);
    ReleaseDecides(states[|steps|], id, commit);
    more, played := Continue(more, played, Decide(id));
  }

  lemma ReleaseDecides(s: State, id: nat, commit: Commit)
    requires Usable(commit.body)
    ensures Apply(s.With(id, Release(commit.body.email, None, Carried('!'), Looked(Some(commit)))), Decide(id))
         == Some(s.With(id, Release(commit.body.email, Some(commit), InFlight, Deleting(commit))))
  {
    var looked := s.With(id, Release(commit.body.email, None, Carried('!'), Looked(Some(commit))));
    assert looked.ops[id := Release(commit.body.email, Some(commit), InFlight, Deleting(commit))]
        == s.ops[id := Release(commit.body.email, Some(commit), InFlight, Deleting(commit))];
  }

  lemma ReleaseReads(states: seq<State>, steps: seq<Step>, id: nat, commit: Commit)
      returns (more: seq<State>, played: seq<Step>)
    requires IsRun(states, steps) && id !in states[|steps|].ops
    requires states[|steps|].reg == Some(commit) && Usable(commit.body)
    ensures IsRun(more, played) && states <= more
    ensures played == steps + [StartRelease(id, commit.body.email), Read(id, true)]
    ensures more[|played|]
         == states[|steps|].With(id, Release(commit.body.email, None, Carried('!'), Looked(Some(commit))))
  {
    var email := commit.body.email;
    more, played := Continue(states, steps, StartRelease(id, email));
    var started := more[|played|];
    assert started == states[|steps|].With(id, Release(email, None, Carried('!'), Looking));
    more, played := Continue(more, played, Read(id, true));
    assert more[|played|] == started.With(id, Release(email, None, Carried('!'), Looked(Some(commit))));
  }

  /** Two claims with one and the same commit are pushed, and the first of them lands. */
  lemma TwoPushesOneLands(ref: string, commit: Commit) returns (states: seq<State>, steps: seq<Step>)
    requires Usable(commit.body)
    ensures IsRun(states, steps) && states[0].reg == None
    ensures steps == [StartClaim(0, commit), StartClaim(1, commit), LandClaim(0)]
    ensures states[3] == State(ref, Some(commit), map[0 := Claim(commit, Carried('*'), Pushing),
                                                      1 := Claim(commit, InFlight, Pushing)])
  {
    states, steps := [State(ref, None, map[])], [];
    states, steps := Continue(states, steps, StartClaim(0, commit));
    states, steps := Continue(states, steps, StartClaim(1, commit));
    assert states[2].ops == map[0 := Claim(commit, InFlight, Pushing), 1 := Claim(commit, InFlight, Pushing)];
    states, steps := Continue(states, steps, LandClaim(0));
    assert states[3].ops == map[0 := Claim(commit, Carried('*'), Pushing), 1 := Claim(commit, InFlight, Pushing)];
  }

  /** With both deletes and the retry still under way, the retry re-creates the claim between the deletes. */
  lemma DeletesAroundARetry(states: seq<State>, steps: seq<Step>, commit: Commit, email: string)
      returns (more: seq<State>, played: seq<Step>)
    requires IsRun(states, steps) && states[|steps|].reg == Some(commit)
    requires {1, 2, 3} <= states[|steps|].ops.Keys && states[|steps|].ops[1] == Claim(commit, InFlight, Pushing)
    requires forall id :: 2 <= id <= 3 ==> states[|steps|].ops[id] == Release(email, Some(commit), InFlight,
        Deleting(commit))
    ensures IsRun(more, played) && states <= more
    ensures played == steps + [LandDelete(3), LandClaim(1), LandDelete(2)]
    ensures more[|steps| + 1].reg == None && Deletes(more, played, |steps| + 2, commit)
  {
    more, played := Continue(states, steps, LandDelete(3));
    more, played := Continue(more, played, LandClaim(1));
    more, played := Continue(more, played, LandDelete(2));
  }

  /**
   The condition is needed for every commit: a retry that carries the same token within the same second
   forges the same commit, and a stale release then deletes the claim that the retry re-created.
  */
  lemma SameCommitTwiceBreaksIt(ref: string, commit: Commit) returns (states: seq<State>, steps: seq<Step>)
    requires Usable(commit.body)
    ensures IsRun(states, steps) && |steps| == 12 && Deletes(states, steps, 11, commit)
    ensures states[0].reg == None && steps[11].id == 2
    ensures !UnbrokenSinceRead(states, steps, 11, 2, commit)
  {
    states, steps := TwoPushesOneLands(ref, commit);
    states, steps := ReleaseSendsDelete(states, steps, 2, commit);
    states, steps := ReleaseSendsDelete(states, steps, 3, commit);
    states, steps := DeletesAroundARetry(states, steps, commit, commit.body.email);
    forall j | j < 11 && ReadsAt(states, steps, j, 2, commit)
      ensures !forall x :: j <= x <= 11 ==> states[x].reg == Some(commit)
    {
      assert j <= 10 && states[10].reg == None;
    }
  }

  /**
   "Nothing committed" is a statement about the moment of the probe only: the push that timed out can
   still land afterwards, whichever claim it carries.
  */
  lemma LatePushLandsAfterNothingSeen(ref: string, commit: Commit) returns (states: seq<State>, steps: seq<Step>)
    requires Usable(commit.body)
    ensures IsRun(states, steps) && |states| == 6
    ensures Told(states[4], 0, NothingSeen) && states[4].reg == None
    ensures Told(states[5], 0, NothingSeen) && states[5].reg == Some(commit)
  {
    states, steps := [State(ref, None, map[])], [];
    states, steps := Continue(states, steps, StartClaim(0, commit));
    states, steps := Continue(states, steps, Lose(0));
    states, steps := Continue(states, steps, Probe(0, true));
    states, steps := Continue(states, steps, Decide(0));
    states, steps := Continue(states, steps, LandClaim(0));
  }
}
