/**
 * The life of one member-admission proposal under the electorate strategy: its rule, voter snapshot, ballots,
 * resolution, execution record and the application it decides.
 */
module Voting {
  import opened Common
  import opened JsonValues
  import opened Selector
  import opened Tally
  import Roles = RoleLifecycle

  const AdmissionType := "member_application"

  /** The rule parameters copied onto the proposal when voting starts. */
  datatype Frozen = Frozen(approve: nat, reject: nat, minimum: nat, unresolved: Unresolved, deadline: int)

  datatype Status = Draft | AwaitingPolicy | InVoting | Approved | Rejected | Expired | Executed | ExecutionFailed

  datatype Outcome = ToApproved | ToRejected | ToExpired
  datatype Reason = ApproveReached | RejectReached | DeadlineRejected | DeadlineExpired

  datatype Resolution = Resolution(outcome: Outcome, reason: Reason, totals: Totals, frozen: Option<Frozen>, decidedAt: int)

  datatype ExecutionStatus = Running | Succeeded | Failed
  datatype Execution = Execution(actor: string, status: ExecutionStatus)

  datatype ApplicationStatus = Submitted | Admitted | Declined

  /** One completed run of the admission adapter: who was admitted, by whom, on which role assignment, and when. */
  datatype Admission = Admission(member: string, actor: string, assignment: nat, at: int)

  /** What an admission writes: the application, the role tables, the members set to admitted, the completed runs. */
  datatype Domain = Domain(
    application: ApplicationStatus,
    registry: Roles.Registry,
    admitted: set<string>,
    admissions: seq<Admission>)

  datatype Case = Case(
    status: Status,
    rule: Option<Rule>,
    frozen: Option<Frozen>,
    snapshot: set<string>,
    ballots: seq<Ballot>,
    resolutions: seq<Resolution>,
    executions: seq<Execution>,
    linked: Option<string>,
    domain: Domain)

  /** A refusal is a domain error; a crash is any other exception. Neither leaves a trace of the call. */
  datatype Reply = Done | Refused | Crashed

  /** A proposal as it is created: a draft when a rule is published, waiting for policy otherwise. */
  function NewCase(rule: Option<Rule>, linked: Option<string>, registry: Roles.Registry): (Case, Reply) {
    var c := Case(if rule.Some? then Draft else AwaitingPolicy, rule, None, {}, [], [], [], linked,
                  Domain(Submitted, registry, {}, []));
    (c, if rule.Some? && rule.value.proposalType != AdmissionType then Refused else Done)
  }

  /** A case just created, beside any role tables that the role services keep. */
  ghost predicate IsNew(c: Case) {
    NewCase(c.rule, c.linked, c.domain.registry) == (c, Done) && Roles.Kept(c.domain.registry)
  }

  function PollOf(c: Case): Poll {
    Poll(c.rule, c.snapshot, c.linked)
  }

  // ----- before and at the start of voting

  function Attach(c: Case, rule: Rule): (Case, Reply) {
    if c.status != AwaitingPolicy && c.status != Draft then (c, Refused)
    else if rule.proposalType != AdmissionType then (c, Refused)
    else (c.(rule := Some(rule), status := Draft), Done)
  }

  /** The members who satisfy the rule now; none when evaluating one of them raises. */
  function SnapshotOf(env: Env, rule: Rule, excluded: Option<string>): Option<set<string>> {
    if exists m :: m in env.members && EvaluateRule(env, rule, m, excluded) == Raises then None
    else Some(set m | m in env.members && EvaluateRule(env, rule, m, excluded) == Allowed)
  }

  function Freeze(rule: Rule, now: int): Frozen {
    Frozen(rule.approve, rule.reject, rule.minimum, rule.unresolved, now + 3600 * rule.hours)
  }

  function Start(env: Env, c: Case): (Case, Reply) {
    if c.status == InVoting then (c, Done)
    else if c.status != Draft || c.rule.None? || c.rule.value.proposalType != AdmissionType then (c, Refused)
    else
      var snapshot := if c.snapshot != {} then Some(c.snapshot) else SnapshotOf(env, c.rule.value, c.linked);
      if snapshot.None? then (c, Refused)
      else (c.(status := InVoting, frozen := Some(Freeze(c.rule.value, env.now)), snapshot := snapshot.value), Done)
  }

  // ----- resolution

  function OrOne(n: nat): nat {
    if n == 0 then 1 else n
  }

  function ThresholdOutcome(frozen: Option<Frozen>, t: Totals): Option<(Outcome, Reason)> {
    var minimum := if frozen.Some? then frozen.value.minimum else 0;
    var approve := if frozen.Some? then OrOne(frozen.value.approve) else 1;
    var reject := if frozen.Some? then OrOne(frozen.value.reject) else 1;
    if t.participation < minimum then None
    else if t.approve >= approve then Some((ToApproved, ApproveReached))
    else if t.reject >= reject then Some((ToRejected, RejectReached))
    else None
  }

  function ResolutionOutcome(frozen: Option<Frozen>, t: Totals, at: int): Option<(Outcome, Reason)> {
    var reached := ThresholdOutcome(frozen, t);
    if reached.Some? then reached
    else if frozen.Some? && at >= frozen.value.deadline then
      Some(if frozen.value.unresolved == RejectUnresolved then (ToRejected, DeadlineRejected)
           else (ToExpired, DeadlineExpired))
    else None
  }

  function StatusFor(o: Outcome): Status {
    match o
    case ToApproved => Approved
    case ToRejected => Rejected
    case ToExpired => Expired
  }

  /** Resolves the case if its tally or its deadline decides it; none when that raises. */
  function Resolve(env: Env, c: Case): Option<Case> {
    var tally := ProposalTally(env, PollOf(c), c.ballots);
    if tally.None? then None
    else
      var decided := ResolutionOutcome(c.frozen, tally.value, env.now);
      if decided.None? then Some(c)
      else if c.resolutions != [] then None
      else
        var (outcome, reason) := decided.value;
        Some(c.(
          resolutions := [Resolution(outcome, reason, tally.value, c.frozen, env.now)],
          status := StatusFor(outcome),
          domain := if outcome == ToApproved then c.domain else c.domain.(application := Declined)))
  }

  function WithBallot(c: Case, voter: string, choice: Choice): Case {
    c.(ballots := c.ballots + [NextBallot(c.ballots, voter, choice)])
  }

  function Cast(env: Env, c: Case, voter: string, choice: Choice): (Case, Reply) {
    if c.status != InVoting then (c, Refused)
    else if c.frozen.Some? && env.now >= c.frozen.value.deadline then (c, Refused)
    else if EligibilityFor(env, c.rule, c.snapshot, voter, c.linked) != Allowed then (c, Refused)
    else
      var resolved := Resolve(env, WithBallot(c, voter, choice));
      if resolved.None? then (c, Refused) else (resolved.value, Done)
  }

  function Finalize(env: Env, c: Case, permitted: bool): (Case, Reply) {
    if !permitted then (c, Refused)
    else if c.status != InVoting then (c, Done)
    else if c.frozen.None? || env.now < c.frozen.value.deadline then (c, Refused)
    else
      var resolved := Resolve(env, c);
      if resolved.None? then (c, Refused) else (resolved.value, Done)
  }

  // ----- execution

  const CovenanterRole := Roles.Catalog(Roles.Covenanter, 0)
  const AdmissionTerm := 365 * 24 * 3600

  /** An active covenanter term that overlaps the year to be granted. */
  predicate TermConflict(assignments: seq<Roles.Assignment>, member: string, now: int) {
    exists i :: 0 <= i < |assignments| && Roles.Matches(assignments[i], member, CovenanterRole) &&
                assignments[i].start < now + AdmissionTerm && assignments[i].end > now
  }

  /** An exception of the services below the adapter: before it does anything, or after the role was granted. */
  datatype Fault = NoFault | EarlyCrash | LateDomainError | LateCrash

  /** What the adapter finds around it: the clock and standing of members, and which exception strikes. */
  datatype AdapterFacts = AdapterFacts(world: Roles.Env, fault: Fault)

  datatype Verdict = Completes | Objects | Crashes

  /** The adapter's writes up to its end or to the point where it raises. */
  function RunAdapter(d: Domain, linked: Option<string>, actor: string, a: AdapterFacts): (Domain, Verdict) {
    var now := a.world.now;
    if a.fault == EarlyCrash then (d, Crashes)
    else if linked.None? || linked.value == actor || linked.value in a.world.disabled then (d, Objects)
    else if TermConflict(d.registry.assignments, linked.value, now) then (d, Objects)
    else
      var (registry, row) := Roles.Create(a.world, d.registry, linked.value, CovenanterRole, now,
                                          Some(now + AdmissionTerm), false);
      if row.None? then (d, Objects)
      else
        var granted := d.(registry := registry);
        if a.fault == LateDomainError then (granted, Objects)
        else if a.fault == LateCrash then (granted, Crashes)
        else
          (granted.(application := Admitted, admitted := d.admitted + {linked.value},
                    admissions := d.admissions + [Admission(linked.value, actor, row.value, now)]), Completes)
  }

  /** The adapter runs in a savepoint: a domain error undoes its writes and is recorded, a crash undoes the whole call. */
  function Execute(c: Case, actor: string, permitted: bool, a: AdapterFacts): (Case, Reply) {
    if !permitted then (c, Refused)
    else if c.resolutions == [] || c.resolutions[0].outcome != ToApproved then (c, Refused)
    else if c.executions != [] && c.executions[0].status == Succeeded then (c, Done)
    else if c.status != Approved && c.status != ExecutionFailed then (c, Refused)
    else
      var (domain, verdict) := RunAdapter(c.domain, c.linked, actor, a);
      if verdict == Crashes then (c, Crashed)
      else
        var ok := verdict == Completes;
        var record := Execution(actor, if ok then Succeeded else Failed);
        (c.(
          executions := if c.executions == [] then [record] else c.executions[0 := record],
          status := if ok then Executed else ExecutionFailed,
          domain := if ok then domain else c.domain), Done)
  }

  /** An execution that passes the checks does as its adapter does. */
  lemma ExecuteUnfolds(c: Case, actor: string, a: AdapterFacts)
    requires c.resolutions != [] && c.resolutions[0].outcome == ToApproved && |c.executions| <= 1
    requires c.executions != [] ==> c.executions[0].status != Succeeded
    requires c.status == Approved || c.status == ExecutionFailed
    ensures var (domain, verdict) := RunAdapter(c.domain, c.linked, actor, a);
            Execute(c, actor, true, a) ==
              match verdict
              case Crashes => (c, Crashed)
              case Objects => (c.(executions := [Execution(actor, Failed)], status := ExecutionFailed), Done)
              case Completes =>
                (c.(executions := [Execution(actor, Succeeded)], status := Executed, domain := domain), Done)
  {
    if c.executions != [] {
      assert c.executions[0 := Execution(actor, Failed)] == [Execution(actor, Failed)];
      assert c.executions[0 := Execution(actor, Succeeded)] == [Execution(actor, Succeeded)];
    }
  }

  // ----- runs

  datatype Action =
    | DoAttach(rule: Rule)
    | DoStart(env: Env)
    | DoCast(env: Env, voter: string, choice: Choice)
    | DoFinalize(env: Env, permitted: bool)
    | DoExecute(actor: string, permitted: bool, adapter: AdapterFacts)
    | DoLink(member: Option<string>)   // the application is bound to another member meanwhile
    | DoRole(command: Roles.Command)   // somebody creates or revokes a role assignment meanwhile

  function Step(c: Case, a: Action): (Case, Reply) {
    match a
    case DoAttach(rule) => Attach(c, rule)
    case DoStart(env) => Start(env, c)
    case DoCast(env, voter, choice) => Cast(env, c, voter, choice)
    case DoFinalize(env, permitted) => Finalize(env, c, permitted)
    case DoExecute(actor, permitted, adapter) => Execute(c, actor, permitted, adapter)
    case DoLink(member) => (c.(linked := member), Done)
    case DoRole(command) =>
      (c.(domain := c.domain.(registry := Roles.Step(c.domain.registry, command))), Done)
  }

  function Run(c: Case, actions: seq<Action>): Case {
    if actions == [] then c else Step(Run(c, actions[..|actions| - 1]), actions[|actions| - 1]).0
  }

  // ----- coherence

  /** Enough voters took part and enough of them approved. */
  predicate ApproveMet(frozen: Frozen, t: Totals) {
    t.participation >= frozen.minimum && t.approve >= frozen.approve && t.approve >= 1
  }

  predicate RejectMet(frozen: Frozen, t: Totals) {
    t.participation >= frozen.minimum && t.reject >= frozen.reject && t.reject >= 1
  }

  /** The recorded counts reached the frozen approval threshold with the frozen participation. */
  predicate ApprovedOnCounts(r: Resolution, frozen: Option<Frozen>) {
    r.outcome == ToApproved && r.reason == ApproveReached && r.frozen == frozen && frozen.Some? &&
    ApproveMet(frozen.value, r.totals)
  }

  /** Declined without an approving majority: on enough rejections, or undecided when the deadline had passed. */
  predicate DeclinedProperly(r: Resolution, frozen: Option<Frozen>) {
    && r.outcome != ToApproved && r.frozen == frozen && frozen.Some?
    && !ApproveMet(frozen.value, r.totals)
    && match r.reason
       case ApproveReached => false
       case RejectReached => r.outcome == ToRejected && RejectMet(frozen.value, r.totals)
       case DeadlineRejected =>
         r.outcome == ToRejected && !RejectMet(frozen.value, r.totals) && r.decidedAt >= frozen.value.deadline &&
         frozen.value.unresolved == RejectUnresolved
       case DeadlineExpired =>
         r.outcome == ToExpired && !RejectMet(frozen.value, r.totals) && r.decidedAt >= frozen.value.deadline &&
         frozen.value.unresolved == ExpireUnresolved
  }

  /** The application stands as given and no admission was completed. */
  predicate NobodyAdmitted(d: Domain, application: ApplicationStatus) {
    d.application == application && d.admitted == {} && d.admissions == []
  }

  /** The execution record's actor admitted one other member, who has had a covenanter number ever since. */
  predicate OneAdmitted(d: Domain, e: Execution) {
    && d.application == Admitted && |d.admissions| == 1
    && e == Execution(d.admissions[0].actor, Succeeded)
    && d.admitted == {d.admissions[0].member} && d.admissions[0].actor != d.admissions[0].member
    && Roles.HasNumber(d.registry.numbers, d.admissions[0].member)
  }

  /** Status, resolution, execution record and application tell the same story. */
  ghost predicate Coherent(c: Case) {
    && RevisionsGrow(c.ballots)
    && Roles.Kept(c.domain.registry)
    && (c.rule.None? <==> c.status == AwaitingPolicy)
    && (c.frozen.None? <==> c.status == Draft || c.status == AwaitingPolicy)
    && (c.frozen.None? ==> c.snapshot == {} && c.ballots == [])
    && match c.status
       case Draft => c.resolutions == [] && c.executions == [] && NobodyAdmitted(c.domain, Submitted)
       case AwaitingPolicy => c.resolutions == [] && c.executions == [] && NobodyAdmitted(c.domain, Submitted)
       case InVoting => c.resolutions == [] && c.executions == [] && NobodyAdmitted(c.domain, Submitted)
       case Approved =>
         |c.resolutions| == 1 && ApprovedOnCounts(c.resolutions[0], c.frozen) && c.executions == [] &&
         NobodyAdmitted(c.domain, Submitted)
       case ExecutionFailed =>
         |c.resolutions| == 1 && ApprovedOnCounts(c.resolutions[0], c.frozen) &&
         |c.executions| == 1 && c.executions[0].status == Failed && NobodyAdmitted(c.domain, Submitted)
       case Executed =>
         |c.resolutions| == 1 && ApprovedOnCounts(c.resolutions[0], c.frozen) &&
         |c.executions| == 1 && OneAdmitted(c.domain, c.executions[0])
       case Rejected =>
         |c.resolutions| == 1 && DeclinedProperly(c.resolutions[0], c.frozen) &&
         c.resolutions[0].outcome == ToRejected && c.executions == [] && NobodyAdmitted(c.domain, Declined)
       case Expired =>
         |c.resolutions| == 1 && DeclinedProperly(c.resolutions[0], c.frozen) &&
         c.resolutions[0].outcome == ToExpired && c.executions == [] && NobodyAdmitted(c.domain, Declined)
  }

  /** What a decision says about the counts and the clock. */
  lemma DecisionIsJustified(frozen: Frozen, t: Totals, at: int)
    ensures var decided := ResolutionOutcome(Some(frozen), t, at);
            decided.Some? ==>
              var r := Resolution(decided.value.0, decided.value.1, t, Some(frozen), at);
              if decided.value.0 == ToApproved then ApprovedOnCounts(r, Some(frozen)) else DeclinedProperly(r, Some(frozen))
  {
  }

  lemma ResolveKeepsCoherent(env: Env, c: Case)
    requires Coherent(c) && c.status == InVoting && Resolve(env, c).Some?
    ensures Coherent(Resolve(env, c).value)
    ensures Resolve(env, c).value.frozen == c.frozen && Resolve(env, c).value.snapshot == c.snapshot
    ensures Resolve(env, c).value.rule == c.rule
  {
    var t := ProposalTally(env, PollOf(c), c.ballots).value;
    DecisionIsJustified(c.frozen.value, t, env.now);
  }

  lemma CastKeepsCoherent(env: Env, c: Case, voter: string, choice: Choice)
    requires Coherent(c)
    ensures Coherent(Cast(env, c, voter, choice).0)
  {
    if c.status == InVoting {
      var cast := WithBallot(c, voter, choice);
      BallotKeepsCoherent(c, voter, choice);
      if Resolve(env, cast).Some? {
        ResolveKeepsCoherent(env, cast);
      }
    }
  }

  lemma FinalizeKeepsCoherent(env: Env, c: Case, permitted: bool)
    requires Coherent(c)
    ensures Coherent(Finalize(env, c, permitted).0)
  {
    if c.status == InVoting && Resolve(env, c).Some? {
      ResolveKeepsCoherent(env, c);
    }
  }

  /** What a completed adapter run found and wrote. */
  lemma CompletedRun(d: Domain, linked: Option<string>, actor: string, a: AdapterFacts)
    requires RunAdapter(d, linked, actor, a).1 == Completes
    ensures linked.Some? && linked.value != actor && !TermConflict(d.registry.assignments, linked.value, a.world.now)
    ensures var (registry, row) := Roles.Create(a.world, d.registry, linked.value, CovenanterRole, a.world.now,
                                                Some(a.world.now + AdmissionTerm), false);
            row.Some? && RunAdapter(d, linked, actor, a).0 ==
              Domain(Admitted, registry, d.admitted + {linked.value},
                     d.admissions + [Admission(linked.value, actor, row.value, a.world.now)])
  {
  }

  /** A completed run leaves the one admission on record, and the role tables as the role services keep them. */
  lemma AdapterKeeps(d: Domain, linked: Option<string>, actor: string, a: AdapterFacts)
    requires Roles.Kept(d.registry) && NobodyAdmitted(d, Submitted) && RunAdapter(d, linked, actor, a).1 == Completes
    ensures Roles.Kept(RunAdapter(d, linked, actor, a).0.registry)
    ensures OneAdmitted(RunAdapter(d, linked, actor, a).0, Execution(actor, Succeeded))
  {
    CompletedRun(d, linked, actor, a);
    Roles.CreateIsAppointment(a.world, d.registry, linked.value, CovenanterRole, a.world.now,
                              Some(a.world.now + AdmissionTerm), false);
  }

  lemma ExecuteKeepsCoherent(c: Case, actor: string, permitted: bool, a: AdapterFacts)
    requires Coherent(c)
    ensures Coherent(Execute(c, actor, permitted, a).0)
  {
    if (c.status == Approved || c.status == ExecutionFailed) && RunAdapter(c.domain, c.linked, actor, a).1 == Completes {
      AdapterKeeps(c.domain, c.linked, actor, a);
    }
  }

  lemma RoleStepKeepsCoherent(c: Case, command: Roles.Command)
    requires Coherent(c)
    ensures Coherent(Step(c, DoRole(command)).0)
  {
    Roles.StepKeeps(c.domain.registry, command);
    if c.status == Executed {
      Roles.HasNumberGrows(c.domain.registry.numbers, Roles.Step(c.domain.registry, command).numbers,
                           c.domain.admissions[0].member);
    }
  }

  lemma StartKeepsCoherent(env: Env, c: Case)
    requires Coherent(c)
    ensures Coherent(Start(env, c).0)
  {
  }

  lemma StepKeepsCoherent(c: Case, a: Action)
    requires Coherent(c)
    ensures Coherent(Step(c, a).0)
  {
    match a
    case DoAttach(rule) => assert Coherent(Attach(c, rule).0);
    case DoStart(env) => StartKeepsCoherent(env, c);
    case DoCast(env, voter, choice) => CastKeepsCoherent(env, c, voter, choice);
    case DoFinalize(env, permitted) => FinalizeKeepsCoherent(env, c, permitted);
    case DoExecute(actor, permitted, adapter) => ExecuteKeepsCoherent(c, actor, permitted, adapter);
    case DoLink(member) => assert Coherent(c.(linked := member));
    case DoRole(command) => RoleStepKeepsCoherent(c, command);
  }

  lemma CoherentTellsOneStory(c: Case)
    requires Coherent(c)
    ensures c.status in {Approved, Executed, ExecutionFailed} <==>
              |c.resolutions| == 1 && ApprovedOnCounts(c.resolutions[0], c.frozen)
    ensures c.status == Executed <==> c.domain.application == Admitted
    ensures c.status == Executed <==> |c.executions| == 1 && c.executions[0].status == Succeeded
    ensures c.status in {Rejected, Expired} <==> c.domain.application == Declined
    ensures |c.domain.admissions| == (if c.status == Executed then 1 else 0)
    ensures c.domain.admitted == {} <==> c.status != Executed
    ensures |c.executions| <= 1 && forall e :: e in c.executions ==> e.status != Running
  {
  }

  /**
   * In every run: a proposal is approved, executed or failed in execution only on one approving resolution whose
   * counts met the frozen thresholds; it is executed exactly when its record succeeded and exactly when the
   * application was admitted; it is rejected or expired exactly when the application was declined.
   */
  lemma {:induction false} RunsAreCoherent(start: Case, actions: seq<Action>)
    requires IsNew(start)
    ensures var c := Run(start, actions);
            && Coherent(c)
            && (c.status in {Approved, Executed, ExecutionFailed} <==>
                 |c.resolutions| == 1 && ApprovedOnCounts(c.resolutions[0], c.frozen))
            && (c.status == Executed <==> c.domain.application == Admitted)
            && (c.status == Executed <==> |c.executions| == 1 && c.executions[0].status == Succeeded)
            && (c.status in {Rejected, Expired} <==> c.domain.application == Declined)
  {
    if actions != [] {
      RunsAreCoherent(start, actions[..|actions| - 1]);
      StepKeepsCoherent(Run(start, actions[..|actions| - 1]), actions[|actions| - 1]);
    }
    CoherentTellsOneStory(Run(start, actions));
  }

  // ----- what voting freezes

  lemma StepKeepsFrozen(c: Case, a: Action)
    requires Coherent(c) && c.frozen.Some?
    ensures var after := Step(c, a).0;
            after.frozen == c.frozen && after.snapshot == c.snapshot && after.rule == c.rule && c.ballots <= after.ballots
  {
    match a
    case DoAttach(rule) =>
    case DoStart(env) =>
    case DoCast(env, voter, choice) =>
      assert Step(c, a) == Cast(env, c, voter, choice);
      ResolveKeepsPoll(env, WithBallot(c, voter, choice));
    case DoFinalize(env, permitted) =>
      assert Step(c, a) == Finalize(env, c, permitted);
      ResolveKeepsPoll(env, c);
    case DoExecute(actor, permitted, adapter) => assert Step(c, a) == Execute(c, actor, permitted, adapter);
    case DoLink(member) =>
    case DoRole(command) =>
  }

  /** From the start of voting on, thresholds, deadline, rule and snapshot never change and ballots are only added. */
  lemma {:induction false} FrozenForever(c: Case, actions: seq<Action>)
    requires Coherent(c) && c.frozen.Some?
    ensures var after := Run(c, actions);
            && Coherent(after)
            && after.frozen == c.frozen && after.snapshot == c.snapshot && after.rule == c.rule
            && c.ballots <= after.ballots
  {
    if actions != [] {
      var before := Run(c, actions[..|actions| - 1]);
      FrozenForever(c, actions[..|actions| - 1]);
      StepKeepsFrozen(before, actions[|actions| - 1]);
      StepKeepsCoherent(before, actions[|actions| - 1]);
    }
  }

  /** A new proposal is a draft with its rule, or waits for one; a rule for another type is refused. */
  lemma NewCaseAnswers(rule: Option<Rule>, linked: Option<string>, registry: Roles.Registry)
    ensures var (c, reply) := NewCase(rule, linked, registry);
            && (reply == Done <==> rule.None? || rule.value.proposalType == "member_application")
            && c.status == (if rule.Some? then Draft else AwaitingPolicy)
            && c.rule == rule && c.linked == linked && c.domain.application == Submitted
  {
  }

  /** A rule may be attached exactly to a proposal that is not yet in voting, and only a rule for its type. */
  lemma AttachAnswers(c: Case, rule: Rule)
    ensures var (after, reply) := Attach(c, rule);
            if (c.status == AwaitingPolicy || c.status == Draft) && rule.proposalType == "member_application"
            then reply == Done && after.rule == Some(rule) && after.status == Draft &&
                 after == c.(rule := after.rule, status := after.status)
            else reply == Refused && after == c
  {
  }

  /** The member belongs in the snapshot: reachable, in standing, not the applicant, and as the selector demands. */
  predicate Belongs(env: Env, rule: Rule, member: string, applicant: Option<string>) {
    && member in env.members && member !in env.unreachable && applicant != Some(member)
    && env.members[member].allowsRoleFacts && Meaning(rule.selector, env.members[member].facts)
  }

  /** A draft starts exactly when its rule is for its type and no known member is unanswerable; voting goes on. */
  lemma StartAnswers(env: Env, c: Case)
    requires Coherent(c)
    ensures var (after, reply) := Start(env, c);
            && (reply == Done <==>
                  || c.status == InVoting
                  || (c.status == Draft && c.rule.value.proposalType == "member_application" &&
                      forall m :: m in env.members ==> !Unanswerable(env, c.rule.value, m, c.linked)))
            && (reply != Done || c.status == InVoting ==> after == c)
  {
    if c.rule.Some? {
      forall m ensures EvaluateRule(env, c.rule.value, m, c.linked) == Raises <==>
                       Unanswerable(env, c.rule.value, m, c.linked)
      {
        RaisesIffUnanswerable(env, c.rule.value, m, c.linked);
      }
    }
  }

  /** Starting copies the thresholds and the deadline from the rule and takes in exactly the members who belong. */
  lemma StartFreezes(env: Env, c: Case)
    requires Coherent(c) && c.status == Draft && Start(env, c).1 == Done
    ensures var after := Start(env, c).0;
            && after.status == InVoting && after.frozen.Some?
            && after.frozen.value.approve == c.rule.value.approve && after.frozen.value.reject == c.rule.value.reject
            && after.frozen.value.minimum == c.rule.value.minimum
            && after.frozen.value.unresolved == c.rule.value.unresolved
            && after.frozen.value.deadline == env.now + c.rule.value.hours * 3600
            && (forall m :: m in after.snapshot <==> Belongs(env, c.rule.value, m, c.linked))
  {
    var after := Start(env, c).0;
    forall m ensures m in after.snapshot <==> Belongs(env, c.rule.value, m, c.linked) {
      AllowedIff(env, c.rule.value, m, c.linked);
    }
  }

  /** The member is in no snapshot and on no ballot. */
  ghost predicate TakesNoPart(c: Case, member: string) {
    member !in c.snapshot && forall b :: b in c.ballots ==> b.voter != member
  }

  lemma StepKeepsApplicantOut(c: Case, a: Action, applicant: string)
    requires c.linked == Some(applicant) && TakesNoPart(c, applicant) && !a.DoLink?
    ensures Step(c, a).0.linked == Some(applicant) && TakesNoPart(Step(c, a).0, applicant)
  {
    match a
    case DoAttach(rule) =>
    case DoStart(env) => assert Step(c, a) == Start(env, c);
    case DoCast(env, voter, choice) =>
      assert Step(c, a) == Cast(env, c, voter, choice);
      ResolveKeepsPoll(env, WithBallot(c, voter, choice));
    case DoFinalize(env, permitted) =>
      assert Step(c, a) == Finalize(env, c, permitted);
      ResolveKeepsPoll(env, c);
    case DoExecute(actor, permitted, adapter) =>
    case DoRole(command) =>
  }

  lemma ResolveKeepsPoll(env: Env, c: Case)
    ensures Resolve(env, c).Some? ==>
              var after := Resolve(env, c).value;
              PollOf(after) == PollOf(c) && after.ballots == c.ballots && after.frozen == c.frozen
  {
  }

  /** Unless the application is bound to somebody else, the applicant is in no snapshot, casts no ballot and never counts. */
  lemma {:induction false} ApplicantTakesNoPart(start: Case, actions: seq<Action>, applicant: string, env: Env)
    requires IsNew(start) && start.linked == Some(applicant)
    requires forall a :: a in actions ==> !a.DoLink?
    ensures var c := Run(start, actions);
            && c.linked == Some(applicant) && TakesNoPart(c, applicant) && applicant !in LastBallots(c.ballots)
            && forall x :: applicant !in VotersFor(env, PollOf(c), c.ballots, x)
  {
    if actions != [] {
      var n := |actions| - 1;
      ApplicantTakesNoPart(start, actions[..n], applicant, env);
      StepKeepsApplicantOut(Run(start, actions[..n]), actions[n], applicant);
    }
    var c := Run(start, actions);
    if applicant in LastBallots(c.ballots) {
      LastBallotsKeys(c.ballots, applicant);
    }
  }

  // ----- finalizing at the deadline

  /** Some snapshot member with a ballot cannot be checked: unreachable, or the selector no longer validates. */
  predicate Stuck(env: Env, c: Case)
    requires c.rule.Some?
  {
    exists v :: v in LastBallots(c.ballots) && v in c.snapshot && Unanswerable(env, c.rule.value, v, c.linked)
  }

  /** At or after the deadline a permitted finalization leaves voting exactly when no counted voter is unanswerable. */
  lemma FinalizeLeavesVotingIff(env: Env, c: Case)
    requires Coherent(c) && c.status == InVoting && env.now >= c.frozen.value.deadline
    ensures Finalize(env, c, true).0.status != InVoting <==> !Stuck(env, c)
    ensures Finalize(env, c, true).1 == Done <==> !Stuck(env, c)
  {
    TallyFailsIff(env, PollOf(c), c.ballots);
  }

  /** The count by the reference: how many qualified snapshot members stand by each choice with their last ballot. */
  function VoteCount(env: Env, c: Case): Totals {
    var approve := |VotersFor(env, PollOf(c), c.ballots, Approve)|;
    var reject := |VotersFor(env, PollOf(c), c.ballots, Reject)|;
    var abstain := |VotersFor(env, PollOf(c), c.ballots, Abstain)|;
    Totals(|c.snapshot|, approve + reject + abstain, approve, reject, abstain)
  }

  /** The status that a count and the clock call for. */
  function DueOn(f: Frozen, t: Totals, now: int): Status {
    if ApproveMet(f, t) then Approved
    else if RejectMet(f, t) then Rejected
    else if now < f.deadline then InVoting
    else if f.unresolved == RejectUnresolved then Rejected
    else Expired
  }

  function DueStatus(env: Env, c: Case): Status
    requires c.frozen.Some?
  {
    DueOn(c.frozen.value, VoteCount(env, c), env.now)
  }

  lemma OutcomeIsDue(f: Frozen, t: Totals, now: int)
    ensures var decided := ResolutionOutcome(Some(f), t, now);
            DueOn(f, t, now) == if decided.None? then InVoting else StatusFor(decided.value.0)
  {
  }

  /** A resolution attempt gives the status that is due, with the reference count on record, unless a voter is unanswerable. */
  lemma ResolveGivesDue(env: Env, c: Case)
    requires Coherent(c) && c.status == InVoting
    ensures Resolve(env, c).Some? <==> !Stuck(env, c)
    ensures Resolve(env, c).Some? ==>
              var after := Resolve(env, c).value;
              && after.status == DueStatus(env, c)
              && (after.status == InVoting ==> after == c)
              && (after.status != InVoting ==> |after.resolutions| == 1 && after.resolutions[0].totals == VoteCount(env, c))
  {
    TallyFailsIff(env, PollOf(c), c.ballots);
    if Resolve(env, c).Some? {
      TallyIsLastBallotWins(env, PollOf(c), c.ballots);
      assert ProposalTally(env, PollOf(c), c.ballots).value == VoteCount(env, c);
      OutcomeIsDue(c.frozen.value, VoteCount(env, c), env.now);
    }
  }

  /** Past the deadline a permitted call gives the status due, which is not voting, unless some voter is unanswerable. */
  ghost predicate Finalized(env: Env, c: Case, permitted: bool, after: Case, reply: Reply) {
    if permitted && c.status == InVoting && c.frozen.Some? && env.now >= c.frozen.value.deadline && c.rule.Some? &&
       !Stuck(env, c)
    then reply == Done && after.status == DueStatus(env, c) && after.status != InVoting &&
         |after.resolutions| == 1 && after.resolutions[0].totals == VoteCount(env, c)
    else after == c && (reply == Done <==> permitted && c.status != InVoting)
  }

  lemma FinalizeGivesDue(env: Env, c: Case, permitted: bool)
    requires Coherent(c)
    ensures Finalized(env, c, permitted, Finalize(env, c, permitted).0, Finalize(env, c, permitted).1)
  {
    if c.status == InVoting {
      ResolveGivesDue(env, c);
      FinalizeUnfolds(env, c, permitted);
      if env.now >= c.frozen.value.deadline {
        DueLeavesVoting(env, c);
      }
    }
  }

  lemma FinalizeUnfolds(env: Env, c: Case, permitted: bool)
    requires c.status == InVoting && c.frozen.Some?
    ensures Finalize(env, c, permitted) ==
              if permitted && env.now >= c.frozen.value.deadline && Resolve(env, c).Some?
              then (Resolve(env, c).value, Done) else (c, Refused)
  {
  }

  lemma DueLeavesVoting(env: Env, c: Case)
    requires c.frozen.Some? && env.now >= c.frozen.value.deadline
    ensures DueStatus(env, c) != InVoting
  {
  }

  /** The ballot is the voter's last word, nobody else's changed, and the status is the one then due; or nothing changed. */
  ghost predicate CastCounts(env: Env, c: Case, voter: string, choice: Choice, after: Case, reply: Reply) {
    if reply == Done
    then && c.frozen.Some? && voter in c.snapshot && c.linked != Some(voter)
         && LastBallots(after.ballots) == LastBallots(c.ballots)[voter := choice]
         && after.status == DueStatus(env, c.(ballots := after.ballots))
    else after == c
  }

  /** A ballot is taken exactly while voting lasts, from a qualified snapshot member, and when the count can be made. */
  lemma CastIsLastWord(env: Env, c: Case, voter: string, choice: Choice)
    requires Coherent(c)
    ensures var (after, reply) := Cast(env, c, voter, choice);
            && CastCounts(env, c, voter, choice, after, reply)
            && (reply == Done <==>
                  c.status == InVoting && env.now < c.frozen.value.deadline && Eligible(env, PollOf(c), voter) &&
                  !Stuck(env, WithBallot(c, voter, choice)))
  {
    if c.status == InVoting {
      var cast := WithBallot(c, voter, choice);
      CastUnfolds(env, c, voter, choice);
      assert Resolve(env, cast).Some? <==> !Stuck(env, cast) by {
        BallotKeepsCoherent(c, voter, choice);
        ResolveGivesDue(env, cast);
      }
      if Cast(env, c, voter, choice).1 == Done {
        TakenBallotCounts(env, c, voter, choice);
      }
    }
  }

  lemma BallotKeepsCoherent(c: Case, voter: string, choice: Choice)
    requires Coherent(c) && c.status == InVoting
    ensures Coherent(WithBallot(c, voter, choice))
    ensures LastBallots(WithBallot(c, voter, choice).ballots) == LastBallots(c.ballots)[voter := choice]
  {
    RecastReplaces(c.ballots, voter, choice);
  }

  lemma TakenBallotCounts(env: Env, c: Case, voter: string, choice: Choice)
    requires Coherent(c) && c.status == InVoting && Eligible(env, PollOf(c), voter)
    requires Resolve(env, WithBallot(c, voter, choice)).Some?
    ensures CastCounts(env, c, voter, choice, Resolve(env, WithBallot(c, voter, choice)).value, Done)
  {
    var cast := WithBallot(c, voter, choice);
    BallotKeepsCoherent(c, voter, choice);
    ResolveGivesDue(env, cast);
    ResolveKeepsPoll(env, cast);
  }

  lemma CastUnfolds(env: Env, c: Case, voter: string, choice: Choice)
    requires c.status == InVoting && c.frozen.Some?
    ensures var cast := WithBallot(c, voter, choice);
            Cast(env, c, voter, choice) ==
              if env.now < c.frozen.value.deadline && Eligible(env, PollOf(c), voter) && Resolve(env, cast).Some?
              then (Resolve(env, cast).value, Done) else (c, Refused)
  {
  }

  /** A single-voter case whose rule names a domain that is archived after the ballot: it cannot be finalized. */
  lemma ArchivedDomainBlocksFinalize(voter: string, domain: string, c: Case, env: Env)
    requires Coherent(c) && c.status == InVoting && env.now >= c.frozen.value.deadline
    requires c.rule.value.selector == Obj(map["professional_domain" := Str(domain)]) && domain !in env.domains
    requires voter in c.snapshot && c.linked != Some(voter) && voter in LastBallots(c.ballots)
    requires voter in env.members && env.members[voter].allowsRoleFacts
    ensures Finalize(env, c, true) == (c, Refused)
  {
    assert Unanswerable(env, c.rule.value, voter, c.linked);
    FinalizeLeavesVotingIff(env, c);
  }

  /** After this run the proposal is past its deadline, in voting, and a permitted finalization is refused. */
  ghost predicate FinalizeInVain(start: Case, actions: seq<Action>, late: Env) {
    var c := Run(start, actions);
    && IsNew(start) && c.status == InVoting && c.frozen.Some? && late.now >= c.frozen.value.deadline
    && Finalize(late, c, true) == (c, Refused)
  }

  /** One member is known, and is qualified for the one domain the rule names. */
  predicate OneQualified(env: Env, rule: Rule, voter: string, domain: string) {
    && rule.selector == Obj(map["professional_domain" := Str(domain)]) && rule.proposalType == AdmissionType
    && env.members == map[voter := MemberFacts(true, Facts({}, Null, {domain}))]
    && env.domains == {domain} && env.unreachable == {} && rule.hours > 0
  }

  /**
   * Runs that end so: under a rule naming one domain the only qualified voter abstains, the domain is archived, and the
   * deadline passes in vain.
   */
  lemma ArchivedDomainRun(env: Env, late: Env, rule: Rule, voter: string, domain: string)
    requires OneQualified(env, rule, voter, domain)
    requires late.now >= env.now + 3600 * rule.hours && late.members == env.members && domain !in late.domains
    ensures FinalizeInVain(NewCase(Some(rule), None, Roles.EmptyRegistry).0,
                           [DoStart(env), DoCast(env, voter, Abstain)], late)
  {
    var start := NewCase(Some(rule), None, Roles.EmptyRegistry).0;
    var open := OpenOneVoter(env, start, rule, voter, domain);
    var cast := OneAbstention(env, open, voter);
    RunTwo(start, DoStart(env), DoCast(env, voter, Abstain));
    assert Finalize(late, cast, true) == (cast, Refused) by {
      ArchivedDomainBlocksFinalize(voter, domain, cast, late);
    }
  }

  lemma OneAbstention(env: Env, open: Case, voter: string) returns (cast: Case)
    requires Coherent(open) && open.status == InVoting && open.ballots == [] && env.now < open.frozen.value.deadline
    requires EligibilityFor(env, open.rule, open.snapshot, voter, open.linked) == Allowed
    ensures Cast(env, open, voter, Abstain) == (cast, Done) && Coherent(cast) && voter in LastBallots(cast.ballots)
    ensures cast == open.(ballots := cast.ballots)
  {
    var b := NextBallot([], voter, Abstain);
    cast := open.(ballots := [b]);
    assert [] + [b] == [b];
    AbstainingDecidesNothing(env, cast, b);
    CastKeepsCoherent(env, open, voter, Abstain);
    LastOfOne(b);
  }

  lemma RunTwo(c: Case, a: Action, b: Action)
    ensures Run(c, [a, b]) == Step(Step(c, a).0, b).0
  {
    assert [a, b][..1] == [a] && [a][..0] == [];
    assert Run(c, [a]) == Step(Run(c, []), a).0;
  }

  lemma LastOfOne(b: Ballot)
    ensures b.voter in LastBallots([b])
  {
    assert [b][..0] == [];
  }

  lemma OpenOneVoter(env: Env, start: Case, rule: Rule, voter: string, domain: string) returns (open: Case)
    requires IsNew(start) && start.rule == Some(rule) && start.linked != Some(voter)
    requires OneQualified(env, rule, voter, domain)
    ensures (open, Done) == Start(env, start) && Coherent(open)
    ensures open == start.(status := InVoting, snapshot := {voter}, frozen := Some(Freeze(rule, env.now)))
    ensures env.now < open.frozen.value.deadline
    ensures EligibilityFor(env, open.rule, open.snapshot, voter, open.linked) == Allowed
  {
    DomainRuleAdmits(env, rule, voter, domain, start.linked);
    assert (set m | m in env.members && EvaluateRule(env, rule, m, start.linked) == Allowed) == {voter};
    assert SnapshotOf(env, rule, start.linked) == Some({voter});
    open := Start(env, start).0;
    assert Coherent(start);
    StartKeepsCoherent(env, start);
  }

  lemma DomainRuleAdmits(env: Env, rule: Rule, voter: string, domain: string, excluded: Option<string>)
    requires rule.selector == Obj(map["professional_domain" := Str(domain)]) && domain in env.domains
    requires voter in env.members && env.members[voter].allowsRoleFacts && domain in env.members[voter].facts.domains
    requires voter !in env.unreachable && excluded != Some(voter)
    ensures EvaluateRule(env, rule, voter, excluded) == Allowed
  {
    assert ViewOf(rule.selector) == Test(ProfessionalDomain, Str(domain));
  }

  lemma AbstainingDecidesNothing(env: Env, c: Case, b: Ballot)
    requires c.ballots == [b] && b.choice == Abstain && c.frozen.Some? && env.now < c.frozen.value.deadline
    requires Eligible(env, PollOf(c), b.voter)
    ensures Resolve(env, c) == Some(c)
  {
    TallyOfOne(env, PollOf(c), b);
    var t := ProposalTally(env, PollOf(c), c.ballots).value;
    NobodyForOrAgainst(c.frozen, t, env.now);
    UndecidedStays(env, c, t);
  }

  lemma NobodyForOrAgainst(frozen: Option<Frozen>, t: Totals, at: int)
    requires frozen.Some? && at < frozen.value.deadline && t.approve == 0 && t.reject == 0
    ensures ResolutionOutcome(frozen, t, at).None?
  {
  }

  lemma UndecidedStays(env: Env, c: Case, t: Totals)
    requires ProposalTally(env, PollOf(c), c.ballots) == Some(t) && ResolutionOutcome(c.frozen, t, env.now).None?
    ensures Resolve(env, c) == Some(c)
  {
  }

  lemma TallyOfOne(env: Env, poll: Poll, b: Ballot)
    requires Eligible(env, poll, b.voter)
    ensures var t := ProposalTally(env, poll, [b]);
            && t.Some? && t.value.participation == 1
            && t.value.approve == (if b.choice == Approve then 1 else 0)
            && t.value.reject == (if b.choice == Reject then 1 else 0)
  {
    LatestOfOne(b);
    CountedOfOne(env, poll, b);
    CountOne(b, Approve);
    CountOne(b, Reject);
  }

  lemma LatestOfOne(b: Ballot)
    ensures Latest([b], [b]) == [b]
  {
    assert [b][..0] == [];
    assert MaxRevision([], b.voter) == 0;
    assert MaxRevision([b], b.voter) == b.revision;
    assert Latest([b], []) == [];
  }

  lemma CountedOfOne(env: Env, poll: Poll, b: Ballot)
    requires Eligible(env, poll, b.voter)
    ensures Counted(env, poll, [b]) == [b]
  {
    assert [b][..0] == [];
    assert Counted(env, poll, []) == [];
  }

  lemma CountOne(b: Ballot, choice: Choice)
    ensures CountChoice([b], choice) == if b.choice == choice then 1 else 0
  {
    assert [b][..0] == [];
  }

  // ----- with fixed facts only a ballot decides

  /** The same members, domains and reachability; only the clock may differ. */
  predicate SameFacts(env: Env, other: Env) {
    other == env.(now := other.now)
  }

  predicate KeepsFacts(env: Env, a: Action) {
    match a
    case DoAttach(_) => true
    case DoStart(e) => SameFacts(env, e)
    case DoCast(e, _, _) => SameFacts(env, e)
    case DoFinalize(e, _) => SameFacts(env, e)
    case DoExecute(_, _, _) => true
    case DoLink(_) => false
    case DoRole(_) => true
  }

  lemma ClockDoesNotCount(env: Env, other: Env, poll: Poll, ballots: seq<Ballot>)
    requires SameFacts(env, other)
    ensures ProposalTally(env, poll, ballots) == ProposalTally(other, poll, ballots)
  {
    SameEligibility(env, other, poll);
    SameEligibleSameCount(env, other, poll, Latest(ballots, ballots));
  }

  lemma SameEligibility(env: Env, other: Env, poll: Poll)
    requires SameFacts(env, other)
    ensures forall m :: EligibilityFor(env, poll.rule, poll.snapshot, m, poll.excluded) ==
                        EligibilityFor(other, poll.rule, poll.snapshot, m, poll.excluded)
  {
    forall m ensures EligibilityFor(env, poll.rule, poll.snapshot, m, poll.excluded) ==
                     EligibilityFor(other, poll.rule, poll.snapshot, m, poll.excluded)
    {
      assert poll.rule.Some? ==> EvaluateRule(env, poll.rule.value, m, poll.excluded) ==
                                 EvaluateRule(other, poll.rule.value, m, poll.excluded);
    }
  }

  lemma {:induction false} SameEligibleSameCount(env: Env, other: Env, poll: Poll, ballots: seq<Ballot>)
    requires SameFacts(env, other)
    ensures Counted(env, poll, ballots) == Counted(other, poll, ballots)
  {
    if ballots != [] {
      SameEligibleSameCount(env, other, poll, ballots[..|ballots| - 1]);
    }
  }

  predicate ThresholdReached(env: Env, c: Case) {
    var t := ProposalTally(env, PollOf(c), c.ballots);
    t.Some? && ThresholdOutcome(c.frozen, t.value).Some?
  }

  /** What a resolution attempt that keeps the case open says about the tally. */
  lemma ResolveReadsThreshold(env: Env, e: Env, c: Case)
    requires SameFacts(env, e) && c.status == InVoting && Resolve(e, c).Some?
    ensures Resolve(e, c).value.status == InVoting ==> !ThresholdReached(env, c)
    ensures Resolve(e, c).value.status != InVoting && (c.frozen.None? || e.now < c.frozen.value.deadline) ==>
              ThresholdReached(env, c) && Resolve(e, c).value.resolutions[0].reason in {ApproveReached, RejectReached}
    ensures PollOf(Resolve(e, c).value) == PollOf(c) && Resolve(e, c).value.ballots == c.ballots
    ensures Resolve(e, c).value.frozen == c.frozen
  {
    ClockDoesNotCount(env, e, PollOf(c), c.ballots);
  }

  lemma NoBallotsNoThreshold(env: Env, c: Case)
    requires c.ballots == []
    ensures !ThresholdReached(env, c)
  {
  }

  lemma StepKeepsUndecided(env: Env, c: Case, a: Action)
    requires Coherent(c) && KeepsFacts(env, a)
    requires c.status == InVoting ==> !ThresholdReached(env, c)
    ensures Step(c, a).0.status == InVoting ==> !ThresholdReached(env, Step(c, a).0)
  {
    match a
    case DoAttach(rule) =>
    case DoStart(e) =>
      if c.status == Draft {
        NoBallotsNoThreshold(env, Start(e, c).0);
      }
    case DoCast(e, voter, choice) =>
      if c.status == InVoting {
        var cast := WithBallot(c, voter, choice);
        if Resolve(e, cast).Some? {
          ResolveReadsThreshold(env, e, cast);
        }
      }
    case DoFinalize(e, permitted) =>
      if c.status == InVoting && Resolve(e, c).Some? {
        ResolveReadsThreshold(env, e, c);
      }
    case DoExecute(actor, permitted, adapter) =>
    case DoRole(command) =>
  }

  /** While eligibility facts stay fixed, a proposal that is still in voting has never reached a threshold. */
  lemma {:induction false} OpenVoteIsUndecided(env: Env, start: Case, actions: seq<Action>)
    requires IsNew(start)
    requires forall a :: a in actions ==> KeepsFacts(env, a)
    ensures var c := Run(start, actions);
            c.status == InVoting ==> !ThresholdReached(env, c)
  {
    if actions != [] {
      var n := |actions| - 1;
      OpenVoteIsUndecided(env, start, actions[..n]);
      RunsAreCoherent(start, actions[..n]);
      StepKeepsUndecided(env, Run(start, actions[..n]), actions[n]);
    }
  }

  /** So a resolution at ballot time is the work of that ballot: not reached before it, reached with it. */
  lemma LastBallotDecides(env: Env, start: Case, actions: seq<Action>, e: Env, voter: string, choice: Choice)
    requires IsNew(start) && SameFacts(env, e)
    requires forall a :: a in actions ==> KeepsFacts(env, a)
    requires Run(start, actions).status == InVoting
    requires Cast(e, Run(start, actions), voter, choice).0.status != InVoting
    ensures var before := Run(start, actions);
            var after := Cast(e, before, voter, choice).0;
            && !ThresholdReached(env, before) && ThresholdReached(env, after)
            && after.resolutions[0].reason in {ApproveReached, RejectReached}
  {
    var before := Run(start, actions);
    OpenVoteIsUndecided(env, start, actions);
    RunsAreCoherent(start, actions);
    var cast := WithBallot(before, voter, choice);
    ResolveReadsThreshold(env, e, cast);
  }
}
