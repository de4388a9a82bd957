/** Executing an approved admission: once at most, and what it leaves in the role tables. */
module VotingExecution {
  import opened Common
  import opened Tally
  import opened Voting
  import Roles = RoleLifecycle

  // ----- exactly once

  /** The role commands that others issued during the run. */
  function RoleCommands(actions: seq<Action>): seq<Roles.Command> {
    if actions == [] then []
    else
      var last := actions[|actions| - 1];
      RoleCommands(actions[..|actions| - 1]) + if last.DoRole? then [last.command] else []
  }

  /** The role tables at the end are those at the beginning plus what others did: the adapter wrote nothing. */
  ghost predicate OthersWrote(before: Roles.Registry, actions: seq<Action>, after: Roles.Registry) {
    after == Roles.Run(before, RoleCommands(actions))
  }

  /** The i-th action executed the proposal, and after it only others wrote to the role tables. */
  ghost predicate ExecutedAt(start: Case, actions: seq<Action>, i: nat) {
    && i < |actions| && actions[i].DoExecute?
    && Run(start, actions[..i]).status != Executed && Run(start, actions[..i + 1]).status == Executed
    && OthersWrote(start.domain.registry, actions[..i], Run(start, actions[..i]).domain.registry)
    && OthersWrote(Run(start, actions[..i + 1]).domain.registry, actions[i + 1..], Run(start, actions).domain.registry)
  }

  lemma OneMoreOther(before: Roles.Registry, actions: seq<Action>, a: Action, current: Roles.Registry, after: Roles.Registry)
    requires OthersWrote(before, actions, current)
    requires after == if a.DoRole? then Roles.Step(current, a.command) else current
    ensures OthersWrote(before, actions + [a], after)
  {
    assert (actions + [a])[..|actions|] == actions;
    var commands := RoleCommands(actions);
    if a.DoRole? {
      assert (commands + [a.command])[..|commands|] == commands;
    } else {
      assert commands + [] == commands;
    }
  }

  /** Nothing but a completed execution or somebody else's role command writes to the role tables. */
  lemma OnlyExecutionWrites(c: Case, a: Action)
    requires Coherent(c)
    ensures a.DoRole? ==> Step(c, a).0.domain.registry == Roles.Step(c.domain.registry, a.command)
    ensures Step(c, a).0.domain.registry == c.domain.registry || a.DoRole? ||
            (a.DoExecute? && c.status != Executed && Step(c, a).0.status == Executed)
    ensures c.status == Executed ==> Step(c, a).0.status == Executed
    ensures c.status != Executed && Step(c, a).0.status == Executed ==> a.DoExecute?
  {
    match a
    case DoCast(env, voter, choice) =>
      ResolutionExecutesNothing(env, WithBallot(c, voter, choice));
    case DoFinalize(env, permitted) => ResolutionExecutesNothing(env, c);
    case DoExecute(actor, permitted, adapter) => ExecuteWrites(c, actor, permitted, adapter);
    case DoAttach(rule) =>
    case DoStart(env) =>
    case DoLink(member) =>
    case DoRole(command) =>
  }

  lemma ResolutionExecutesNothing(env: Env, c: Case)
    ensures Resolve(env, c).Some? ==>
              Resolve(env, c).value.domain.registry == c.domain.registry &&
              (Resolve(env, c).value.status == c.status || Resolve(env, c).value.status != Executed)
  {
  }

  /** An execution that does not end executed leaves the domain alone; one that does ran the adapter to its end. */
  lemma ExecuteWrites(c: Case, actor: string, permitted: bool, a: AdapterFacts)
    requires Coherent(c)
    ensures var after := Execute(c, actor, permitted, a).0;
            if c.status != Executed && after.status == Executed
            then RunAdapter(c.domain, c.linked, actor, a) == (after.domain, Completes)
                 && after.executions == [Execution(actor, Succeeded)]
            else after.domain == c.domain && (after.status == Executed <==> c.status == Executed)
  {
  }

  lemma TraceGoesOn(start: Case, actions: seq<Action>, a: Action, i: nat)
    requires ExecutedAt(start, actions, i)
    requires var current := Run(start, actions).domain.registry;
             Run(start, actions + [a]).domain.registry ==
               if a.DoRole? then Roles.Step(current, a.command) else current
    ensures ExecutedAt(start, actions + [a], i)
  {
    var all := actions + [a];
    assert all[..i] == actions[..i] && all[..i + 1] == actions[..i + 1];
    assert all[i + 1..] == actions[i + 1..] + [a];
    OneMoreOther(Run(start, actions[..i + 1]).domain.registry, actions[i + 1..], a,
                 Run(start, actions).domain.registry, Run(start, all).domain.registry);
  }

  lemma TraceBegins(start: Case, actions: seq<Action>, a: Action)
    requires a.DoExecute? && OthersWrote(start.domain.registry, actions, Run(start, actions).domain.registry)
    requires Run(start, actions).status != Executed && Run(start, actions + [a]).status == Executed
    ensures ExecutedAt(start, actions + [a], |actions|)
  {
    var all, n := actions + [a], |actions|;
    assert all[..n] == actions && all[..n + 1] == all;
    NothingMore(Run(start, all).domain.registry, all[n + 1..]);
  }

  lemma NothingMore(registry: Roles.Registry, actions: seq<Action>)
    requires actions == []
    ensures OthersWrote(registry, actions, registry)
  {
  }

  lemma {:induction false} ExecutionLeavesOneTrace(start: Case, actions: seq<Action>) returns (i: nat)
    requires IsNew(start)
    ensures Run(start, actions).status != Executed ==>
              OthersWrote(start.domain.registry, actions, Run(start, actions).domain.registry)
    ensures Run(start, actions).status == Executed ==> ExecutedAt(start, actions, i)
  {
    i := 0;
    if actions != [] {
      var n := |actions| - 1;
      var earlier, a := actions[..n], actions[n];
      assert actions == earlier + [a];
      var before, after := Run(start, earlier), Run(start, actions);
      i := ExecutionLeavesOneTrace(start, earlier);
      RunsAreCoherent(start, earlier);
      OnlyExecutionWrites(before, a);
      if before.status == Executed {
        TraceGoesOn(start, earlier, a, i);
      } else if after.status == Executed {
        i := n;
        TraceBegins(start, earlier, a);
      } else {
        OneMoreOther(start.domain.registry, earlier, a, before.domain.registry, after.domain.registry);
      }
    }
  }

  /**
   * Whatever the pattern of adapter failures, crashes included: the adapter's writes are committed once, by one execute
   * action, if the proposal ends executed, and not at all otherwise; there is at most one record, and none is left running.
   */
  lemma ExactlyOnceExecution(start: Case, actions: seq<Action>)
    requires IsNew(start)
    ensures var c := Run(start, actions);
            && |c.domain.admissions| == (if c.status == Executed then 1 else 0)
            && (if c.status == Executed then exists i :: ExecutedAt(start, actions, i)
                else OthersWrote(start.domain.registry, actions, c.domain.registry) && c.domain.admitted == {})
            && |c.executions| <= 1
            && forall e :: e in c.executions ==> e.status != Running
  {
    RunsAreCoherent(start, actions);
    CoherentTellsOneStory(Run(start, actions));
    var i := ExecutionLeavesOneTrace(start, actions);
  }

  lemma ExecutedStep(c: Case, a: Action)
    requires Coherent(c) && c.status == Executed
    ensures var after := Step(c, a).0;
            && after == c.(linked := after.linked, domain := c.domain.(registry := after.domain.registry))
            && after.domain.registry == if a.DoRole? then Roles.Step(c.domain.registry, a.command) else c.domain.registry
  {
  }

  /** Once executed, no later action changes the case except its link to a member and what others do to role tables. */
  lemma {:induction false} ExecutedIsFinal(c: Case, actions: seq<Action>)
    requires Coherent(c) && c.status == Executed
    ensures var after := Run(c, actions);
            && after == c.(linked := after.linked, domain := c.domain.(registry := after.domain.registry))
            && OthersWrote(c.domain.registry, actions, after.domain.registry)
            && Coherent(after)
  {
    if actions != [] {
      var n := |actions| - 1;
      ExecutedIsFinal(c, actions[..n]);
      var before := Run(c, actions[..n]);
      StepKeepsCoherent(before, actions[n]);
      ExecutedStep(before, actions[n]);
      assert actions == actions[..n] + [actions[n]];
      OneMoreOther(c.domain.registry, actions[..n], actions[n], before.domain.registry,
                   Step(before, actions[n]).0.domain.registry);
    }
  }

  // ----- the term an admission leaves

  /** An active covenanter term beginning after the year to be granted; the conflict check lets it pass. */
  predicate FutureTerm(assignments: seq<Roles.Assignment>, member: string, now: int) {
    exists i :: 0 <= i < |assignments| && Roles.Matches(assignments[i], member, CovenanterRole) &&
                assignments[i].start >= now + AdmissionTerm && assignments[i].end > now
  }

  /** The member has a covenanter assignment in force. */
  predicate HoldsTerm(env: Roles.Env, assignments: seq<Roles.Assignment>, member: string) {
    exists i :: 0 <= i < |assignments| && assignments[i].member == member && assignments[i].role == CovenanterRole &&
                Roles.InForce(env, assignments[i])
  }

  /** The surroundings after an admission: the member is in standing and the catalog role is active. */
  function Afterwards(world: Roles.Env, member: string): Roles.Env {
    world.(allowed := world.allowed + {member}, inactiveRoles := world.inactiveRoles - {CovenanterRole.id})
  }

  lemma PassedCheckIsFuture(assignments: seq<Roles.Assignment>, member: string, now: int)
    requires !TermConflict(assignments, member, now)
    ensures FutureTerm(assignments, member, now) <==> Roles.LiveAfter(assignments, member, CovenanterRole, now)
  {
  }

  /** The one admission is the member's, made by the actor, on the only active covenanter assignment, with a number. */
  ghost predicate AdmittedOn(d: Domain, member: string, actor: string, at: int) {
    && d.application == Admitted && d.admitted == {member} && |d.admissions| == 1
    && d.admissions[0] == Admission(member, actor, d.admissions[0].assignment, at)
    && Roles.OnlyActive(d.registry.assignments, member, CovenanterRole, d.admissions[0].assignment)
    && Roles.HasNumber(d.registry.numbers, member)
  }

  /** The row that was granted: one year from now. */
  predicate YearGranted(d: Domain, member: string, now: int) {
    d.admissions != [] && d.admissions[0].assignment < |d.registry.assignments| &&
    d.registry.assignments[d.admissions[0].assignment] ==
      Roles.Assignment(member, CovenanterRole, Roles.Active, now, now + 31_536_000)
  }

  lemma AdapterAdmits(d: Domain, linked: Option<string>, actor: string, a: AdapterFacts)
    requires Roles.Kept(d.registry) && NobodyAdmitted(d, Submitted) && RunAdapter(d, linked, actor, a).1 == Completes
    ensures linked.Some? && linked.value != actor
    ensures var after := RunAdapter(d, linked, actor, a).0;
            && AdmittedOn(after, linked.value, actor, a.world.now)
            && (HoldsTerm(Afterwards(a.world, linked.value), after.registry.assignments, linked.value) <==>
                !FutureTerm(d.registry.assignments, linked.value, a.world.now))
            && (!FutureTerm(d.registry.assignments, linked.value, a.world.now) ==>
                  YearGranted(after, linked.value, a.world.now))
  {
    CompletedRun(d, linked, actor, a);
    var m, now, after := linked.value, a.world.now, RunAdapter(d, linked, actor, a).0;
    Roles.CreateYieldsTheActive(a.world, d.registry, m, CovenanterRole, now, Some(now + AdmissionTerm), false);
    PassedCheckIsFuture(d.registry.assignments, m, now);
    ActiveDecidesTerm(Afterwards(a.world, m), after.registry.assignments, m, after.admissions[0].assignment);
  }

  /**
   * A first successful execution admits the bound applicant on somebody else's authority and leaves a covenanter number.
   * It leaves a term in force exactly when no active term begins after the year to be granted: the role service would
   * return that later term instead of making a new one.
   */
  lemma ExecutionAdmitsApplicant(c: Case, actor: string, permitted: bool, a: AdapterFacts)
    requires Coherent(c) && c.status != Executed && Execute(c, actor, permitted, a).0.status == Executed
    ensures c.linked.Some? && c.linked.value != actor
    ensures var d := Execute(c, actor, permitted, a).0.domain;
            && AdmittedOn(d, c.linked.value, actor, a.world.now)
            && (HoldsTerm(Afterwards(a.world, c.linked.value), d.registry.assignments, c.linked.value) <==>
                !FutureTerm(c.domain.registry.assignments, c.linked.value, a.world.now))
            && (!FutureTerm(c.domain.registry.assignments, c.linked.value, a.world.now) ==>
                  YearGranted(d, c.linked.value, a.world.now))
    ensures Execute(c, actor, permitted, a).0.executions == [Execution(actor, Succeeded)]
  {
    ExecuteWrites(c, actor, permitted, a);
    assert NobodyAdmitted(c.domain, Submitted);
    AdapterAdmits(c.domain, c.linked, actor, a);
  }

  lemma ActiveDecidesTerm(env: Roles.Env, assignments: seq<Roles.Assignment>, member: string, i: nat)
    requires Roles.OnlyActive(assignments, member, CovenanterRole, i)
    requires member in env.allowed && CovenanterRole.id !in env.inactiveRoles
    ensures HoldsTerm(env, assignments, member) <==> assignments[i].start <= env.now < assignments[i].end
  {
    if assignments[i].start <= env.now < assignments[i].end {
      assert Roles.InForce(env, assignments[i]);
    }
  }

  // ----- when a call goes through

  /** The applicant is bound, is somebody else, in standing, and holds no active term that overlaps the coming 365 days. */
  predicate MayBeAdmitted(d: Domain, linked: Option<string>, actor: string, world: Roles.Env) {
    && linked.Some? && linked.value != actor && linked.value !in world.disabled
    && forall i :: 0 <= i < |d.registry.assignments| ==>
         var a := d.registry.assignments[i];
         !(a.member == linked.value && a.role == CovenanterRole && a.status == Roles.Active &&
           a.start < world.now + 31_536_000 && a.end > world.now)
  }

  lemma AdapterAnswers(d: Domain, linked: Option<string>, actor: string, a: AdapterFacts)
    ensures RunAdapter(d, linked, actor, a).1 ==
              if a.fault == EarlyCrash then Crashes
              else if !MayBeAdmitted(d, linked, actor, a.world) then Objects
              else match a.fault
                   case LateCrash => Crashes
                   case LateDomainError => Objects
                   case _ => Completes
  {
    if linked.Some? {
      assert TermConflict(d.registry.assignments, linked.value, a.world.now) <==>
             exists i :: 0 <= i < |d.registry.assignments| &&
                         Roles.Matches(d.registry.assignments[i], linked.value, CovenanterRole) &&
                         d.registry.assignments[i].start < a.world.now + 31_536_000 &&
                         d.registry.assignments[i].end > a.world.now;
      if linked.value !in a.world.disabled {
        CovenanterIsGranted(d.registry, linked.value, a.world);
      }
    }
  }

  lemma CovenanterIsGranted(registry: Roles.Registry, member: string, world: Roles.Env)
    requires member !in world.disabled
    ensures Roles.Create(world, registry, member, CovenanterRole, world.now, Some(world.now + AdmissionTerm), false).1.Some?
  {
  }

  /**
   * When a call is refused, is a repetition, executes, fails or crashes: it is refused exactly without permission or in a
   * status that is neither approved, failed nor executed; it executes exactly when the applicant may be admitted and no
   * fault strikes; a crash leaves no trace.
   */
  ghost predicate ExecutionAnswers(c: Case, actor: string, permitted: bool, a: AdapterFacts, after: Case, reply: Reply) {
    if !permitted || c.status !in {Approved, ExecutionFailed, Executed} then reply == Refused && after == c
    else if c.status == Executed then reply == Done && after == c
    else
      var admissible := MayBeAdmitted(c.domain, c.linked, actor, a.world);
      if a.fault == EarlyCrash || (a.fault == LateCrash && admissible) then reply == Crashed && after == c
      else if a.fault == NoFault && admissible then
        reply == Done && after.status == Executed && after.executions == [Execution(actor, Succeeded)]
      else
        reply == Done && after == c.(status := ExecutionFailed, executions := [Execution(actor, Failed)])
  }

  lemma ExecuteAnswers(c: Case, actor: string, permitted: bool, a: AdapterFacts)
    requires Coherent(c)
    ensures var (after, reply) := Execute(c, actor, permitted, a); ExecutionAnswers(c, actor, permitted, a, after, reply)
  {
    if permitted && (c.status == Approved || c.status == ExecutionFailed) {
      ExecuteUnfolds(c, actor, a);
      AdapterAnswers(c.domain, c.linked, actor, a);
    }
  }

  /** What a caller of the execution may rely on, whatever the adapter met. */
  ghost predicate ExecutedSafely(c: Case, after: Case, actor: string, a: AdapterFacts) {
    && Coherent(after)
    && (forall e :: e in after.executions ==> e.status != Running)
    && if c.status != Executed && after.status == Executed
       then && c.linked.Some? && after.domain.admitted == {c.linked.value}
            && Roles.HasNumber(after.domain.registry.numbers, c.linked.value)
            && after.executions == [Execution(actor, Succeeded)]
            && (HoldsTerm(Afterwards(a.world, c.linked.value), after.domain.registry.assignments, c.linked.value) <==>
                !FutureTerm(c.domain.registry.assignments, c.linked.value, a.world.now))
       else after.domain == c.domain
  }

  lemma ExecutionIsSafe(c: Case, actor: string, permitted: bool, a: AdapterFacts)
    requires Coherent(c)
    ensures ExecutedSafely(c, Execute(c, actor, permitted, a).0, actor, a)
    ensures Execute(c, actor, permitted, a).1 == Crashed ==> Execute(c, actor, permitted, a).0 == c
  {
    ExecuteWrites(c, actor, permitted, a);
    ExecuteKeepsCoherent(c, actor, permitted, a);
    CoherentTellsOneStory(Execute(c, actor, permitted, a).0);
    if c.status != Executed && Execute(c, actor, permitted, a).0.status == Executed {
      ExecutionAdmitsApplicant(c, actor, permitted, a);
    }
  }

  /** The run ends executed and admitted, but the applicant has no covenanter term in force. */
  ghost predicate AdmittedWithoutTerm(start: Case, actions: seq<Action>, applicant: string, world: Roles.Env) {
    IsNew(start) && LeftWithoutTerm(Run(start, actions), applicant, world)
  }

  /**
   * Runs that end so: the applicant is given a term that begins in a year, the only voter approves, and the execution
   * returns that term.
   */
  lemma FutureTermRun(env: Env, rule: Rule, voter: string, domain: string, applicant: string, actor: string,
                      world: Roles.Env)
    requires OneQualified(env, rule, voter, domain) && rule.approve <= 1 && rule.minimum <= 1
    requires applicant != voter && applicant != actor && applicant !in world.disabled
    ensures var later := Roles.DoCreate(world, applicant, CovenanterRole, world.now + AdmissionTerm, None, false);
            AdmittedWithoutTerm(NewCase(Some(rule), Some(applicant), Roles.EmptyRegistry).0,
                                [DoRole(later), DoStart(env), DoCast(env, voter, Approve),
                                 DoExecute(actor, true, AdapterFacts(world, NoFault))], applicant, world)
  {
    var start := NewCase(Some(rule), Some(applicant), Roles.EmptyRegistry).0;
    var later := Roles.DoCreate(world, applicant, CovenanterRole, world.now + AdmissionTerm, None, false);
    LaterTerm(start, applicant, world);
    OneVoteAdmits(env, Step(start, DoRole(later)).0, rule, voter, domain, actor, world);
    RunFour(start, DoRole(later), DoStart(env), DoCast(env, voter, Approve),
            DoExecute(actor, true, AdapterFacts(world, NoFault)));
  }

  /** Executed and admitted, but without a covenanter term in force. */
  predicate LeftWithoutTerm(c: Case, applicant: string, world: Roles.Env) {
    && c.status == Executed && c.domain.application == Admitted && c.domain.admitted == {applicant}
    && !HoldsTerm(Afterwards(world, applicant), c.domain.registry.assignments, applicant)
  }

  lemma OneVoteAdmits(env: Env, c: Case, rule: Rule, voter: string, domain: string, actor: string, world: Roles.Env)
    requires IsNew(c) && c.rule == Some(rule) && c.linked.Some? && c.linked.value != voter && c.linked.value != actor
    requires OneQualified(env, rule, voter, domain) && rule.approve <= 1 && rule.minimum <= 1
    requires c.linked.value !in world.disabled
    requires FutureTerm(c.domain.registry.assignments, c.linked.value, world.now)
    requires !TermConflict(c.domain.registry.assignments, c.linked.value, world.now)
    ensures var open := Step(c, DoStart(env)).0;
            var approved := Step(open, DoCast(env, voter, Approve)).0;
            LeftWithoutTerm(Step(approved, DoExecute(actor, true, AdapterFacts(world, NoFault))).0, c.linked.value, world)
  {
    var open := OpenOneVoter(env, c, rule, voter, domain);
    assert Step(c, DoStart(env)).0 == open;
    OneBallotAdmits(env, open, voter, actor, world);
  }

  lemma OneBallotAdmits(env: Env, open: Case, voter: string, actor: string, world: Roles.Env)
    requires Coherent(open) && open.status == InVoting && open.ballots == [] && env.now < open.frozen.value.deadline
    requires open.frozen.value.approve <= 1 && open.frozen.value.minimum <= 1
    requires EligibilityFor(env, open.rule, open.snapshot, voter, open.linked) == Allowed
    requires open.linked.Some? && open.linked.value != actor && open.linked.value !in world.disabled
    requires FutureTerm(open.domain.registry.assignments, open.linked.value, world.now)
    requires !TermConflict(open.domain.registry.assignments, open.linked.value, world.now)
    ensures var approved := Step(open, DoCast(env, voter, Approve)).0;
            LeftWithoutTerm(Step(approved, DoExecute(actor, true, AdapterFacts(world, NoFault))).0, open.linked.value, world)
  {
    var approved := OneApproval(env, open, voter);
    ApprovedWithoutTerm(approved, actor, world);
  }

  lemma ApprovedWithoutTerm(c: Case, actor: string, world: Roles.Env)
    requires Coherent(c) && c.status == Approved && c.linked.Some? && c.linked.value != actor
    requires c.linked.value !in world.disabled
    requires !TermConflict(c.domain.registry.assignments, c.linked.value, world.now)
    requires FutureTerm(c.domain.registry.assignments, c.linked.value, world.now)
    ensures LeftWithoutTerm(Step(c, DoExecute(actor, true, AdapterFacts(world, NoFault))).0, c.linked.value, world)
  {
    assert Step(c, DoExecute(actor, true, AdapterFacts(world, NoFault))) ==
           Execute(c, actor, true, AdapterFacts(world, NoFault));
    ApprovedExecutes(c, actor, world);
    ExecutionAdmitsApplicant(c, actor, true, AdapterFacts(world, NoFault));
  }

  /** Somebody is given a term that begins in a year, before anything else is recorded. */
  lemma LaterTerm(start: Case, applicant: string, world: Roles.Env)
    requires IsNew(start) && start.domain.registry == Roles.EmptyRegistry && applicant !in world.disabled
    ensures var later := Roles.DoCreate(world, applicant, CovenanterRole, world.now + AdmissionTerm, None, false);
            var c := Step(start, DoRole(later)).0;
            && IsNew(c) && c == start.(domain := start.domain.(registry := c.domain.registry))
            && FutureTerm(c.domain.registry.assignments, applicant, world.now)
            && !TermConflict(c.domain.registry.assignments, applicant, world.now)
  {
    var later := Roles.DoCreate(world, applicant, CovenanterRole, world.now + AdmissionTerm, None, false);
    Roles.StepKeeps(Roles.EmptyRegistry, later);
    var registry := Roles.Step(Roles.EmptyRegistry, later);
    assert registry.assignments == [Roles.Assignment(applicant, CovenanterRole, Roles.Active, later.start,
                                                     later.start + Roles.DefaultTerm)];
    assert Roles.Matches(registry.assignments[0], applicant, CovenanterRole);
  }

  lemma ApprovedExecutes(c: Case, actor: string, world: Roles.Env)
    requires Coherent(c) && c.status == Approved && c.linked.Some? && c.linked.value != actor
    requires c.linked.value !in world.disabled
    requires !TermConflict(c.domain.registry.assignments, c.linked.value, world.now)
    ensures Execute(c, actor, true, AdapterFacts(world, NoFault)).0.status == Executed
  {
    AdapterCompletes(c.domain, c.linked, actor, world);
  }

  lemma AdapterCompletes(d: Domain, linked: Option<string>, actor: string, world: Roles.Env)
    requires linked.Some? && linked.value != actor && linked.value !in world.disabled
    requires !TermConflict(d.registry.assignments, linked.value, world.now)
    ensures RunAdapter(d, linked, actor, AdapterFacts(world, NoFault)).1 == Completes
  {
    assert Roles.Create(world, d.registry, linked.value, CovenanterRole, world.now,
                        Some(world.now + AdmissionTerm), false).1.Some?;
  }

  lemma OneApproval(env: Env, open: Case, voter: string) returns (cast: Case)
    requires Coherent(open) && open.status == InVoting && open.ballots == [] && env.now < open.frozen.value.deadline
    requires open.frozen.value.approve <= 1 && open.frozen.value.minimum <= 1
    requires EligibilityFor(env, open.rule, open.snapshot, voter, open.linked) == Allowed
    ensures Step(open, DoCast(env, voter, Approve)).0 == cast && Coherent(cast) && cast.status == Approved
    ensures cast.domain == open.domain && cast.linked == open.linked
  {
    var b := NextBallot([], voter, Approve);
    assert [] + [b] == [b];
    cast := Cast(env, open, voter, Approve).0;
    ApprovalResolves(env, open.(ballots := [b]), b);
    assert cast == Resolve(env, open.(ballots := [b])).value;
    assert Coherent(cast) by { CastKeepsCoherent(env, open, voter, Approve); }
    CastIsStep(env, open, voter, Approve);
  }

  lemma ApprovalResolves(env: Env, c: Case, b: Ballot)
    requires c.ballots == [b] && b.choice == Approve && Eligible(env, PollOf(c), b.voter) && c.resolutions == []
    requires c.frozen.Some? && c.frozen.value.approve <= 1 && c.frozen.value.minimum <= 1
    ensures Resolve(env, c).Some? && Resolve(env, c).value.status == Approved
    ensures Resolve(env, c).value.domain == c.domain && Resolve(env, c).value.linked == c.linked
  {
    TallyOfOne(env, PollOf(c), b);
    OneApproves(c.frozen, ProposalTally(env, PollOf(c), [b]).value, env.now);
  }

  lemma OneApproves(frozen: Option<Frozen>, t: Totals, at: int)
    requires frozen.Some? && frozen.value.approve <= 1 && frozen.value.minimum <= 1
    requires t.participation == 1 && t.approve == 1
    ensures ResolutionOutcome(frozen, t, at) == Some((ToApproved, ApproveReached))
  {
  }

  lemma CastIsStep(env: Env, c: Case, voter: string, choice: Choice)
    ensures Step(c, DoCast(env, voter, choice)) == Cast(env, c, voter, choice)
  {
  }

  lemma RunFour(c: Case, a: Action, b: Action, d: Action, e: Action)
    ensures Run(c, [a, b, d, e]) == Step(Step(Step(Step(c, a).0, b).0, d).0, e).0
  {
    assert [a, b, d, e][..3] == [a, b, d] && [a, b, d][..2] == [a, b];
    RunTwo(c, a, b);
  }
}
