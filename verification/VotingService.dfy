/** The electorate services as they update a proposal's rows and the role tables, keeping the case coherent throughout. */
module VotingService {
  import opened Common
  import opened Tally
  import opened Voting
  import opened VotingExecution
  import Roles = RoleLifecycle
  import opened RoleService

  class ProposalRows {
    var status: Status
    var rule: Option<Rule>
    var frozen: Option<Frozen>
    var snapshot: set<string>
    var ballots: seq<Ballot>
    var resolutions: seq<Resolution>
    var executions: seq<Execution>
    var linked: Option<string>
    var application: ApplicationStatus
    var admitted: set<string>
    var admissions: seq<Admission>
    const registry: RegistryTables

    ghost function State(): Case
      reads this, registry
    {
      Case(status, rule, frozen, snapshot, ballots, resolutions, executions, linked,
           Domain(application, registry.State(), admitted, admissions))
    }

    /** Status, resolution, execution record, application and role tables tell one story. */
    ghost predicate Valid()
      reads this, registry
    {
      Coherent(State())
    }

    constructor (rule: Option<Rule>, linked: Option<string>, registry: RegistryTables)
      requires rule.Some? ==> rule.value.proposalType == AdmissionType
      requires registry.Valid()
      ensures Valid() && IsNew(State()) && this.registry == registry
      ensures State() == NewCase(rule, linked, registry.State()).0
    {
      this.status := if rule.Some? then Draft else AwaitingPolicy;
      this.rule, this.linked, this.frozen, this.snapshot := rule, linked, None, {};
      ballots, resolutions, executions := [], [], [];
      application, admitted, admissions := Submitted, {}, [];
      this.registry := registry;
    }

    method AttachRuleVersion(version: Rule) returns (reply: Reply)
      requires Valid()
      modifies this
      ensures Valid()
      ensures reply == Done <==> old(status) in {AwaitingPolicy, Draft} && version.proposalType == "member_application"
      ensures reply == Done ==> rule == Some(version) && status == Draft
      ensures (State(), reply) == Attach(old(State()), version)
    {
      if status != AwaitingPolicy && status != Draft {
        return Refused;
      }
      if version.proposalType != AdmissionType {
        return Refused;
      }
      rule, status := Some(version), Draft;
      return Done;
    }

    /** Walks over the members and keeps those the rule admits; gives up when a check raises. */
    method GenerateElectorSnapshot(env: Env, version: Rule) returns (members: Option<set<string>>)
      ensures members == SnapshotOf(env, version, linked)
    {
      var chosen: set<string> := {};
      var rest := env.members.Keys;
      while rest != {}
        invariant rest <= env.members.Keys
        invariant forall m :: m in env.members.Keys - rest ==> EvaluateRule(env, version, m, linked) != Raises
        invariant chosen == set m | m in env.members.Keys - rest && EvaluateRule(env, version, m, linked) == Allowed
        decreases rest
      {
        var member :| member in rest;
        var decision := EvaluateRule(env, version, member, linked);
        if decision == Raises {
          return None;
        }
        if decision == Allowed {
          chosen := chosen + {member};
        }
        rest := rest - {member};
      }
      assert env.members.Keys - rest == env.members.Keys;
      assert chosen == set m | m in env.members && EvaluateRule(env, version, m, linked) == Allowed;
      return Some(chosen);
    }

    /** Parameters and status are written first and taken back when the snapshot cannot be made. */
    method StartElectorateVoting(env: Env) returns (reply: Reply)
      requires Valid()
      modifies this
      ensures Valid()
      ensures old(status) == Draft && reply == Done ==>
                rule.Some? && forall m :: m in snapshot <==> Belongs(env, rule.value, m, linked)
      ensures (State(), reply) == Start(env, old(State()))
    {
      StartKeepsCoherent(env, State());
      if status == Draft && Start(env, State()).1 == Done {
        StartFreezes(env, State());
      }
      if status == InVoting {
        return Done;
      }
      if status != Draft || rule.None? || rule.value.proposalType != AdmissionType {
        return Refused;
      }
      var savepoint := frozen;
      frozen, status := Some(Freeze(rule.value, env.now)), InVoting;
      if snapshot == {} {
        var members := GenerateElectorSnapshot(env, rule.value);
        if members.None? {
          frozen, status := savepoint, Draft;
          return Refused;
        }
        snapshot := members.value;
      }
      return Done;
    }

    /** Resolution, status and application are written together, or nothing is. */
    method ResolveLocked(env: Env) returns (ok: bool)
      requires resolutions == []
      modifies this`status, this`resolutions, this`application
      ensures ok <==> Resolve(env, old(State())).Some?
      ensures State() == if ok then Resolve(env, old(State())).value else old(State())
    {
      var tally := ProposalTally(env, Poll(rule, snapshot, linked), ballots);
      if tally.None? {
        return false;
      }
      var decided := ResolutionOutcome(frozen, tally.value, env.now);
      if decided.None? {
        return true;
      }
      var (outcome, reason) := decided.value;
      resolutions := [Resolution(outcome, reason, tally.value, frozen, env.now)];
      status := StatusFor(outcome);
      if outcome != ToApproved {
        application := Declined;
      }
      return true;
    }

    /** The ballot becomes the voter's last word and may decide the vote; it is taken back when resolving raises. */
    method CastElectorateBallot(env: Env, voter: string, choice: Choice) returns (reply: Reply)
      requires Valid()
      modifies this
      ensures Valid()
      ensures CastCounts(env, old(State()), voter, choice, State(), reply)
      ensures (State(), reply) == Cast(env, old(State()), voter, choice)
    {
      ghost var before := State();
      reply := CastLocked(env, voter, choice);
      assert Valid() by { CastKeepsCoherent(env, before, voter, choice); }
      assert CastCounts(env, before, voter, choice, State(), reply) by { CastIsLastWord(env, before, voter, choice); }
    }

    method CastLocked(env: Env, voter: string, choice: Choice) returns (reply: Reply)
      requires status == InVoting ==> resolutions == []
      modifies this
      ensures (State(), reply) == Cast(env, old(State()), voter, choice)
    {
      if status != InVoting {
        return Refused;
      }
      if frozen.Some? && env.now >= frozen.value.deadline {
        return Refused;
      }
      if EligibilityFor(env, rule, snapshot, voter, linked) != Allowed {
        return Refused;
      }
      var savepoint := ballots;
      var latest := MaxRevision(ballots, voter);
      ballots := ballots + [Ballot(voter, latest + 1, choice)];
      ghost var cast := State();
      assert cast == WithBallot(old(State()), voter, choice);
      var ok := ResolveLocked(env);
      if !ok {
        assert State() == cast;
        ballots := savepoint;
        return Refused;
      }
      return Done;
    }

    /** Past the deadline a permitted call leaves voting exactly when every voter can be checked, with the due status. */
    method FinalizeElectorateProposal(env: Env, permitted: bool) returns (reply: Reply)
      requires Valid()
      modifies this
      ensures Valid()
      ensures Finalized(env, old(State()), permitted, State(), reply)
      ensures (State(), reply) == Finalize(env, old(State()), permitted)
    {
      ghost var before := State();
      if !permitted {
        reply := Refused;
      } else if status != InVoting {
        reply := Done;
      } else if frozen.None? || env.now < frozen.value.deadline {
        reply := Refused;
      } else {
        var ok := ResolveLocked(env);
        reply := if ok then Done else Refused;
      }
      assert (State(), reply) == Finalize(env, before, permitted);
      assert Valid() by { FinalizeKeepsCoherent(env, before, permitted); }
      FinalizeGivesDue(env, before, permitted);
    }

    /** One transaction: the adapter's writes stay exactly when the call executed the proposal; a crash leaves no trace. */
    method ExecuteElectorateProposal(actor: string, permitted: bool, facts: AdapterFacts) returns (reply: Reply)
      requires Valid()
      modifies this`status, this`executions, this`application, this`admitted, this`admissions
      modifies registry`assignments, registry`numbers
      ensures Valid() && ExecutedSafely(old(State()), State(), actor, facts)
      ensures ExecutionAnswers(old(State()), actor, permitted, facts, State(), reply)
      ensures reply == Crashed ==> State() == old(State())
      ensures (State(), reply) == Execute(old(State()), actor, permitted, facts)
    {
      ghost var before := State();
      var savepoint := executions;
      reply := ExecuteLocked(actor, permitted, facts);
      if reply == Crashed {
        executions := savepoint;
      }
      assert (State(), reply) == Execute(before, actor, permitted, facts);
      assert ExecutionAnswers(before, actor, permitted, facts, State(), reply) by {
        ExecuteAnswers(before, actor, permitted, facts);
      }
      ExecutionIsSafe(before, actor, permitted, facts);
    }

    method ExecuteLocked(actor: string, permitted: bool, facts: AdapterFacts) returns (reply: Reply)
      requires |executions| <= 1 && registry.Valid()
      modifies this`status, this`executions, this`application, this`admitted, this`admissions
      modifies registry`assignments, registry`numbers
      ensures reply == Execute(old(State()), actor, permitted, facts).1
      ensures State() == if reply == Crashed then old(State()).(executions := [Execution(actor, Running)])
                         else Execute(old(State()), actor, permitted, facts).0
    {
      if !permitted {
        return Refused;
      }
      if resolutions == [] || resolutions[0].outcome != ToApproved {
        return Refused;
      }
      if executions != [] && executions[0].status == Succeeded {
        return Done;
      }
      if status != Approved && status != ExecutionFailed {
        return Refused;
      }
      ExecuteUnfolds(State(), actor, facts);
      var verdict := RunRecorded(actor, facts);
      reply := if verdict == Crashes then Crashed else Done;
    }

    /** The record runs while the adapter does; it ends succeeded or failed, or is left running by a crash. */
    method RunRecorded(actor: string, facts: AdapterFacts) returns (verdict: Verdict)
      requires |executions| <= 1 && registry.Valid()
      modifies this`status, this`executions, this`application, this`admitted, this`admissions
      modifies registry`assignments, registry`numbers
      ensures verdict == RunAdapter(old(State().domain), linked, actor, facts).1
      ensures State() == match verdict
                         case Completes =>
                           old(State()).(executions := [Execution(actor, Succeeded)], status := Executed,
                                         domain := RunAdapter(old(State().domain), linked, actor, facts).0)
                         case Objects =>
                           old(State()).(executions := [Execution(actor, Failed)], status := ExecutionFailed)
                         case Crashes => old(State()).(executions := [Execution(actor, Running)])
    {
      if executions == [] {
        executions := [Execution(actor, Running)];
      } else {
        executions := executions[0 := Execution(actor, Running)];
      }
      assert executions == [Execution(actor, Running)];
      verdict := RunInSavepoint(actor, facts);
      if verdict == Completes {
        executions, status := [executions[0].(status := Succeeded)], Executed;
      } else if verdict == Objects {
        executions, status := [executions[0].(status := Failed)], ExecutionFailed;
      }
    }

    /** An exception of the adapter takes all its writes back. */
    method RunInSavepoint(actor: string, facts: AdapterFacts) returns (verdict: Verdict)
      requires registry.Valid()
      modifies this`application, this`admitted, this`admissions, registry`assignments, registry`numbers
      ensures verdict == RunAdapter(old(State().domain), linked, actor, facts).1
      ensures State().domain == if verdict == Completes then RunAdapter(old(State().domain), linked, actor, facts).0
                                else old(State().domain)
    {
      var savedAssignments, savedNumbers := registry.assignments, registry.numbers;
      verdict := ExecuteMemberAdmission(actor, facts);
      if verdict != Completes {
        registry.assignments, registry.numbers := savedAssignments, savedNumbers;
      }
    }

    /** One year as a covenanter, from now. */
    method GrantYear(member: string, world: Roles.Env) returns (row: Option<nat>)
      requires registry.Valid()
      modifies registry`assignments, registry`numbers
      ensures registry.Valid() && old(registry.numbers) <= registry.numbers
      ensures (registry.State(), row) ==
              Roles.Create(world, old(registry.State()), member, CovenanterRole, world.now,
                           Some(world.now + AdmissionTerm), false)
    {
      row := registry.CreateRoleAssignment(world, member, CovenanterRole, world.now, Some(world.now + AdmissionTerm), false);
    }

    /** The adapter's checks and writes in order; only a completed run touches the application and the member. */
    method ExecuteMemberAdmission(actor: string, facts: AdapterFacts) returns (verdict: Verdict)
      requires registry.Valid()
      modifies this`application, this`admitted, this`admissions, registry`assignments, registry`numbers
      ensures registry.Valid() && old(registry.numbers) <= registry.numbers
      ensures verdict != Completes ==>
                application == old(application) && admitted == old(admitted) && admissions == old(admissions)
      ensures (State().domain, verdict) == RunAdapter(old(State().domain), linked, actor, facts)
    {
      if facts.fault == EarlyCrash {
        return Crashes;
      }
      if linked.None? || linked.value == actor || linked.value in facts.world.disabled {
        return Objects;
      }
      var now := facts.world.now;
      if TermConflict(registry.assignments, linked.value, now) {
        return Objects;
      }
      var row := GrantYear(linked.value, facts.world);
      if row.None? {
        return Objects;
      }
      if facts.fault == LateDomainError {
        return Objects;
      }
      if facts.fault == LateCrash {
        return Crashes;
      }
      admitted := admitted + {linked.value};
      application := Admitted;
      admissions := admissions + [Admission(linked.value, actor, row.value, now)];
      return Completes;
    }
  }
}
