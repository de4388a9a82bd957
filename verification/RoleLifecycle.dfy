/** Role assignments and covenanter numbers, and what every run of creating and revoking keeps. */
module RoleLifecycle {
  import opened Common

  datatype CatalogKind = Covenanter | Deliberator | Administrator

  /** A role of the catalog, or any other role: one may bear a built-in name, or hold restricted permissions. */
  datatype Role = Catalog(kind: CatalogKind, id: nat) | Plain(id: nat, builtinName: bool, restricted: bool)

  datatype AssignmentStatus = Active | Revoked | Suspended | Expired
  datatype Assignment = Assignment(member: string, role: Role, status: AssignmentStatus, start: int, end: int)
  datatype Number = Number(member: string, serial: nat)
  datatype Registry = Registry(assignments: seq<Assignment>, numbers: seq<Number>)

  const EmptyRegistry := Registry([], [])
  const DefaultTerm := 36500 * 24 * 3600

  /** What is read around a call: the clock, members whose standing lets role facts count, disabled members, inactive roles. */
  datatype Env = Env(now: int, allowed: set<string>, disabled: set<string>, inactiveRoles: set<nat>)

  predicate IsCovenanter(r: Role) {
    r.Catalog? && r.kind == Covenanter
  }

  predicate RequiresCovenanter(r: Role) {
    match r
    case Catalog(kind, _) => kind != Covenanter
    case Plain(_, _, restricted) => restricted
  }

  predicate InForce(env: Env, a: Assignment) {
    a.status == Active && a.role.id !in env.inactiveRoles && a.start <= env.now < a.end && a.member in env.allowed
  }

  predicate HasCovenanter(env: Env, assignments: seq<Assignment>, member: string) {
    exists i :: 0 <= i < |assignments| && assignments[i].member == member && IsCovenanter(assignments[i].role) &&
                InForce(env, assignments[i])
  }

  // ----- covenanter numbers

  function MaxSerial(numbers: seq<Number>): nat {
    if numbers == [] then 0
    else
      var m := MaxSerial(numbers[..|numbers| - 1]);
      if m < numbers[|numbers| - 1].serial then numbers[|numbers| - 1].serial else m
  }

  predicate HasNumber(numbers: seq<Number>, member: string) {
    exists i :: 0 <= i < |numbers| && numbers[i].member == member
  }

  function IssueNumber(numbers: seq<Number>, member: string): seq<Number> {
    if HasNumber(numbers, member) then numbers else numbers + [Number(member, MaxSerial(numbers) + 1)]
  }

  // ----- assignments

  predicate Matches(a: Assignment, member: string, role: Role) {
    a.member == member && a.role == role && a.status == Active
  }

  /** Active assignments of this member and role that ended by `at` become expired. */
  function ExpireOld(assignments: seq<Assignment>, member: string, role: Role, at: int): (r: seq<Assignment>)
    ensures |r| == |assignments|
  {
    if assignments == [] then []
    else
      var last := assignments[|assignments| - 1];
      ExpireOld(assignments[..|assignments| - 1], member, role, at) +
      [if Matches(last, member, role) && last.end <= at then last.(status := Expired) else last]
  }

  /** The live assignment with the latest start, the newest row among equals. */
  function FindLive(assignments: seq<Assignment>, member: string, role: Role, at: int): (r: Option<nat>)
    ensures r.Some? ==> r.value < |assignments| && Matches(assignments[r.value], member, role) &&
                        assignments[r.value].end > at
  {
    if assignments == [] then None
    else
      var n := |assignments| - 1;
      var earlier := FindLive(assignments[..n], member, role, at);
      if !Matches(assignments[n], member, role) || assignments[n].end <= at then earlier
      else if earlier.Some? && assignments[earlier.value].start > assignments[n].start then earlier
      else Some(n)
  }

  lemma {:induction false} ExpireOldAt(assignments: seq<Assignment>, member: string, role: Role, at: int, i: nat)
    requires i < |assignments|
    ensures ExpireOld(assignments, member, role, at)[i] ==
            if Matches(assignments[i], member, role) && assignments[i].end <= at
            then assignments[i].(status := Expired) else assignments[i]
  {
    if i < |assignments| - 1 {
      ExpireOldAt(assignments[..|assignments| - 1], member, role, at, i);
    }
  }

  lemma {:induction false} NoneLive(assignments: seq<Assignment>, member: string, role: Role, at: int, i: nat)
    requires FindLive(assignments, member, role, at).None? && i < |assignments| && Matches(assignments[i], member, role)
    ensures assignments[i].end <= at
  {
    if i < |assignments| - 1 {
      NoneLive(assignments[..|assignments| - 1], member, role, at, i);
    }
  }

  predicate PrerequisitesMet(env: Env, assignments: seq<Assignment>, member: string, role: Role) {
    && member !in env.disabled
    && (RequiresCovenanter(role) ==> HasCovenanter(env, assignments, member))
  }

  /** Old assignments expire; one that is still live is kept, and otherwise a new one is added. */
  function Assign(assignments: seq<Assignment>, member: string, role: Role, start: int, end: int)
    : (seq<Assignment>, nat)
  {
    var kept := ExpireOld(assignments, member, role, start);
    var live := FindLive(kept, member, role, start);
    if live.Some? then (kept, live.value) else (kept + [Assignment(member, role, Active, start, end)], |kept|)
  }

  function Create(env: Env, reg: Registry, member: string, role: Role, start: int, end: Option<int>, skip: bool)
    : (Registry, Option<nat>)
  {
    if role.Plain? && role.builtinName then (reg, None)
    else if !skip && !PrerequisitesMet(env, reg.assignments, member, role) then (reg, None)
    else
      var (assignments, index) := Assign(reg.assignments, member, role, start,
                                         if end.Some? then end.value else start + DefaultTerm);
      var numbers := if IsCovenanter(role) then IssueNumber(reg.numbers, member) else reg.numbers;
      (Registry(assignments, numbers), Some(index))
  }

  function Revoke(reg: Registry, i: nat, end: int): (Registry, Option<nat>) {
    if i >= |reg.assignments| then (reg, None)
    else (reg.(assignments := reg.assignments[i := reg.assignments[i].(status := Revoked, end := end)]), Some(i))
  }

  datatype Command =
    | DoCreate(env: Env, member: string, role: Role, start: int, end: Option<int>, skip: bool)
    | DoRevoke(assignment: nat, endAt: int)

  function Step(reg: Registry, c: Command): Registry {
    match c
    case DoCreate(env, member, role, start, end, skip) => Create(env, reg, member, role, start, end, skip).0
    case DoRevoke(i, end) => Revoke(reg, i, end).0
  }

  function Run(reg: Registry, cs: seq<Command>): Registry {
    if cs == [] then reg else Step(Run(reg, cs[..|cs| - 1]), cs[|cs| - 1])
  }

  // ----- when an appointment is refused

  /** The member has an active, running assignment of an active covenanter role, and is in standing. */
  predicate CovenanterNow(env: Env, assignments: seq<Assignment>, member: string) {
    member in env.allowed &&
    exists i :: 0 <= i < |assignments| && assignments[i].member == member &&
                assignments[i].role.Catalog? && assignments[i].role.kind == Covenanter &&
                assignments[i].role.id !in env.inactiveRoles &&
                assignments[i].status == Active && assignments[i].start <= env.now && env.now < assignments[i].end
  }

  /** A role that may be given only to covenanters: deliberators, administrators, and plain roles with restricted permissions. */
  predicate ForCovenanters(role: Role) {
    match role
    case Catalog(Covenanter, _) => false
    case Catalog(Deliberator, _) => true
    case Catalog(Administrator, _) => true
    case Plain(_, _, restricted) => restricted
  }

  /** A plain role under a built-in name is never given; the other checks may be skipped. */
  predicate MayBeAppointed(env: Env, reg: Registry, member: string, role: Role, skip: bool) {
    && !(role.Plain? && role.builtinName)
    && (skip || (&& member !in env.disabled
                 && (ForCovenanters(role) ==> CovenanterNow(env, reg.assignments, member))))
  }

  /** An appointment goes through exactly when the member may be appointed. */
  lemma CreateAnswers(env: Env, reg: Registry, member: string, role: Role, start: int, end: Option<int>, skip: bool)
    ensures Create(env, reg, member, role, start, end, skip).1.Some? <==> MayBeAppointed(env, reg, member, role, skip)
  {
    assert HasCovenanter(env, reg.assignments, member) <==> CovenanterNow(env, reg.assignments, member);
    assert RequiresCovenanter(role) <==> ForCovenanters(role);
  }

  // ----- what every run keeps

  ghost predicate OneActiveEach(assignments: seq<Assignment>) {
    forall i, j :: 0 <= i < j < |assignments| && assignments[i].status == Active && assignments[j].status == Active ==>
      assignments[i].member != assignments[j].member || assignments[i].role != assignments[j].role
  }

  ghost predicate NumberedInOrder(numbers: seq<Number>) {
    && (forall i :: 0 <= i < |numbers| ==> numbers[i].serial == i + 1)
    && forall i, j :: 0 <= i < j < |numbers| ==> numbers[i].member != numbers[j].member
  }

  ghost predicate CovenantersNumbered(reg: Registry) {
    forall i :: 0 <= i < |reg.assignments| && IsCovenanter(reg.assignments[i].role) ==>
      HasNumber(reg.numbers, reg.assignments[i].member)
  }

  ghost predicate Kept(reg: Registry) {
    OneActiveEach(reg.assignments) && NumberedInOrder(reg.numbers) && CovenantersNumbered(reg)
  }

  lemma {:induction false} MaxSerialIsLength(numbers: seq<Number>)
    requires NumberedInOrder(numbers)
    ensures MaxSerial(numbers) == |numbers|
  {
    if numbers != [] {
      MaxSerialIsLength(numbers[..|numbers| - 1]);
    }
  }

  lemma IssueKeepsOrder(numbers: seq<Number>, member: string)
    requires NumberedInOrder(numbers)
    ensures NumberedInOrder(IssueNumber(numbers, member)) && numbers <= IssueNumber(numbers, member)
    ensures HasNumber(IssueNumber(numbers, member), member)
  {
    MaxSerialIsLength(numbers);
    var after := IssueNumber(numbers, member);
    if !HasNumber(numbers, member) {
      assert after[|numbers|].member == member;
    }
  }

  lemma {:induction false} HasNumberGrows(numbers: seq<Number>, later: seq<Number>, member: string)
    requires numbers <= later && HasNumber(numbers, member)
    ensures HasNumber(later, member)
  {
    var i :| 0 <= i < |numbers| && numbers[i].member == member;
    assert later[i].member == member;
  }

  /** After the expiry of old assignments, those of the member and role that are active still run. */
  lemma ExpiryKeeps(assignments: seq<Assignment>, member: string, role: Role, at: int)
    ensures var kept := ExpireOld(assignments, member, role, at);
            && OnlyExpires(assignments, kept, at)
            && (forall i :: 0 <= i < |kept| ==>
                  (Matches(kept[i], member, role) <==> Matches(assignments[i], member, role) && assignments[i].end > at))
            && (OneActiveEach(assignments) ==> OneActiveEach(kept))
  {
    forall i | 0 <= i < |assignments|
      ensures ExpireOld(assignments, member, role, at)[i] ==
              if Matches(assignments[i], member, role) && assignments[i].end <= at
              then assignments[i].(status := Expired) else assignments[i]
    {
      ExpireOldAt(assignments, member, role, at, i);
    }
  }

  /** What is looked up after the expiry: the live assignment if there is one, and otherwise no active one is left. */
  lemma LookupAfterExpiry(assignments: seq<Assignment>, member: string, role: Role, at: int)
    ensures var kept := ExpireOld(assignments, member, role, at);
            var live := FindLive(kept, member, role, at);
            && (live.Some? <==> LiveAfter(assignments, member, role, at))
            && (live.None? ==> forall i :: 0 <= i < |kept| ==> !Matches(kept[i], member, role))
  {
    var kept := ExpireOld(assignments, member, role, at);
    ExpiryKeeps(assignments, member, role, at);
    if FindLive(kept, member, role, at).None? {
      forall i | 0 <= i < |kept| ensures !Matches(kept[i], member, role) {
        if Matches(kept[i], member, role) {
          NoneLive(kept, member, role, at, i);
        }
      }
    }
  }

  lemma AssignKeepsOneActive(assignments: seq<Assignment>, member: string, role: Role, start: int, end: int)
    requires OneActiveEach(assignments)
    ensures OneActiveEach(Assign(assignments, member, role, start, end).0)
  {
    var kept := ExpireOld(assignments, member, role, start);
    ExpiryKeeps(assignments, member, role, start);
    if FindLive(kept, member, role, start).None? {
      LookupAfterExpiry(assignments, member, role, start);
      OneMoreActive(kept, Assignment(member, role, Active, start, end));
    }
  }

  lemma OneMoreActive(assignments: seq<Assignment>, a: Assignment)
    requires OneActiveEach(assignments)
    requires forall i :: 0 <= i < |assignments| ==> !Matches(assignments[i], a.member, a.role)
    ensures OneActiveEach(assignments + [a])
  {
  }

  /** The row is the one active assignment of the member and role. */
  ghost predicate OnlyActive(assignments: seq<Assignment>, member: string, role: Role, i: nat) {
    && i < |assignments| && Matches(assignments[i], member, role)
    && forall k :: 0 <= k < |assignments| && Matches(assignments[k], member, role) ==> k == i
  }

  /** An active assignment of the member and role still runs after `at`. */
  predicate LiveAfter(assignments: seq<Assignment>, member: string, role: Role, at: int) {
    exists i :: 0 <= i < |assignments| && Matches(assignments[i], member, role) && assignments[i].end > at
  }

  /** An assignment that was active before is as it was, or expired because it had ended by `at`. */
  ghost predicate OnlyExpires(before: seq<Assignment>, after: seq<Assignment>, at: int) {
    && |before| <= |after|
    && forall i :: 0 <= i < |before| ==>
         after[i] == before[i] || (before[i].end <= at && after[i] == before[i].(status := Expired))
  }

  /**
   * A successful call returns the one active assignment of the member and role: an existing one, untouched, when one
   * outlives the start, and otherwise a new one with the requested term.
   */
  lemma CreateYieldsTheActive(env: Env, reg: Registry, member: string, role: Role, start: int, end: Option<int>, skip: bool)
    requires Kept(reg) && Create(env, reg, member, role, start, end, skip).1.Some?
    ensures var (after, index) := Create(env, reg, member, role, start, end, skip);
            && OnlyActive(after.assignments, member, role, index.value)
            && OnlyExpires(reg.assignments, after.assignments, start)
            && (if IsCovenanter(role) then HasNumber(after.numbers, member) else after.numbers == reg.numbers)
            && if LiveAfter(reg.assignments, member, role, start)
               then |after.assignments| == |reg.assignments|
                    && after.assignments[index.value] == reg.assignments[index.value]
               else index.value == |reg.assignments| == |after.assignments| - 1
                    && after.assignments[index.value] ==
                       Assignment(member, role, Active, start, if end.Some? then end.value else start + 3_153_600_000)
  {
    IssueKeepsOrder(reg.numbers, member);
    AssignYieldsTheActive(reg.assignments, member, role, start, if end.Some? then end.value else start + DefaultTerm);
  }

  lemma AssignYieldsTheActive(assignments: seq<Assignment>, member: string, role: Role, start: int, end: int)
    requires OneActiveEach(assignments)
    ensures var (after, i) := Assign(assignments, member, role, start, end);
            && OnlyActive(after, member, role, i) && OnlyExpires(assignments, after, start)
            && if LiveAfter(assignments, member, role, start)
               then |after| == |assignments| && after[i] == assignments[i]
               else i == |assignments| == |after| - 1 && after[i] == Assignment(member, role, Active, start, end)
  {
    var (after, i) := Assign(assignments, member, role, start, end);
    ExpiryKeeps(assignments, member, role, start);
    LookupAfterExpiry(assignments, member, role, start);
    AssignKeepsOneActive(assignments, member, role, start, end);
    forall k | 0 <= k < |after| && Matches(after[k], member, role) ensures k == i {
      assert after[k].status == Active && after[i].status == Active;
    }
  }

  lemma StepKeeps(reg: Registry, c: Command)
    requires Kept(reg)
    ensures Kept(Step(reg, c)) && reg.numbers <= Step(reg, c).numbers
  {
    match c
    case DoCreate(env, member, role, start, end, skip) =>
      var term := if end.Some? then end.value else start + DefaultTerm;
      AssignKeepsOneActive(reg.assignments, member, role, start, term);
      IssueKeepsOrder(reg.numbers, member);
      AssignKeepsNumbered(reg, member, role, start, term);
    case DoRevoke(i, end) =>
      if i < |reg.assignments| {
        RevokeKeepsNumbered(reg, i, end);
      }
  }

  lemma RevokeKeepsNumbered(reg: Registry, i: nat, end: int)
    requires CovenantersNumbered(reg) && i < |reg.assignments|
    ensures CovenantersNumbered(Revoke(reg, i, end).0)
  {
    forall k | 0 <= k < |reg.assignments| && IsCovenanter(Revoke(reg, i, end).0.assignments[k].role)
      ensures HasNumber(reg.numbers, Revoke(reg, i, end).0.assignments[k].member)
    {
      assert IsCovenanter(reg.assignments[k].role);
    }
  }

  lemma AssignKeepsNumbered(reg: Registry, member: string, role: Role, start: int, end: int)
    requires CovenantersNumbered(reg) && NumberedInOrder(reg.numbers)
    ensures CovenantersNumbered(Registry(Assign(reg.assignments, member, role, start, end).0,
                                         if IsCovenanter(role) then IssueNumber(reg.numbers, member) else reg.numbers))
  {
    var after := Assign(reg.assignments, member, role, start, end).0;
    var numbers := if IsCovenanter(role) then IssueNumber(reg.numbers, member) else reg.numbers;
    ExpiryKeeps(reg.assignments, member, role, start);
    IssueKeepsOrder(reg.numbers, member);
    forall i | 0 <= i < |after| && IsCovenanter(after[i].role) ensures HasNumber(numbers, after[i].member) {
      if i < |reg.assignments| {
        assert HasNumber(reg.numbers, reg.assignments[i].member);
        HasNumberGrows(reg.numbers, numbers, reg.assignments[i].member);
      }
    }
  }

  /**
   * What a caller may rely on: nothing happened, or the member now has exactly one active assignment of the role, made
   * anew exactly when none outlived the start, and a covenanter has a number.
   */
  ghost predicate Appointed(before: Registry, after: Registry, index: Option<nat>, member: string, role: Role, start: int) {
    && before.numbers <= after.numbers
    && match index
       case None => after == before
       case Some(i) =>
         && OnlyActive(after.assignments, member, role, i)
         && OnlyExpires(before.assignments, after.assignments, start)
         && (|after.assignments| == |before.assignments| <==> LiveAfter(before.assignments, member, role, start))
         && (if IsCovenanter(role) then HasNumber(after.numbers, member) else after.numbers == before.numbers)
  }

  lemma CreateIsAppointment(env: Env, reg: Registry, member: string, role: Role, start: int, end: Option<int>, skip: bool)
    requires Kept(reg)
    ensures var (after, index) := Create(env, reg, member, role, start, end, skip);
            Kept(after) && Appointed(reg, after, index, member, role, start)
  {
    StepKeeps(reg, DoCreate(env, member, role, start, end, skip));
    if Create(env, reg, member, role, start, end, skip).1.Some? {
      CreateYieldsTheActive(env, reg, member, role, start, end, skip);
    }
  }

  /**
   * In every run of create and revoke there is at most one active assignment per member and role; every member ever
   * granted the covenanter role has one number, the numbers in issue order are 1..n, and none is withdrawn or reused.
   */
  lemma {:induction false} RunKeeps(reg: Registry, cs: seq<Command>)
    requires Kept(reg)
    ensures Kept(Run(reg, cs)) && reg.numbers <= Run(reg, cs).numbers
  {
    if cs != [] {
      RunKeeps(reg, cs[..|cs| - 1]);
      StepKeeps(Run(reg, cs[..|cs| - 1]), cs[|cs| - 1]);
    }
  }
}
