/** The authorization tuples projected from role assignments, and what their lazy cleanup leaves. */
module RoleProjection {
  import opened RoleLifecycle

  datatype Relation = CovenanterOf | DeliberatorOf | AdministratorOf | Assignee
  datatype Object = Platform | RoleObject(id: nat)
  datatype Tuple = Tuple(user: string, relation: Relation, on: Object)

  function TuplesOf(a: Assignment): set<Tuple> {
    match a.role
    case Catalog(Covenanter, _) => {Tuple(a.member, CovenanterOf, Platform)}
    case Catalog(Deliberator, _) => {Tuple(a.member, DeliberatorOf, Platform)}
    case Catalog(Administrator, id) =>
      {Tuple(a.member, AdministratorOf, Platform), Tuple(a.member, Assignee, RoleObject(id))}
    case Plain(id, _, restricted) => if restricted then {Tuple(a.member, Assignee, RoleObject(id))} else {}
  }

  predicate IsCurrent(env: Env, assignments: seq<Assignment>, a: Assignment) {
    InForce(env, a) && (RequiresCovenanter(a.role) ==> HasCovenanter(env, assignments, a.member))
  }

  /** The tuple store: not in use, not answering, or answering. */
  datatype Backend = NotOpenFga | Unavailable | Available

  /** One of the first n assignments is the member's, is current or not as asked, and derives the tuple. */
  predicate DerivedAmong(env: Env, assignments: seq<Assignment>, n: nat, member: string, current: bool, t: Tuple)
    requires n <= |assignments|
  {
    exists i :: 0 <= i < n && DerivedAt(env, assignments, i, member, current, t)
  }

  predicate DerivedAt(env: Env, assignments: seq<Assignment>, i: nat, member: string, current: bool, t: Tuple)
    requires i < |assignments|
  {
    && assignments[i].member == member
    && IsCurrent(env, assignments, assignments[i]) == current
    && t in TuplesOf(assignments[i])
  }

  predicate Derived(env: Env, assignments: seq<Assignment>, member: string, current: bool, t: Tuple) {
    DerivedAmong(env, assignments, |assignments|, member, current, t)
  }

  /** The tuples derived from the member's assignments among the first n, current or not as asked. */
  function KeysAmong(env: Env, assignments: seq<Assignment>, n: nat, member: string, current: bool): set<Tuple>
    requires n <= |assignments|
  {
    if n == 0 then {}
    else
      var a := assignments[n - 1];
      KeysAmong(env, assignments, n - 1, member, current) +
      if a.member == member && IsCurrent(env, assignments, a) == current then TuplesOf(a) else {}
  }

  lemma {:induction false} KeysAreDerived(env: Env, assignments: seq<Assignment>, n: nat, member: string, current: bool, t: Tuple)
    requires n <= |assignments|
    ensures t in KeysAmong(env, assignments, n, member, current) <==>
            DerivedAmong(env, assignments, n, member, current, t)
  {
    if n > 0 {
      KeysAreDerived(env, assignments, n - 1, member, current, t);
      assert DerivedAmong(env, assignments, n, member, current, t) <==>
             DerivedAmong(env, assignments, n - 1, member, current, t) ||
             DerivedAt(env, assignments, n - 1, member, current, t);
    }
  }

  /** A cleanup deletes the tuples that come from stale assignments and from no current one. */
  predicate ToDelete(env: Env, assignments: seq<Assignment>, member: string, t: Tuple) {
    Derived(env, assignments, member, false, t) && !Derived(env, assignments, member, true, t)
  }

  lemma DerivedIsOwn(env: Env, assignments: seq<Assignment>, member: string, current: bool, t: Tuple)
    requires Derived(env, assignments, member, current, t)
    ensures t.user == member
  {
  }

  /** The store holds no tuples of the member but those some assignment derives, current or not. */
  ghost predicate OnlyDerived(env: Env, assignments: seq<Assignment>, member: string, tuples: set<Tuple>) {
    forall t :: t in tuples && t.user == member ==>
      Derived(env, assignments, member, true, t) || Derived(env, assignments, member, false, t)
  }

  /**
   * If the store held only assignment-derived tuples for the member, then after a cleanup every surviving tuple of the
   * member is justified by a current assignment, no justified tuple is lost, and other users' tuples are untouched.
   */
  lemma CleanupJustifies(env: Env, assignments: seq<Assignment>, member: string, before: set<Tuple>, after: set<Tuple>)
    requires forall t :: t in after <==> t in before && !ToDelete(env, assignments, member, t)
    ensures OnlyDerived(env, assignments, member, before) ==>
              forall t :: t in after && t.user == member ==> Derived(env, assignments, member, true, t)
    ensures forall t :: t in before && Derived(env, assignments, member, true, t) ==> t in after
    ensures forall t: Tuple :: t.user != member ==> (t in after <==> t in before)
  {
    forall t: Tuple | t.user != member ensures !ToDelete(env, assignments, member, t) {
      if Derived(env, assignments, member, false, t) {
        DerivedIsOwn(env, assignments, member, false, t);
        assert false;
      }
    }
  }

  /** A tuple that two assignments derive survives as long as either of them is current. */
  lemma SharedTupleSurvives(env: Env, assignments: seq<Assignment>, member: string, i: nat, t: Tuple)
    requires i < |assignments| && assignments[i].member == member
    requires IsCurrent(env, assignments, assignments[i]) && t in TuplesOf(assignments[i])
    ensures !ToDelete(env, assignments, member, t)
  {
    assert DerivedAt(env, assignments, i, member, true, t);
  }

  // ----- which tuples, and when they go

  /** Every catalog role gives its own relation to the platform; administrators and restricted roles a role to hold. */
  lemma TuplesByRole(a: Assignment, t: Tuple)
    ensures t in TuplesOf(a) <==>
              && t.user == a.member
              && (|| (t.relation == CovenanterOf && t.on == Platform && a.role.Catalog? && a.role.kind == Covenanter)
                  || (t.relation == DeliberatorOf && t.on == Platform && a.role.Catalog? && a.role.kind == Deliberator)
                  || (t.relation == AdministratorOf && t.on == Platform && a.role.Catalog? && a.role.kind == Administrator)
                  || (t.relation == Assignee && t.on == RoleObject(a.role.id) &&
                      if a.role.Catalog? then a.role.kind == Administrator else a.role.restricted))
  {
  }

  /** An assignment counts now: active, of an active role, running, its member in standing and, where needed, a covenanter. */
  lemma CurrentIff(env: Env, assignments: seq<Assignment>, a: Assignment)
    ensures IsCurrent(env, assignments, a) <==>
              && a.status == Active && a.role.id !in env.inactiveRoles && a.start <= env.now && env.now < a.end
              && a.member in env.allowed
              && (ForCovenanters(a.role) ==> CovenanterNow(env, assignments, a.member))
  {
    assert HasCovenanter(env, assignments, a.member) <==> CovenanterNow(env, assignments, a.member);
    assert RequiresCovenanter(a.role) <==> ForCovenanters(a.role);
  }

  /** Revoking a member's only deliberator assignment lets a cleanup take the deliberator tuple away, at any time. */
  lemma RevokedDeliberatorGoes(env: Env, reg: Registry, i: nat, end: int)
    requires i < |reg.assignments| && reg.assignments[i].role.Catalog? && reg.assignments[i].role.kind == Deliberator
    requires forall k :: 0 <= k < |reg.assignments| && k != i && reg.assignments[k].member == reg.assignments[i].member ==>
               !(reg.assignments[k].role.Catalog? && reg.assignments[k].role.kind == Deliberator)
    ensures var member := reg.assignments[i].member;
            ToDelete(env, Revoke(reg, i, end).0.assignments, member, Tuple(member, DeliberatorOf, Platform))
  {
    var after, member := Revoke(reg, i, end).0.assignments, reg.assignments[i].member;
    var t := Tuple(member, DeliberatorOf, Platform);
    assert DerivedAt(env, after, i, member, false, t);
    forall k | 0 <= k < |after| ensures !DerivedAt(env, after, k, member, true, t) {
      if k != i {
        assert after[k] == reg.assignments[k];
      }
    }
  }

  /** As long as a covenanter assignment is current, a cleanup leaves the covenanter tuple. */
  lemma CurrentCovenanterStays(env: Env, assignments: seq<Assignment>, member: string)
    requires CovenanterNow(env, assignments, member)
    ensures !ToDelete(env, assignments, member, Tuple(member, CovenanterOf, Platform))
  {
    var i :| 0 <= i < |assignments| && assignments[i].member == member &&
             assignments[i].role.Catalog? && assignments[i].role.kind == Covenanter &&
             assignments[i].role.id !in env.inactiveRoles &&
             assignments[i].status == Active && assignments[i].start <= env.now && env.now < assignments[i].end;
    SharedTupleSurvives(env, assignments, member, i, Tuple(member, CovenanterOf, Platform));
  }
}
