/** The role services as they update their tables, with the cleanup of projected tuples. */
module RoleService {
  import opened Common
  import opened RoleLifecycle
  import opened RoleProjection

  class RegistryTables {
    var assignments: seq<Assignment>
    var numbers: seq<Number>
    var tuples: set<Tuple>

    ghost function State(): Registry
      reads this
    {
      Registry(assignments, numbers)
    }

    /** One active assignment per member and role, and numbers 1..n, one for every member ever made covenanter. */
    ghost predicate Valid()
      reads this
    {
      Kept(State())
    }

    constructor ()
      ensures Valid() && State() == EmptyRegistry && tuples == {}
    {
      assignments, numbers, tuples := [], [], {};
    }

    /** A member without a number gets the next one, which nobody has had. */
    method IssueCovenanterNumber(member: string)
      requires NumberedInOrder(numbers)
      modifies this`numbers
      ensures NumberedInOrder(numbers) && HasNumber(numbers, member)
      ensures numbers == if HasNumber(old(numbers), member) then old(numbers)
                         else old(numbers) + [Number(member, |old(numbers)| + 1)]
      ensures numbers == IssueNumber(old(numbers), member)
    {
      IssueKeepsOrder(numbers, member);
      MaxSerialIsLength(numbers);
      if HasNumber(numbers, member) {
        return;
      }
      var highest := 0;
      var i := 0;
      while i < |numbers|
        invariant 0 <= i <= |numbers| && highest == MaxSerial(numbers[..i])
      {
        assert numbers[..i + 1][..i] == numbers[..i];
        if highest < numbers[i].serial {
          highest := numbers[i].serial;
        }
        i := i + 1;
      }
      assert numbers[..i] == numbers;
      numbers := numbers + [Number(member, highest + 1)];
    }

    method ExpireAssignments(member: string, role: Role, at: int)
      modifies this`assignments
      ensures assignments == ExpireOld(old(assignments), member, role, at)
    {
      ghost var expired := ExpireOld(assignments, member, role, at);
      var i := 0;
      while i < |assignments|
        invariant 0 <= i <= |assignments| == |expired|
        invariant forall k :: 0 <= k < i ==> assignments[k] == expired[k]
        invariant forall k :: i <= k < |assignments| ==> assignments[k] == old(assignments)[k]
      {
        ExpireOldAt(old(assignments), member, role, at, i);
        if Matches(assignments[i], member, role) && assignments[i].end <= at {
          assignments := assignments[i := assignments[i].(status := Expired)];
        }
        i := i + 1;
      }
    }

    /** Returns the one active assignment of the member and role: a live one is kept, and only else a new one is made. */
    method CreateRoleAssignment(env: Env, member: string, role: Role, start: int, end: Option<int>, skip: bool)
      returns (index: Option<nat>)
      requires Valid()
      modifies this`assignments, this`numbers
      ensures Valid() && Appointed(old(State()), State(), index, member, role, start)
      ensures index.Some? <==> MayBeAppointed(env, old(State()), member, role, skip)
      ensures (State(), index) == Create(env, old(State()), member, role, start, end, skip)
    {
      CreateIsAppointment(env, State(), member, role, start, end, skip);
      CreateAnswers(env, State(), member, role, start, end, skip);
      if role.Plain? && role.builtinName {
        return None;
      }
      if !skip && !PrerequisitesMet(env, assignments, member, role) {
        return None;
      }
      ExpireAssignments(member, role, start);
      var live := FindLive(assignments, member, role, start);
      var at: nat := if live.Some? then live.value else |assignments|;
      if live.None? {
        assignments := assignments + [Assignment(member, role, Active, start,
                                                 if end.Some? then end.value else start + DefaultTerm)];
      }
      if IsCovenanter(role) {
        IssueCovenanterNumber(member);
      }
      return Some(at);
    }

    /** A revoked assignment is in force at no time, and its member and role may be assigned anew; numbers stay. */
    method RevokeRoleAssignment(i: nat, end: int) returns (index: Option<nat>)
      requires Valid()
      modifies this`assignments
      ensures Valid()
      ensures index == if i < |old(assignments)| then Some(i) else None
      ensures |assignments| == |old(assignments)| && forall k :: 0 <= k < |assignments| && k != i ==>
                assignments[k] == old(assignments)[k]
      ensures i < |assignments| ==>
                && assignments[i] == old(assignments)[i].(status := Revoked, end := end)
                && (forall env :: !InForce(env, assignments[i]))
                && (old(assignments)[i].status == Active ==>
                      forall at :: !LiveAfter(assignments, assignments[i].member, assignments[i].role, at))
      ensures (State(), index) == Revoke(old(State()), i, end)
    {
      StepKeeps(State(), DoRevoke(i, end));
      if i >= |assignments| {
        return None;
      }
      assignments := assignments[i := assignments[i].(status := Revoked, end := end)];
      return Some(i);
    }

    /** Removes, for one member, the tuples that come from stale assignments and from no current one. */
    method RemoveNonCurrentProjections(env: Env, member: string, backend: Backend) returns (ok: bool)
      modifies this`tuples
      ensures ok <==> backend != Unavailable || forall t :: !ToDelete(env, assignments, member, t)
      ensures backend != Available ==> tuples == old(tuples)
      ensures backend == Available ==>
                forall t :: t in tuples <==> t in old(tuples) && !ToDelete(env, assignments, member, t)
      ensures forall t: Tuple :: t in old(tuples) && (t.user != member || Derived(env, assignments, member, true, t)) ==>
                t in tuples
      ensures ok && backend != NotOpenFga && OnlyDerived(env, assignments, member, old(tuples)) ==>
                forall t :: t in tuples && t.user == member ==> Derived(env, assignments, member, true, t)
    {
      var currentKeys, staleKeys: set<Tuple> := {}, {};
      var i := 0;
      while i < |assignments|
        invariant 0 <= i <= |assignments| && tuples == old(tuples)
        invariant currentKeys == KeysAmong(env, assignments, i, member, true)
        invariant staleKeys == KeysAmong(env, assignments, i, member, false)
      {
        if assignments[i].member == member {
          if IsCurrent(env, assignments, assignments[i]) {
            currentKeys := currentKeys + TuplesOf(assignments[i]);
          } else {
            staleKeys := staleKeys + TuplesOf(assignments[i]);
          }
        }
        i := i + 1;
      }
      var deletes: set<Tuple> := staleKeys - currentKeys;
      forall t ensures t in deletes <==> ToDelete(env, assignments, member, t) {
        KeysAreDerived(env, assignments, i, member, true, t);
        KeysAreDerived(env, assignments, i, member, false, t);
      }
      if deletes == {} {
        forall t ensures !ToDelete(env, assignments, member, t) {
          assert t !in deletes;
        }
        CleanupJustifies(env, assignments, member, tuples, tuples);
        return true;
      }
      if backend == NotOpenFga {
        return true;
      }
      if backend == Unavailable {
        var t :| t in deletes;
        assert ToDelete(env, assignments, member, t);
        return false;
      }
      tuples := tuples - deletes;
      CleanupJustifies(env, assignments, member, old(tuples), tuples);
      return true;
    }
  }
}
