/** Facts about the derived balances that hold of every row log: conservation and the split by task. */
module CreditConservation {
  import opened Common
  import opened CreditLedger

  /** What one row does to one account. */
  function Delta(r: Row, a: Account): int {
    (if r.target == Some(a) then r.amount else 0) - (if r.source == Some(a) then r.amount else 0)
  }

  /** What one row does to the remaining locked budget of one task. */
  function TaskDelta(r: Row, task: string): int {
    (if Picks(LockedFor(task), r) then r.amount else 0) -
    (if Picks(RewardedFor(task), r) then r.amount else 0) -
    (if Picks(UnlockedFor(task), r) then r.amount else 0)
  }

  lemma Append(rows: seq<Row>, r: Row)
    ensures forall c :: Total(rows + [r], c) == Total(rows, c) + if Picks(c, r) then r.amount else 0
    ensures forall a :: Balance(rows + [r], a) == Balance(rows, a) + Delta(r, a)
    ensures forall t :: TaskBalance(rows + [r], t) == TaskBalance(rows, t) + TaskDelta(r, t)
  {
    assert (rows + [r])[..|rows|] == rows;
  }

  /** The fields the balance queries look at. */
  predicate SameMoney(r: Row, q: Row) {
    q == r.(reverses := q.reverses)
  }

  lemma {:induction false} TotalIgnoresReversalLinks(rows: seq<Row>, other: seq<Row>, c: Column)
    requires |rows| == |other|
    requires forall i :: 0 <= i < |rows| ==> SameMoney(rows[i], other[i])
    ensures Total(rows, c) == Total(other, c)
  {
    if rows != [] {
      var last := |rows| - 1;
      assert SameMoney(rows[last], other[last]);
      TotalIgnoresReversalLinks(rows[..last], other[..last], c);
    }
  }

  lemma RepointKeepsTotals(rows: seq<Row>, i: nat, link: Option<nat>)
    requires i < |rows|
    ensures var other := rows[i := rows[i].(reverses := link)];
            && (forall c :: Total(other, c) == Total(rows, c))
            && (forall a :: Balance(other, a) == Balance(rows, a))
            && (forall t :: TaskBalance(other, t) == TaskBalance(rows, t))
  {
    var other := rows[i := rows[i].(reverses := link)];
    forall c ensures Total(other, c) == Total(rows, c) {
      TotalIgnoresReversalLinks(rows, other, c);
    }
  }

  // ----- conservation

  function SumBalances(rows: seq<Row>, accounts: seq<Account>): int {
    if accounts == [] then 0
    else SumBalances(rows, accounts[..|accounts| - 1]) + Balance(rows, accounts[|accounts| - 1])
  }

  function SumDeltas(r: Row, accounts: seq<Account>): int {
    if accounts == [] then 0
    else SumDeltas(r, accounts[..|accounts| - 1]) + Delta(r, accounts[|accounts| - 1])
  }

  ghost predicate Covers(accounts: seq<Account>, rows: seq<Row>) {
    forall r :: r in rows ==>
      (r.source.Some? ==> r.source.value in accounts) && (r.target.Some? ==> r.target.value in accounts)
  }

  lemma {:induction false} SumDeltasIsOneHit(r: Row, accounts: seq<Account>)
    requires NoDuplicates(accounts)
    ensures SumDeltas(r, accounts)
         == (if r.target.Some? && r.target.value in accounts then r.amount else 0)
          - (if r.source.Some? && r.source.value in accounts then r.amount else 0)
  {
    if accounts != [] {
      var last := |accounts| - 1;
      SumDeltasIsOneHit(r, accounts[..last]);
      assert accounts == accounts[..last] + [accounts[last]];
      assert accounts[last] !in accounts[..last];
    }
  }

  lemma {:induction false} SumBalancesAppend(rows: seq<Row>, r: Row, accounts: seq<Account>)
    ensures SumBalances(rows + [r], accounts) == SumBalances(rows, accounts) + SumDeltas(r, accounts)
  {
    if accounts != [] {
      SumBalancesAppend(rows, r, accounts[..|accounts| - 1]);
      Append(rows, r);
    }
  }

  lemma {:induction false} SumBalancesEmpty(accounts: seq<Account>)
    ensures SumBalances([], accounts) == 0
  {
    if accounts != [] {
      SumBalancesEmpty(accounts[..|accounts| - 1]);
    }
  }

  /**
   * Conservation: over any list of accounts that names each account once and leaves none out,
   * the balances add up to what entered without a source minus what left without a target.
   */
  lemma {:induction false} Conservation(rows: seq<Row>, accounts: seq<Account>)
    requires NoDuplicates(accounts) && Covers(accounts, rows)
    ensures SumBalances(rows, accounts) == Total(rows, WithoutSource) - Total(rows, WithoutTarget)
  {
    if rows == [] {
      SumBalancesEmpty(accounts);
    } else {
      var last := |rows| - 1;
      var r := rows[last];
      assert rows == rows[..last] + [r];
      assert r in rows;
      Conservation(rows[..last], accounts);
      SumBalancesAppend(rows[..last], r, accounts);
      SumDeltasIsOneHit(r, accounts);
    }
  }

  // ----- the TASK_LOCKED account split by task

  function SumTasks(rows: seq<Row>, tasks: seq<string>): int {
    if tasks == [] then 0
    else SumTasks(rows, tasks[..|tasks| - 1]) + TaskBalance(rows, tasks[|tasks| - 1])
  }

  function SumTaskDeltas(r: Row, tasks: seq<string>): int {
    if tasks == [] then 0
    else SumTaskDeltas(r, tasks[..|tasks| - 1]) + TaskDelta(r, tasks[|tasks| - 1])
  }

  ghost predicate CoversTasks(tasks: seq<string>, rows: seq<Row>) {
    forall r :: r in rows && r.task.Some? ==> r.task.value in tasks
  }

  /** Only budget movements of a named task touch the TASK_LOCKED account. */
  predicate TaskShaped(r: Row) {
    && (r.target == Some(TaskLocked) <==> r.kind == Lock)
    && (r.source == Some(TaskLocked) <==> r.kind == Unlock || (r.kind == TaskReward && !r.genesis))
    && (r.kind == Lock || r.kind == Unlock || r.kind == TaskReward ==> r.task.Some?)
  }

  lemma {:induction false} SumTaskDeltasIsOneHit(r: Row, tasks: seq<string>)
    requires NoDuplicates(tasks)
    ensures SumTaskDeltas(r, tasks) == if r.task.Some? && r.task.value in tasks then TaskDelta(r, r.task.value) else 0
  {
    if tasks != [] {
      var last := |tasks| - 1;
      SumTaskDeltasIsOneHit(r, tasks[..last]);
      assert tasks == tasks[..last] + [tasks[last]];
      assert tasks[last] !in tasks[..last];
    }
  }

  lemma {:induction false} SumTasksAppend(rows: seq<Row>, r: Row, tasks: seq<string>)
    ensures SumTasks(rows + [r], tasks) == SumTasks(rows, tasks) + SumTaskDeltas(r, tasks)
  {
    if tasks != [] {
      SumTasksAppend(rows, r, tasks[..|tasks| - 1]);
      Append(rows, r);
    }
  }

  lemma {:induction false} SumTasksEmpty(tasks: seq<string>)
    ensures SumTasks([], tasks) == 0
  {
    if tasks != [] {
      SumTasksEmpty(tasks[..|tasks| - 1]);
    }
  }

  /** The account balance is the sum of the per-task remainders, whatever the order of the tasks. */
  lemma {:induction false} TaskSplit(rows: seq<Row>, tasks: seq<string>)
    requires forall r :: r in rows ==> TaskShaped(r)
    requires NoDuplicates(tasks) && CoversTasks(tasks, rows)
    ensures SumTasks(rows, tasks) == Balance(rows, TaskLocked)
  {
    if rows == [] {
      SumTasksEmpty(tasks);
    } else {
      var last := |rows| - 1;
      var r := rows[last];
      assert rows == rows[..last] + [r];
      assert r in rows;
      TaskSplit(rows[..last], tasks);
      SumTasksAppend(rows[..last], r, tasks);
      SumTaskDeltasIsOneHit(r, tasks);
      Append(rows[..last], r);
    }
  }

  lemma {:induction false} SumTasksBoundsEach(rows: seq<Row>, tasks: seq<string>, i: nat)
    requires i < |tasks|
    requires forall t :: TaskBalance(rows, t) >= 0
    ensures 0 <= TaskBalance(rows, tasks[i]) <= SumTasks(rows, tasks)
  {
    var last := |tasks| - 1;
    if i < last {
      SumTasksBoundsEach(rows, tasks[..last], i);
    } else if last > 0 {
      SumTasksBoundsEach(rows, tasks[..last], 0);
    }
  }

  /** Some duplicate-free list names every task of the log, and the given one besides. */
  lemma {:induction false} TasksCanBeListed(rows: seq<Row>, task: string) returns (tasks: seq<string>)
    ensures NoDuplicates(tasks) && CoversTasks(tasks, rows) && task in tasks
  {
    if rows == [] {
      tasks := [task];
    } else {
      var last := |rows| - 1;
      var r := rows[last];
      assert rows == rows[..last] + [r];
      tasks := TasksCanBeListed(rows[..last], task);
      if r.task.Some? && r.task.value !in tasks {
        tasks := tasks + [r.task.value];
      }
    }
  }

  /** A task never has more locked than the shared account holds. */
  lemma TaskWithinAccount(rows: seq<Row>, task: string)
    requires forall r :: r in rows ==> TaskShaped(r)
    requires forall t :: TaskBalance(rows, t) >= 0
    ensures TaskBalance(rows, task) <= Balance(rows, TaskLocked)
  {
    var tasks := TasksCanBeListed(rows, task);
    TaskSplit(rows, tasks);
    var i :| 0 <= i < |tasks| && tasks[i] == task;
    SumTasksBoundsEach(rows, tasks, i);
  }
}
