/** Runs from empty books to the three states in which a promise about credits fails. */
module CreditFailures {
  import opened Common
  import opened CreditLedger
  import opened CreditConservation
  import opened CreditRuns
  import opened CreditOrders

  lemma Then(cs: seq<Command>, l: Ledger, c: Command, after: Ledger)
    requires Run(EmptyLedger, cs) == l && Step(l, c).0 == after
    ensures Run(EmptyLedger, cs + [c]) == after
  {
    assert (cs + [c])[..|cs|] == cs;
  }

  // ----- steps that go through

  function IssuedRow(amount: int): Row {
    Movement(Issuance, None, Some(IssuancePool), amount, None)
  }

  lemma IssueStep(l: Ledger, amount: int)
    requires amount > 0 && IssuancePool in l.pools
    ensures Step(l, DoIssue(amount, None)).0 == l.(rows := l.rows + [IssuedRow(amount)])
    ensures Balance(l.rows + [IssuedRow(amount)], IssuancePool) == Balance(l.rows, IssuancePool) + amount
  {
    Append(l.rows, IssuedRow(amount));
  }

  lemma LockStep(l: Ledger, task: string, amount: int)
    requires 0 < amount <= Balance(l.rows, IssuancePool) && SystemPools <= l.pools
    ensures var after := l.(rows := l.rows + [LockRow(task, amount, None)]);
            && Step(l, DoLock(task, amount, None)).0 == after
            && Balance(after.rows, TaskLocked) == Balance(l.rows, TaskLocked) + amount
            && TaskBalance(after.rows, task) == TaskBalance(l.rows, task) + amount
  {
    Append(l.rows, LockRow(task, amount, None));
    assert Step(l, DoLock(task, amount, None)) == LockBudget(l, task, amount, None);
  }

  lemma RewardStep(l: Ledger, task: string, member: string, amount: int, entry: string)
    requires 0 < amount <= TaskBalance(l.rows, task) && SystemPools <= l.pools
    requires FindKey(l.rows, RewardKey(entry)).None?
    ensures var t := RewardRow(task, member, amount, entry, false);
            && Step(l, DoReward(task, member, amount, entry, false)).0 == l.(rows := l.rows + [t])
            && Balance(l.rows + [t], Holder(member)) == Balance(l.rows, Holder(member)) + amount
  {
    Append(l.rows, RewardRow(task, member, amount, entry, false));
    assert Step(l, DoReward(task, member, amount, entry, false)) == Reward(l, task, member, amount, entry, false);
  }

  /** A member who can pay places an order without a key. */
  lemma OrderStep(l: Ledger, member: string, amount: int, d: OrderDetails, u: string)
    requires Frozen in l.pools && 0 < amount <= Balance(l.rows, Holder(member)) && FreshUid(l, u) && d.merchant == None
    ensures var t := ConsumeRow(member, amount, FreezeKey(RandomId(u)), RandomId(u));
            && Step(l, DoCreate(member, amount, d, None, None, u)).0 ==
               Ledger(l.rows + [t], l.orders + [Order(RandomId(u), member, amount, Pending, d)], l.pools)
            && Balance(l.rows + [t], Holder(member)) == Balance(l.rows, Holder(member)) - amount
  {
    Append(l.rows, ConsumeRow(member, amount, FreezeKey(RandomId(u)), RandomId(u)));
    assert d.(merchant := None) == d;
    assert Step(l, DoCreate(member, amount, d, None, None, u)) == CreateOrder(l, member, amount, d, None, None, u);
  }

  // ----- one reversal key for two rows

  function IssueOnce(amount: int): seq<Command> {
    [] + [DoEnsureAccounts] + [DoIssue(amount, None)]
  }

  function IssuedBooks(amount: int): Ledger {
    Ledger([] + [IssuedRow(amount)], [], SystemPools)
  }

  lemma IssuedOnce(amount: int)
    requires amount > 0
    ensures Run(EmptyLedger, IssueOnce(amount)) == IssuedBooks(amount)
    ensures Balance(IssuedBooks(amount).rows, IssuancePool) == amount
  {
    var ready := Ledger([], [], SystemPools);
    assert {} + SystemPools == SystemPools;
    Then([], EmptyLedger, DoEnsureAccounts, ready);
    IssueStep(ready, amount);
    Then([] + [DoEnsureAccounts], ready, DoIssue(amount, None), IssuedBooks(amount));
  }

  /**
   * The same amount is issued twice and both rows are reversed under one key: both calls succeed, but only one amount is
   * taken back, and the first row counts as not reversed again.
   */
  lemma SharedReversalKeyRun(amount: int, key: Option<string>)
    requires amount > 0 && NormaliseKey(key).Some?
    ensures var issued := Run(EmptyLedger, IssueOnce(amount) + [DoIssue(amount, None)]);
            var first := Reverse(issued, 0, key);
            var second := Reverse(first.0, 1, key);
            && |issued.rows| == 2 && first.1.Posted? && second.1.Posted?
            && Balance(second.0.rows, IssuancePool) == amount
            && HasReversal(second.0.rows, 1) && !HasReversal(second.0.rows, 0)
  {
    var once := IssuedBooks(amount);
    IssuedOnce(amount);
    IssueStep(once, amount);
    var issued := once.(rows := once.rows + [IssuedRow(amount)]);
    Then(IssueOnce(amount), once, DoIssue(amount, None), issued);
    RunKeepsWell(EmptyLedger, IssueOnce(amount) + [DoIssue(amount, None)]);
    EqualRowsReversed(issued, amount, key);
  }

  lemma EqualRowsReversed(issued: Ledger, amount: int, key: Option<string>)
    requires WellKept(issued) && |issued.rows| == 2 && NormaliseKey(key).Some?
    requires issued.rows[0] == issued.rows[1] == IssuedRow(amount)
    requires Balance(issued.rows, IssuancePool) == 2 * amount
    ensures var first := Reverse(issued, 0, key);
            var second := Reverse(first.0, 1, key);
            && first.1.Posted? && second.1.Posted? && Balance(second.0.rows, IssuancePool) == amount
            && HasReversal(second.0.rows, 1) && !HasReversal(second.0.rows, 0)
  {
    forall i | 0 <= i < |issued.rows| ensures issued.rows[i].key == None && issued.rows[i].reverses == None {
      assert i == 0 || i == 1;
    }
    assert !HasReversal(issued.rows, 0) && !HasReversal(issued.rows, 1) && KeyUnused(issued.rows, key);
    SharedReversalKeyFails(issued, 0, 1, key);
    assert Reverse(issued, 0, key).1.Posted? by { ReverseAppends(issued, 0, key); }
    ReversalUndoesIffKeyUnused(issued, 0, key);
    assert Delta(issued.rows[0], IssuancePool) == amount;
  }

  // ----- a reversed lock

  function LockAll(amount: int, task: string): seq<Command> {
    IssueOnce(amount) + [DoLock(task, amount, None)]
  }

  function LockedBooks(amount: int, task: string): Ledger {
    IssuedBooks(amount).(rows := IssuedBooks(amount).rows + [LockRow(task, amount, None)])
  }

  lemma LockedAll(amount: int, task: string)
    requires amount > 0
    ensures Run(EmptyLedger, LockAll(amount, task)) == LockedBooks(amount, task)
    ensures Balance(LockedBooks(amount, task).rows, TaskLocked) == amount
    ensures TaskBalance(LockedBooks(amount, task).rows, task) == amount
  {
    IssuedOnce(amount);
    Append([], IssuedRow(amount));
    LockStep(IssuedBooks(amount), task, amount);
    Then(IssueOnce(amount), IssuedBooks(amount), DoLock(task, amount, None), LockedBooks(amount, task));
  }

  /** A budget is locked and the lock reversed: TASK_LOCKED is empty, but its task still shows its budget. */
  lemma ReversedLockRun(amount: int, task: string)
    requires amount > 0
    ensures var rows := Run(EmptyLedger, LockAll(amount, task) + [DoReverse(1, None)]).rows;
            Balance(rows, TaskLocked) == 0 && TaskBalance(rows, task) == amount
  {
    var cs := LockAll(amount, task);
    LockedAll(amount, task);
    LockedShape(amount, task);
    ReverseLastLock(cs, LockedBooks(amount, task), amount, task);
  }

  lemma ReverseLastLock(cs: seq<Command>, l: Ledger, amount: int, task: string)
    requires Run(EmptyLedger, cs) == l && |l.rows| == 2 && l.rows[1] == LockRow(task, amount, None)
    requires !HasReversal(l.rows, 1)
    ensures var rows := Run(EmptyLedger, cs + [DoReverse(1, None)]).rows;
            && Balance(rows, TaskLocked) == Balance(l.rows, TaskLocked) - amount
            && TaskBalance(rows, task) == TaskBalance(l.rows, task)
  {
    RunKeepsWell(EmptyLedger, cs);
    LockReversed(l, amount, task);
    Then(cs, l, DoReverse(1, None), Reverse(l, 1, None).0);
  }

  lemma LockedShape(amount: int, task: string)
    ensures var rows := LockedBooks(amount, task).rows;
            |rows| == 2 && rows[1] == LockRow(task, amount, None) && !HasReversal(rows, 1)
  {
  }

  lemma LockReversed(l: Ledger, amount: int, task: string)
    requires WellKept(l) && |l.rows| == 2 && l.rows[1] == LockRow(task, amount, None) && !HasReversal(l.rows, 1)
    ensures var rows := Reverse(l, 1, None).0.rows;
            && Balance(rows, TaskLocked) == Balance(l.rows, TaskLocked) - amount
            && TaskBalance(rows, task) == TaskBalance(l.rows, task)
  {
    ReverseAppends(l, 1, None);
    Append(l.rows, ReversalRow(l.rows[1], None).(reverses := Some(1)));
  }

  // ----- one cancel key for two orders

  function EarnAll(member: string, amount: int, task: string, entry: string): seq<Command> {
    LockAll(amount, task) + [DoReward(task, member, amount, entry, false)]
  }

  /** A member earns two amounts and places two orders of one amount each. */
  function TwoOrders(member: string, amount: int, task: string, entry: string, d: OrderDetails, u: string, v: string)
    : seq<Command>
  {
    EarnAll(member, 2 * amount, task, entry) + [DoCreate(member, amount, d, None, None, u)] +
    [DoCreate(member, amount, d, None, None, v)]
  }

  function EarnedBooks(member: string, amount: int, task: string, entry: string): Ledger {
    LockedBooks(amount, task).(rows := LockedBooks(amount, task).rows + [RewardRow(task, member, amount, entry, false)])
  }

  /** No row has a key outside the set. */
  ghost predicate KeysWithin(rows: seq<Row>, keys: set<string>) {
    forall r :: r in rows ==> r.key.None? || r.key.value in keys
  }

  lemma NoOtherKey(rows: seq<Row>, keys: set<string>, key: string)
    requires KeysWithin(rows, keys) && key !in keys
    ensures FindKey(rows, key).None?
  {
    forall i | 0 <= i < |rows| ensures rows[i].key != Some(key) {
      assert rows[i] in rows;
    }
  }

  lemma EarnedAll(member: string, amount: int, task: string, entry: string)
    requires amount > 0
    ensures Run(EmptyLedger, EarnAll(member, amount, task, entry)) == EarnedBooks(member, amount, task, entry)
    ensures Balance(EarnedBooks(member, amount, task, entry).rows, Holder(member)) == amount
    ensures KeysWithin(EarnedBooks(member, amount, task, entry).rows, {RewardKey(entry)})
  {
    LockedAll(amount, task);
    LockedIsPlain(amount, task, member);
    RewardAfter(LockAll(amount, task), LockedBooks(amount, task), member, amount, task, entry);
  }

  lemma RewardAfter(cs: seq<Command>, l: Ledger, member: string, amount: int, task: string, entry: string)
    requires Run(EmptyLedger, cs) == l && SystemPools <= l.pools && KeysWithin(l.rows, {})
    requires 0 < amount <= TaskBalance(l.rows, task) && Balance(l.rows, Holder(member)) == 0
    ensures var rows := l.rows + [RewardRow(task, member, amount, entry, false)];
            && Run(EmptyLedger, cs + [DoReward(task, member, amount, entry, false)]) == l.(rows := rows)
            && Balance(rows, Holder(member)) == amount && KeysWithin(rows, {RewardKey(entry)})
  {
    NoOtherKey(l.rows, {}, RewardKey(entry));
    RewardStep(l, task, member, amount, entry);
    Then(cs, l, DoReward(task, member, amount, entry, false),
         l.(rows := l.rows + [RewardRow(task, member, amount, entry, false)]));
  }

  /** No row has a key and none touches the member. */
  ghost predicate PlainFor(rows: seq<Row>, member: string) {
    KeysWithin(rows, {}) && Balance(rows, Holder(member)) == 0
  }

  lemma PlainMore(rows: seq<Row>, t: Row, member: string)
    requires PlainFor(rows, member) && t.key == None && Delta(t, Holder(member)) == 0
    ensures PlainFor(rows + [t], member)
  {
    Append(rows, t);
  }

  lemma LockedIsPlain(amount: int, task: string, member: string)
    ensures PlainFor(LockedBooks(amount, task).rows, member)
  {
    PlainMore([], IssuedRow(amount), member);
    PlainMore(IssuedBooks(amount).rows, LockRow(task, amount, None), member);
  }

  lemma FreezeKeysDiffer(u: string, v: string, entry: string)
    ensures u != v ==> FreezeKey(RandomId(u)) != FreezeKey(RandomId(v))
    ensures FreezeKey(RandomId(u)) != RewardKey(entry)
  {
    DropPrefix("redemption-freeze:", OrderText(RandomId(u)));
    DropPrefix("redemption-freeze:", OrderText(RandomId(v)));
    assert OrderText(RandomId(u))[4..] == u && OrderText(RandomId(v))[4..] == v;
    assert FreezeKey(RandomId(u))[0] == 'r' && RewardKey(entry)[0] == 't';
  }

  function WithOrder(l: Ledger, member: string, amount: int, d: OrderDetails, u: string): Ledger {
    Ledger(l.rows + [ConsumeRow(member, amount, FreezeKey(RandomId(u)), RandomId(u))],
           l.orders + [Order(RandomId(u), member, amount, Pending, d)], l.pools)
  }

  /** One more order after a run: it is new because its id is. */
  lemma OrderAfter(cs: seq<Command>, l: Ledger, keys: set<string>, member: string, amount: int, d: OrderDetails, u: string)
    requires Run(EmptyLedger, cs) == l && KeysWithin(l.rows, keys) && FreezeKey(RandomId(u)) !in keys
    requires forall i :: 0 <= i < |l.orders| ==> l.orders[i].id != RandomId(u)
    requires Frozen in l.pools && 0 < amount <= Balance(l.rows, Holder(member)) && d.merchant == None
    ensures var after := WithOrder(l, member, amount, d, u);
            && FreshUid(l, u)
            && Run(EmptyLedger, cs + [DoCreate(member, amount, d, None, None, u)]) == after
            && KeysWithin(after.rows, keys + {FreezeKey(RandomId(u))})
            && Balance(after.rows, Holder(member)) == Balance(l.rows, Holder(member)) - amount
  {
    NoOtherKey(l.rows, keys, FreezeKey(RandomId(u)));
    OrderStep(l, member, amount, d, u);
    Then(cs, l, DoCreate(member, amount, d, None, None, u), WithOrder(l, member, amount, d, u));
  }

  lemma EarnedIsKept(member: string, amount: int, task: string, entry: string)
    ensures FrozenKept(Run(EmptyLedger, EarnAll(member, amount, task, entry)))
  {
    DefaultKeysKeepFrozen(EarnAll(member, amount, task, entry));
  }

  lemma OrderIsKept(l: Ledger, member: string, amount: int, d: OrderDetails, u: string)
    requires FrozenKept(l) && FreshUid(l, u) && Frozen in l.pools && 0 < amount <= Balance(l.rows, Holder(member))
    requires d.merchant == None
    ensures FrozenKept(WithOrder(l, member, amount, d, u))
  {
    OrderStep(l, member, amount, d, u);
    CreateKeepsFrozen(l, DoCreate(member, amount, d, None, None, u));
  }

  lemma PlacedOne(member: string, amount: int, task: string, entry: string, d: OrderDetails, u: string) returns (l: Ledger)
    requires amount > 0 && d.merchant == None
    ensures Run(EmptyLedger, EarnAll(member, 2 * amount, task, entry) + [DoCreate(member, amount, d, None, None, u)]) == l
    ensures FrozenKept(l) && Frozen in l.pools && Balance(l.rows, Holder(member)) == amount
    ensures l.orders == [] + [Order(RandomId(u), member, amount, Pending, d)]
    ensures KeysWithin(l.rows, {RewardKey(entry), FreezeKey(RandomId(u))})
  {
    var cs, earned := EarnAll(member, 2 * amount, task, entry), EarnedBooks(member, 2 * amount, task, entry);
    EarnedAll(member, 2 * amount, task, entry);
    EarnedIsKept(member, 2 * amount, task, entry);
    FreezeKeysDiffer(u, u, entry);
    OrderAfter(cs, earned, {RewardKey(entry)}, member, amount, d, u);
    OrderIsKept(earned, member, amount, d, u);
    l := WithOrder(earned, member, amount, d, u);
  }

  /** The books after the two orders: both are open, and no key but the reward's and the freezes' is in use. */
  lemma PlacedTwo(member: string, amount: int, task: string, entry: string, d: OrderDetails, u: string, v: string)
    returns (l: Ledger)
    requires amount > 0 && u != v && d.merchant == None
    ensures l == Run(EmptyLedger, TwoOrders(member, amount, task, entry, d, u, v)) && FrozenKept(l) && Frozen in l.pools
    ensures l.orders == [] + [Order(RandomId(u), member, amount, Pending, d)] + [Order(RandomId(v), member, amount, Pending, d)]
    ensures KeysWithin(l.rows, {RewardKey(entry), FreezeKey(RandomId(u)), FreezeKey(RandomId(v))})
  {
    var cs := EarnAll(member, 2 * amount, task, entry) + [DoCreate(member, amount, d, None, None, u)];
    var one := PlacedOne(member, amount, task, entry, d, u);
    FreezeKeysDiffer(v, u, entry);
    OrderAfter(cs, one, {RewardKey(entry), FreezeKey(RandomId(u))}, member, amount, d, v);
    OrderIsKept(one, member, amount, d, v);
    l := WithOrder(one, member, amount, d, v);
  }

  /**
   * Both orders are cancelled under one key of the caller's: both calls succeed, but the second returns nothing, and the
   * amount stays frozen although no order is open.
   */
  lemma SharedCancelKeyRun(member: string, amount: int, task: string, entry: string, d: OrderDetails, u: string, v: string,
                           key: Option<string>)
    requires amount > 0 && u != v && d.merchant == None && NormaliseKey(key).Some?
    requires NormaliseKey(key).value !in {RewardKey(entry), FreezeKey(RandomId(u)), FreezeKey(RandomId(v))}
    ensures var l := Run(EmptyLedger, TwoOrders(member, amount, task, entry, d, u, v));
            var first := CancelOrder(l, 0, key);
            var second := CancelOrder(first.0, 1, key);
            && first.1 == Touched(0) && second.1 == Touched(1)
            && OpenTotal(second.0.orders) == 0 && Balance(second.0.rows, Frozen) == amount
  {
    var l := PlacedTwo(member, amount, task, entry, d, u, v);
    NoOtherKey(l.rows, {RewardKey(entry), FreezeKey(RandomId(u)), FreezeKey(RandomId(v))}, NormaliseKey(key).value);
    CancelBoth(l, key, amount);
  }

  lemma CancelBoth(l: Ledger, key: Option<string>, amount: int)
    requires FrozenKept(l) && Frozen in l.pools && |l.orders| == 2 && Open(l.orders[0]) && Open(l.orders[1])
    requires l.orders[0].member == l.orders[1].member && l.orders[0].amount == l.orders[1].amount == amount
    requires NormaliseKey(key).Some? && KeyUnused(l.rows, key)
    ensures var first := CancelOrder(l, 0, key);
            var second := CancelOrder(first.0, 1, key);
            && first.1 == Touched(0) && second.1 == Touched(1)
            && OpenTotal(second.0.orders) == 0 && Balance(second.0.rows, Frozen) == amount
  {
    var t, first := UnfreezeRow(l.orders[0], key), CancelOrder(l, 0, key).0;
    FirstCancelled(l, key);
    TotalOfTwo(l.orders);
    FrozenAfter(l.rows, t);
    SharedCancelKeyFails(l, 0, 1, key);
    OpenTotalUpdate(first.orders, 1, first.orders[1].(status := Cancelled));
  }

  lemma FirstCancelled(l: Ledger, key: Option<string>)
    requires OrdersKept(l) && Frozen in l.pools && |l.orders| == 2 && Open(l.orders[0])
    requires NormaliseKey(key).Some? && KeyUnused(l.rows, key)
    ensures CancelOrder(l, 0, key) ==
            (Ledger(l.rows + [UnfreezeRow(l.orders[0], key)], l.orders[0 := l.orders[0].(status := Cancelled)], l.pools),
             Touched(0))
    ensures OpenTotal(l.orders[0 := l.orders[0].(status := Cancelled)]) == OpenTotal(l.orders) - l.orders[0].amount
  {
    assert l.orders[0] in l.orders;
    OpenTotalUpdate(l.orders, 0, l.orders[0].(status := Cancelled));
  }

  lemma TotalOfTwo(orders: seq<Order>)
    requires |orders| == 2 && Open(orders[0]) && Open(orders[1])
    ensures OpenTotal(orders) == orders[0].amount + orders[1].amount
  {
    assert orders[..1] == [] + [orders[0]];
    assert orders == orders[..1] + [orders[1]];
    OpenTotalAppend([], orders[0]);
    OpenTotalAppend(orders[..1], orders[1]);
  }
}
