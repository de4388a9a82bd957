/** What every run of the credit services keeps: keys, reversals, replay and task budgets. */
module CreditRuns {
  import opened Common
  import opened CreditLedger
  import opened CreditConservation

  // ----- what holds after every run, corrections and reversals included

  ghost predicate KeysDistinct(rows: seq<Row>) {
    forall i, j :: 0 <= i < j < |rows| && rows[i].key.Some? ==> rows[i].key != rows[j].key
  }

  ghost predicate OneReversalEach(rows: seq<Row>) {
    forall i, j :: 0 <= i < j < |rows| && rows[i].reverses.Some? ==> rows[i].reverses != rows[j].reverses
  }

  ghost predicate LinksWithin(rows: seq<Row>) {
    forall i :: 0 <= i < |rows| && rows[i].reverses.Some? ==> rows[i].reverses.value < |rows|
  }

  /** A posted movement has a positive amount, two different ends, and the references its kind implies. */
  predicate Sound(r: Row) {
    && r.amount > 0
    && r.source != r.target
    && (r.kind == TaskReward ==> (r.genesis <==> r.source == Some(IssuancePool)))
    && (r.kind == Lock || r.kind == Unlock ==> r.entry == None)
    && (r.kind == Transfer ==> r.entry == None && r.task == None)
  }

  ghost predicate WellKept(l: Ledger) {
    && KeysDistinct(l.rows) && OneReversalEach(l.rows) && LinksWithin(l.rows)
    && forall r :: r in l.rows ==> Sound(r)
  }

  lemma FindKeyUnique(rows: seq<Row>, i: nat)
    requires KeysDistinct(rows) && i < |rows| && rows[i].key.Some?
    ensures FindKey(rows, rows[i].key.value) == Some(i)
  {
  }

  // ----- what one service call can do to the rows

  /** The row the call asks for; account set-up, reversals and issue reports are treated on their own. */
  function Requested(l: Ledger, c: Command): Option<Row> {
    match c
    case DoIssue(amount, key) =>
      Some(Movement(Issuance, None, Some(IssuancePool), amount, NormaliseKey(key)))
    case DoLock(task, amount, key) => Some(LockRow(task, amount, NormaliseKey(key)))
    case DoUnlock(task, amount, key) => Some(UnlockRow(task, amount, NormaliseKey(key)))
    case DoReward(task, member, amount, entry, genesis) => Some(RewardRow(task, member, amount, entry, genesis))
    case DoTransfer(from, to, amount, key) => Some(TransferRow(from, to, amount, NormaliseKey(key)))
    case DoDeduct(member, amount, key) =>
      Some(Movement(Correction, Some(Holder(member)), Some(Burn), amount, NormaliseKey(key)))
    case DoCreate(member, amount, _, _, key, uid) =>
      var id := NewOrderId(key, uid);
      Some(ConsumeRow(member, amount, ClosingKey(key, FreezeKey(id)), id))
    case DoCancel(order, key) => if order < |l.orders| then Some(UnfreezeRow(l.orders[order], key)) else None
    case DoFulfill(order, key, _) => if order < |l.orders| then Some(BurnRow(l.orders[order], key)) else None
    case _ => None
  }

  function NewOrderId(rawKey: Option<string>, uid: string): OrderId {
    var key := NormaliseKey(rawKey);
    if key.Some? then DigestId(key.value) else RandomId(uid)
  }

  /** The balance check the call must have passed before it posts. */
  predicate Funded(l: Ledger, c: Command) {
    match c
    case DoLock(_, amount, _) => amount <= Balance(l.rows, IssuancePool)
    case DoUnlock(task, amount, _) => amount <= TaskBalance(l.rows, task)
    case DoReward(task, _, amount, _, genesis) => genesis || amount <= TaskBalance(l.rows, task)
    case DoTransfer(from, to, amount, _) => from != to && amount <= Balance(l.rows, Holder(from))
    case DoCreate(member, amount, _, _, _, _) => amount <= Balance(l.rows, Holder(member))
    case DoCancel(order, _) => order < |l.orders| && Open(l.orders[order])
    case DoFulfill(order, _, _) => order < |l.orders| && Open(l.orders[order])
    case _ => true
  }

  predicate PostsAsNew(l: Ledger, t: Row) {
    t.amount > 0 && (t.key.Some? ==> FindKey(l.rows, t.key.value).None?)
  }

  /** The tables after a call: the rows are as before, or the one requested row was appended with its funds present. */
  predicate Posts(l: Ledger, after: Ledger, t: Row, funded: bool) {
    && after.pools == l.pools
    && (after.rows == l.rows || (funded && PostsAsNew(l, t) && after.rows == l.rows + [t]))
  }

  lemma PostPosts(l: Ledger, t: Row)
    ensures Posts(l, Post(l, t).0, t, true) && Post(l, t).0.orders == l.orders
  {
  }

  lemma LockPosts(l: Ledger, task: string, amount: int, key: Option<string>)
    ensures Posts(l, LockBudget(l, task, amount, key).0, LockRow(task, amount, NormaliseKey(key)),
                  amount <= Balance(l.rows, IssuancePool))
    ensures LockBudget(l, task, amount, key).0.orders == l.orders
  {
    PostPosts(l, LockRow(task, amount, NormaliseKey(key)));
  }

  lemma UnlockPosts(l: Ledger, task: string, amount: int, key: Option<string>)
    ensures Posts(l, UnlockBudget(l, task, amount, key).0, UnlockRow(task, amount, NormaliseKey(key)),
                  amount <= TaskBalance(l.rows, task))
    ensures UnlockBudget(l, task, amount, key).0.orders == l.orders
  {
    PostPosts(l, UnlockRow(task, amount, NormaliseKey(key)));
  }

  lemma RewardPosts(l: Ledger, task: string, member: string, amount: int, entry: string, genesis: bool)
    ensures Posts(l, Reward(l, task, member, amount, entry, genesis).0, RewardRow(task, member, amount, entry, genesis),
                  genesis || amount <= TaskBalance(l.rows, task))
    ensures Reward(l, task, member, amount, entry, genesis).0.orders == l.orders
  {
    PostPosts(l, RewardRow(task, member, amount, entry, genesis));
  }

  lemma TransferPosts(l: Ledger, from: string, to: string, amount: int, key: Option<string>)
    ensures Posts(l, TransferCredits(l, from, to, amount, key).0, TransferRow(from, to, amount, NormaliseKey(key)),
                  from != to && amount <= Balance(l.rows, Holder(from)))
    ensures TransferCredits(l, from, to, amount, key).0.orders == l.orders
  {
    PostPosts(l, TransferRow(from, to, amount, NormaliseKey(key)));
  }

  lemma PlacePosts(l: Ledger, member: string, amount: int, details: OrderDetails, id: OrderId, key: string)
    ensures Posts(l, PlaceOrder(l, member, amount, details, id, key).0, ConsumeRow(member, amount, key, id), true)
  {
    PostPosts(l, ConsumeRow(member, amount, key, id));
  }

  lemma CreateCases(l: Ledger, member: string, amount: int, details: OrderDetails, merchant: Option<Merchant>,
                    key: Option<string>, uid: string)
    requires details.merchant == if merchant.Some? then Some(merchant.value.id) else None
    ensures var id := NewOrderId(key, uid);
            var result := CreateOrder(l, member, amount, details, merchant, key, uid);
            || result.0 == l
            || (&& amount <= Balance(l.rows, Holder(member))
                && result == PlaceOrder(l, member, amount, details, id, ClosingKey(key, FreezeKey(id))))
  {
  }

  lemma CreatePosts(l: Ledger, member: string, amount: int, details: OrderDetails, merchant: Option<Merchant>,
                    key: Option<string>, uid: string)
    requires details.merchant == if merchant.Some? then Some(merchant.value.id) else None
    ensures var id := NewOrderId(key, uid);
            Posts(l, CreateOrder(l, member, amount, details, merchant, key, uid).0,
                  ConsumeRow(member, amount, ClosingKey(key, FreezeKey(id)), id),
                  amount <= Balance(l.rows, Holder(member)))
  {
    var id := NewOrderId(key, uid);
    CreateCases(l, member, amount, details, merchant, key, uid);
    PlacePosts(l, member, amount, details, id, ClosingKey(key, FreezeKey(id)));
  }

  lemma ClosePosts(l: Ledger, index: nat, t: Row, status: OrderStatus)
    requires index < |l.orders|
    ensures Posts(l, CloseOrder(l, index, t, status).0, t, true)
  {
    PostPosts(l, t);
  }

  /** The call leaves the rows alone or appends the one row it asks for, funded and under a new key. */
  predicate PostsRequested(l: Ledger, c: Command, after: Ledger) {
    && l.pools <= after.pools
    && (|| after.rows == l.rows
        || (&& Requested(l, c).Some? && Funded(l, c) && PostsAsNew(l, Requested(l, c).value)
            && after.rows == l.rows + [Requested(l, c).value]))
  }

  lemma StepPosts(l: Ledger, c: Command)
    requires !c.DoReverse?
    ensures PostsRequested(l, c, Step(l, c).0)
  {
    match c
    case DoEnsureAccounts => assert Step(l, c) == EnsureAccounts(l);
    case DoIssue(amount, key) =>
      assert Step(l, c) == Issue(l, amount, key);
      PostPosts(l, Movement(Issuance, None, Some(IssuancePool), amount, NormaliseKey(key)));
    case DoLock(task, amount, key) =>
      assert Step(l, c) == LockBudget(l, task, amount, key);
      LockPosts(l, task, amount, key);
    case DoUnlock(task, amount, key) =>
      assert Step(l, c) == UnlockBudget(l, task, amount, key);
      UnlockPosts(l, task, amount, key);
    case DoReward(task, member, amount, entry, genesis) =>
      assert Step(l, c) == Reward(l, task, member, amount, entry, genesis);
      RewardPosts(l, task, member, amount, entry, genesis);
    case DoTransfer(from, to, amount, key) =>
      assert Step(l, c) == TransferCredits(l, from, to, amount, key);
      TransferPosts(l, from, to, amount, key);
    case DoDeduct(member, amount, key) =>
      assert Step(l, c) == Deduct(l, member, amount, key);
      PostPosts(l, Movement(Correction, Some(Holder(member)), Some(Burn), amount, NormaliseKey(key)));
    case DoCreate(member, amount, details, merchant, key, uid) =>
      assert Step(l, c) == CreateOrder(l, member, amount, DetailsOf(c), merchant, key, uid);
      CreatePosts(l, member, amount, DetailsOf(c), merchant, key, uid);
    case DoCancel(order, key) => CancelPosts(l, c);
    case DoFulfill(order, key, rateMissing) => FulfillPosts(l, c);
    case DoReport(order) => assert Step(l, c) == ReportIssue(l, order);
  }

  lemma CancelPosts(l: Ledger, c: Command)
    requires c.DoCancel?
    ensures PostsRequested(l, c, Step(l, c).0)
  {
    assert Step(l, c) == CancelOrder(l, c.order, c.key);
    if c.order < |l.orders| {
      ClosePosts(l, c.order, UnfreezeRow(l.orders[c.order], c.key), Cancelled);
    }
  }

  lemma FulfillPosts(l: Ledger, c: Command)
    requires c.DoFulfill?
    ensures PostsRequested(l, c, Step(l, c).0)
  {
    assert Step(l, c) == FulfillOrder(l, c.order, c.key, c.rateMissing);
    if c.order < |l.orders| {
      ClosePosts(l, c.order, BurnRow(l.orders[c.order], c.key), Fulfilled);
    }
  }

  function DetailsOf(c: Command): OrderDetails
    requires c.DoCreate?
  {
    c.details.(merchant := if c.merchant.Some? then Some(c.merchant.value.id) else None)
  }

  lemma RequestedIsSound(l: Ledger, c: Command)
    requires Requested(l, c).Some? && Funded(l, c) && Requested(l, c).value.amount > 0
    ensures Sound(Requested(l, c).value) && TaskShaped(Requested(l, c).value)
    ensures Requested(l, c).value.reverses == None
  {
  }

  lemma AppendKeepsWell(l: Ledger, t: Row)
    requires WellKept(l) && t.reverses == None && Sound(t) && PostsAsNew(l, t)
    ensures WellKept(l.(rows := l.rows + [t]))
  {
    var rows := l.rows + [t];
    assert forall i :: 0 <= i < |l.rows| ==> rows[i] == l.rows[i];
  }

  lemma StepKeepsWell(l: Ledger, c: Command)
    requires WellKept(l)
    ensures WellKept(Step(l, c).0)
  {
    if c.DoReverse? {
      ReverseKeepsWell(l, c.original, c.key);
    } else {
      StepPosts(l, c);
      if Step(l, c).0.rows != l.rows {
        RequestedIsSound(l, c);
        AppendKeepsWell(l, Requested(l, c).value);
      }
    }
  }

  lemma ReverseKeepsWell(l: Ledger, original: nat, key: Option<string>)
    requires WellKept(l)
    ensures WellKept(Reverse(l, original, key).0)
  {
    if original < |l.rows| && !HasReversal(l.rows, original) {
      assert l.rows[original] in l.rows;
      var t := ReversalRow(l.rows[original], NormaliseKey(key));
      var (posted, outcome) := Post(l, t);
      if outcome.Posted? {
        if posted.rows != l.rows {
          AppendKeepsWell(l, t);
        }
        LinkKeepsWell(posted, outcome.row, original);
      }
    }
  }

  lemma LinkKeepsWell(l: Ledger, i: nat, original: nat)
    requires WellKept(l) && i < |l.rows| && original < |l.rows| && !HasReversal(l.rows, original)
    ensures WellKept(l.(rows := l.rows[i := l.rows[i].(reverses := Some(original))]))
  {
    var rows := l.rows[i := l.rows[i].(reverses := Some(original))];
    assert l.rows[i] in l.rows;
    forall r | r in rows ensures Sound(r) {
      var k :| 0 <= k < |rows| && rows[k] == r;
      assert l.rows[k] in l.rows;
    }
  }

  /** Rows are never removed or rewritten: later ledgers differ on old rows in the reversal link alone. */
  ghost predicate Extends(l: Ledger, later: Ledger) {
    && |l.rows| <= |later.rows|
    && (forall i :: 0 <= i < |l.rows| ==> SameMoney(l.rows[i], later.rows[i]))
    && l.pools <= later.pools
  }

  lemma StepExtends(l: Ledger, c: Command)
    ensures Extends(l, Step(l, c).0)
  {
    if !c.DoReverse? {
      StepPosts(l, c);
    }
  }

  /** In every run the non-null keys stay pairwise distinct and no row is reversed twice. */
  lemma {:induction false} RunKeepsWell(l: Ledger, cs: seq<Command>)
    requires WellKept(l)
    ensures WellKept(Run(l, cs)) && Extends(l, Run(l, cs))
  {
    if cs != [] {
      var before := Run(l, cs[..|cs| - 1]);
      RunKeepsWell(l, cs[..|cs| - 1]);
      StepKeepsWell(before, cs[|cs| - 1]);
      StepExtends(before, cs[|cs| - 1]);
    }
  }

  // ----- what a posted call moves

  /** The documented flow of each service: from which account to which. */
  function Route(l: Ledger, c: Command): Option<(Option<Account>, Option<Account>)> {
    match c
    case DoIssue(_, _) => Some((None, Some(IssuancePool)))
    case DoLock(_, _, _) => Some((Some(IssuancePool), Some(TaskLocked)))
    case DoUnlock(_, _, _) => Some((Some(TaskLocked), Some(IssuancePool)))
    case DoReward(_, member, _, _, genesis) =>
      Some((Some(if genesis then IssuancePool else TaskLocked), Some(Holder(member))))
    case DoTransfer(from, to, _, _) => Some((Some(Holder(from)), Some(Holder(to))))
    case DoDeduct(member, _, _) => Some((Some(Holder(member)), Some(Burn)))
    case DoCreate(member, _, _, _, _, _) => Some((Some(Holder(member)), Some(Frozen)))
    case DoCancel(i, _) => if i < |l.orders| then Some((Some(Frozen), Some(Holder(l.orders[i].member)))) else None
    case DoFulfill(i, _, _) => if i < |l.orders| then Some((Some(Frozen), Some(Burn))) else None
    case _ => None
  }

  function AmountOf(l: Ledger, c: Command): int {
    match c
    case DoIssue(amount, _) => amount
    case DoLock(_, amount, _) => amount
    case DoUnlock(_, amount, _) => amount
    case DoReward(_, _, amount, _, _) => amount
    case DoTransfer(_, _, amount, _) => amount
    case DoDeduct(_, amount, _) => amount
    case DoCreate(_, amount, _, _, _, _) => amount
    case DoCancel(i, _) => if i < |l.orders| then l.orders[i].amount else 0
    case DoFulfill(i, _, _) => if i < |l.orders| then l.orders[i].amount else 0
    case _ => 0
  }

  /** The locked budget a call adds to or takes from its own task. */
  function BudgetChange(c: Command, task: string): int {
    match c
    case DoLock(t, amount, _) => if t == task then amount else 0
    case DoUnlock(t, amount, _) => if t == task then -amount else 0
    case DoReward(t, _, amount, _, genesis) => if t == task && !genesis then -amount else 0
    case _ => 0
  }

  /** A call that posts moves its amount along its route, changes its own budget, and touches no other balance. */
  lemma PostedCallMoves(l: Ledger, c: Command)
    requires !c.DoReverse? && Step(l, c).0.rows != l.rows
    ensures Route(l, c).Some? && AmountOf(l, c) > 0
    ensures forall a :: Balance(Step(l, c).0.rows, a) == Balance(l.rows, a)
                + (if Route(l, c).value.1 == Some(a) then AmountOf(l, c) else 0)
                - (if Route(l, c).value.0 == Some(a) then AmountOf(l, c) else 0)
    ensures forall t :: TaskBalance(Step(l, c).0.rows, t) == TaskBalance(l.rows, t) + BudgetChange(c, t)
  {
    StepPosts(l, c);
    var t := Requested(l, c).value;
    Append(l.rows, t);
    RequestFollowsRoute(l, c);
  }

  lemma RequestFollowsRoute(l: Ledger, c: Command)
    requires Requested(l, c).Some?
    ensures Route(l, c) == Some((Requested(l, c).value.source, Requested(l, c).value.target))
    ensures AmountOf(l, c) == Requested(l, c).value.amount
    ensures forall t :: TaskDelta(Requested(l, c).value, t) == BudgetChange(c, t)
  {
  }

  // ----- keyed replay

  /** The row a keyed lock, unlock, transfer or task reward asks for. */
  function KeyedRow(c: Command): Option<Row> {
    match c
    case DoLock(task, amount, key) =>
      if NormaliseKey(key).Some? then Some(LockRow(task, amount, NormaliseKey(key))) else None
    case DoUnlock(task, amount, key) =>
      if NormaliseKey(key).Some? then Some(UnlockRow(task, amount, NormaliseKey(key))) else None
    case DoTransfer(from, to, amount, key) =>
      if NormaliseKey(key).Some? then Some(TransferRow(from, to, amount, NormaliseKey(key))) else None
    case DoReward(task, member, amount, entry, genesis) => Some(RewardRow(task, member, amount, entry, genesis))
    case _ => None
  }

  predicate AccountsReady(l: Ledger, c: Command) {
    match c
    case DoLock(_, _, _) => IssuancePool in l.pools && TaskLocked in l.pools
    case DoUnlock(_, _, _) => IssuancePool in l.pools && TaskLocked in l.pools
    case DoReward(_, _, _, _, genesis) => IssuancePool in l.pools && (!genesis ==> TaskLocked in l.pools)
    case _ => true
  }

  /** A key already in use decides the call: the same movement is returned, any other is refused. */
  lemma CallOnUsedKey(l: Ledger, c: Command, i: nat)
    requires WellKept(l) && KeyedRow(c).Some? && AccountsReady(l, c)
    requires i < |l.rows| && l.rows[i].key == KeyedRow(c).value.key
    ensures Step(l, c).0 == l
    ensures SameMovement(l.rows[i], KeyedRow(c).value) ==> Step(l, c).1 == Posted(i)
    ensures !SameMovement(l.rows[i], KeyedRow(c).value) ==> Step(l, c).1.Refused?
  {
    FindKeyUnique(l.rows, i);
    assert Sound(l.rows[i]) by { assert l.rows[i] in l.rows; }
    match c
    case DoLock(task, amount, key) => LockOnFoundKey(l, task, amount, key, i);
    case DoUnlock(task, amount, key) => UnlockOnFoundKey(l, task, amount, key, i);
    case DoTransfer(from, to, amount, key) => TransferOnFoundKey(l, from, to, amount, key, i);
    case DoReward(task, member, amount, entry, genesis) =>
      RewardOnFoundKey(l, task, member, amount, entry, genesis, i);
  }

  /** The outcome of a keyed call whose key is on row i. */
  predicate DecidedBy(l: Ledger, result: (Ledger, Outcome), i: nat, t: Row)
    requires i < |l.rows|
  {
    result.0 == l && if SameMovement(l.rows[i], t) then result.1 == Posted(i) else result.1.Refused?
  }

  lemma PostOnFoundKey(l: Ledger, t: Row, i: nat)
    requires i < |l.rows| && t.key.Some? && FindKey(l.rows, t.key.value) == Some(i) && Sound(l.rows[i])
    ensures DecidedBy(l, Post(l, t), i, t)
  {
  }

  lemma LockOnFoundKey(l: Ledger, task: string, amount: int, key: Option<string>, i: nat)
    requires IssuancePool in l.pools && TaskLocked in l.pools && i < |l.rows| && Sound(l.rows[i])
    requires NormaliseKey(key).Some? && FindKey(l.rows, NormaliseKey(key).value) == Some(i)
    ensures DecidedBy(l, LockBudget(l, task, amount, key), i, LockRow(task, amount, NormaliseKey(key)))
  {
    PostOnFoundKey(l, LockRow(task, amount, NormaliseKey(key)), i);
  }

  lemma UnlockOnFoundKey(l: Ledger, task: string, amount: int, key: Option<string>, i: nat)
    requires IssuancePool in l.pools && TaskLocked in l.pools && i < |l.rows| && Sound(l.rows[i])
    requires NormaliseKey(key).Some? && FindKey(l.rows, NormaliseKey(key).value) == Some(i)
    ensures DecidedBy(l, UnlockBudget(l, task, amount, key), i, UnlockRow(task, amount, NormaliseKey(key)))
  {
    PostOnFoundKey(l, UnlockRow(task, amount, NormaliseKey(key)), i);
  }

  lemma TransferOnFoundKey(l: Ledger, from: string, to: string, amount: int, key: Option<string>, i: nat)
    requires i < |l.rows| && Sound(l.rows[i])
    requires NormaliseKey(key).Some? && FindKey(l.rows, NormaliseKey(key).value) == Some(i)
    ensures DecidedBy(l, TransferCredits(l, from, to, amount, key), i, TransferRow(from, to, amount, NormaliseKey(key)))
  {
    PostOnFoundKey(l, TransferRow(from, to, amount, NormaliseKey(key)), i);
  }

  lemma RewardOnFoundKey(l: Ledger, task: string, member: string, amount: int, entry: string, genesis: bool, i: nat)
    requires IssuancePool in l.pools && (!genesis ==> TaskLocked in l.pools) && i < |l.rows| && Sound(l.rows[i])
    requires FindKey(l.rows, RewardKey(entry)) == Some(i)
    ensures DecidedBy(l, Reward(l, task, member, amount, entry, genesis), i,
                      RewardRow(task, member, amount, entry, genesis))
  {
    PostOnFoundKey(l, RewardRow(task, member, amount, entry, genesis), i);
  }

  /** The row a successful call reports is in the table, under the key, with the requested movement. */
  predicate Recorded(after: Ledger, outcome: Outcome, t: Row) {
    && outcome.Posted? && outcome.row < |after.rows|
    && after.rows[outcome.row].key == t.key && SameMovement(after.rows[outcome.row], t)
  }

  lemma PostRecords(l: Ledger, t: Row)
    ensures Post(l, t).1.Posted? && t.key.Some? ==> Recorded(Post(l, t).0, Post(l, t).1, t)
  {
  }

  lemma SuccessIsRecorded(l: Ledger, c: Command)
    requires WellKept(l) && KeyedRow(c).Some? && Step(l, c).1.Posted?
    ensures AccountsReady(l, c)
    ensures Recorded(Step(l, c).0, Step(l, c).1, KeyedRow(c).value)
  {
    assert EarlierIsSound(l, KeyedRow(c).value);
    match c
    case DoLock(task, amount, key) => LockRecords(l, task, amount, key);
    case DoUnlock(task, amount, key) => UnlockRecords(l, task, amount, key);
    case DoTransfer(from, to, amount, key) => TransferRecords(l, from, to, amount, key);
    case DoReward(task, member, amount, entry, genesis) => RewardRecords(l, task, member, amount, entry, genesis);
  }

  /** An earlier row found under the key of the request has the references its kind implies. */
  predicate EarlierIsSound(l: Ledger, t: Row) {
    var found := FindKeyed(l.rows, t.key, t.kind);
    found.Some? ==> Sound(l.rows[found.value])
  }

  lemma LockRecords(l: Ledger, task: string, amount: int, key: Option<string>)
    requires NormaliseKey(key).Some? && LockBudget(l, task, amount, key).1.Posted?
    requires EarlierIsSound(l, LockRow(task, amount, NormaliseKey(key)))
    ensures IssuancePool in l.pools && TaskLocked in l.pools
    ensures var (after, outcome) := LockBudget(l, task, amount, key);
            Recorded(after, outcome, LockRow(task, amount, NormaliseKey(key)))
  {
    PostRecords(l, LockRow(task, amount, NormaliseKey(key)));
  }

  lemma UnlockRecords(l: Ledger, task: string, amount: int, key: Option<string>)
    requires NormaliseKey(key).Some? && UnlockBudget(l, task, amount, key).1.Posted?
    requires EarlierIsSound(l, UnlockRow(task, amount, NormaliseKey(key)))
    ensures IssuancePool in l.pools && TaskLocked in l.pools
    ensures var (after, outcome) := UnlockBudget(l, task, amount, key);
            Recorded(after, outcome, UnlockRow(task, amount, NormaliseKey(key)))
  {
    PostRecords(l, UnlockRow(task, amount, NormaliseKey(key)));
  }

  lemma TransferRecords(l: Ledger, from: string, to: string, amount: int, key: Option<string>)
    requires NormaliseKey(key).Some? && TransferCredits(l, from, to, amount, key).1.Posted?
    requires EarlierIsSound(l, TransferRow(from, to, amount, NormaliseKey(key)))
    ensures var (after, outcome) := TransferCredits(l, from, to, amount, key);
            Recorded(after, outcome, TransferRow(from, to, amount, NormaliseKey(key)))
  {
    PostRecords(l, TransferRow(from, to, amount, NormaliseKey(key)));
  }

  lemma RewardRecords(l: Ledger, task: string, member: string, amount: int, entry: string, genesis: bool)
    requires Reward(l, task, member, amount, entry, genesis).1.Posted?
    ensures IssuancePool in l.pools && (!genesis ==> TaskLocked in l.pools)
    ensures var (after, outcome) := Reward(l, task, member, amount, entry, genesis);
            Recorded(after, outcome, RewardRow(task, member, amount, entry, genesis))
  {
    PostRecords(l, RewardRow(task, member, amount, entry, genesis));
  }

  /**
   * Replay: whatever happens after a successful keyed call, repeating it returns the row it posted
   * and changes nothing; asking for another movement under the same key is refused.
   */
  lemma KeyedReplay(l: Ledger, c: Command, cs: seq<Command>, d: Command)
    requires WellKept(l) && KeyedRow(c).Some? && Step(l, c).1.Posted?
    requires KeyedRow(d).Some? && KeyedRow(d).value.key == KeyedRow(c).value.key
    ensures var later := Run(Step(l, c).0, cs);
            && Step(later, c) == (later, Step(l, c).1)
            && Step(later, d).0 == later
            && (SameMovement(KeyedRow(c).value, KeyedRow(d).value) ==> Step(later, d).1 == Step(l, c).1)
            && (!SameMovement(KeyedRow(c).value, KeyedRow(d).value) ==> Step(later, d).1.Refused?)
  {
    var (after, outcome) := Step(l, c);
    StepKeepsWell(l, c);
    StepExtends(l, c);
    SuccessIsRecorded(l, c);
    RunKeepsWell(after, cs);
    var later := Run(after, cs);
    assert SameMoney(after.rows[outcome.row], later.rows[outcome.row]);
    CallOnUsedKey(later, c, outcome.row);
    if AccountsReady(later, d) {
      CallOnUsedKey(later, d, outcome.row);
    } else {
      DifferentAccounts(later, c, d);
    }
  }

  lemma DifferentAccounts(l: Ledger, c: Command, d: Command)
    requires KeyedRow(c).Some? && KeyedRow(d).Some? && AccountsReady(l, c) && !AccountsReady(l, d)
    ensures !SameMovement(KeyedRow(c).value, KeyedRow(d).value) && Step(l, d).0 == l && Step(l, d).1.Refused?
  {
  }

  // ----- reversals

  predicate KeyUnused(rows: seq<Row>, rawKey: Option<string>) {
    NormaliseKey(rawKey).Some? ==> FindKey(rows, NormaliseKey(rawKey).value).None?
  }

  lemma ReverseAppends(l: Ledger, original: nat, key: Option<string>)
    requires WellKept(l) && original < |l.rows| && !HasReversal(l.rows, original) && KeyUnused(l.rows, key)
    ensures Reverse(l, original, key) ==
            (l.(rows := l.rows + [ReversalRow(l.rows[original], NormaliseKey(key)).(reverses := Some(original))]),
             Posted(|l.rows|))
  {
    assert l.rows[original] in l.rows;
    var t := ReversalRow(l.rows[original], NormaliseKey(key));
    assert (l.rows + [t])[|l.rows| := t.(reverses := Some(original))] == l.rows + [t.(reverses := Some(original))];
  }

  /**
   * A successful reversal takes the original's effect off every account exactly when its key was
   * not in use: on a used key nothing is posted and an earlier reversal is pointed at the new original.
   */
  lemma ReversalUndoesIffKeyUnused(l: Ledger, original: nat, key: Option<string>)
    requires WellKept(l) && original < |l.rows|
    requires Reverse(l, original, key).1.Posted?
    ensures (forall a :: Balance(Reverse(l, original, key).0.rows, a) ==
                         Balance(l.rows, a) - Delta(l.rows[original], a))
            <==> KeyUnused(l.rows, key)
  {
    var r := l.rows[original];
    assert r in l.rows;
    var after := Reverse(l, original, key).0;
    if KeyUnused(l.rows, key) {
      ReverseAppends(l, original, key);
      Append(l.rows, ReversalRow(r, NormaliseKey(key)).(reverses := Some(original)));
    } else {
      var i := FindKey(l.rows, NormaliseKey(key).value).value;
      RepointKeepsTotals(l.rows, i, Some(original));
      var touched := if r.source.Some? then r.source.value else r.target.value;
      assert Delta(r, touched) != 0;
      assert Balance(after.rows, touched) == Balance(l.rows, touched);
    }
  }

  /** Two equal rows reversed under one key: the second call posts nothing and takes the first row's reversal away. */
  lemma SharedReversalKeyFails(l: Ledger, i: nat, j: nat, key: Option<string>)
    requires WellKept(l) && i < |l.rows| && j < |l.rows| && i != j
    requires !HasReversal(l.rows, i) && !HasReversal(l.rows, j)
    requires l.rows[i].source == l.rows[j].source && l.rows[i].target == l.rows[j].target
    requires l.rows[i].amount == l.rows[j].amount
    requires NormaliseKey(key).Some? && KeyUnused(l.rows, key)
    ensures var first := Reverse(l, i, key).0;
            var (second, outcome) := Reverse(first, j, key);
            && outcome.Posted? && |second.rows| == |first.rows|
            && HasReversal(second.rows, j) && !HasReversal(second.rows, i)
            && forall a :: Balance(second.rows, a) == Balance(first.rows, a)
  {
    var n := |l.rows|;
    var t := ReversalRow(l.rows[i], NormaliseKey(key));
    ReverseAppends(l, i, key);
    var first := Reverse(l, i, key).0;
    ReverseKeepsWell(l, i, key);
    FindKeyUnique(first.rows, n);
    assert first.rows[j] == l.rows[j];
    assert !HasReversal(first.rows, j);
    assert Post(first, ReversalRow(first.rows[j], NormaliseKey(key))) == (first, Posted(n)) by {
      assert first.rows[n] in first.rows;
    }
    var second := Reverse(first, j, key).0;
    assert second.rows == first.rows[n := first.rows[n].(reverses := Some(j))];
    assert second.rows[n].reverses == Some(j);
    RepointKeepsTotals(first.rows, n, Some(j));
  }

  /** Reverses the row, then the reversal, then that reversal, once per key. */
  function ReverseChain(l: Ledger, row: nat, keys: seq<Option<string>>): (Ledger, bool)
    decreases |keys|
  {
    if keys == [] then (l, true)
    else
      var (after, outcome) := Reverse(l, row, keys[0]);
      if outcome.Posted? then ReverseChain(after, outcome.row, keys[1..]) else (l, false)
  }

  ghost predicate FreshKeys(rows: seq<Row>, keys: seq<Option<string>>) {
    && (forall i :: 0 <= i < |keys| ==> KeyUnused(rows, keys[i]))
    && (forall i, j :: 0 <= i < j < |keys| && NormaliseKey(keys[i]).Some? ==>
          NormaliseKey(keys[i]) != NormaliseKey(keys[j]))
  }

  /** Every balance is as before, except that the row's effect is gone when `undone`. */
  ghost predicate Undone(rows: seq<Row>, later: seq<Row>, r: Row, undone: bool) {
    forall a :: Balance(later, a) == Balance(rows, a) - if undone then Delta(r, a) else 0
  }

  ghost predicate Mirrors(r: Row, mirror: Row) {
    forall a :: Delta(mirror, a) == -Delta(r, a)
  }

  lemma UndoneTwice(rows: seq<Row>, once: seq<Row>, later: seq<Row>, r: Row, mirror: Row, undone: bool)
    requires Undone(rows, once, r, true) && Mirrors(r, mirror) && Undone(once, later, mirror, undone)
    ensures Undone(rows, later, r, !undone)
  {
    forall a ensures Balance(later, a) == Balance(rows, a) - if !undone then Delta(r, a) else 0 {
      assert Delta(mirror, a) == -Delta(r, a);
    }
  }

  /** All n reversals went through, one row each; the original's effect is gone exactly when their number is odd. */
  ghost predicate ParityHolds(l: Ledger, row: nat, n: nat, result: (Ledger, bool))
    requires row < |l.rows|
  {
    result.1 && |result.0.rows| == |l.rows| + n && Undone(l.rows, result.0.rows, l.rows[row], n % 2 == 1)
  }

  lemma ParityStep(l: Ledger, row: nat, after: Ledger, n: nat, result: (Ledger, bool))
    requires row < |l.rows| && |after.rows| == |l.rows| + 1
    requires Undone(l.rows, after.rows, l.rows[row], true) && Mirrors(l.rows[row], after.rows[|l.rows|])
    requires ParityHolds(after, |l.rows|, n, result)
    ensures ParityHolds(l, row, n + 1, result)
  {
    UndoneTwice(l.rows, after.rows, result.0.rows, l.rows[row], after.rows[|l.rows|], n % 2 == 1);
  }

  lemma ChainUnfolds(l: Ledger, row: nat, keys: seq<Option<string>>, after: Ledger)
    requires keys != [] && Reverse(l, row, keys[0]) == (after, Posted(|l.rows|))
    ensures ReverseChain(l, row, keys) == ReverseChain(after, |l.rows|, keys[1..])
  {
  }

  /** Parity: an even number of successive reversals restores every balance, an odd number removes the original. */
  lemma {:induction false} ReversalParity(l: Ledger, row: nat, keys: seq<Option<string>>)
    requires WellKept(l) && row < |l.rows| && !HasReversal(l.rows, row) && FreshKeys(l.rows, keys)
    ensures ParityHolds(l, row, |keys|, ReverseChain(l, row, keys))
    decreases |keys|
  {
    if keys != [] {
      var after := FirstReversal(l, row, keys);
      ReversalParity(after, |l.rows|, keys[1..]);
      ParityStep(l, row, after, |keys| - 1, ReverseChain(after, |l.rows|, keys[1..]));
      ChainUnfolds(l, row, keys, after);
    }
  }

  lemma FirstReversal(l: Ledger, row: nat, keys: seq<Option<string>>) returns (after: Ledger)
    requires WellKept(l) && row < |l.rows| && !HasReversal(l.rows, row) && keys != [] && FreshKeys(l.rows, keys)
    ensures Reverse(l, row, keys[0]) == (after, Posted(|l.rows|)) && |after.rows| == |l.rows| + 1
    ensures WellKept(after) && !HasReversal(after.rows, |l.rows|) && FreshKeys(after.rows, keys[1..])
    ensures Undone(l.rows, after.rows, l.rows[row], true) && Mirrors(l.rows[row], after.rows[|l.rows|])
  {
    ReverseAppends(l, row, keys[0]);
    ReverseKeepsWell(l, row, keys[0]);
    after := Reverse(l, row, keys[0]).0;
    Append(l.rows, after.rows[|l.rows|]);
    FreshAfter(l.rows, after.rows[|l.rows|], keys);
  }

  lemma FreshAfter(rows: seq<Row>, t: Row, keys: seq<Option<string>>)
    requires keys != [] && FreshKeys(rows, keys) && t.key == NormaliseKey(keys[0])
    ensures FreshKeys(rows + [t], keys[1..])
  {
    forall i | 0 <= i < |keys[1..]| ensures KeyUnused(rows + [t], keys[1..][i]) {
      assert keys[1..][i] == keys[i + 1];
      assert KeyUnused(rows, keys[i + 1]);
    }
  }

  // ----- task budgets

  ghost predicate BudgetsKept(l: Ledger) {
    && WellKept(l)
    && (forall r :: r in l.rows ==> TaskShaped(r))
    && forall t :: TaskBalance(l.rows, t) >= 0
  }

  lemma StepKeepsBudgets(l: Ledger, c: Command)
    requires BudgetsKept(l) && !c.DoReverse?
    ensures BudgetsKept(Step(l, c).0)
  {
    StepPosts(l, c);
    StepKeepsWell(l, c);
    if Step(l, c).0.rows != l.rows {
      RequestedIsSound(l, c);
      Append(l.rows, Requested(l, c).value);
    }
  }

  lemma {:induction false} RunKeepsBudgets(cs: seq<Command>)
    requires forall c :: c in cs ==> !c.DoReverse?
    ensures BudgetsKept(Run(EmptyLedger, cs))
  {
    if cs != [] {
      RunKeepsBudgets(cs[..|cs| - 1]);
      StepKeepsBudgets(Run(EmptyLedger, cs[..|cs| - 1]), cs[|cs| - 1]);
    }
  }

  /**
   * After every run without reversals (genesis rewards and corrections allowed) the TASK_LOCKED balance
   * is the sum of the remainders of all tasks, and none is overdrawn.
   */
  lemma TaskBudgetsAddUp(cs: seq<Command>, tasks: seq<string>)
    requires forall c :: c in cs ==> !c.DoReverse?
    requires NoDuplicates(tasks) && CoversTasks(tasks, Run(EmptyLedger, cs).rows)
    ensures SumTasks(Run(EmptyLedger, cs).rows, tasks) == Balance(Run(EmptyLedger, cs).rows, TaskLocked)
    ensures forall t :: 0 <= TaskBalance(Run(EmptyLedger, cs).rows, t) <= Balance(Run(EmptyLedger, cs).rows, TaskLocked)
  {
    RunKeepsBudgets(cs);
    var rows := Run(EmptyLedger, cs).rows;
    TaskSplit(rows, tasks);
    forall t ensures TaskBalance(rows, t) <= Balance(rows, TaskLocked) {
      TaskWithinAccount(rows, t);
    }
  }

  /** A reversal carries no task, so it keeps the split exactly when its original left TASK_LOCKED alone. */
  lemma ReversalKeepsSplitIff(l: Ledger, original: nat, key: Option<string>, tasks: seq<string>)
    requires BudgetsKept(l) && NoDuplicates(tasks) && CoversTasks(tasks, l.rows)
    requires original < |l.rows| && !HasReversal(l.rows, original) && KeyUnused(l.rows, key)
    ensures var after := Reverse(l, original, key).0;
            SumTasks(after.rows, tasks) == Balance(after.rows, TaskLocked)
            <==> l.rows[original].source != Some(TaskLocked) && l.rows[original].target != Some(TaskLocked)
  {
    var r := l.rows[original];
    assert r in l.rows;
    ReverseAppends(l, original, key);
    var mirror := ReversalRow(r, NormaliseKey(key)).(reverses := Some(original));
    TaskSplit(l.rows, tasks);
    SumTasksAppend(l.rows, mirror, tasks);
    SumTaskDeltasIsOneHit(mirror, tasks);
    Append(l.rows, mirror);
  }
}
