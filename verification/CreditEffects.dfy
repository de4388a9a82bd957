/** What a caller of each credit service may rely on. */
module CreditEffects {
  import opened Common
  import opened CreditLedger
  import opened CreditConservation
  import opened CreditRuns
  import opened CreditOrders

  // ----- the laws every call keeps

  lemma RepointKeepsOrders(l: Ledger, i: nat, link: Option<nat>)
    requires OrdersKept(l) && i < |l.rows|
    ensures OrdersKept(l.(rows := l.rows[i := l.rows[i].(reverses := link)]))
  {
    var rows := l.rows[i := l.rows[i].(reverses := link)];
    forall o | o in l.orders && o.id.DigestId? ensures HasConsumeKey(rows, o.id.key) {
      var k :| 0 <= k < |l.rows| && l.rows[k].kind == Consume && l.rows[k].key == Some(o.id.key);
      assert rows[k].kind == Consume && rows[k].key == Some(o.id.key);
    }
    forall r | r in rows && r.kind == Consume ensures r.order.Some? && HasOrder(l.orders, r.order.value) {
      var k :| 0 <= k < |rows| && rows[k] == r;
      assert l.rows[k] in l.rows;
    }
  }

  lemma ReverseKeepsOrders(l: Ledger, original: nat, key: Option<string>)
    requires OrdersKept(l)
    ensures OrdersKept(Reverse(l, original, key).0)
  {
    if original < |l.rows| && !HasReversal(l.rows, original) {
      var t := ReversalRow(l.rows[original], NormaliseKey(key));
      var (posted, outcome) := Post(l, t);
      if outcome.Posted? {
        MoreRowsKeepOrders(l, t);
        RepointKeepsOrders(posted, outcome.row, Some(original));
      }
    }
  }

  /** A generated order id is new. */
  predicate NewUid(l: Ledger, c: Command) {
    c.DoCreate? && NormaliseKey(c.key).None? ==> FreshUid(l, c.uid)
  }

  lemma CreateKeepsOrders(l: Ledger, c: Command)
    requires WellKept(l) && OrdersKept(l) && c.DoCreate? && NewUid(l, c)
    ensures OrdersKept(Step(l, c).0)
  {
    CreateEffect(l, c);
    if Step(l, c).0 != l {
      var id := NewOrderId(c.key, c.uid);
      var key := ClosingKey(c.key, FreezeKey(id));
      PlacedIdIsNew(l, c.key, c.uid);
      PlaceNew(l, c.member, c.amount, DetailsOf(c), id, key);
      PlacingKeepsOrders(l, ConsumeRow(c.member, c.amount, key, id),
                         Order(id, c.member, c.amount, Pending, DetailsOf(c)));
    }
  }

  lemma CloseKeepsOrders(l: Ledger, c: Command)
    requires OrdersKept(l) && (c.DoCancel? || c.DoFulfill?)
    ensures OrdersKept(Step(l, c).0)
  {
    var after := Step(l, c).0;
    CloseEffect(l, c);
    if after != l {
      StepPosts(l, c);
      var i, status := c.order, if c.DoCancel? then Cancelled else Fulfilled;
      if after.rows != l.rows {
        var t := Requested(l, c).value;
        MoreRowsKeepOrders(l, t);
        StatusChangeKeepsOrders(l.(rows := l.rows + [t]), i, status);
      } else {
        StatusChangeKeepsOrders(l, i, status);
      }
    }
  }

  lemma OtherStepKeepsOrders(l: Ledger, c: Command)
    requires OrdersKept(l) && !c.DoCreate? && !c.DoCancel? && !c.DoFulfill? && !c.DoReport? && !c.DoReverse?
    ensures OrdersKept(Step(l, c).0)
  {
    OtherStepsLeaveOrders(l, c);
    StepPosts(l, c);
    if Step(l, c).0.rows != l.rows {
      MoreRowsKeepOrders(l, Requested(l, c).value);
    }
  }

  lemma StepKeepsOrders(l: Ledger, c: Command)
    requires WellKept(l) && OrdersKept(l) && NewUid(l, c)
    ensures OrdersKept(Step(l, c).0)
  {
    match c
    case DoCreate(_, _, _, _, _, _) => CreateKeepsOrders(l, c);
    case DoCancel(_, _) => CloseKeepsOrders(l, c);
    case DoFulfill(_, _, _) => CloseKeepsOrders(l, c);
    case DoReport(i) =>
      if i < |l.orders| {
        StatusChangeKeepsOrders(l, i, Disputed);
      }
    case DoReverse(original, key) => ReverseKeepsOrders(l, original, key);
    case _ => OtherStepKeepsOrders(l, c);
  }

  /** The books are in order: distinct keys, single reversals, sound rows, orders tied to the rows that froze them. */
  ghost predicate InOrder(l: Ledger) {
    WellKept(l) && OrdersKept(l)
  }

  /**
   * The books stay in order and only grow; without a reversal task budgets stay kept; and in an ordinary call under an
   * unshared closing key FROZEN stays equal to the open orders and no account goes negative.
   */
  ghost predicate Lawful(l: Ledger, c: Command, after: Ledger) {
    && InOrder(after) && Extends(l, after)
    && (BudgetsKept(l) && !c.DoReverse? ==> BudgetsKept(after))
    && (FrozenKept(l) && Ordinary(l, c) && KeyNotShared(l, c) ==> FrozenKept(after))
  }

  lemma StepIsLawful(l: Ledger, c: Command)
    requires InOrder(l) && NewUid(l, c)
    ensures Lawful(l, c, Step(l, c).0)
  {
    StepKeepsWell(l, c);
    StepKeepsOrders(l, c);
    StepExtends(l, c);
    if BudgetsKept(l) && !c.DoReverse? {
      StepKeepsBudgets(l, c);
    }
    if FrozenKept(l) && Ordinary(l, c) && KeyNotShared(l, c) {
      StepKeepsFrozen(l, c);
    }
  }

  /** Every generated order id of the run was new when it was used. */
  ghost predicate FreshUids(cs: seq<Command>) {
    forall i :: 0 <= i < |cs| ==> NewUid(Run(EmptyLedger, cs[..i]), cs[i])
  }

  /** The books are in order after every run. */
  lemma {:induction false} RunIsInOrder(cs: seq<Command>)
    requires FreshUids(cs)
    ensures InOrder(Run(EmptyLedger, cs))
  {
    if cs != [] {
      var n := |cs| - 1;
      forall i | 0 <= i < n ensures NewUid(Run(EmptyLedger, cs[..n][..i]), cs[..n][i]) {
        assert cs[..n][..i] == cs[..i];
      }
      RunIsInOrder(cs[..n]);
      StepIsLawful(Run(EmptyLedger, cs[..n]), cs[n]);
    }
  }

  // ----- posting services

  /** Every account holds what it held, but for an amount that went from one end to the other. */
  ghost predicate Moves(rows: seq<Row>, after: seq<Row>, source: Option<Account>, target: Option<Account>, amount: int) {
    forall a :: Balance(after, a) == Balance(rows, a) + (if target == Some(a) then amount else 0)
                                                      - (if source == Some(a) then amount else 0)
  }

  /** Every task has what it had locked, but for a change to one. */
  ghost predicate BudgetMoves(rows: seq<Row>, after: seq<Row>, task: string, change: int) {
    forall t :: TaskBalance(after, t) == TaskBalance(rows, t) + if t == task then change else 0
  }

  predicate KeyFree(rows: seq<Row>, key: Option<string>) {
    key.Some? ==> FindKey(rows, key.value).None?
  }

  /**
   * Under a free key the call goes through exactly when it is admissible, and then moves the amount from source to
   * target; under a used key it posts nothing and can only return that key's row, if it made the same movement.
   */
  ghost predicate Served(l: Ledger, after: Ledger, outcome: Outcome, key: Option<string>, source: Option<Account>,
                         target: Option<Account>, amount: int, admissible: bool)
  {
    && (outcome.Posted? || (outcome.Refused? && after == l))
    && (outcome.Posted? ==>
          && outcome.row < |after.rows|
          && var r := after.rows[outcome.row];
             r.key == key && r.source == source && r.target == target && r.amount == amount)
    && if KeyFree(l.rows, key)
       then (outcome.Posted? <==> admissible) && (outcome.Posted? ==> Moves(l.rows, after.rows, source, target, amount))
       else after == l
  }

  lemma AppendMoves(rows: seq<Row>, t: Row)
    ensures Moves(rows, rows + [t], t.source, t.target, t.amount)
  {
    Append(rows, t);
  }

  lemma PostServes(l: Ledger, t: Row)
    ensures Served(l, Post(l, t).0, Post(l, t).1, t.key, t.source, t.target, t.amount, t.amount > 0)
  {
    AppendMoves(l.rows, t);
  }

  lemma IssueServes(l: Ledger, amount: int, key: Option<string>)
    ensures var (after, outcome) := Issue(l, amount, key);
            Served(l, after, outcome, NormaliseKey(key), None, Some(IssuancePool), amount,
                   IssuancePool in l.pools && amount > 0)
  {
    PostServes(l, Movement(Issuance, None, Some(IssuancePool), amount, NormaliseKey(key)));
  }

  /** Posted if ready, or returned if an equal row is on the books, or refused; replays come before the readiness check. */
  ghost predicate PostedOrReplayed(l: Ledger, result: (Ledger, Outcome), t: Row, ready: bool) {
    if KeyFree(l.rows, t.key) then (if ready then result == Post(l, t) else result.0 == l && result.1.Refused?)
    else result.0 == l && (result.1.Refused? || (result.1.Posted? && Returned(l, result.1.row, t)))
  }

  /** The row has the requested key and ends. */
  predicate Returned(l: Ledger, i: nat, t: Row) {
    i < |l.rows| && l.rows[i].key == t.key && l.rows[i].source == t.source && l.rows[i].target == t.target &&
    l.rows[i].amount == t.amount
  }

  lemma CasesServe(l: Ledger, result: (Ledger, Outcome), t: Row, ready: bool)
    requires PostedOrReplayed(l, result, t, ready)
    ensures Served(l, result.0, result.1, t.key, t.source, t.target, t.amount, ready && t.amount > 0)
    ensures result.0 == l || result.0.rows == l.rows + [t]
  {
    PostServes(l, t);
  }

  lemma BudgetAfter(rows: seq<Row>, t: Row, task: string, change: int)
    requires forall x :: TaskDelta(t, x) == if x == task then change else 0
    ensures BudgetMoves(rows, rows + [t], task, change)
  {
    Append(rows, t);
  }

  lemma LockServes(l: Ledger, task: string, amount: int, key: Option<string>)
    ensures var (after, outcome) := LockBudget(l, task, amount, key);
            && Served(l, after, outcome, NormaliseKey(key), Some(IssuancePool), Some(TaskLocked), amount,
                      IssuancePool in l.pools && TaskLocked in l.pools && 0 < amount <= Balance(l.rows, IssuancePool))
            && BudgetMoves(l.rows, after.rows, task, if after == l then 0 else amount)
  {
    var t := LockRow(task, amount, NormaliseKey(key));
    LockCases(l, task, amount, key);
    CasesServe(l, LockBudget(l, task, amount, key), t,
               IssuancePool in l.pools && TaskLocked in l.pools && amount <= Balance(l.rows, IssuancePool));
    BudgetAfter(l.rows, t, task, amount);
  }

  lemma LockCases(l: Ledger, task: string, amount: int, key: Option<string>)
    ensures PostedOrReplayed(l, LockBudget(l, task, amount, key), LockRow(task, amount, NormaliseKey(key)),
                             IssuancePool in l.pools && TaskLocked in l.pools && amount <= Balance(l.rows, IssuancePool))
  {
  }

  lemma UnlockServes(l: Ledger, task: string, amount: int, key: Option<string>)
    ensures var (after, outcome) := UnlockBudget(l, task, amount, key);
            && Served(l, after, outcome, NormaliseKey(key), Some(TaskLocked), Some(IssuancePool), amount,
                      IssuancePool in l.pools && TaskLocked in l.pools && 0 < amount <= TaskBalance(l.rows, task))
            && BudgetMoves(l.rows, after.rows, task, if after == l then 0 else -amount)
  {
    var t := UnlockRow(task, amount, NormaliseKey(key));
    UnlockCases(l, task, amount, key);
    CasesServe(l, UnlockBudget(l, task, amount, key), t,
               IssuancePool in l.pools && TaskLocked in l.pools && 0 < amount <= TaskBalance(l.rows, task));
    BudgetAfter(l.rows, t, task, -amount);
  }

  lemma UnlockCases(l: Ledger, task: string, amount: int, key: Option<string>)
    ensures PostedOrReplayed(l, UnlockBudget(l, task, amount, key), UnlockRow(task, amount, NormaliseKey(key)),
                             IssuancePool in l.pools && TaskLocked in l.pools && 0 < amount <= TaskBalance(l.rows, task))
  {
  }

  lemma RewardServes(l: Ledger, task: string, member: string, amount: int, entry: string, genesis: bool)
    ensures var (after, outcome) := Reward(l, task, member, amount, entry, genesis);
            && Served(l, after, outcome, Some(RewardKey(entry)), Some(if genesis then IssuancePool else TaskLocked),
                      Some(Holder(member)), amount,
                      IssuancePool in l.pools && amount > 0 &&
                      (!genesis ==> TaskLocked in l.pools && amount <= TaskBalance(l.rows, task)))
            && BudgetMoves(l.rows, after.rows, task, if after == l || genesis then 0 else -amount)
  {
    var t := RewardRow(task, member, amount, entry, genesis);
    RewardCases(l, task, member, amount, entry, genesis);
    CasesServe(l, Reward(l, task, member, amount, entry, genesis), t,
               IssuancePool in l.pools && (!genesis ==> TaskLocked in l.pools && amount <= TaskBalance(l.rows, task)));
    BudgetAfter(l.rows, t, task, if genesis then 0 else -amount);
  }

  lemma RewardCases(l: Ledger, task: string, member: string, amount: int, entry: string, genesis: bool)
    ensures PostedOrReplayed(
              l, Reward(l, task, member, amount, entry, genesis), RewardRow(task, member, amount, entry, genesis),
              IssuancePool in l.pools && (!genesis ==> TaskLocked in l.pools && amount <= TaskBalance(l.rows, task)))
  {
  }

  lemma TransferServes(l: Ledger, from: string, to: string, amount: int, key: Option<string>)
    ensures var (after, outcome) := TransferCredits(l, from, to, amount, key);
            Served(l, after, outcome, NormaliseKey(key), Some(Holder(from)), Some(Holder(to)), amount,
                   from != to && 0 < amount <= Balance(l.rows, Holder(from)))
  {
    PostServes(l, TransferRow(from, to, amount, NormaliseKey(key)));
  }

  lemma DeductServes(l: Ledger, member: string, amount: int, key: Option<string>)
    ensures var (after, outcome) := Deduct(l, member, amount, key);
            Served(l, after, outcome, NormaliseKey(key), Some(Holder(member)), Some(Burn), amount,
                   Burn in l.pools && amount > 0)
  {
    PostServes(l, Movement(Correction, Some(Holder(member)), Some(Burn), amount, NormaliseKey(key)));
  }

  // ----- reversals

  /**
   * A row that is not reversed is reversed under any free key; the row reported points at the original, and the
   * original's effect is off every account exactly when the key was free.
   */
  ghost predicate TakenBack(l: Ledger, after: Ledger, outcome: Outcome, original: nat, key: Option<string>) {
    && (outcome.Posted? || (outcome.Refused? && after == l))
    && (original < |l.rows| && !HasReversal(l.rows, original) && KeyUnused(l.rows, key) ==> outcome.Posted?)
    && (outcome.Posted? ==>
          && original < |l.rows| && !HasReversal(l.rows, original)
          && outcome.row < |after.rows| && after.rows[outcome.row].reverses == Some(original)
          && after.rows[outcome.row].kind == Reversal && after.rows[outcome.row].key == NormaliseKey(key)
          && ((forall a :: Balance(after.rows, a) == Balance(l.rows, a) - Delta(l.rows[original], a)) <==>
              KeyUnused(l.rows, key)))
  }

  lemma ReverseTakesBack(l: Ledger, original: nat, key: Option<string>)
    requires WellKept(l)
    ensures TakenBack(l, Reverse(l, original, key).0, Reverse(l, original, key).1, original, key)
  {
    if original < |l.rows| && !HasReversal(l.rows, original) && KeyUnused(l.rows, key) {
      ReverseAppends(l, original, key);
    }
    if Reverse(l, original, key).1.Posted? {
      ReversalUndoesIffKeyUnused(l, original, key);
    }
  }

  // ----- redemption orders

  /** The merchant is served by redemption and has a rate, the member can pay, and the account and the key are there. */
  predicate CanOrder(l: Ledger, member: string, amount: int, merchant: Option<Merchant>, rawKey: Option<string>,
                     uid: string)
  {
    && 0 < amount <= Balance(l.rows, Holder(member)) && Frozen in l.pools
    && (merchant.Some? ==> merchant.value.kind == CashSettlement && merchant.value.active && merchant.value.hasRate)
    && KeyFree(l.rows, Some(ClosingKey(rawKey, FreezeKey(NewOrderId(rawKey, uid)))))
  }

  /** Redemption serves active cash-settlement merchants alone. */
  predicate MerchantServed(merchant: Option<Merchant>) {
    merchant.Some? ==> merchant.value.kind == CashSettlement && merchant.value.active
  }

  /** A new order is placed exactly when it can be; no order is ever placed with a merchant that is not served. */
  ghost predicate OrderAnswers(l: Ledger, outcome: Outcome, member: string, amount: int, merchant: Option<Merchant>,
                               key: Option<string>, uid: string)
  {
    && (outcome.Placed? ==> amount > 0 && MerchantServed(merchant) && Frozen in l.pools)
    && (EarlierOrder(l, key).None? ==> (outcome.Placed? <==> CanOrder(l, member, amount, merchant, key, uid)))
  }

  /** The order of an earlier call under the key is returned as it is; otherwise a new pending order freezes its amount. */
  ghost predicate OrderPlaced(l: Ledger, after: Ledger, outcome: Outcome, member: string, amount: int,
                              details: OrderDetails, key: Option<string>)
  {
    && (outcome.Placed? || (outcome.Refused? && after == l))
    && (outcome.Placed? ==>
          && outcome.order < |after.orders| && outcome.row < |after.rows| && amount > 0
          && var o, r := after.orders[outcome.order], after.rows[outcome.row];
             && o.member == member && o.amount == amount && o.details == details
             && r.kind == Consume && r.order == Some(o.id) && r.amount == amount
             && r.source == Some(Holder(member)) && r.target == Some(Frozen)
             && (NormaliseKey(key).Some? ==> r.key == NormaliseKey(key))
             && if EarlierOrder(l, key).Some? then after == l && outcome.order == EarlierOrder(l, key).value
                else && after.orders == l.orders + [o] && o.status == Pending
                     && OpenTotal(after.orders) == OpenTotal(l.orders) + amount
                     && amount <= Balance(l.rows, Holder(member))
                     && Moves(l.rows, after.rows, Some(Holder(member)), Some(Frozen), amount))
  }

  lemma NewOrderIsPlaced(l: Ledger, member: string, amount: int, details: OrderDetails, id: OrderId, rowKey: string,
                         key: Option<string>)
    requires FindOrder(l.orders, id).None? && FindKeyed(l.rows, Some(rowKey), Consume).None?
    requires EarlierOrder(l, key).None? && amount <= Balance(l.rows, Holder(member))
    requires NormaliseKey(key).Some? ==> NormaliseKey(key) == Some(rowKey)
    ensures var (after, outcome) := PlaceOrder(l, member, amount, details, id, rowKey);
            && OrderPlaced(l, after, outcome, member, amount, details, key)
            && (outcome.Placed? <==> amount > 0 && KeyFree(l.rows, Some(rowKey)))
  {
    var t, o := ConsumeRow(member, amount, rowKey, id), Order(id, member, amount, Pending, details);
    AppendMoves(l.rows, t);
    OpenTotalAppend(l.orders, o);
  }

  lemma CreateReplays(l: Ledger, member: string, amount: int, details: OrderDetails, merchant: Option<Merchant>,
                      key: Option<string>, uid: string)
    requires details.merchant == if merchant.Some? then Some(merchant.value.id) else None
    requires EarlierOrder(l, key).Some?
    ensures var (after, outcome) := CreateOrder(l, member, amount, details, merchant, key, uid);
            && OrderPlaced(l, after, outcome, member, amount, details, key)
            && OrderAnswers(l, outcome, member, amount, merchant, key, uid)
  {
  }

  lemma PlacedOrRefused(l: Ledger, member: string, amount: int, details: OrderDetails, merchant: Option<Merchant>,
                        key: Option<string>, uid: string)
    requires details.merchant == if merchant.Some? then Some(merchant.value.id) else None
    requires EarlierOrder(l, key).None?
    ensures var id := NewOrderId(key, uid);
            var result := CreateOrder(l, member, amount, details, merchant, key, uid);
            || (result.0 == l && result.1.Refused? && !CanOrder(l, member, amount, merchant, key, uid))
            || (&& amount <= Balance(l.rows, Holder(member)) && Frozen in l.pools && MerchantServed(merchant)
                && amount > 0 && (merchant.Some? ==> merchant.value.hasRate)
                && result == PlaceOrder(l, member, amount, details, id, ClosingKey(key, FreezeKey(id))))
  {
  }

  lemma CreatePlaces(l: Ledger, member: string, amount: int, details: OrderDetails, merchant: Option<Merchant>,
                     key: Option<string>, uid: string)
    requires InOrder(l) && (NormaliseKey(key).None? ==> FreshUid(l, uid))
    requires details.merchant == if merchant.Some? then Some(merchant.value.id) else None
    ensures var (after, outcome) := CreateOrder(l, member, amount, details, merchant, key, uid);
            && OrderPlaced(l, after, outcome, member, amount, details, key)
            && OrderAnswers(l, outcome, member, amount, merchant, key, uid)
  {
    if EarlierOrder(l, key).Some? {
      CreateReplays(l, member, amount, details, merchant, key, uid);
    } else {
      var id := NewOrderId(key, uid);
      assert FindOrder(l.orders, id).None? && FindKeyed(l.rows, Some(ClosingKey(key, FreezeKey(id))), Consume).None? by {
        PlacedIdIsNew(l, key, uid);
      }
      CreatePlacesNew(l, member, amount, details, merchant, key, uid);
    }
  }

  lemma CreatePlacesNew(l: Ledger, member: string, amount: int, details: OrderDetails, merchant: Option<Merchant>,
                        key: Option<string>, uid: string)
    requires details.merchant == if merchant.Some? then Some(merchant.value.id) else None
    requires EarlierOrder(l, key).None?
    requires FindOrder(l.orders, NewOrderId(key, uid)).None?
    requires FindKeyed(l.rows, Some(ClosingKey(key, FreezeKey(NewOrderId(key, uid)))), Consume).None?
    ensures var (after, outcome) := CreateOrder(l, member, amount, details, merchant, key, uid);
            && OrderPlaced(l, after, outcome, member, amount, details, key)
            && OrderAnswers(l, outcome, member, amount, merchant, key, uid)
  {
    PlacedOrRefused(l, member, amount, details, merchant, key, uid);
    var result := CreateOrder(l, member, amount, details, merchant, key, uid);
    if !result.1.Refused? || result.0 != l {
      var id := NewOrderId(key, uid);
      NewOrderIsPlaced(l, member, amount, details, id, ClosingKey(key, FreezeKey(id)), key);
    }
  }

  /**
   * An open order is closed exactly when all is ready and the key is free or already carries the closing row. Its amount
   * leaves FROZEN for the target exactly when that row was not already posted. An order that is not open can only be
   * closed again in the same way, which changes nothing.
   */
  ghost predicate OrderClosed(l: Ledger, after: Ledger, outcome: Outcome, i: nat, t: Row, status: OrderStatus, ready: bool)
    requires i < |l.orders|
  {
    && (outcome == Touched(i) || (outcome.Refused? && after == l))
    && (outcome == Touched(i) <==>
          if Open(l.orders[i]) then ready && (KeyFree(l.rows, t.key) || Clashes(l, t)) else l.orders[i].status == status)
    && (outcome == Touched(i) ==>
          && after.orders == l.orders[i := l.orders[i].(status := status)]
          && if !Open(l.orders[i]) then after == l
             else && (Clashes(l, t) ==> after.rows == l.rows)
                  && (!Clashes(l, t) ==> Moves(l.rows, after.rows, t.source, t.target, t.amount))
                  && OpenTotal(after.orders) == OpenTotal(l.orders) - l.orders[i].amount)
  }

  lemma CloseCloses(l: Ledger, i: nat, t: Row, status: OrderStatus)
    requires i < |l.orders| && Open(l.orders[i]) && (status == Cancelled || status == Fulfilled)
    ensures OrderClosed(l, CloseOrder(l, i, t, status).0, CloseOrder(l, i, t, status).1, i, t, status, t.amount > 0)
  {
    AppendMoves(l.rows, t);
    OpenTotalUpdate(l.orders, i, l.orders[i].(status := status));
  }

  lemma CancelCloses(l: Ledger, i: nat, key: Option<string>)
    requires InOrder(l) && i < |l.orders|
    ensures var (after, outcome) := CancelOrder(l, i, key);
            OrderClosed(l, after, outcome, i, UnfreezeRow(l.orders[i], key), Cancelled, Frozen in l.pools)
  {
    assert l.orders[i] in l.orders;
    if Open(l.orders[i]) {
      CloseCloses(l, i, UnfreezeRow(l.orders[i], key), Cancelled);
    }
  }

  lemma FulfillCloses(l: Ledger, i: nat, key: Option<string>, rateMissing: bool)
    requires InOrder(l) && i < |l.orders|
    ensures var (after, outcome) := FulfillOrder(l, i, key, rateMissing);
            OrderClosed(l, after, outcome, i, BurnRow(l.orders[i], key), Fulfilled,
                        Frozen in l.pools && Burn in l.pools && (l.orders[i].details.merchant.Some? ==> !rateMissing))
  {
    assert l.orders[i] in l.orders;
    if Open(l.orders[i]) {
      CloseCloses(l, i, BurnRow(l.orders[i], key), Fulfilled);
    }
  }
}
