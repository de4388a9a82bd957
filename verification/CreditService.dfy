/** The credit services as they update the tables, which they keep in order from call to call. */
module CreditService {
  import opened Common
  import opened CreditLedger
  import opened CreditRuns
  import opened CreditOrders
  import opened CreditEffects

  class CreditTables {
    var rows: seq<Row>
    var orders: seq<Order>
    var pools: set<Account>

    ghost function State(): Ledger
      reads this
    {
      Ledger(rows, orders, pools)
    }

    /** Distinct keys, single reversals, sound rows, and orders tied to the rows that froze their credits. */
    ghost predicate Valid()
      reads this
    {
      InOrder(State())
    }

    constructor ()
      ensures Valid() && FrozenKept(State()) && State() == EmptyLedger
    {
      rows, orders, pools := [], [], {};
    }

    method EnsureSystemAccounts() returns (outcome: Outcome)
      requires Valid()
      modifies this`pools
      ensures Valid() && Lawful(old(State()), DoEnsureAccounts, State())
      ensures (State(), outcome) == EnsureAccounts(old(State()))
    {
      StepIsLawful(State(), DoEnsureAccounts);
      pools := pools + SystemPools;
      outcome := Ready;
    }

    /** Posts the row under a free key, or returns the row that made the same movement under it before. */
    method PostCreditTransaction(t: Row) returns (outcome: Outcome)
      modifies this`rows
      ensures Served(old(State()), State(), outcome, t.key, t.source, t.target, t.amount, t.amount > 0)
      ensures (State(), outcome) == Post(old(State()), t)
    {
      PostServes(State(), t);
      if t.amount <= 0 {
        return Refused(BadAmount);
      }
      if t.key.Some? {
        var existing := FindKey(rows, t.key.value);
        if existing.Some? {
          if !SameMovement(rows[existing.value], t) {
            return Refused(KeyConflict);
          }
          return Posted(existing.value);
        }
      }
      outcome := Posted(|rows|);
      rows := rows + [t];
    }

    method IssueCreditsToPool(amount: int, key: Option<string>) returns (outcome: Outcome)
      requires Valid()
      modifies this`rows
      ensures Valid() && Lawful(old(State()), DoIssue(amount, key), State())
      ensures Served(old(State()), State(), outcome, NormaliseKey(key), None, Some(IssuancePool), amount,
                     IssuancePool in pools && amount > 0)
      ensures (State(), outcome) == Issue(old(State()), amount, key)
    {
      ghost var before, call := State(), DoIssue(amount, key);
      if IssuancePool !in pools {
        outcome := Refused(NoAccount);
      } else {
        outcome := PostCreditTransaction(Movement(Issuance, None, Some(IssuancePool), amount, NormaliseKey(key)));
      }
      assert (State(), outcome) == Step(before, call);
      assert Lawful(before, call, State()) by { StepIsLawful(before, call); }
      IssueServes(before, amount, key);
    }

    method LockTaskCreditBudget(task: string, amount: int, key: Option<string>) returns (outcome: Outcome)
      requires Valid()
      modifies this`rows
      ensures Valid() && Lawful(old(State()), DoLock(task, amount, key), State())
      ensures Served(old(State()), State(), outcome, NormaliseKey(key), Some(IssuancePool), Some(TaskLocked), amount,
                     IssuancePool in pools && TaskLocked in pools && 0 < amount <= Balance(old(rows), IssuancePool))
      ensures BudgetMoves(old(rows), rows, task, if State() == old(State()) then 0 else amount)
      ensures (State(), outcome) == LockBudget(old(State()), task, amount, key)
    {
      ghost var before, call := State(), DoLock(task, amount, key);
      if IssuancePool !in pools || TaskLocked !in pools {
        outcome := Refused(NoAccount);
      } else {
        var existing := FindKeyed(rows, NormaliseKey(key), Lock);
        if existing.Some? {
          var r := rows[existing.value];
          var same := r.amount == amount && r.source == Some(IssuancePool) && r.target == Some(TaskLocked) &&
                      r.task == Some(task);
          outcome := if same then Posted(existing.value) else Refused(KeyConflict);
        } else if Balance(rows, IssuancePool) < amount {
          outcome := Refused(Insufficient);
        } else {
          outcome := PostCreditTransaction(LockRow(task, amount, NormaliseKey(key)));
        }
      }
      assert (State(), outcome) == Step(before, call);
      assert Lawful(before, call, State()) by { StepIsLawful(before, call); }
      LockServes(before, task, amount, key);
    }

    method UnlockUnusedTaskCreditBudget(task: string, amount: int, key: Option<string>) returns (outcome: Outcome)
      requires Valid()
      modifies this`rows
      ensures Valid() && Lawful(old(State()), DoUnlock(task, amount, key), State())
      ensures Served(old(State()), State(), outcome, NormaliseKey(key), Some(TaskLocked), Some(IssuancePool), amount,
                     IssuancePool in pools && TaskLocked in pools && 0 < amount <= TaskBalance(old(rows), task))
      ensures BudgetMoves(old(rows), rows, task, if State() == old(State()) then 0 else -amount)
      ensures (State(), outcome) == UnlockBudget(old(State()), task, amount, key)
    {
      ghost var before, call := State(), DoUnlock(task, amount, key);
      if IssuancePool !in pools || TaskLocked !in pools {
        outcome := Refused(NoAccount);
      } else {
        var existing := FindKeyed(rows, NormaliseKey(key), Unlock);
        if existing.Some? {
          var r := rows[existing.value];
          var same := r.amount == amount && r.source == Some(TaskLocked) && r.target == Some(IssuancePool) &&
                      r.task == Some(task);
          outcome := if same then Posted(existing.value) else Refused(KeyConflict);
        } else {
          var remaining := TaskBalance(rows, task);
          if amount <= 0 || amount > remaining {
            outcome := Refused(Insufficient);
          } else {
            outcome := PostCreditTransaction(UnlockRow(task, amount, NormaliseKey(key)));
          }
        }
      }
      assert (State(), outcome) == Step(before, call);
      assert Lawful(before, call, State()) by { StepIsLawful(before, call); }
      UnlockServes(before, task, amount, key);
    }

    method PostTaskReward(task: string, member: string, amount: int, entry: string, genesis: bool)
      returns (outcome: Outcome)
      requires Valid()
      modifies this`rows
      ensures Valid() && Lawful(old(State()), DoReward(task, member, amount, entry, genesis), State())
      ensures Served(old(State()), State(), outcome, Some(RewardKey(entry)),
                     Some(if genesis then IssuancePool else TaskLocked), Some(Holder(member)), amount,
                     IssuancePool in pools && amount > 0 &&
                     (!genesis ==> TaskLocked in pools && amount <= TaskBalance(old(rows), task)))
      ensures BudgetMoves(old(rows), rows, task, if State() == old(State()) || genesis then 0 else -amount)
      ensures (State(), outcome) == Reward(old(State()), task, member, amount, entry, genesis)
    {
      ghost var before, call := State(), DoReward(task, member, amount, entry, genesis);
      if (!genesis && TaskLocked !in pools) || IssuancePool !in pools {
        outcome := Refused(NoAccount);
      } else {
        var t := RewardRow(task, member, amount, entry, genesis);
        var existing := FindKeyed(rows, t.key, TaskReward);
        if existing.Some? {
          var r := rows[existing.value];
          outcome := if SameMovement(r, t) && (genesis ==> r.genesis) then Posted(existing.value) else Refused(KeyConflict);
        } else if !genesis && TaskBalance(rows, task) < amount {
          outcome := Refused(Insufficient);
        } else {
          outcome := PostCreditTransaction(t);
        }
      }
      assert (State(), outcome) == Step(before, call);
      assert Lawful(before, call, State()) by { StepIsLawful(before, call); }
      RewardServes(before, task, member, amount, entry, genesis);
    }

    method TransferMemberCredits(from: string, to: string, amount: int, key: Option<string>)
      returns (outcome: Outcome)
      requires Valid()
      modifies this`rows
      ensures Valid() && Lawful(old(State()), DoTransfer(from, to, amount, key), State())
      ensures Served(old(State()), State(), outcome, NormaliseKey(key), Some(Holder(from)), Some(Holder(to)), amount,
                     from != to && 0 < amount <= Balance(old(rows), Holder(from)))
      ensures (State(), outcome) == TransferCredits(old(State()), from, to, amount, key)
    {
      ghost var before, call := State(), DoTransfer(from, to, amount, key);
      if amount <= 0 {
        outcome := Refused(BadAmount);
      } else if from == to {
        outcome := Refused(SelfTransfer);
      } else {
        var existing := FindKeyed(rows, NormaliseKey(key), Transfer);
        if existing.Some? {
          var r := rows[existing.value];
          var same := r.amount == amount && r.source == Some(Holder(from)) && r.target == Some(Holder(to));
          outcome := if same then Posted(existing.value) else Refused(KeyConflict);
        } else {
          var current := Balance(rows, Holder(from));
          if current <= 0 || current - amount < 0 {
            outcome := Refused(Insufficient);
          } else {
            outcome := PostCreditTransaction(TransferRow(from, to, amount, NormaliseKey(key)));
          }
        }
      }
      assert (State(), outcome) == Step(before, call);
      assert Lawful(before, call, State()) by { StepIsLawful(before, call); }
      TransferServes(before, from, to, amount, key);
    }

    /** The one movement out of a member's account that no balance limits. */
    method PassiveDeduct(member: string, amount: int, key: Option<string>) returns (outcome: Outcome)
      requires Valid()
      modifies this`rows
      ensures Valid() && Lawful(old(State()), DoDeduct(member, amount, key), State())
      ensures Served(old(State()), State(), outcome, NormaliseKey(key), Some(Holder(member)), Some(Burn), amount,
                     Burn in pools && amount > 0)
      ensures (State(), outcome) == Deduct(old(State()), member, amount, key)
    {
      ghost var before, call := State(), DoDeduct(member, amount, key);
      if amount <= 0 {
        outcome := Refused(BadAmount);
      } else if Burn !in pools {
        outcome := Refused(NoAccount);
      } else {
        outcome := PostCreditTransaction(
          Movement(Correction, Some(Holder(member)), Some(Burn), amount, NormaliseKey(key)));
      }
      assert (State(), outcome) == Step(before, call);
      assert Lawful(before, call, State()) by { StepIsLawful(before, call); }
      DeductServes(before, member, amount, key);
    }

    /** The mirrored row is posted first and pointed at its original afterwards. */
    method ReverseCreditTransaction(original: nat, key: Option<string>) returns (outcome: Outcome)
      requires Valid()
      modifies this`rows
      ensures Valid() && Lawful(old(State()), DoReverse(original, key), State())
      ensures TakenBack(old(State()), State(), outcome, original, key)
      ensures (State(), outcome) == Reverse(old(State()), original, key)
    {
      ghost var before, call := State(), DoReverse(original, key);
      if original >= |rows| {
        outcome := Refused(Missing);
      } else if HasReversal(rows, original) {
        outcome := Refused(AlreadyReversed);
      } else {
        outcome := PostCreditTransaction(ReversalRow(rows[original], NormaliseKey(key)));
        if outcome.Posted? {
          rows := rows[outcome.row := rows[outcome.row].(reverses := Some(original))];
        }
      }
      assert (State(), outcome) == Step(before, call);
      assert Lawful(before, call, State()) by { StepIsLawful(before, call); }
      ReverseTakesBack(before, original, key);
    }

    /** `uid` is the random part of a generated order id. */
    method CreateRedemptionOrder(member: string, amount: int, details: OrderDetails, merchant: Option<Merchant>,
                                 key: Option<string>, uid: string) returns (outcome: Outcome)
      requires Valid() && (NormaliseKey(key).None? ==> FreshUid(State(), uid))
      requires details.merchant == if merchant.Some? then Some(merchant.value.id) else None
      modifies this`rows, this`orders
      ensures Valid() && Lawful(old(State()), DoCreate(member, amount, details, merchant, key, uid), State())
      ensures OrderPlaced(old(State()), State(), outcome, member, amount, details, key)
      ensures OrderAnswers(old(State()), outcome, member, amount, merchant, key, uid)
      ensures (State(), outcome) == CreateOrder(old(State()), member, amount, details, merchant, key, uid)
    {
      ghost var before, call := State(), DoCreate(member, amount, details, merchant, key, uid);
      outcome := OrderLocked(member, amount, details, merchant, key, uid);
      assert (State(), outcome) == Step(before, call);
      assert Lawful(before, call, State()) by { StepIsLawful(before, call); }
      CreatePlaces(before, member, amount, details, merchant, key, uid);
    }

    /** Merchant checks, replay of an earlier keyed order, balance check, and the new order with its freeze. */
    method OrderLocked(member: string, amount: int, details: OrderDetails, merchant: Option<Merchant>,
                       rawKey: Option<string>, uid: string) returns (outcome: Outcome)
      requires details.merchant == if merchant.Some? then Some(merchant.value.id) else None
      modifies this`rows, this`orders
      ensures (State(), outcome) == CreateOrder(old(State()), member, amount, details, merchant, rawKey, uid)
    {
      if amount <= 0 {
        return Refused(BadAmount);
      }
      if merchant.Some? && (merchant.value.kind == MemberMicro || !merchant.value.active) {
        return Refused(BadMerchant);
      }
      var key := NormaliseKey(rawKey);
      var earlier := FindKeyed(rows, key, Consume);
      if earlier.Some? && rows[earlier.value].order.Some? {
        var found := FindOrder(orders, rows[earlier.value].order.value);
        if found.Some? {
          if Frozen !in pools {
            return Refused(NoAccount);
          }
          if !SameOrder(rows[earlier.value], orders[found.value], member, amount, details) {
            return Refused(KeyConflict);
          }
          return Placed(found.value, earlier.value);
        }
      }
      if merchant.Some? && !merchant.value.hasRate {
        return Refused(NoRate);
      }
      var current := Balance(rows, Holder(member));
      if current <= 0 || current < amount {
        return Refused(Insufficient);
      }
      if Frozen !in pools {
        return Refused(NoAccount);
      }
      var id := if key.Some? then DigestId(key.value) else RandomId(uid);
      outcome := FreezeForOrder(member, amount, details, id, if key.Some? then key.value else FreezeKey(id));
    }

    /** The order row is written first; a refused freeze rolls it back. */
    method FreezeForOrder(member: string, amount: int, details: OrderDetails, id: OrderId, key: string)
      returns (outcome: Outcome)
      modifies this`rows, this`orders
      ensures (State(), outcome) == PlaceOrder(old(State()), member, amount, details, id, key)
    {
      var savepoint := orders;
      var found := FindOrder(orders, id);
      var index := |orders|;
      if found.None? {
        orders := orders + [Order(id, member, amount, Pending, details)];
      } else if orders[found.value].member != member {
        return Refused(KeyConflict);
      } else {
        index := found.value;
      }
      outcome := PostCreditTransaction(ConsumeRow(member, amount, key, id));
      if outcome.Posted? {
        outcome := Placed(index, outcome.row);
      } else {
        orders := savepoint;
      }
    }

    /** FROZEN falls by the order's amount, back to its member, exactly when the row was not posted under the key before. */
    method CancelRedemptionOrder(index: nat, key: Option<string>) returns (outcome: Outcome)
      requires Valid()
      modifies this`rows, this`orders
      ensures Valid() && Lawful(old(State()), DoCancel(index, key), State())
      ensures if index >= |old(orders)| then outcome == Refused(Missing) && State() == old(State())
              else OrderClosed(old(State()), State(), outcome, index, UnfreezeRow(old(orders)[index], key), Cancelled,
                               Frozen in pools)
      ensures (State(), outcome) == CancelOrder(old(State()), index, key)
    {
      ghost var before, call := State(), DoCancel(index, key);
      if index >= |orders| {
        outcome := Refused(Missing);
      } else if orders[index].status == Cancelled {
        outcome := Touched(index);
      } else if orders[index].status == Fulfilled || orders[index].status == Reversed {
        outcome := Refused(WrongStatus);
      } else if Frozen !in pools {
        outcome := Refused(NoAccount);
      } else {
        outcome := PostCreditTransaction(UnfreezeRow(orders[index], key));
        if outcome.Posted? {
          orders := orders[index := orders[index].(status := Cancelled)];
          outcome := Touched(index);
        }
      }
      assert (State(), outcome) == Step(before, call);
      assert Lawful(before, call, State()) by { StepIsLawful(before, call); }
      if index < |before.orders| {
        CancelCloses(before, index, key);
      }
    }

    /** The burn and the status are written, and both taken back when the merchant has no settlement rate. */
    method FulfillRedemptionOrder(index: nat, key: Option<string>, rateMissing: bool) returns (outcome: Outcome)
      requires Valid()
      modifies this`rows, this`orders
      ensures Valid() && Lawful(old(State()), DoFulfill(index, key, rateMissing), State())
      ensures if index >= |old(orders)| then outcome == Refused(Missing) && State() == old(State())
              else OrderClosed(old(State()), State(), outcome, index, BurnRow(old(orders)[index], key), Fulfilled,
                               Frozen in pools && Burn in pools &&
                               (old(orders)[index].details.merchant.Some? ==> !rateMissing))
      ensures (State(), outcome) == FulfillOrder(old(State()), index, key, rateMissing)
    {
      ghost var before, call := State(), DoFulfill(index, key, rateMissing);
      outcome := FulfillLocked(index, key, rateMissing);
      assert (State(), outcome) == Step(before, call);
      assert Lawful(before, call, State()) by { StepIsLawful(before, call); }
      if index < |before.orders| {
        FulfillCloses(before, index, key, rateMissing);
      }
    }

    method FulfillLocked(index: nat, key: Option<string>, rateMissing: bool) returns (outcome: Outcome)
      modifies this`rows, this`orders
      ensures (State(), outcome) == FulfillOrder(old(State()), index, key, rateMissing)
    {
      if index >= |orders| {
        return Refused(Missing);
      }
      var o := orders[index];
      if o.status == Fulfilled {
        return Touched(index);
      }
      if o.status == Cancelled || o.status == Reversed {
        return Refused(WrongStatus);
      }
      if Frozen !in pools || Burn !in pools {
        return Refused(NoAccount);
      }
      var savedRows, savedOrders := rows, orders;
      outcome := PostCreditTransaction(BurnRow(o, key));
      if outcome.Posted? {
        orders := orders[index := o.(status := Fulfilled)];
        outcome := Touched(index);
        if o.details.merchant.Some? && rateMissing {
          rows, orders := savedRows, savedOrders;
          outcome := Refused(NoRate);
        }
      }
    }

    /** A dispute keeps the credits frozen: no row is posted and the total of open orders stays. */
    method ReportRedemptionOrderIssue(index: nat) returns (outcome: Outcome)
      requires Valid()
      modifies this`orders
      ensures Valid() && Lawful(old(State()), DoReport(index), State())
      ensures OpenTotal(orders) == OpenTotal(old(orders))
      ensures outcome.Touched? <==> index < |old(orders)| && Open(old(orders)[index])
      ensures outcome.Touched? ==> orders == old(orders)[index := old(orders)[index].(status := Disputed)]
      ensures (State(), outcome) == ReportIssue(old(State()), index)
    {
      ghost var before, call := State(), DoReport(index);
      if index >= |orders| {
        outcome := Refused(Missing);
      } else if orders[index].status == Fulfilled || orders[index].status == Cancelled || orders[index].status == Reversed {
        outcome := Refused(WrongStatus);
      } else {
        OpenTotalUpdate(orders, index, orders[index].(status := Disputed));
        orders := orders[index := orders[index].(status := Disputed)];
        outcome := Touched(index);
      }
      assert (State(), outcome) == Step(before, call);
      assert Lawful(before, call, State()) by { StepIsLawful(before, call); }
    }
  }
}
