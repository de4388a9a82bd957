/** Redemption orders against the frozen account: the two stay equal, and no account goes negative. */
module CreditOrders {
  import opened Common
  import opened CreditLedger
  import opened CreditConservation
  import opened CreditRuns

  // ----- order tables

  lemma OpenTotalAppend(orders: seq<Order>, o: Order)
    ensures OpenTotal(orders + [o]) == OpenTotal(orders) + if Open(o) then o.amount else 0
  {
    assert (orders + [o])[..|orders|] == orders;
  }

  lemma {:induction false} OpenTotalUpdate(orders: seq<Order>, i: nat, o: Order)
    requires i < |orders|
    ensures OpenTotal(orders[i := o]) == OpenTotal(orders)
              - (if Open(orders[i]) then orders[i].amount else 0) + (if Open(o) then o.amount else 0)
  {
    var last := |orders| - 1;
    if i == last {
      assert orders[i := o][..last] == orders[..last];
    } else {
      assert orders[i := o][..last] == orders[..last][i := o];
      OpenTotalUpdate(orders[..last], i, o);
    }
  }

  lemma {:induction false} OpenTotalBoundsEach(orders: seq<Order>, i: nat)
    requires i < |orders| && Open(orders[i])
    requires forall o :: o in orders ==> o.amount > 0
    ensures orders[i].amount <= OpenTotal(orders)
  {
    var last := |orders| - 1;
    assert orders[last] in orders;
    if i < last {
      OpenTotalBoundsEach(orders[..last], i);
    } else {
      OpenTotalNonNegative(orders[..last]);
    }
  }

  lemma {:induction false} OpenTotalNonNegative(orders: seq<Order>)
    requires forall o :: o in orders ==> o.amount > 0
    ensures OpenTotal(orders) >= 0
  {
    if orders != [] {
      assert orders[|orders| - 1] in orders;
      OpenTotalNonNegative(orders[..|orders| - 1]);
    }
  }

  ghost predicate DistinctIds(orders: seq<Order>) {
    forall i, j :: 0 <= i < j < |orders| ==> orders[i].id != orders[j].id
  }

  ghost predicate HasOrder(orders: seq<Order>, id: OrderId) {
    exists i :: 0 <= i < |orders| && orders[i].id == id
  }

  ghost predicate HasConsumeKey(rows: seq<Row>, key: string) {
    exists i :: 0 <= i < |rows| && rows[i].kind == Consume && rows[i].key == Some(key)
  }

  /** Orders and the rows that froze their credits refer to each other. */
  ghost predicate OrdersKept(l: Ledger) {
    && DistinctIds(l.orders)
    && (forall o :: o in l.orders ==> o.amount > 0)
    && (forall r :: r in l.rows && r.kind == Consume ==> r.order.Some? && HasOrder(l.orders, r.order.value))
    && (forall o :: o in l.orders && o.id.DigestId? ==> HasConsumeKey(l.rows, o.id.key))
  }

  // ----- the frozen account

  /** Credits enter FROZEN only by a freeze and leave it only when an order ends. */
  predicate FrozenShaped(r: Row) {
    && (r.target == Some(Frozen) <==> r.kind == Consume)
    && (r.source == Some(Frozen) <==> r.kind == Unfreeze || r.kind == BurnOff)
  }

  ghost predicate FrozenKept(l: Ledger) {
    && BudgetsKept(l)
    && OrdersKept(l)
    && (forall r :: r in l.rows ==> FrozenShaped(r))
    && Balance(l.rows, Frozen) == OpenTotal(l.orders)
    && forall a :: Balance(l.rows, a) >= 0
  }

  /** The requested closing row is already on the books under its key, so that nothing would be posted. */
  predicate Clashes(l: Ledger, t: Row) {
    t.key.Some? && FindKey(l.rows, t.key.value).Some? &&
    SameMovement(l.rows[FindKey(l.rows, t.key.value).value], t)
  }

  /** A generated order id has been used by no order and by no key before. */
  predicate FreshUid(l: Ledger, uid: string) {
    FindOrder(l.orders, RandomId(uid)).None? && FindKey(l.rows, FreezeKey(RandomId(uid))).None?
  }

  /** The steps the frozen-balance law is about. */
  predicate Ordinary(l: Ledger, c: Command) {
    match c
    case DoDeduct(_, _, _) => false
    case DoReverse(_, _) => false
    case DoReward(_, _, _, _, genesis) => !genesis
    case DoCreate(_, _, _, _, key, uid) => NormaliseKey(key).None? ==> FreshUid(l, uid)
    case _ => true
  }

  predicate KeyNotShared(l: Ledger, c: Command) {
    match c
    case DoCancel(i, key) => i < |l.orders| && Open(l.orders[i]) ==> !Clashes(l, UnfreezeRow(l.orders[i], key))
    case DoFulfill(i, key, _) => i < |l.orders| && Open(l.orders[i]) ==> !Clashes(l, BurnRow(l.orders[i], key))
    case _ => true
  }

  /** The row part of the invariant, for any funded row posted as new. */
  lemma AppendKeepsNonNegative(l: Ledger, c: Command)
    requires FrozenKept(l) && Ordinary(l, c) && Requested(l, c).Some? && Funded(l, c)
    requires Requested(l, c).value.amount > 0
    ensures var t := Requested(l, c).value;
            && FrozenShaped(t)
            && (forall a :: Balance(l.rows + [t], a) >= 0)
            && (forall a :: Balance(l.rows + [t], a) == Balance(l.rows, a) + Delta(t, a))
  {
    var t := Requested(l, c).value;
    Append(l.rows, t);
    match c
    case DoUnlock(task, _, _) => TaskWithinAccount(l.rows, task);
    case DoReward(task, _, _, _, _) => TaskWithinAccount(l.rows, task);
    case DoCancel(i, _) => OpenTotalBoundsEach(l.orders, i);
    case DoFulfill(i, _, _) => OpenTotalBoundsEach(l.orders, i);
    case _ =>
  }

  lemma OtherStepsLeaveOrders(l: Ledger, c: Command)
    requires !c.DoCreate? && !c.DoCancel? && !c.DoFulfill? && !c.DoReport?
    ensures Step(l, c).0.orders == l.orders
  {
    match c
    case DoLock(task, amount, key) => LockPosts(l, task, amount, key);
    case DoUnlock(task, amount, key) => UnlockPosts(l, task, amount, key);
    case DoReward(task, member, amount, entry, genesis) => RewardPosts(l, task, member, amount, entry, genesis);
    case DoTransfer(from, to, amount, key) => TransferPosts(l, from, to, amount, key);
    case _ =>
  }

  /** Steps that post nothing about orders. */
  lemma OtherStepKeepsFrozen(l: Ledger, c: Command)
    requires FrozenKept(l) && Ordinary(l, c)
    requires !c.DoCreate? && !c.DoCancel? && !c.DoFulfill? && !c.DoReport?
    ensures FrozenKept(Step(l, c).0)
  {
    StepKeepsBudgets(l, c);
    StepPosts(l, c);
    OtherStepsLeaveOrders(l, c);
    var after := Step(l, c).0;
    if after.rows != l.rows {
      var t := Requested(l, c).value;
      AppendKeepsNonNegative(l, c);
      MoreRowsKeepOrders(l, t);
      assert OrdersKept(after) by {
        assert after == Ledger(l.rows + [t], l.orders, after.pools);
      }
    }
  }

  lemma MoreRowsKeepOrders(l: Ledger, t: Row)
    requires OrdersKept(l) && t.kind != Consume
    ensures OrdersKept(l.(rows := l.rows + [t]))
  {
    forall o | o in l.orders && o.id.DigestId? ensures HasConsumeKey(l.rows + [t], o.id.key) {
      var i :| 0 <= i < |l.rows| && l.rows[i].kind == Consume && l.rows[i].key == Some(o.id.key);
      assert (l.rows + [t])[i] == l.rows[i];
    }
  }

  lemma StatusChangeKeepsOrders(l: Ledger, i: nat, status: OrderStatus)
    requires OrdersKept(l) && i < |l.orders|
    ensures OrdersKept(l.(orders := l.orders[i := l.orders[i].(status := status)]))
  {
    var orders := l.orders[i := l.orders[i].(status := status)];
    forall o | o in orders ensures o.amount > 0 && (o.id.DigestId? ==> HasConsumeKey(l.rows, o.id.key)) {
      var k :| 0 <= k < |orders| && orders[k] == o;
      assert l.orders[k] in l.orders;
    }
    forall r | r in l.rows && r.kind == Consume ensures HasOrder(orders, r.order.value) {
      var k :| 0 <= k < |l.orders| && l.orders[k].id == r.order.value;
      assert orders[k].id == r.order.value;
    }
  }

  lemma ReportKeepsFrozen(l: Ledger, i: nat)
    requires FrozenKept(l)
    ensures FrozenKept(ReportIssue(l, i).0)
  {
    if i < |l.orders| && Open(l.orders[i]) {
      StatusChangeKeepsOrders(l, i, Disputed);
      OpenTotalUpdate(l.orders, i, l.orders[i].(status := Disputed));
    }
  }

  // ----- closing an order

  /**
   * An open order that is closed keeps FROZEN equal to the open total exactly when its closing row
   * was not already posted under the chosen key.
   */
  lemma CloseKeepsFrozenIff(l: Ledger, i: nat, t: Row, status: OrderStatus)
    requires i < |l.orders| && Open(l.orders[i]) && l.orders[i].amount > 0
    requires Balance(l.rows, Frozen) == OpenTotal(l.orders)
    requires t.source == Some(Frozen) && t.target != Some(Frozen) && t.amount == l.orders[i].amount
    requires status == Cancelled || status == Fulfilled
    requires CloseOrder(l, i, t, status).1.Touched?
    ensures var after := CloseOrder(l, i, t, status).0;
            Balance(after.rows, Frozen) == OpenTotal(after.orders) <==> !Clashes(l, t)
  {
    OpenTotalUpdate(l.orders, i, l.orders[i].(status := status));
    var after := CloseOrder(l, i, t, status).0;
    if Clashes(l, t) {
      assert after.rows == l.rows;
    } else {
      assert after.rows == l.rows + [t];
      FrozenAfter(l.rows, t);
    }
  }

  lemma FrozenAfter(rows: seq<Row>, t: Row)
    requires t.source == Some(Frozen) && t.target != Some(Frozen)
    ensures Balance(rows + [t], Frozen) == Balance(rows, Frozen) - t.amount
  {
    Append(rows, t);
  }

  lemma CancelKeepsFrozenIff(l: Ledger, i: nat, key: Option<string>)
    requires FrozenKept(l) && i < |l.orders| && Open(l.orders[i])
    requires CancelOrder(l, i, key).1.Touched?
    ensures var after := CancelOrder(l, i, key).0;
            Balance(after.rows, Frozen) == OpenTotal(after.orders) <==> !Clashes(l, UnfreezeRow(l.orders[i], key))
  {
    assert l.orders[i] in l.orders;
    CloseKeepsFrozenIff(l, i, UnfreezeRow(l.orders[i], key), Cancelled);
  }

  lemma FulfillKeepsFrozenIff(l: Ledger, i: nat, key: Option<string>, rateMissing: bool)
    requires FrozenKept(l) && i < |l.orders| && Open(l.orders[i])
    requires FulfillOrder(l, i, key, rateMissing).1.Touched?
    ensures var after := FulfillOrder(l, i, key, rateMissing).0;
            Balance(after.rows, Frozen) == OpenTotal(after.orders) <==> !Clashes(l, BurnRow(l.orders[i], key))
  {
    assert l.orders[i] in l.orders;
    CloseKeepsFrozenIff(l, i, BurnRow(l.orders[i], key), Fulfilled);
  }

  /** Two equal open orders of one member, cancelled under one caller key: the second unfreezes nothing. */
  lemma SharedCancelKeyFails(l: Ledger, i: nat, j: nat, key: Option<string>)
    requires FrozenKept(l) && Frozen in l.pools && i < |l.orders| && j < |l.orders| && i != j
    requires Open(l.orders[i]) && Open(l.orders[j])
    requires l.orders[i].member == l.orders[j].member && l.orders[i].amount == l.orders[j].amount
    requires NormaliseKey(key).Some? && KeyUnused(l.rows, key)
    ensures var first := CancelOrder(l, i, key).0;
            var second := CancelOrder(first, j, key).0;
            && CancelOrder(first, j, key).1.Touched?
            && second.rows == first.rows
            && Balance(second.rows, Frozen) != OpenTotal(second.orders)
  {
    assert l.orders[i] in l.orders;
    var t := UnfreezeRow(l.orders[i], key);
    var first := CancelOrder(l, i, key).0;
    assert first.rows == l.rows + [t];
    CancelKeepsFrozenIff(l, i, key);
    FindKeyAtEnd(l.rows, t);
    CloseKeepsFrozenIff(first, j, UnfreezeRow(first.orders[j], key), Cancelled);
  }

  lemma FindKeyAtEnd(rows: seq<Row>, t: Row)
    requires t.key.Some? && FindKey(rows, t.key.value).None?
    ensures FindKey(rows + [t], t.key.value) == Some(|rows|)
  {
    assert (rows + [t])[..|rows|] == rows;
  }

  lemma CloseEffect(l: Ledger, c: Command)
    requires c.DoCancel? || c.DoFulfill?
    ensures var after := Step(l, c).0;
            || after == l
            || (&& Step(l, c).1.Touched? && Requested(l, c).Some? && Funded(l, c)
                && after.orders == l.orders[c.order :=
                     l.orders[c.order].(status := if c.DoCancel? then Cancelled else Fulfilled)])
  {
  }

  lemma CloseKeepsFrozen(l: Ledger, c: Command)
    requires FrozenKept(l) && KeyNotShared(l, c)
    requires c.DoCancel? || c.DoFulfill?
    ensures FrozenKept(Step(l, c).0)
  {
    var after := Step(l, c).0;
    CloseEffect(l, c);
    if after != l {
      var i := c.order;
      if c.DoCancel? {
        CancelKeepsFrozenIff(l, i, c.key);
      } else {
        FulfillKeepsFrozenIff(l, i, c.key, c.rateMissing);
      }
      StepKeepsBudgets(l, c);
      ClosedRowsKeep(l, c);
    }
  }

  lemma ClosedRowsKeep(l: Ledger, c: Command)
    requires FrozenKept(l) && (c.DoCancel? || c.DoFulfill?) && Step(l, c).0 != l
    ensures OrdersKept(Step(l, c).0)
    ensures forall r :: r in Step(l, c).0.rows ==> FrozenShaped(r)
    ensures forall a :: Balance(Step(l, c).0.rows, a) >= 0
  {
    var after := Step(l, c).0;
    var i := c.order;
    var status := if c.DoCancel? then Cancelled else Fulfilled;
    CloseEffect(l, c);
    StepPosts(l, c);
    if after.rows != l.rows {
      var t := Requested(l, c).value;
      AppendKeepsNonNegative(l, c);
      MoreRowsKeepOrders(l, t);
      StatusChangeKeepsOrders(l.(rows := l.rows + [t]), i, status);
      assert after == l.(rows := l.rows + [t], orders := l.orders[i := l.orders[i].(status := status)], pools := after.pools);
    } else {
      StatusChangeKeepsOrders(l, i, status);
    }
  }

  // ----- placing an order

  /** The order an earlier keyed call placed, when there is one. */
  function EarlierOrder(l: Ledger, rawKey: Option<string>): Option<nat> {
    var earlier := FindKeyed(l.rows, NormaliseKey(rawKey), Consume);
    if earlier.Some? && l.rows[earlier.value].order.Some?
    then FindOrder(l.orders, l.rows[earlier.value].order.value) else None
  }

  lemma CreateEffect(l: Ledger, c: Command)
    requires c.DoCreate?
    ensures || Step(l, c).0 == l
            || (&& c.amount > 0 && EarlierOrder(l, c.key).None?
                && Step(l, c) == PlaceOrder(l, c.member, c.amount, DetailsOf(c), NewOrderId(c.key, c.uid),
                                            ClosingKey(c.key, FreezeKey(NewOrderId(c.key, c.uid)))))
  {
  }

  lemma KeyedFreezeHasOrder(l: Ledger, key: Option<string>)
    requires OrdersKept(l)
    ensures FindKeyed(l.rows, NormaliseKey(key), Consume).Some? ==> EarlierOrder(l, key).Some?
  {
    var at := FindKeyed(l.rows, NormaliseKey(key), Consume);
    if at.Some? {
      assert l.rows[at.value] in l.rows;
    }
  }

  /** A call that goes on to place an order always places a new one. */
  lemma PlacedIdIsNew(l: Ledger, key: Option<string>, uid: string)
    requires KeysDistinct(l.rows) && OrdersKept(l) && EarlierOrder(l, key).None?
    requires NormaliseKey(key).None? ==> FreshUid(l, uid)
    ensures FindOrder(l.orders, NewOrderId(key, uid)).None?
    ensures FindKeyed(l.rows, Some(ClosingKey(key, FreezeKey(NewOrderId(key, uid)))), Consume).None?
  {
    var k := NormaliseKey(key);
    if k.Some? {
      KeyedFreezeHasOrder(l, key);
      var found := FindOrder(l.orders, DigestId(k.value));
      if found.Some? {
        assert l.orders[found.value] in l.orders;
        var i :| 0 <= i < |l.rows| && l.rows[i].kind == Consume && l.rows[i].key == Some(k.value);
        FindKeyUnique(l.rows, i);
        assert false;
      }
    }
  }

  lemma PlaceNew(l: Ledger, member: string, amount: int, details: OrderDetails, id: OrderId, key: string)
    requires FindOrder(l.orders, id).None? && FindKeyed(l.rows, Some(key), Consume).None?
    ensures var after := PlaceOrder(l, member, amount, details, id, key).0;
            || after == l
            || after == Ledger(l.rows + [ConsumeRow(member, amount, key, id)],
                               l.orders + [Order(id, member, amount, Pending, details)], l.pools)
  {
  }

  lemma CreateKeepsFrozen(l: Ledger, c: Command)
    requires FrozenKept(l) && c.DoCreate? && Ordinary(l, c)
    ensures FrozenKept(Step(l, c).0)
  {
    var after := Step(l, c).0;
    CreateEffect(l, c);
    if after != l {
      var id := NewOrderId(c.key, c.uid);
      var key := ClosingKey(c.key, FreezeKey(id));
      PlacedIdIsNew(l, c.key, c.uid);
      PlaceNew(l, c.member, c.amount, DetailsOf(c), id, key);
      StepKeepsBudgets(l, c);
      StepPosts(l, c);
      PlacedKeepsFrozen(l, c, after, Order(id, c.member, c.amount, Pending, DetailsOf(c)));
    }
  }

  lemma PlacedKeepsFrozen(l: Ledger, c: Command, after: Ledger, o: Order)
    requires FrozenKept(l) && c.DoCreate? && Ordinary(l, c) && Funded(l, c) && c.amount > 0 && BudgetsKept(after)
    requires o.id == NewOrderId(c.key, c.uid) && FindOrder(l.orders, o.id).None?
    requires o.amount == c.amount && o.status == Pending
    requires after == Ledger(l.rows + [Requested(l, c).value], l.orders + [o], l.pools)
    ensures FrozenKept(after)
  {
    AppendKeepsNonNegative(l, c);
    OpenTotalAppend(l.orders, o);
    PlacingKeepsOrders(l, Requested(l, c).value, o);
  }

  lemma PlacingKeepsOrders(l: Ledger, t: Row, o: Order)
    requires OrdersKept(l) && FindOrder(l.orders, o.id).None? && o.amount > 0
    requires t.kind == Consume && t.order == Some(o.id) && (o.id.DigestId? ==> t.key == Some(o.id.key))
    ensures OrdersKept(Ledger(l.rows + [t], l.orders + [o], l.pools))
  {
    var rows, orders := l.rows + [t], l.orders + [o];
    forall x | x in orders && x.id.DigestId? ensures HasConsumeKey(rows, x.id.key) {
      if x in l.orders {
        var i :| 0 <= i < |l.rows| && l.rows[i].kind == Consume && l.rows[i].key == Some(x.id.key);
        assert rows[i] == l.rows[i];
      } else {
        assert rows[|l.rows|] == t;
      }
    }
    forall r | r in rows && r.kind == Consume ensures r.order.Some? && HasOrder(orders, r.order.value) {
      if r in l.rows {
        var k :| 0 <= k < |l.orders| && l.orders[k].id == r.order.value;
        assert orders[k] == l.orders[k];
      } else {
        assert orders[|l.orders|] == o;
      }
    }
  }

  // ----- runs

  lemma StepKeepsFrozen(l: Ledger, c: Command)
    requires FrozenKept(l) && Ordinary(l, c) && KeyNotShared(l, c)
    ensures FrozenKept(Step(l, c).0)
  {
    match c
    case DoCreate(_, _, _, _, _, _) => CreateKeepsFrozen(l, c);
    case DoCancel(_, _) => CloseKeepsFrozen(l, c);
    case DoFulfill(_, _, _) => CloseKeepsFrozen(l, c);
    case DoReport(i) => ReportKeepsFrozen(l, i);
    case _ => OtherStepKeepsFrozen(l, c);
  }

  ghost predicate OrdinaryRun(cs: seq<Command>) {
    forall i :: 0 <= i < |cs| ==> Ordinary(Run(EmptyLedger, cs[..i]), cs[i])
  }

  ghost predicate NoSharedKeys(cs: seq<Command>) {
    forall i :: 0 <= i < |cs| ==> KeyNotShared(Run(EmptyLedger, cs[..i]), cs[i])
  }

  /**
   * After every run of issue, lock, unlock, budgeted reward, transfer and redemption steps in which no
   * closing key is shared, FROZEN holds exactly the credits of the open orders and no account is negative.
   */
  lemma {:induction false} FrozenEqualsOpenOrders(cs: seq<Command>)
    requires OrdinaryRun(cs) && NoSharedKeys(cs)
    ensures FrozenKept(Run(EmptyLedger, cs))
  {
    if cs != [] {
      var n := |cs| - 1;
      forall i | 0 <= i < n
        ensures Ordinary(Run(EmptyLedger, cs[..n][..i]), cs[..n][i])
        ensures KeyNotShared(Run(EmptyLedger, cs[..n][..i]), cs[..n][i])
      {
        assert cs[..n][..i] == cs[..i];
      }
      FrozenEqualsOpenOrders(cs[..n]);
      StepKeepsFrozen(Run(EmptyLedger, cs[..n]), cs[n]);
    }
  }

  // ----- default keys

  /** Every closing row carries the default key of an order that has that final status. */
  ghost predicate DefaultsKept(l: Ledger) {
    && DistinctIds(l.orders)
    && (forall r :: r in l.rows && r.kind == Unfreeze ==> ClosedUnder(l.orders, r, Cancelled))
    && (forall r :: r in l.rows && r.kind == BurnOff ==> ClosedUnder(l.orders, r, Fulfilled))
  }

  ghost predicate ClosedUnder(orders: seq<Order>, r: Row, status: OrderStatus) {
    exists i :: 0 <= i < |orders| && orders[i].status == status &&
                r.key == Some(if status == Cancelled then UnfreezeKey(orders[i].id) else BurnKey(orders[i].id))
  }

  predicate NoCallerKey(c: Command) {
    match c
    case DoCancel(_, key) => NormaliseKey(key).None?
    case DoFulfill(_, key, _) => NormaliseKey(key).None?
    case _ => true
  }

  lemma DefaultKeysInjective(a: OrderId, b: OrderId)
    ensures UnfreezeKey(a) == UnfreezeKey(b) ==> a == b
    ensures BurnKey(a) == BurnKey(b) ==> a == b
  {
    DropPrefix("redemption-unfreeze:", OrderText(a));
    DropPrefix("redemption-unfreeze:", OrderText(b));
    DropPrefix("redemption-burn:", OrderText(a));
    DropPrefix("redemption-burn:", OrderText(b));
    if OrderText(a) == OrderText(b) {
      assert OrderText(a)[3] == OrderText(b)[3];
      assert OrderText(a)[4..] == if a.DigestId? then a.key else a.uid;
      assert OrderText(b)[4..] == if b.DigestId? then b.key else b.uid;
    }
  }

  lemma DropPrefix(prefix: string, s: string)
    ensures (prefix + s)[|prefix|..] == s
  {
  }

  lemma DefaultRowNeverClashes(l: Ledger, i: nat, t: Row, status: OrderStatus)
    requires DefaultsKept(l) && i < |l.orders| && Open(l.orders[i])
    requires || (status == Cancelled && t.kind == Unfreeze && t.key == Some(UnfreezeKey(l.orders[i].id)))
             || (status == Fulfilled && t.kind == BurnOff && t.key == Some(BurnKey(l.orders[i].id)))
    ensures !Clashes(l, t)
  {
    if Clashes(l, t) {
      var r := l.rows[FindKey(l.rows, t.key.value).value];
      assert r in l.rows;
      var k :| 0 <= k < |l.orders| && l.orders[k].status == status &&
               r.key == Some(if status == Cancelled then UnfreezeKey(l.orders[k].id) else BurnKey(l.orders[k].id));
      DefaultKeysInjective(l.orders[i].id, l.orders[k].id);
    }
  }

  lemma DefaultKeyNeverClashes(l: Ledger, c: Command)
    requires DefaultsKept(l) && NoCallerKey(c)
    ensures KeyNotShared(l, c)
  {
    if (c.DoCancel? || c.DoFulfill?) && c.order < |l.orders| && Open(l.orders[c.order]) {
      var o := l.orders[c.order];
      if c.DoCancel? {
        DefaultRowNeverClashes(l, c.order, UnfreezeRow(o, c.key), Cancelled);
      } else {
        DefaultRowNeverClashes(l, c.order, BurnRow(o, c.key), Fulfilled);
      }
    }
  }

  /** Old orders change in their status alone, and not once they are closed. */
  ghost predicate OrdersProgress(orders: seq<Order>, later: seq<Order>) {
    && |orders| <= |later|
    && forall i :: 0 <= i < |orders| ==>
         later[i] == orders[i].(status := later[i].status) && (!Open(orders[i]) ==> later[i].status == orders[i].status)
  }

  lemma StepProgresses(l: Ledger, c: Command)
    requires DistinctIds(l.orders)
    ensures OrdersProgress(l.orders, Step(l, c).0.orders) && DistinctIds(Step(l, c).0.orders)
  {
    if c.DoCreate? {
      CreateEffect(l, c);
    } else if !c.DoCancel? && !c.DoFulfill? && !c.DoReport? {
      OtherStepsLeaveOrders(l, c);
    }
  }

  lemma StepKeepsDefaults(l: Ledger, c: Command)
    requires DefaultsKept(l) && NoCallerKey(c) && !c.DoReverse?
    ensures DefaultsKept(Step(l, c).0)
  {
    var after := Step(l, c).0;
    StepProgresses(l, c);
    StepPosts(l, c);
    forall r | r in after.rows && (r.kind == Unfreeze || r.kind == BurnOff)
      ensures ClosedUnder(after.orders, r, if r.kind == Unfreeze then Cancelled else Fulfilled)
    {
      var status := if r.kind == Unfreeze then Cancelled else Fulfilled;
      if r in l.rows {
        assert ClosedUnder(l.orders, r, status);
        var i :| 0 <= i < |l.orders| && l.orders[i].status == status &&
                 r.key == Some(if status == Cancelled then UnfreezeKey(l.orders[i].id) else BurnKey(l.orders[i].id));
        assert after.orders[i].status == status && after.orders[i].id == l.orders[i].id;
      } else {
        assert r == Requested(l, c).value;
        assert after.orders[c.order].status == status;
      }
    }
  }

  /** With default closing keys the law needs no further condition: they are never shared. */
  lemma {:induction false} DefaultKeysKeepFrozen(cs: seq<Command>)
    requires OrdinaryRun(cs)
    requires forall c :: c in cs ==> NoCallerKey(c)
    ensures FrozenKept(Run(EmptyLedger, cs)) && DefaultsKept(Run(EmptyLedger, cs))
  {
    if cs != [] {
      var n := |cs| - 1;
      forall i | 0 <= i < n ensures Ordinary(Run(EmptyLedger, cs[..n][..i]), cs[..n][i]) {
        assert cs[..n][..i] == cs[..i];
      }
      DefaultKeysKeepFrozen(cs[..n]);
      var l := Run(EmptyLedger, cs[..n]);
      DefaultKeyNeverClashes(l, cs[n]);
      StepKeepsFrozen(l, cs[n]);
      StepKeepsDefaults(l, cs[n]);
    }
  }
}
