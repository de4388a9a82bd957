/** Which keys can meet: the keys the services make up never stand in each other's way, and a used key tells its call. */
module CreditKeys {
  import opened Common
  import opened CreditLedger
  import opened CreditConservation
  import opened CreditRuns
  import opened CreditOrders
  import opened CreditEffects

  // ----- the keys the services make up

  /** Keys of this form are made up by the services; callers had better not use them. */
  predicate Reserved(key: string) {
    "task-reward:" <= key || "redemption-" <= key
  }

  lemma RewardKeyTells(a: string, b: string)
    ensures RewardKey(a) == "task-reward:" + a
    ensures RewardKey(a) == RewardKey(b) ==> a == b
  {
    DropPrefix("task-reward:", a);
    DropPrefix("task-reward:", b);
  }

  lemma OrderTextTells(a: OrderId, b: OrderId)
    ensures OrderText(a) == OrderText(b) ==> a == b
  {
    if OrderText(a) == OrderText(b) {
      assert OrderText(a)[3] == OrderText(b)[3];
      assert OrderText(a)[4..] == if a.DigestId? then a.key else a.uid;
      assert OrderText(b)[4..] == if b.DigestId? then b.key else b.uid;
    }
  }

  lemma FreezeKeyTells(a: OrderId, b: OrderId)
    ensures FreezeKey(a) == FreezeKey(b) ==> a == b
  {
    DropPrefix("redemption-freeze:", OrderText(a));
    DropPrefix("redemption-freeze:", OrderText(b));
    OrderTextTells(a, b);
  }

  /** Keys of different services differ, whatever they are made of. */
  lemma ServicesDiffer(entry: string, a: OrderId, b: OrderId)
    ensures RewardKey(entry) != FreezeKey(a) && RewardKey(entry) != UnfreezeKey(a) && RewardKey(entry) != BurnKey(a)
    ensures FreezeKey(a) != UnfreezeKey(b) && FreezeKey(a) != BurnKey(b) && UnfreezeKey(a) != BurnKey(b)
    ensures Reserved(RewardKey(entry)) && Reserved(FreezeKey(a)) && Reserved(UnfreezeKey(a)) && Reserved(BurnKey(a))
  {
    assert RewardKey(entry)[0] == 't' && FreezeKey(a)[0] == 'r' && UnfreezeKey(a)[0] == 'r' && BurnKey(a)[0] == 'r';
    assert FreezeKey(a)[11] == 'f' && UnfreezeKey(a)[11] == 'u' && UnfreezeKey(b)[11] == 'u' && BurnKey(b)[11] == 'b';
    assert RewardKey(entry)[..12] == "task-reward:";
    assert FreezeKey(a)[..11] == "redemption-" && UnfreezeKey(a)[..11] == "redemption-" && BurnKey(a)[..11] == "redemption-";
  }

  // ----- what a reserved key on the books says

  function CallerKey(c: Command): Option<string> {
    match c
    case DoIssue(_, key) => NormaliseKey(key)
    case DoLock(_, _, key) => NormaliseKey(key)
    case DoUnlock(_, _, key) => NormaliseKey(key)
    case DoTransfer(_, _, _, key) => NormaliseKey(key)
    case DoDeduct(_, _, key) => NormaliseKey(key)
    case DoReverse(_, key) => NormaliseKey(key)
    case DoCreate(_, _, _, _, key, _) => NormaliseKey(key)
    case DoCancel(_, key) => NormaliseKey(key)
    case DoFulfill(_, key, _) => NormaliseKey(key)
    case _ => None
  }

  /** The caller leaves reserved keys alone. */
  predicate Polite(c: Command) {
    CallerKey(c).Some? ==> !Reserved(CallerKey(c).value)
  }

  ghost predicate FrozenUnder(orders: seq<Order>, r: Row) {
    exists i :: 0 <= i < |orders| && r.key == Some(FreezeKey(orders[i].id))
  }

  /** A reserved key belongs to the row's own ledger entry, or to an order that was frozen, cancelled or fulfilled under it. */
  ghost predicate KeyTied(orders: seq<Order>, r: Row) {
    r.key.Some? && Reserved(r.key.value) ==>
      || (r.entry.Some? && r.key == Some(RewardKey(r.entry.value)))
      || FrozenUnder(orders, r) || ClosedUnder(orders, r, Cancelled) || ClosedUnder(orders, r, Fulfilled)
  }

  ghost predicate KeysTied(l: Ledger) {
    DistinctIds(l.orders) && forall r :: r in l.rows ==> KeyTied(l.orders, r)
  }

  lemma ProgressKeepsTied(orders: seq<Order>, later: seq<Order>, r: Row)
    requires OrdersProgress(orders, later) && KeyTied(orders, r)
    ensures KeyTied(later, r)
  {
    if FrozenUnder(orders, r) {
      var i :| 0 <= i < |orders| && r.key == Some(FreezeKey(orders[i].id));
      assert later[i].id == orders[i].id;
    } else if ClosedUnder(orders, r, Cancelled) {
      ClosedStays(orders, later, r, Cancelled);
    } else if ClosedUnder(orders, r, Fulfilled) {
      ClosedStays(orders, later, r, Fulfilled);
    }
  }

  lemma ClosedStays(orders: seq<Order>, later: seq<Order>, r: Row, status: OrderStatus)
    requires OrdersProgress(orders, later) && ClosedUnder(orders, r, status) && (status == Cancelled || status == Fulfilled)
    ensures ClosedUnder(later, r, status)
  {
    var i :| 0 <= i < |orders| && orders[i].status == status &&
             r.key == Some(if status == Cancelled then UnfreezeKey(orders[i].id) else BurnKey(orders[i].id));
    assert later[i].status == status && later[i].id == orders[i].id;
  }

  /** The row a polite call posts is tied in the books after the call. */
  lemma PostedIsTied(l: Ledger, c: Command)
    requires DistinctIds(l.orders) && Polite(c) && !c.DoReverse? && Step(l, c).0.rows != l.rows
    ensures Requested(l, c).Some? && Step(l, c).0.rows == l.rows + [Requested(l, c).value]
    ensures KeyTied(Step(l, c).0.orders, Requested(l, c).value)
  {
    StepPosts(l, c);
    match c
    case DoCreate(_, _, _, _, _, _) => CreatedIsTied(l, c);
    case DoCancel(_, _) => ClosingIsTied(l, c);
    case DoFulfill(_, _, _) => ClosingIsTied(l, c);
    case _ =>
  }

  lemma CreatedIsTied(l: Ledger, c: Command)
    requires c.DoCreate? && Polite(c) && Step(l, c).0.rows != l.rows
    ensures KeyTied(Step(l, c).0.orders, Requested(l, c).value)
  {
    CreateEffect(l, c);
    var id := NewOrderId(c.key, c.uid);
    PlacedIsThere(l, c.member, c.amount, DetailsOf(c), id, ClosingKey(c.key, FreezeKey(id)));
  }

  lemma PlacedIsThere(l: Ledger, member: string, amount: int, details: OrderDetails, id: OrderId, key: string)
    requires PlaceOrder(l, member, amount, details, id, key).0.rows != l.rows
    ensures var orders := PlaceOrder(l, member, amount, details, id, key).0.orders;
            exists i :: 0 <= i < |orders| && orders[i].id == id
  {
    var found := FindOrder(l.orders, id);
    var orders := PlaceOrder(l, member, amount, details, id, key).0.orders;
    assert orders[if found.Some? then found.value else |l.orders|].id == id;
  }

  lemma ClosingIsTied(l: Ledger, c: Command)
    requires (c.DoCancel? || c.DoFulfill?) && Polite(c) && Step(l, c).0.rows != l.rows
    ensures Requested(l, c).Some? && KeyTied(Step(l, c).0.orders, Requested(l, c).value)
  {
    CloseEffect(l, c);
    var o, t := l.orders[c.order], Requested(l, c).value;
    assert Step(l, c).0.orders[c.order].id == o.id;
    if CallerKey(c).None? {
      assert ClosedUnder(Step(l, c).0.orders, t, if c.DoCancel? then Cancelled else Fulfilled);
    }
  }

  lemma ReverseKeepsTied(l: Ledger, original: nat, key: Option<string>)
    requires KeysTied(l) && Polite(DoReverse(original, key))
    ensures KeysTied(Reverse(l, original, key).0)
  {
    var after := Reverse(l, original, key).0;
    forall r | r in after.rows ensures KeyTied(after.orders, r) {
      var i :| 0 <= i < |after.rows| && after.rows[i] == r;
      if i < |l.rows| {
        assert KeyTied(l.orders, l.rows[i]);
        assert r.key == l.rows[i].key && r.entry == l.rows[i].entry;
      }
    }
  }

  lemma StepKeepsTied(l: Ledger, c: Command)
    requires KeysTied(l) && Polite(c)
    ensures KeysTied(Step(l, c).0)
  {
    if c.DoReverse? {
      ReverseKeepsTied(l, c.original, c.key);
    } else {
      var after := Step(l, c).0;
      StepProgresses(l, c);
      forall r | r in l.rows ensures KeyTied(after.orders, r) {
        ProgressKeepsTied(l.orders, after.orders, r);
      }
      if after.rows != l.rows {
        PostedIsTied(l, c);
      }
    }
  }

  lemma {:induction false} RunKeepsTied(cs: seq<Command>)
    requires forall c :: c in cs ==> Polite(c)
    ensures KeysTied(Run(EmptyLedger, cs))
  {
    if cs != [] {
      RunKeepsTied(cs[..|cs| - 1]);
      StepKeepsTied(Run(EmptyLedger, cs[..|cs| - 1]), cs[|cs| - 1]);
    }
  }

  // ----- so made-up keys are free when they are needed

  lemma RewardKeyIsFree(l: Ledger, entry: string)
    requires KeysTied(l) && forall r :: r in l.rows ==> r.entry != Some(entry)
    ensures FindKey(l.rows, RewardKey(entry)).None?
  {
    forall i | 0 <= i < |l.rows| ensures l.rows[i].key != Some(RewardKey(entry)) {
      var r := l.rows[i];
      assert r in l.rows && KeyTied(l.orders, r);
      if r.key == Some(RewardKey(entry)) {
        RewardKeyIsNoOrders(l.orders, r, entry);
        RewardKeyTells(entry, r.entry.value);
      }
    }
  }

  lemma RewardKeyIsNoOrders(orders: seq<Order>, r: Row, entry: string)
    requires r.key == Some(RewardKey(entry))
    ensures Reserved(r.key.value)
    ensures !FrozenUnder(orders, r) && !ClosedUnder(orders, r, Cancelled) && !ClosedUnder(orders, r, Fulfilled)
  {
    ServicesDiffer(entry, RandomId(""), RandomId(""));
    forall i | 0 <= i < |orders|
      ensures r.key != Some(FreezeKey(orders[i].id)) && r.key != Some(UnfreezeKey(orders[i].id)) &&
              r.key != Some(BurnKey(orders[i].id))
    {
      ServicesDiffer(entry, orders[i].id, orders[i].id);
    }
  }

  /**
   * In every polite run: a reward for a ledger entry that has no row yet, within its task's remainder, is posted and
   * moves its amount. Rewards for different entries never stand in each other's way.
   */
  lemma NewEntryIsRewarded(cs: seq<Command>, task: string, member: string, amount: int, entry: string, genesis: bool)
    requires forall c :: c in cs ==> Polite(c)
    requires forall r :: r in Run(EmptyLedger, cs).rows ==> r.entry != Some(entry)
    requires IssuancePool in Run(EmptyLedger, cs).pools && TaskLocked in Run(EmptyLedger, cs).pools
    requires 0 < amount && (genesis || amount <= TaskBalance(Run(EmptyLedger, cs).rows, task))
    ensures var l := Run(EmptyLedger, cs);
            Pays(l, Step(l, DoReward(task, member, amount, entry, genesis)),
                 if genesis then IssuancePool else TaskLocked, Holder(member), amount)
  {
    RunKeepsTied(cs);
    RewardIsPosted(Run(EmptyLedger, cs), task, member, amount, entry, genesis);
  }

  /** The call posts, and the amount goes from one account to the other. */
  ghost predicate Pays(l: Ledger, result: (Ledger, Outcome), source: Account, target: Account, amount: int) {
    result.1.Posted? && Moves(l.rows, result.0.rows, Some(source), Some(target), amount)
  }

  lemma RewardIsPosted(l: Ledger, task: string, member: string, amount: int, entry: string, genesis: bool)
    requires KeysTied(l) && (forall r :: r in l.rows ==> r.entry != Some(entry))
    requires IssuancePool in l.pools && TaskLocked in l.pools
    requires 0 < amount && (genesis || amount <= TaskBalance(l.rows, task))
    ensures Pays(l, Step(l, DoReward(task, member, amount, entry, genesis)),
                 if genesis then IssuancePool else TaskLocked, Holder(member), amount)
  {
    RewardKeyIsFree(l, entry);
    RewardPays(l, task, member, amount, entry, genesis);
    StepIsService(l, DoReward(task, member, amount, entry, genesis));
  }

  lemma RewardPays(l: Ledger, task: string, member: string, amount: int, entry: string, genesis: bool)
    requires FindKey(l.rows, RewardKey(entry)).None? && IssuancePool in l.pools && TaskLocked in l.pools
    requires 0 < amount && (genesis || amount <= TaskBalance(l.rows, task))
    ensures Pays(l, Reward(l, task, member, amount, entry, genesis),
                 if genesis then IssuancePool else TaskLocked, Holder(member), amount)
  {
    RewardServes(l, task, member, amount, entry, genesis);
  }

  lemma StepIsService(l: Ledger, c: Command)
    ensures c.DoReward? ==> Step(l, c) == Reward(l, c.task, c.member, c.amount, c.entry, c.genesis)
    ensures c.DoCancel? ==> Step(l, c) == CancelOrder(l, c.order, c.key)
    ensures c.DoFulfill? ==> Step(l, c) == FulfillOrder(l, c.order, c.key, c.rateMissing)
  {
  }

  /** A reward on the books bears its entry, and no later call for another entry meets it. */
  lemma TwoEntriesAreBothRewarded(cs: seq<Command>, task: string, a: string, b: string, amount: int, other: int,
                                  first: string, second: string)
    requires forall c :: c in cs ==> Polite(c)
    requires first != second && amount > 0 && other > 0
    requires forall r :: r in Run(EmptyLedger, cs).rows ==> r.entry != Some(first) && r.entry != Some(second)
    requires IssuancePool in Run(EmptyLedger, cs).pools && TaskLocked in Run(EmptyLedger, cs).pools
    requires amount + other <= TaskBalance(Run(EmptyLedger, cs).rows, task)
    ensures var l := Run(EmptyLedger, cs);
            var once := Step(l, DoReward(task, a, amount, first, false));
            var twice := Step(once.0, DoReward(task, b, other, second, false));
            once.1.Posted? && twice.1.Posted? && TaskBalance(twice.0.rows, task) == TaskBalance(l.rows, task) - amount - other
  {
    var l, c, d := Run(EmptyLedger, cs), DoReward(task, a, amount, first, false), DoReward(task, b, other, second, false);
    NewEntryIsRewarded(cs, task, a, amount, first, false);
    var once := Step(l, c).0;
    assert Run(EmptyLedger, cs + [c]) == once by {
      assert (cs + [c])[..|cs|] == cs;
    }
    RewardWrites(l, task, a, amount, first);
    NewEntryIsRewarded(cs + [c], task, b, other, second, false);
    RewardWrites(once, task, b, other, second);
  }

  lemma RewardWrites(l: Ledger, task: string, member: string, amount: int, entry: string)
    requires Step(l, DoReward(task, member, amount, entry, false)).1.Posted?
    requires forall r :: r in l.rows ==> r.entry != Some(entry)
    ensures var after := Step(l, DoReward(task, member, amount, entry, false)).0;
            && after.pools == l.pools
            && TaskBalance(after.rows, task) == TaskBalance(l.rows, task) - amount
            && forall r :: r in after.rows ==> r in l.rows || r.entry == Some(entry)
  {
    var c, t := DoReward(task, member, amount, entry, false), RewardRow(task, member, amount, entry, false);
    assert Step(l, c) == Reward(l, task, member, amount, entry, false);
    RewardCases(l, task, member, amount, entry, false);
    Append(l.rows, t);
  }

  // ----- open orders can always be closed, and new ones placed, without a key

  lemma ClosingKeyIsFree(l: Ledger, i: nat)
    requires KeysTied(l) && i < |l.orders| && Open(l.orders[i])
    ensures FindKey(l.rows, UnfreezeKey(l.orders[i].id)).None? && FindKey(l.rows, BurnKey(l.orders[i].id)).None?
  {
    forall k | 0 <= k < |l.rows|
      ensures l.rows[k].key != Some(UnfreezeKey(l.orders[i].id)) && l.rows[k].key != Some(BurnKey(l.orders[i].id))
    {
      assert l.rows[k] in l.rows;
      NoClosingRow(l.orders, l.rows[k], i);
    }
  }

  lemma NoClosingRow(orders: seq<Order>, r: Row, i: nat)
    requires DistinctIds(orders) && KeyTied(orders, r) && i < |orders| && Open(orders[i])
    ensures r.key != Some(UnfreezeKey(orders[i].id)) && r.key != Some(BurnKey(orders[i].id))
  {
    var id := orders[i].id;
    ServicesDiffer(if r.entry.Some? then r.entry.value else "", id, id);
    forall k | 0 <= k < |orders|
      ensures FreezeKey(orders[k].id) != UnfreezeKey(id) && FreezeKey(orders[k].id) != BurnKey(id)
      ensures UnfreezeKey(orders[k].id) != BurnKey(id) && BurnKey(orders[k].id) != UnfreezeKey(id)
      ensures k != i ==> UnfreezeKey(orders[k].id) != UnfreezeKey(id) && BurnKey(orders[k].id) != BurnKey(id)
    {
      ServicesDiffer("", orders[k].id, id);
      ServicesDiffer("", id, orders[k].id);
      DefaultKeysInjective(orders[k].id, id);
    }
  }

  /** In every polite run an open order can be cancelled without a key, and its amount goes back to its member. */
  lemma OpenOrderCanBeCancelled(cs: seq<Command>, i: nat)
    requires forall c :: c in cs ==> Polite(c)
    requires i < |Run(EmptyLedger, cs).orders| && Open(Run(EmptyLedger, cs).orders[i])
    requires FreshUids(cs) && Frozen in Run(EmptyLedger, cs).pools
    ensures var l := Run(EmptyLedger, cs);
            Closes(l, Step(l, DoCancel(i, None)), i, Cancelled, Holder(l.orders[i].member))
  {
    RunIsInOrder(cs);
    RunKeepsTied(cs);
    OpenIsCancelled(Run(EmptyLedger, cs), i);
  }

  /** The order is closed with the status, and its amount leaves FROZEN for the account. */
  ghost predicate Closes(l: Ledger, result: (Ledger, Outcome), i: nat, status: OrderStatus, target: Account)
    requires i < |l.orders|
  {
    && result.1 == Touched(i) && i < |result.0.orders| && result.0.orders[i].status == status
    && Moves(l.rows, result.0.rows, Some(Frozen), Some(target), l.orders[i].amount)
  }

  lemma OpenIsCancelled(l: Ledger, i: nat)
    requires InOrder(l) && KeysTied(l) && i < |l.orders| && Open(l.orders[i]) && Frozen in l.pools
    ensures Closes(l, Step(l, DoCancel(i, None)), i, Cancelled, Holder(l.orders[i].member))
  {
    ClosingKeyIsFree(l, i);
    FreeKeyCancels(l, i);
    StepIsService(l, DoCancel(i, None));
  }

  lemma FreeKeyCancels(l: Ledger, i: nat)
    requires InOrder(l) && i < |l.orders| && Open(l.orders[i]) && Frozen in l.pools
    requires FindKey(l.rows, UnfreezeKey(l.orders[i].id)).None?
    ensures Closes(l, CancelOrder(l, i, None), i, Cancelled, Holder(l.orders[i].member))
  {
    CancelCloses(l, i, None);
  }

  lemma FreeKeyFulfills(l: Ledger, i: nat, rateMissing: bool)
    requires InOrder(l) && i < |l.orders| && Open(l.orders[i]) && Frozen in l.pools && Burn in l.pools
    requires FindKey(l.rows, BurnKey(l.orders[i].id)).None?
    ensures var result := FulfillOrder(l, i, None, rateMissing);
            if l.orders[i].details.merchant.Some? && rateMissing then result.1.Refused? && result.0 == l
            else Closes(l, result, i, Fulfilled, Burn)
  {
    FulfillCloses(l, i, None, rateMissing);
  }

  lemma OpenIsFulfilled(l: Ledger, i: nat, rateMissing: bool)
    requires InOrder(l) && KeysTied(l) && i < |l.orders| && Open(l.orders[i]) && Frozen in l.pools && Burn in l.pools
    ensures var result := Step(l, DoFulfill(i, None, rateMissing));
            if l.orders[i].details.merchant.Some? && rateMissing then result.1.Refused? && result.0 == l
            else Closes(l, result, i, Fulfilled, Burn)
  {
    ClosingKeyIsFree(l, i);
    FreeKeyFulfills(l, i, rateMissing);
    StepIsService(l, DoFulfill(i, None, rateMissing));
  }

  /** And it can be fulfilled, unless its merchant has no rate: its amount is burnt. */
  lemma OpenOrderCanBeFulfilled(cs: seq<Command>, i: nat, rateMissing: bool)
    requires forall c :: c in cs ==> Polite(c)
    requires i < |Run(EmptyLedger, cs).orders| && Open(Run(EmptyLedger, cs).orders[i])
    requires FreshUids(cs) && Frozen in Run(EmptyLedger, cs).pools && Burn in Run(EmptyLedger, cs).pools
    ensures var l := Run(EmptyLedger, cs);
            var result := Step(l, DoFulfill(i, None, rateMissing));
            if l.orders[i].details.merchant.Some? && rateMissing then result.1.Refused? && result.0 == l
            else Closes(l, result, i, Fulfilled, Burn)
  {
    RunIsInOrder(cs);
    RunKeepsTied(cs);
    OpenIsFulfilled(Run(EmptyLedger, cs), i, rateMissing);
  }

  lemma FreezeKeyIsFree(l: Ledger, id: OrderId)
    requires KeysTied(l) && FindOrder(l.orders, id).None?
    ensures FindKey(l.rows, FreezeKey(id)).None?
  {
    forall k | 0 <= k < |l.rows| ensures l.rows[k].key != Some(FreezeKey(id)) {
      var r := l.rows[k];
      assert r in l.rows && KeyTied(l.orders, r);
      ServicesDiffer(if r.entry.Some? then r.entry.value else "", id, id);
      forall i | 0 <= i < |l.orders|
        ensures FreezeKey(l.orders[i].id) != FreezeKey(id) && UnfreezeKey(l.orders[i].id) != FreezeKey(id) &&
                BurnKey(l.orders[i].id) != FreezeKey(id)
      {
        FreezeKeyTells(l.orders[i].id, id);
        ServicesDiffer("", id, l.orders[i].id);
      }
    }
  }

  /** In every polite run a member who can pay places an order without a key under any id that no order has. */
  lemma NewOrderCanBePlaced(cs: seq<Command>, member: string, amount: int, details: OrderDetails,
                            merchant: Option<Merchant>, uid: string)
    requires forall c :: c in cs ==> Polite(c)
    requires FreshUids(cs) && Frozen in Run(EmptyLedger, cs).pools
    requires FindOrder(Run(EmptyLedger, cs).orders, RandomId(uid)).None?
    requires 0 < amount <= Balance(Run(EmptyLedger, cs).rows, Holder(member))
    requires merchant.Some? ==> merchant.value.kind == CashSettlement && merchant.value.active && merchant.value.hasRate
    ensures var l := Run(EmptyLedger, cs);
            PlacesNew(l, Step(l, DoCreate(member, amount, details, merchant, None, uid)), member, amount)
  {
    RunIsInOrder(cs);
    RunKeepsTied(cs);
    NewIsPlaced(Run(EmptyLedger, cs), member, amount, details, merchant, uid);
  }

  lemma NewIsPlaced(l: Ledger, member: string, amount: int, details: OrderDetails, merchant: Option<Merchant>, uid: string)
    requires InOrder(l) && KeysTied(l) && Frozen in l.pools && FindOrder(l.orders, RandomId(uid)).None?
    requires 0 < amount <= Balance(l.rows, Holder(member))
    requires merchant.Some? ==> merchant.value.kind == CashSettlement && merchant.value.active && merchant.value.hasRate
    ensures PlacesNew(l, Step(l, DoCreate(member, amount, details, merchant, None, uid)), member, amount)
  {
    var c := DoCreate(member, amount, details, merchant, None, uid);
    FreezeKeyIsFree(l, RandomId(uid));
    assert Step(l, c) == CreateOrder(l, member, amount, DetailsOf(c), merchant, None, uid);
    KeylessIsPlaced(l, member, amount, DetailsOf(c), merchant, uid);
  }

  /** A new order stands at the end, and its amount is frozen. */
  ghost predicate PlacesNew(l: Ledger, result: (Ledger, Outcome), member: string, amount: int) {
    result.1 == Placed(|l.orders|, |l.rows|) &&
    Moves(l.rows, result.0.rows, Some(Holder(member)), Some(Frozen), amount)
  }

  lemma KeylessIsPlaced(l: Ledger, member: string, amount: int, details: OrderDetails, merchant: Option<Merchant>, uid: string)
    requires details.merchant == if merchant.Some? then Some(merchant.value.id) else None
    requires InOrder(l) && FreshUid(l, uid) && CanOrder(l, member, amount, merchant, None, uid)
    ensures PlacesNew(l, CreateOrder(l, member, amount, details, merchant, None, uid), member, amount)
  {
    CreatePlaces(l, member, amount, details, merchant, None, uid);
    PlacedAtTheEnd(l, member, amount, details, merchant, uid);
  }

  lemma PlacedAtTheEnd(l: Ledger, member: string, amount: int, details: OrderDetails, merchant: Option<Merchant>, uid: string)
    requires details.merchant == if merchant.Some? then Some(merchant.value.id) else None
    requires FreshUid(l, uid) && CreateOrder(l, member, amount, details, merchant, None, uid).1.Placed?
    ensures CreateOrder(l, member, amount, details, merchant, None, uid).1 == Placed(|l.orders|, |l.rows|)
  {
  }

  // ----- a used key tells its call

  /** The two calls ask for the same thing, argument by argument. */
  predicate SameRequest(c: Command, d: Command) {
    match c
    case DoLock(task, amount, _) => d.DoLock? && d.task == task && d.amount == amount
    case DoUnlock(task, amount, _) => d.DoUnlock? && d.task == task && d.amount == amount
    case DoTransfer(from, to, amount, _) => d.DoTransfer? && d.from == from && d.to == to && d.amount == amount
    case DoReward(task, member, amount, entry, genesis) => d == c
    case _ => false
  }

  lemma SameMovementIsSameRequest(c: Command, d: Command)
    requires KeyedRow(c).Some? && KeyedRow(d).Some?
    ensures SameMovement(KeyedRow(c).value, KeyedRow(d).value) <==> SameRequest(c, d)
  {
  }

  /**
   * Whatever happens after a successful keyed lock, unlock, transfer or reward: a call of these kinds under its key
   * changes nothing, and returns its row exactly when it asks for the same thing; any other is refused.
   */
  lemma KeyTellsItsCall(l: Ledger, c: Command, cs: seq<Command>, d: Command)
    requires WellKept(l) && KeyedRow(c).Some? && Step(l, c).1.Posted?
    requires KeyedRow(d).Some? && KeyedRow(d).value.key == KeyedRow(c).value.key
    ensures var later := Run(Step(l, c).0, cs);
            Step(later, d).0 == later &&
            if SameRequest(c, d) then Step(later, d).1 == Step(l, c).1 else Step(later, d).1.Refused?
  {
    KeyedReplay(l, c, cs, d);
    SameMovementIsSameRequest(c, d);
  }

  // ----- a keyed order is placed once

  lemma {:induction false} RunProgresses(l: Ledger, cs: seq<Command>)
    requires DistinctIds(l.orders)
    ensures OrdersProgress(l.orders, Run(l, cs).orders) && DistinctIds(Run(l, cs).orders)
  {
    if cs != [] {
      RunProgresses(l, cs[..|cs| - 1]);
      StepProgresses(Run(l, cs[..|cs| - 1]), cs[|cs| - 1]);
    }
  }

  /** The books hold, under the key, the freeze of this order. */
  predicate OrderOnBooks(l: Ledger, key: string, row: nat, index: nat, member: string, amount: int, details: OrderDetails) {
    && row < |l.rows| && index < |l.orders|
    && l.rows[row].kind == Consume && l.rows[row].key == Some(key) && l.rows[row].order == Some(l.orders[index].id)
    && SameOrder(l.rows[row], l.orders[index], member, amount, details)
  }

  lemma StaysOnBooks(l: Ledger, cs: seq<Command>, key: string, row: nat, index: nat, member: string, amount: int,
                     details: OrderDetails)
    requires WellKept(l) && DistinctIds(l.orders) && OrderOnBooks(l, key, row, index, member, amount, details)
    ensures var later := Run(l, cs);
            && WellKept(later) && DistinctIds(later.orders) && l.pools <= later.pools
            && OrderOnBooks(later, key, row, index, member, amount, details)
  {
    RunKeepsWell(l, cs);
    RunProgresses(l, cs);
    var later := Run(l, cs);
    assert SameMoney(l.rows[row], later.rows[row]);
    assert later.orders[index] == l.orders[index].(status := later.orders[index].status);
  }

  /** A create under a key whose order is on the books returns that order, or refuses; nothing is written. */
  lemma CreateOnBooks(l: Ledger, key: string, row: nat, index: nat, member: string, amount: int, details: OrderDetails,
                      d: Command)
    requires WellKept(l) && DistinctIds(l.orders) && OrderOnBooks(l, key, row, index, member, amount, details)
    requires d.DoCreate? && NormaliseKey(d.key) == Some(key) && Frozen in l.pools
    ensures Step(l, d).0 == l
    ensures Step(l, d).1 ==
              if d.amount <= 0 then Refused(BadAmount)
              else if !MerchantServed(d.merchant) then Refused(BadMerchant)
              else if d.member == member && d.amount == amount && DetailsOf(d) == details then Placed(index, row)
              else Refused(KeyConflict)
  {
    FindKeyUnique(l.rows, row);
    OrderIsFound(l.orders, index);
    assert Step(l, d) == CreateOrder(l, d.member, d.amount, DetailsOf(d), d.merchant, d.key, d.uid);
  }

  lemma OrderIsFound(orders: seq<Order>, i: nat)
    requires DistinctIds(orders) && i < |orders|
    ensures FindOrder(orders, orders[i].id) == Some(i)
  {
  }

  /**
   * Whatever happens after a keyed order was placed: the same call returns the same order and row and changes nothing;
   * a call under the key with another member, amount or content is refused.
   */
  lemma KeyedOrderReplay(l: Ledger, c: Command, cs: seq<Command>, d: Command)
    requires InOrder(l) && c.DoCreate? && NormaliseKey(c.key).Some? && Step(l, c).1.Placed?
    requires d.DoCreate? && NormaliseKey(d.key) == NormaliseKey(c.key)
    ensures var later := Run(Step(l, c).0, cs);
            && Step(later, c) == (later, Step(l, c).1)
            && Step(later, d).0 == later
            && (Step(later, d).1.Placed? ==>
                  d.member == c.member && d.amount == c.amount && DetailsOf(d) == DetailsOf(c) && MerchantServed(d.merchant))
  {
    var (after, outcome) := Step(l, c);
    PlacedIsOnBooks(l, c);
    ReplayFromBooks(after, cs, outcome.row, outcome.order, c, c);
    ReplayFromBooks(after, cs, outcome.row, outcome.order, c, d);
  }

  lemma PlacedIsOnBooks(l: Ledger, c: Command)
    requires InOrder(l) && c.DoCreate? && NormaliseKey(c.key).Some? && Step(l, c).1.Placed?
    ensures var (after, outcome) := Step(l, c);
            && WellKept(after) && DistinctIds(after.orders) && Frozen in after.pools
            && c.amount > 0 && MerchantServed(c.merchant)
            && OrderOnBooks(after, NormaliseKey(c.key).value, outcome.row, outcome.order, c.member, c.amount, DetailsOf(c))
  {
    assert Step(l, c) == CreateOrder(l, c.member, c.amount, DetailsOf(c), c.merchant, c.key, c.uid);
    CreatePlaces(l, c.member, c.amount, DetailsOf(c), c.merchant, c.key, c.uid);
    StepKeepsWell(l, c);
    StepProgresses(l, c);
    StepExtends(l, c);
  }

  lemma ReplayFromBooks(l: Ledger, cs: seq<Command>, row: nat, index: nat, c: Command, d: Command)
    requires c.DoCreate? && d.DoCreate? && NormaliseKey(c.key).Some? && NormaliseKey(d.key) == NormaliseKey(c.key)
    requires WellKept(l) && DistinctIds(l.orders) && Frozen in l.pools
    requires OrderOnBooks(l, NormaliseKey(c.key).value, row, index, c.member, c.amount, DetailsOf(c))
    ensures var later := Run(l, cs);
            && Step(later, d).0 == later
            && (d == c && c.amount > 0 && MerchantServed(c.merchant) ==> Step(later, d).1 == Placed(index, row))
            && (Step(later, d).1.Placed? ==>
                  d.member == c.member && d.amount == c.amount && DetailsOf(d) == DetailsOf(c) && MerchantServed(d.merchant))
  {
    StaysOnBooks(l, cs, NormaliseKey(c.key).value, row, index, c.member, c.amount, DetailsOf(c));
    CreateOnBooks(Run(l, cs), NormaliseKey(c.key).value, row, index, c.member, c.amount, DetailsOf(c), d);
  }

  // ----- accounts and rows

  /** Setting up the accounts makes all four, and from then on no call is refused for want of one. */
  lemma AccountsAreThere(l: Ledger, c: Command, cs: seq<Command>)
    ensures {IssuancePool, TaskLocked, Frozen, Burn} <= EnsureAccounts(l).0.pools
    ensures EnsureAccounts(l).0.rows == l.rows && EnsureAccounts(l).0.orders == l.orders
    ensures WellKept(l) ==> Step(Run(EnsureAccounts(l).0, cs), c).1 != Refused(NoAccount)
  {
    if WellKept(l) {
      StepKeepsWell(l, DoEnsureAccounts);
      RunKeepsWell(EnsureAccounts(l).0, cs);
      ReadyIsNeverWanting(Run(EnsureAccounts(l).0, cs), c);
    }
  }

  lemma ReadyIsNeverWanting(l: Ledger, c: Command)
    requires {IssuancePool, TaskLocked, Frozen, Burn} <= l.pools
    ensures Step(l, c).1 != Refused(NoAccount)
  {
    assert IssuancePool in l.pools && TaskLocked in l.pools && Frozen in l.pools && Burn in l.pools;
    if c.DoCreate? || c.DoCancel? || c.DoFulfill? {
      OrdersNeverWanting(l, c);
    }
  }

  lemma OrdersNeverWanting(l: Ledger, c: Command)
    requires Frozen in l.pools && Burn in l.pools && (c.DoCreate? || c.DoCancel? || c.DoFulfill?)
    ensures Step(l, c).1 != Refused(NoAccount)
  {
    match c
    case DoCreate(member, amount, details, merchant, key, uid) =>
      assert Step(l, c) == CreateOrder(l, member, amount, DetailsOf(c), merchant, key, uid);
      CreateNeverWanting(l, member, amount, DetailsOf(c), merchant, key, uid);
    case DoFulfill(i, key, rateMissing) => assert Step(l, c) == FulfillOrder(l, i, key, rateMissing);
    case DoCancel(i, key) => assert Step(l, c) == CancelOrder(l, i, key);
  }

  lemma CreateNeverWanting(l: Ledger, member: string, amount: int, details: OrderDetails, merchant: Option<Merchant>,
                           key: Option<string>, uid: string)
    requires details.merchant == if merchant.Some? then Some(merchant.value.id) else None
    requires Frozen in l.pools
    ensures CreateOrder(l, member, amount, details, merchant, key, uid).1 != Refused(NoAccount)
  {
  }

  /** The type of the row each service posts. */
  function TypeOf(c: Command): Option<Kind> {
    match c
    case DoIssue(_, _) => Some(Issuance)
    case DoLock(_, _, _) => Some(Lock)
    case DoUnlock(_, _, _) => Some(Unlock)
    case DoReward(_, _, _, _, _) => Some(TaskReward)
    case DoTransfer(_, _, _, _) => Some(Transfer)
    case DoDeduct(_, _, _) => Some(Correction)
    case DoReverse(_, _) => Some(Reversal)
    case DoCreate(_, _, _, _, _, _) => Some(Consume)
    case DoCancel(_, _) => Some(Unfreeze)
    case DoFulfill(_, _, _) => Some(BurnOff)
    case _ => None
  }

  /** A posted row has the type of its service, and the task, ledger entry or order that the call is about. */
  lemma PostedRowTells(l: Ledger, c: Command)
    requires !c.DoReverse? && Step(l, c).0.rows != l.rows
    ensures |Step(l, c).0.rows| == |l.rows| + 1
    ensures var r := Step(l, c).0.rows[|l.rows|];
            && TypeOf(c) == Some(r.kind) && r.reverses == None
            && r.task == (if c.DoLock? || c.DoUnlock? || c.DoReward? then Some(c.task) else None)
            && r.entry == (if c.DoReward? then Some(c.entry) else None)
            && (r.genesis <==> c.DoReward? && c.genesis)
            && (c.DoCancel? || c.DoFulfill? ==> c.order < |l.orders| && r.order == Some(l.orders[c.order].id))
            && (CallerKey(c).Some? ==> r.key == CallerKey(c))
  {
    StepPosts(l, c);
  }
}
