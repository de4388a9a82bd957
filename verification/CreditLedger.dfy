/**
 * The double-entry credit ledger and its redemption orders.
 *
 * A `Ledger` is the committed content of the credit tables.  Every service is a
 * function from a ledger to the next ledger and an outcome; a refusal leaves the
 * ledger as it was, because each service runs in one transaction.
 */
module CreditLedger {
  import opened Common

  datatype Account = IssuancePool | TaskLocked | Frozen | Burn | Holder(member: string)

  datatype Kind =
    | Issuance | Lock | Unlock | TaskReward | Transfer
    | Consume | BurnOff | Unfreeze | Correction | Reversal

  /** The digest of an idempotency key is represented by the key: distinct keys, distinct ids. */
  datatype OrderId = DigestId(key: string) | RandomId(uid: string)

  datatype Row = Row(
    kind: Kind,
    source: Option<Account>,
    target: Option<Account>,
    amount: int,
    task: Option<string>,
    entry: Option<string>,
    key: Option<string>,
    order: Option<OrderId>,
    genesis: bool,
    reverses: Option<nat>)

  datatype OrderStatus = Pending | Fulfilled | Cancelled | Disputed | Reversed

  datatype ItemType =
    | Meal | Goods | ResourceUse | RoomUpgrade | Storage | Parking | Training | Service | FeeReduction | Other

  datatype OrderDetails = OrderDetails(
    itemType: ItemType,
    task: Option<string>,
    resource: string,
    snapshot: string,
    financeRef: string,
    merchant: Option<string>)

  datatype Order = Order(id: OrderId, member: string, amount: int, status: OrderStatus, details: OrderDetails)

  datatype MerchantKind = MemberMicro | CashSettlement
  datatype Merchant = Merchant(id: string, kind: MerchantKind, active: bool, hasRate: bool)

  datatype Ledger = Ledger(rows: seq<Row>, orders: seq<Order>, pools: set<Account>)

  datatype CreditError =
    | BadAmount | NoAccount | KeyConflict | Insufficient | SelfTransfer
    | AlreadyReversed | Missing | WrongStatus | BadMerchant | NoRate

  datatype Outcome =
    | Posted(row: nat)
    | Placed(order: nat, row: nat)
    | Touched(order: nat)
    | Ready
    | Refused(error: CreditError)

  const EmptyLedger := Ledger([], [], {})
  const SystemPools := {IssuancePool, TaskLocked, Frozen, Burn}

  // ----- idempotency keys

  /** A blank key counts as no key; any other key is stripped of surrounding blanks. */
  function NormaliseKey(raw: Option<string>): Option<string> {
    if raw.None? || Strip(raw.value) == "" then None else Some(Strip(raw.value))
  }

  /** `post_credit_transaction` normalises a second time what its callers already normalised. */
  lemma NormaliseIdempotent(raw: Option<string>)
    ensures NormaliseKey(NormaliseKey(raw)) == NormaliseKey(raw)
  {
    if raw.Some? {
      var s := Strip(raw.value);
      if s != "" {
        assert StripLeft(raw.value)[0] == s[0];
        assert StripLeft(s) == s && StripRight(s) == s;
      }
    }
  }

  /** A key is what is left between surrounding blanks; a missing or blank key is none. */
  lemma KeyIsTrimmed(raw: string) returns (from: nat)
    ensures NormaliseKey(None) == None && (NormaliseKey(Some(raw)).None? <==> !SaysSomething(raw))
    ensures NormaliseKey(Some(raw)).Some? ==>
              var key := NormaliseKey(Some(raw)).value;
              && key != "" && !IsSpace(key[0]) && !IsSpace(key[|key| - 1])
              && from + |key| <= |raw| && key == raw[from..from + |key|]
              && forall i :: 0 <= i < |raw| && !(from <= i < from + |key|) ==> IsSpace(raw[i])
  {
    from := StripTakesBlanks(raw);
  }

  function OrderText(id: OrderId): string {
    match id
    case DigestId(key) => "ro-d" + key
    case RandomId(uid) => "ro-r" + uid
  }

  function FreezeKey(id: OrderId): string { "redemption-freeze:" + OrderText(id) }
  function UnfreezeKey(id: OrderId): string { "redemption-unfreeze:" + OrderText(id) }
  function BurnKey(id: OrderId): string { "redemption-burn:" + OrderText(id) }
  function RewardKey(entry: string): string { "task-reward:" + entry }

  // ----- derived balances

  /** The row filters over which the balance queries aggregate. */
  datatype Column =
    | Into(account: Account)
    | OutOf(account: Account)
    | LockedFor(task: string)
    | RewardedFor(task: string)
    | UnlockedFor(task: string)
    | WithoutSource
    | WithoutTarget

  predicate Picks(c: Column, r: Row) {
    match c
    case Into(a) => r.target == Some(a)
    case OutOf(a) => r.source == Some(a)
    case LockedFor(t) => r.kind == Lock && r.target == Some(TaskLocked) && r.task == Some(t)
    case RewardedFor(t) => r.kind == TaskReward && r.source == Some(TaskLocked) && r.task == Some(t)
    case UnlockedFor(t) => r.kind == Unlock && r.source == Some(TaskLocked) && r.task == Some(t)
    case WithoutSource => r.source == None
    case WithoutTarget => r.target == None
  }

  function Total(rows: seq<Row>, c: Column): int {
    if rows == [] then 0
    else
      var last := rows[|rows| - 1];
      Total(rows[..|rows| - 1], c) + if Picks(c, last) then last.amount else 0
  }

  function Balance(rows: seq<Row>, a: Account): int {
    Total(rows, Into(a)) - Total(rows, OutOf(a))
  }

  function TaskBalance(rows: seq<Row>, task: string): int {
    Total(rows, LockedFor(task)) - Total(rows, RewardedFor(task)) - Total(rows, UnlockedFor(task))
  }

  predicate Open(o: Order) {
    o.status == Pending || o.status == Disputed
  }

  function OpenTotal(orders: seq<Order>): int {
    if orders == [] then 0
    else
      var last := orders[|orders| - 1];
      OpenTotal(orders[..|orders| - 1]) + if Open(last) then last.amount else 0
  }

  // ----- posting

  function FindKey(rows: seq<Row>, key: string): (r: Option<nat>)
    ensures r.Some? ==> r.value < |rows| && rows[r.value].key == Some(key)
    ensures r.None? ==> forall i :: 0 <= i < |rows| ==> rows[i].key != Some(key)
  {
    if rows == [] then None
    else
      var last := |rows| - 1;
      var earlier := FindKey(rows[..last], key);
      if earlier.Some? then earlier
      else if rows[last].key == Some(key) then Some(last)
      else None
  }

  /** The posted row of the given kind that carries the key; the key column is unique. */
  function FindKeyed(rows: seq<Row>, key: Option<string>, kind: Kind): (r: Option<nat>)
    ensures r.Some? ==> r.value < |rows| && key.Some? && rows[r.value].key == key && rows[r.value].kind == kind
  {
    if key.None? then None
    else
      var found := FindKey(rows, key.value);
      if found.Some? && rows[found.value].kind == kind then found else None
  }

  function FindOrder(orders: seq<Order>, id: OrderId): (r: Option<nat>)
    ensures r.Some? ==> r.value < |orders| && orders[r.value].id == id
    ensures r.None? ==> forall i :: 0 <= i < |orders| ==> orders[i].id != id
  {
    if orders == [] then None
    else
      var last := |orders| - 1;
      var earlier := FindOrder(orders[..last], id);
      if earlier.Some? then earlier
      else if orders[last].id == id then Some(last)
      else None
  }

  /** The fields compared before a keyed call may return an existing row. */
  predicate SameMovement(r: Row, t: Row) {
    r.kind == t.kind && r.amount == t.amount && r.source == t.source && r.target == t.target &&
    r.task == t.task && r.entry == t.entry
  }

  function Post(l: Ledger, t: Row): (Ledger, Outcome) {
    if t.amount <= 0 then (l, Refused(BadAmount))
    else
      var found := if t.key.Some? then FindKey(l.rows, t.key.value) else None;
      if found.Some? then
        if SameMovement(l.rows[found.value], t) then (l, Posted(found.value)) else (l, Refused(KeyConflict))
      else (l.(rows := l.rows + [t]), Posted(|l.rows|))
  }

  function Movement(kind: Kind, source: Option<Account>, target: Option<Account>, amount: int,
                    key: Option<string>): Row
  {
    Row(kind, source, target, amount, None, None, key, None, false, None)
  }

  // ----- issuance and task budgets

  function EnsureAccounts(l: Ledger): (Ledger, Outcome) {
    (l.(pools := l.pools + SystemPools), Ready)
  }

  function Issue(l: Ledger, amount: int, rawKey: Option<string>): (Ledger, Outcome) {
    if IssuancePool !in l.pools then (l, Refused(NoAccount))
    else Post(l, Movement(Issuance, None, Some(IssuancePool), amount, NormaliseKey(rawKey)))
  }

  function LockRow(task: string, amount: int, key: Option<string>): Row {
    Movement(Lock, Some(IssuancePool), Some(TaskLocked), amount, key).(task := Some(task))
  }

  function LockBudget(l: Ledger, task: string, amount: int, rawKey: Option<string>): (Ledger, Outcome) {
    var t := LockRow(task, amount, NormaliseKey(rawKey));
    if IssuancePool !in l.pools || TaskLocked !in l.pools then (l, Refused(NoAccount))
    else
      var found := FindKeyed(l.rows, t.key, Lock);
      if found.Some? then
        var r := l.rows[found.value];
        if r.amount == amount && r.source == t.source && r.target == t.target && r.task == t.task
        then (l, Posted(found.value)) else (l, Refused(KeyConflict))
      else if Balance(l.rows, IssuancePool) < amount then (l, Refused(Insufficient))
      else Post(l, t)
  }

  function UnlockRow(task: string, amount: int, key: Option<string>): Row {
    Movement(Unlock, Some(TaskLocked), Some(IssuancePool), amount, key).(task := Some(task))
  }

  function UnlockBudget(l: Ledger, task: string, amount: int, rawKey: Option<string>): (Ledger, Outcome) {
    var t := UnlockRow(task, amount, NormaliseKey(rawKey));
    if IssuancePool !in l.pools || TaskLocked !in l.pools then (l, Refused(NoAccount))
    else
      var found := FindKeyed(l.rows, t.key, Unlock);
      if found.Some? then
        var r := l.rows[found.value];
        if r.amount == amount && r.source == t.source && r.target == t.target && r.task == t.task
        then (l, Posted(found.value)) else (l, Refused(KeyConflict))
      else if amount <= 0 || amount > TaskBalance(l.rows, task) then (l, Refused(Insufficient))
      else Post(l, t)
  }

  function RewardRow(task: string, member: string, amount: int, entry: string, genesis: bool): Row {
    Row(TaskReward, Some(if genesis then IssuancePool else TaskLocked), Some(Holder(member)), amount,
        Some(task), Some(entry), Some(RewardKey(entry)), None, genesis, None)
  }

  function Reward(l: Ledger, task: string, member: string, amount: int, entry: string, genesis: bool)
    : (Ledger, Outcome)
  {
    var t := RewardRow(task, member, amount, entry, genesis);
    if (!genesis && TaskLocked !in l.pools) || IssuancePool !in l.pools then (l, Refused(NoAccount))
    else
      var found := FindKeyed(l.rows, t.key, TaskReward);
      if found.Some? then
        var r := l.rows[found.value];
        if SameMovement(r, t) && (genesis ==> r.genesis)
        then (l, Posted(found.value)) else (l, Refused(KeyConflict))
      else if !genesis && TaskBalance(l.rows, task) < amount then (l, Refused(Insufficient))
      else Post(l, t)
  }

  // ----- member movements

  function TransferRow(from: string, to: string, amount: int, key: Option<string>): Row {
    Movement(Transfer, Some(Holder(from)), Some(Holder(to)), amount, key)
  }

  function TransferCredits(l: Ledger, from: string, to: string, amount: int, rawKey: Option<string>)
    : (Ledger, Outcome)
  {
    var t := TransferRow(from, to, amount, NormaliseKey(rawKey));
    if amount <= 0 then (l, Refused(BadAmount))
    else if from == to then (l, Refused(SelfTransfer))
    else
      var found := FindKeyed(l.rows, t.key, Transfer);
      if found.Some? then
        var r := l.rows[found.value];
        if r.amount == amount && r.source == t.source && r.target == t.target
        then (l, Posted(found.value)) else (l, Refused(KeyConflict))
      else
        var current := Balance(l.rows, Holder(from));
        if current <= 0 || current - amount < 0 then (l, Refused(Insufficient))
        else Post(l, t)
  }

  function Deduct(l: Ledger, member: string, amount: int, rawKey: Option<string>): (Ledger, Outcome) {
    if amount <= 0 then (l, Refused(BadAmount))
    else if Burn !in l.pools then (l, Refused(NoAccount))
    else Post(l, Movement(Correction, Some(Holder(member)), Some(Burn), amount, NormaliseKey(rawKey)))
  }

  predicate HasReversal(rows: seq<Row>, original: nat) {
    exists i :: 0 <= i < |rows| && rows[i].reverses == Some(original)
  }

  function ReversalRow(original: Row, key: Option<string>): Row {
    Movement(Reversal, original.target, original.source, original.amount, key)
  }

  /** The mirrored row is posted first and pointed at its original afterwards. */
  function Reverse(l: Ledger, original: nat, rawKey: Option<string>): (Ledger, Outcome) {
    if original >= |l.rows| then (l, Refused(Missing))
    else if HasReversal(l.rows, original) then (l, Refused(AlreadyReversed))
    else
      var (posted, outcome) := Post(l, ReversalRow(l.rows[original], NormaliseKey(rawKey)));
      if outcome.Posted? && outcome.row < |posted.rows| then
        (posted.(rows := posted.rows[outcome.row := posted.rows[outcome.row].(reverses := Some(original))]), outcome)
      else (l, outcome)
  }

  // ----- redemption orders

  function ConsumeRow(member: string, amount: int, key: string, id: OrderId): Row {
    Movement(Consume, Some(Holder(member)), Some(Frozen), amount, Some(key)).(order := Some(id))
  }

  function MerchantRefusal(merchant: Option<Merchant>): Option<CreditError> {
    if merchant.None? then None
    else if merchant.value.kind == MemberMicro || !merchant.value.active then Some(BadMerchant)
    else None
  }

  function PlaceOrder(l: Ledger, member: string, amount: int, details: OrderDetails, id: OrderId, key: string)
    : (Ledger, Outcome)
  {
    var found := FindOrder(l.orders, id);
    if found.Some? && l.orders[found.value].member != member then (l, Refused(KeyConflict))
    else
      var index := if found.Some? then found.value else |l.orders|;
      var orders := if found.Some? then l.orders
                    else l.orders + [Order(id, member, amount, Pending, details)];
      var (posted, outcome) := Post(l, ConsumeRow(member, amount, key, id));
      if outcome.Posted? then (posted.(orders := orders), Placed(index, outcome.row)) else (l, outcome)
  }

  /** The stored fields that must agree before a repeated keyed call may return its order. */
  predicate SameOrder(r: Row, o: Order, member: string, amount: int, details: OrderDetails) {
    && r.amount == amount && r.source == Some(Holder(member)) && r.target == Some(Frozen)
    && o.member == member && o.amount == amount && o.details == details
  }

  function CreateOrder(l: Ledger, member: string, amount: int, details: OrderDetails,
                       merchant: Option<Merchant>, rawKey: Option<string>, uid: string): (Ledger, Outcome)
    requires details.merchant == if merchant.Some? then Some(merchant.value.id) else None
  {
    var key := NormaliseKey(rawKey);
    var earlier := FindKeyed(l.rows, key, Consume);
    var order := if earlier.Some? && l.rows[earlier.value].order.Some?
                 then FindOrder(l.orders, l.rows[earlier.value].order.value) else None;
    if amount <= 0 then (l, Refused(BadAmount))
    else if MerchantRefusal(merchant).Some? then (l, Refused(MerchantRefusal(merchant).value))
    else if order.Some? then
      var r := l.rows[earlier.value];
      var o := l.orders[order.value];
      if Frozen !in l.pools then (l, Refused(NoAccount))
      else if SameOrder(r, o, member, amount, details) then (l, Placed(order.value, earlier.value))
      else (l, Refused(KeyConflict))
    else if merchant.Some? && !merchant.value.hasRate then (l, Refused(NoRate))
    else
      var current := Balance(l.rows, Holder(member));
      if current <= 0 || current < amount then (l, Refused(Insufficient))
      else if Frozen !in l.pools then (l, Refused(NoAccount))
      else
        var id := if key.Some? then DigestId(key.value) else RandomId(uid);
        PlaceOrder(l, member, amount, details, id, if key.Some? then key.value else FreezeKey(id))
  }

  function ClosingKey(rawKey: Option<string>, default: string): string {
    var key := NormaliseKey(rawKey);
    if key.Some? then key.value else default
  }

  function UnfreezeRow(o: Order, rawKey: Option<string>): Row {
    Movement(Unfreeze, Some(Frozen), Some(Holder(o.member)), o.amount, Some(ClosingKey(rawKey, UnfreezeKey(o.id))))
    .(order := Some(o.id))
  }

  function BurnRow(o: Order, rawKey: Option<string>): Row {
    Movement(BurnOff, Some(Frozen), Some(Burn), o.amount, Some(ClosingKey(rawKey, BurnKey(o.id))))
    .(order := Some(o.id))
  }

  /** Posts the row that ends an open order and moves the order to its final status. */
  function CloseOrder(l: Ledger, index: nat, t: Row, status: OrderStatus): (Ledger, Outcome)
    requires index < |l.orders|
  {
    var (posted, outcome) := Post(l, t);
    if outcome.Posted? then
      (posted.(orders := l.orders[index := l.orders[index].(status := status)]), Touched(index))
    else (l, outcome)
  }

  function CancelOrder(l: Ledger, index: nat, rawKey: Option<string>): (Ledger, Outcome) {
    if index >= |l.orders| then (l, Refused(Missing))
    else
      var o := l.orders[index];
      if o.status == Cancelled then (l, Touched(index))
      else if !Open(o) then (l, Refused(WrongStatus))
      else if Frozen !in l.pools then (l, Refused(NoAccount))
      else CloseOrder(l, index, UnfreezeRow(o, rawKey), Cancelled)
  }

  /** `rateMissing` says that the order's merchant settles in cash and has no settlement rate now. */
  function FulfillOrder(l: Ledger, index: nat, rawKey: Option<string>, rateMissing: bool): (Ledger, Outcome) {
    if index >= |l.orders| then (l, Refused(Missing))
    else
      var o := l.orders[index];
      if o.status == Fulfilled then (l, Touched(index))
      else if !Open(o) then (l, Refused(WrongStatus))
      else if Frozen !in l.pools || Burn !in l.pools then (l, Refused(NoAccount))
      else
        var result := CloseOrder(l, index, BurnRow(o, rawKey), Fulfilled);
        if result.1.Touched? && o.details.merchant.Some? && rateMissing then (l, Refused(NoRate)) else result
  }

  function ReportIssue(l: Ledger, index: nat): (Ledger, Outcome) {
    if index >= |l.orders| then (l, Refused(Missing))
    else if !Open(l.orders[index]) then (l, Refused(WrongStatus))
    else (l.(orders := l.orders[index := l.orders[index].(status := Disputed)]), Touched(index))
  }

  // ----- runs

  datatype Command =
    | DoEnsureAccounts
    | DoIssue(amount: int, key: Option<string>)
    | DoLock(task: string, amount: int, key: Option<string>)
    | DoUnlock(task: string, amount: int, key: Option<string>)
    | DoReward(task: string, member: string, amount: int, entry: string, genesis: bool)
    | DoTransfer(from: string, to: string, amount: int, key: Option<string>)
    | DoDeduct(member: string, amount: int, key: Option<string>)
    | DoReverse(original: nat, key: Option<string>)
    | DoCreate(member: string, amount: int, details: OrderDetails, merchant: Option<Merchant>,
               key: Option<string>, uid: string)
    | DoCancel(order: nat, key: Option<string>)
    | DoFulfill(order: nat, key: Option<string>, rateMissing: bool)
    | DoReport(order: nat)

  function Step(l: Ledger, c: Command): (Ledger, Outcome) {
    match c
    case DoEnsureAccounts => EnsureAccounts(l)
    case DoIssue(amount, key) => Issue(l, amount, key)
    case DoLock(task, amount, key) => LockBudget(l, task, amount, key)
    case DoUnlock(task, amount, key) => UnlockBudget(l, task, amount, key)
    case DoReward(task, member, amount, entry, genesis) => Reward(l, task, member, amount, entry, genesis)
    case DoTransfer(from, to, amount, key) => TransferCredits(l, from, to, amount, key)
    case DoDeduct(member, amount, key) => Deduct(l, member, amount, key)
    case DoReverse(original, key) => Reverse(l, original, key)
    case DoCreate(member, amount, details, merchant, key, uid) =>
      CreateOrder(l, member, amount,
                  details.(merchant := if merchant.Some? then Some(merchant.value.id) else None),
                  merchant, key, uid)
    case DoCancel(order, key) => CancelOrder(l, order, key)
    case DoFulfill(order, key, rateMissing) => FulfillOrder(l, order, key, rateMissing)
    case DoReport(order) => ReportIssue(l, order)
  }

  function Run(l: Ledger, cs: seq<Command>): Ledger {
    if cs == [] then l else Step(Run(l, cs[..|cs| - 1]), cs[|cs| - 1]).0
  }
}
