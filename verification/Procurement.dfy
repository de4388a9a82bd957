/**
 * Supplier offers, their tiered acceptance proposals, the resource stock and the delivery credentials.
 * Rows are identified by their position; a refused call leaves every table as it was.
 */
module Procurement {
  import opened Common

  // ----- approval tiers

  datatype OfferType = Quote | Donation
  datatype OfferTier = Small | Standard | Major
  datatype ProposalTier = SingleTier | StandardTier | MajorTier
  datatype Role = Governance | Finance | SecondGovernance

  const SmallPurchaseLimit := 500.0
  const StandardPurchaseLimit := 5000.0

  function ComputeTier(offerType: OfferType, total: real): OfferTier {
    if offerType == Donation || total == 0.0 then Small
    else if total <= SmallPurchaseLimit then Small
    else if total <= StandardPurchaseLimit then Standard
    else Major
  }

  function ToProposalTier(tier: OfferTier): ProposalTier {
    match tier
    case Small => SingleTier
    case Standard => StandardTier
    case Major => MajorTier
  }

  /** Each set is one slot that some approval must fill. */
  function RequiredGroups(tier: ProposalTier): seq<set<Role>> {
    match tier
    case SingleTier => [{Governance, Finance}]
    case StandardTier => [{Governance}, {Finance}]
    case MajorTier => [{Governance}, {Finance}, {SecondGovernance}]
  }

  // ----- tables

  datatype Decision = Submitted | Accepted | Rejected | Fulfilled
  datatype Receipt = NotReceived | ReceiptAccepted | ReceiptRejected | ReceiptPartial
  datatype Payment = NotRequired | AwaitingPayment | Paid

  datatype Offer = Offer(
    resource: string,
    submittedBy: string,
    day: int,
    offerType: OfferType,
    quantity: real,
    total: real,
    tier: OfferTier,
    decision: Decision,
    payment: Payment,
    receipt: Receipt,
    delivered: bool,
    credential: Option<nat>)

  datatype ProposalStatus = Open | Approved | Declined | Executed
  datatype Proposal = Proposal(target: nat, tier: ProposalTier, status: ProposalStatus)
  datatype Vote = Vote(proposal: nat, approver: string, role: Role, approves: bool)
  datatype StockRow = StockRow(resource: string, delta: real, before: real, after: real, offer: Option<nat>)
  datatype Grant = Grant(member: string, offer: nat)

  datatype Store = Store(
    offers: seq<Offer>,
    proposals: seq<Proposal>,
    votes: seq<Vote>,
    stock: map<string, real>,
    ledger: seq<StockRow>,
    grants: seq<Grant>)

  function Opening(stock: map<string, real>): Store {
    Store([], [], [], stock, [], [])
  }

  /** What the caller may do: administer, review finance. */
  datatype Authority = Authority(administers: bool, reviewsFinance: bool)

  predicate CanFill(a: Authority, role: Role) {
    if role == Finance then a.reviewsFinance else a.administers
  }

  // ----- stock

  const DailyOfferLimit := 5

  function RecordAdjustment(s: Store, resource: string, delta: real, reason: string, offer: Option<nat>): Option<Store> {
    if Strip(reason) == "" || resource !in s.stock then None
    else
      var before := s.stock[resource];
      if before + delta < 0.0 then None
      else Some(s.(stock := s.stock[resource := before + delta],
                   ledger := s.ledger + [StockRow(resource, delta, before, before + delta, offer)]))
  }

  // ----- offers

  function CountToday(offers: seq<Offer>, member: string, resource: string, day: int): nat {
    if offers == [] then 0
    else
      var last := offers[|offers| - 1];
      CountToday(offers[..|offers| - 1], member, resource, day) +
      if last.submittedBy == member && last.resource == resource && last.day == day then 1 else 0
  }

  /** The offer and its acceptance proposal are created together. */
  function Submit(s: Store, resource: string, member: string, day: int, offerType: OfferType, quantity: real,
                  price: real, acceptsOffers: bool, isPublic: bool): (Store, bool)
  {
    if !acceptsOffers || resource !in s.stock then (s, false)
    else if CountToday(s.offers, member, resource, day) >= DailyOfferLimit then (s, false)
    else if quantity <= 0.0 || price < 0.0 then (s, false)
    else if offerType == Donation && price != 0.0 then (s, false)
    else if offerType == Quote && !isPublic then (s, false)
    else
      var total := quantity * price;
      var tier := ComputeTier(offerType, total);
      var payment := if offerType == Donation then NotRequired else AwaitingPayment;
      (s.(offers := s.offers + [Offer(resource, member, day, offerType, quantity, total, tier, Submitted, payment,
                                      NotReceived, false, None)],
          proposals := s.proposals + [Proposal(|s.offers|, ToProposalTier(tier), Open)]), true)
  }

  function AcceptOffer(s: Store, i: nat): (Store, bool) {
    if i >= |s.offers| || s.offers[i].decision != Submitted then (s, false)
    else (s.(offers := s.offers[i := s.offers[i].(decision := Accepted)]), true)
  }

  function RejectOffer(s: Store, i: nat): (Store, bool) {
    if i >= |s.offers| || s.offers[i].decision != Submitted then (s, false)
    else (s.(offers := s.offers[i := s.offers[i].(decision := Rejected)]), true)
  }

  // ----- approvals

  /** The approving votes on a proposal, in the order they were cast. */
  function Approvals(votes: seq<Vote>, p: nat): seq<Vote> {
    if votes == [] then []
    else
      var last := votes[|votes| - 1];
      Approvals(votes[..|votes| - 1], p) + if last.proposal == p && last.approves then [last] else []
  }

  predicate HasRole(approvals: seq<Vote>, role: Role) {
    exists i :: 0 <= i < |approvals| && approvals[i].role == role
  }

  predicate ApprovedBy(approvals: seq<Vote>, member: string) {
    exists i :: 0 <= i < |approvals| && approvals[i].approver == member
  }

  predicate GroupFilled(approvals: seq<Vote>, g: set<Role>) {
    exists i :: 0 <= i < |approvals| && approvals[i].role in g
  }

  predicate IsApproved(approvals: seq<Vote>, tier: ProposalTier) {
    forall i :: 0 <= i < |RequiredGroups(tier)| ==> GroupFilled(approvals, RequiredGroups(tier)[i])
  }

  predicate RoleAsked(tier: ProposalTier, role: Role) {
    exists i :: 0 <= i < |RequiredGroups(tier)| && role in RequiredGroups(tier)[i]
  }

  function Approve(s: Store, p: nat, member: string, role: Role, a: Authority): (Store, bool) {
    if p >= |s.proposals| || s.proposals[p].status != Open then (s, false)
    else
      var tier := s.proposals[p].tier;
      var approvals := Approvals(s.votes, p);
      if !RoleAsked(tier, role) || !CanFill(a, role) then (s, false)
      else if ApprovedBy(approvals, member) then (s, false)
      else if role == SecondGovernance && !HasRole(approvals, Finance) then (s, false)
      else if role == Finance && !HasRole(approvals, Governance) then (s, false)
      else
        var vote := Vote(p, member, role, true);
        var status := if IsApproved(approvals + [vote], tier) then Approved else Open;
        (s.(votes := s.votes + [vote], proposals := s.proposals[p := s.proposals[p].(status := status)]), true)
  }

  /** One row per proposal, approver and role. */
  predicate VoteTaken(votes: seq<Vote>, p: nat, member: string, role: Role) {
    exists i :: 0 <= i < |votes| && votes[i].proposal == p && votes[i].approver == member && votes[i].role == role
  }

  function Decline(s: Store, p: nat, member: string, role: Role, a: Authority): (Store, bool) {
    if p >= |s.proposals| || s.proposals[p].status != Open then (s, false)
    else if !RoleAsked(s.proposals[p].tier, role) || !CanFill(a, role) then (s, false)
    else if VoteTaken(s.votes, p, member, role) then (s, false)
    else
      var (rejected, ok) := RejectOffer(s, s.proposals[p].target);
      if !ok then (s, false)
      else (rejected.(votes := s.votes + [Vote(p, member, role, false)],
                      proposals := s.proposals[p := s.proposals[p].(status := Declined)]), true)
  }

  function Execute(s: Store, p: nat, a: Authority): (Store, bool) {
    if p >= |s.proposals| || (!a.administers && !a.reviewsFinance) then (s, false)
    else if s.proposals[p].status == Executed then (s, true)
    else if s.proposals[p].status != Approved then (s, false)
    else
      var i := s.proposals[p].target;
      var (accepted, ok) := if i < |s.offers| && s.offers[i].decision == Accepted then (s, true) else AcceptOffer(s, i);
      if !ok then (s, false)
      else (accepted.(proposals := s.proposals[p := s.proposals[p].(status := Executed)]), true)
  }

  // ----- receipt and completion

  /** The newest acceptance proposal of an offer. */
  function ProposalFor(proposals: seq<Proposal>, i: nat): (r: Option<nat>)
    ensures r.Some? ==> r.value < |proposals| && proposals[r.value].target == i
    ensures r.None? ==> forall p :: 0 <= p < |proposals| ==> proposals[p].target != i
  {
    if proposals == [] then None
    else if proposals[|proposals| - 1].target == i then Some(|proposals| - 1)
    else ProposalFor(proposals[..|proposals| - 1], i)
  }

  predicate ReadyForReceipt(s: Store, i: nat)
    requires i < |s.offers|
  {
    && s.offers[i].decision == Accepted
    && var p := ProposalFor(s.proposals, i); p.Some? ==> s.proposals[p.value].status == Executed
  }

  function RecordReceipt(s: Store, i: nat, receipt: Receipt, notes: string): (Store, bool) {
    if i >= |s.offers| || !ReadyForReceipt(s, i) then (s, false)
    else if s.offers[i].receipt != NotReceived || s.offers[i].delivered then (s, false)
    else if receipt == NotReceived || receipt == ReceiptPartial then (s, false)
    else
      var stocked := if receipt == ReceiptAccepted
                     then RecordAdjustment(s, s.offers[i].resource, s.offers[i].quantity, "receipt:" + notes, Some(i))
                     else Some(s);
      if stocked.None? then (s, false)
      else (stocked.value.(offers := s.offers[i := s.offers[i].(receipt := receipt, delivered := true)]), true)
  }

  /** A credential of this offer and member is issued once; a second issue returns the first. */
  function FindGrant(grants: seq<Grant>, g: Grant): (r: Option<nat>)
    ensures r.Some? ==> r.value < |grants| && grants[r.value] == g
    ensures r.None? ==> g !in grants
  {
    if grants == [] then None
    else if grants[|grants| - 1] == g then Some(|grants| - 1)
    else FindGrant(grants[..|grants| - 1], g)
  }

  function MarkPaidOrDonated(s: Store, i: nat): (Store, bool) {
    if i >= |s.offers| || s.offers[i].decision != Accepted then (s, false)
    else
      var o := s.offers[i];
      if o.receipt != ReceiptAccepted then (s, false)
      else if o.offerType == Quote && o.payment == Paid then (s, false)
      else
        var g := Grant(o.submittedBy, i);
        var found := FindGrant(s.grants, g);
        var issue := o.credential.None? && found.None?;
        var credential := if o.credential.Some? then o.credential
                          else Some(if found.Some? then found.value else |s.grants|);
        var payment := if o.offerType == Quote then Paid else NotRequired;
        (s.(grants := if issue then s.grants + [g] else s.grants,
            offers := s.offers[i := o.(payment := payment, credential := credential, decision := Fulfilled)]), true)
  }

  function AdjustStock(s: Store, resource: string, delta: real, reason: string): (Store, bool) {
    var stocked := RecordAdjustment(s, resource, delta, reason, None);
    if stocked.None? then (s, false) else (stocked.value, true)
  }

  // ----- runs

  datatype Command =
    | DoSubmit(resource: string, member: string, day: int, offerType: OfferType, quantity: real, price: real,
               acceptsOffers: bool, isPublic: bool)
    | DoAcceptOffer(offer: nat)
    | DoRejectOffer(offer: nat)
    | DoApprove(proposal: nat, member: string, role: Role, authority: Authority)
    | DoDecline(proposal: nat, member: string, role: Role, authority: Authority)
    | DoExecute(proposal: nat, authority: Authority)
    | DoReceipt(offer: nat, receipt: Receipt, notes: string)
    | DoMark(offer: nat)
    | DoAdjust(resource: string, delta: real, reason: string)

  function Step(s: Store, c: Command): (Store, bool) {
    match c
    case DoSubmit(resource, member, day, offerType, quantity, price, acceptsOffers, isPublic) =>
      Submit(s, resource, member, day, offerType, quantity, price, acceptsOffers, isPublic)
    case DoAcceptOffer(i) => AcceptOffer(s, i)
    case DoRejectOffer(i) => RejectOffer(s, i)
    case DoApprove(p, member, role, a) => Approve(s, p, member, role, a)
    case DoDecline(p, member, role, a) => Decline(s, p, member, role, a)
    case DoExecute(p, a) => Execute(s, p, a)
    case DoReceipt(i, receipt, notes) => RecordReceipt(s, i, receipt, notes)
    case DoMark(i) => MarkPaidOrDonated(s, i)
    case DoAdjust(resource, delta, reason) => AdjustStock(s, resource, delta, reason)
  }

  function Run(s: Store, cs: seq<Command>): Store {
    if cs == [] then s else Step(Run(s, cs[..|cs| - 1]), cs[|cs| - 1]).0
  }
}
