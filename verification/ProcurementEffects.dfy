/** What a caller of each procurement service may rely on, in a store that the services have kept safe. */
module ProcurementEffects {
  import opened Common
  import opened Procurement
  import opened ProcurementSafety

  /** The two stores differ in offers, proposals and votes at most. */
  predicate SameGoods(s: Store, after: Store) {
    after.stock == s.stock && after.ledger == s.ledger && after.grants == s.grants
  }

  /** What must be so for an offer to be taken. */
  predicate MaySubmit(s: Store, c: Command)
    requires c.DoSubmit?
  {
    && c.acceptsOffers && c.resource in s.stock && c.quantity > 0.0 && c.price >= 0.0
    && (c.offerType == Donation ==> c.price == 0.0) && (c.offerType == Quote ==> c.isPublic)
    && |OffersOf(s.offers, c.member, c.resource, c.day)| < 5
  }

  /**
   * A new offer has the terms of the call, stays within the daily limit, and has its own open proposal of the tier that
   * its amount calls for; nobody has approved it, and it is neither stocked nor credited.
   */
  ghost predicate Offered(s: Store, after: Store, ok: bool, c: Command)
    requires c.DoSubmit?
  {
    && (ok <==> MaySubmit(s, c))
    && if !ok then after == s
       else
         && |after.offers| == |s.offers| + 1 == |after.proposals|
         && s.offers <= after.offers && s.proposals <= after.proposals
         && after.votes == s.votes && SameGoods(s, after)
         && OfferOnTerms(after.offers[|s.offers|], c)
         && after.proposals[|s.offers|].target == |s.offers| && after.proposals[|s.offers|].status == Open
         && TierFits(after.proposals[|s.offers|].tier, c.offerType, c.quantity * c.price)
         && |OffersOf(after.offers, c.member, c.resource, c.day)| <= 5
         && Approvals(after.votes, |s.offers|) == []
         && RowsFor(after.ledger, |s.offers|) == 0 && GrantsFor(after.grants, |s.offers|) == 0
  }

  predicate OfferOnTerms(o: Offer, c: Command)
    requires c.DoSubmit?
  {
    && o.submittedBy == c.member && o.resource == c.resource && o.day == c.day && o.offerType == c.offerType
    && o.quantity == c.quantity && o.total == c.quantity * c.price
    && o.decision == Submitted && o.receipt == NotReceived && !o.delivered && o.credential.None?
    && o.payment == (if c.offerType == Donation then NotRequired else AwaitingPayment)
  }

  lemma SubmitOffers(opening: map<string, real>, s: Store, c: Command)
    requires Safe(opening, s) && c.DoSubmit?
    ensures Offered(s, Step(s, c).0, Step(s, c).1, c)
  {
    SubmitAnswers(s, c);
    RefusalChangesNothing(s, c);
    if Step(s, c).1 {
      var o := SubmitEffect(s, c);
      NewOfferIsOffered(s, o, c);
    }
  }

  lemma SubmitAnswers(s: Store, c: Command)
    requires c.DoSubmit?
    ensures Step(s, c).1 <==> MaySubmit(s, c)
  {
    CountIsNumber(s.offers, c.member, c.resource, c.day);
  }

  lemma SubmitEffect(s: Store, c: Command) returns (o: Offer)
    requires c.DoSubmit? && Step(s, c).1
    ensures OfferOnTerms(o, c) && o.tier == ComputeTier(o.offerType, o.total)
    ensures Step(s, c).0 == s.(offers := s.offers + [o],
                               proposals := s.proposals + [Proposal(|s.offers|, ToProposalTier(o.tier), Open)])
  {
    o := Step(s, c).0.offers[|s.offers|];
  }

  lemma NewOfferIsOffered(s: Store, o: Offer, c: Command)
    requires c.DoSubmit? && MaySubmit(s, c) && OfferOnTerms(o, c) && o.tier == ComputeTier(o.offerType, o.total)
    requires |s.proposals| == |s.offers|
    requires forall v :: v in s.votes ==> v.proposal < |s.proposals|
    requires forall r :: r in s.ledger ==> r.offer != Some(|s.offers|)
    requires forall g :: g in s.grants ==> g.offer != |s.offers|
    ensures var after := s.(offers := s.offers + [o],
                            proposals := s.proposals + [Proposal(|s.offers|, ToProposalTier(o.tier), Open)]);
            Offered(s, after, true, c)
  {
    var n := |s.offers|;
    assert (s.offers + [o])[..n] == s.offers;
    OneMoreOffer(s.offers + [o], c.member, c.resource, c.day);
    ComputedTierFits(o.offerType, o.total);
    NoApprovalsBeyond(s.votes, n);
    NoRowsBeyond(s.ledger, n);
    NoGrantsBeyond(s.grants, n);
  }

  // ----- approvals

  /** Some approval of the proposal was cast in this role. */
  predicate ApprovedAs(s: Store, p: nat, role: Role) {
    exists i :: 0 <= i < |s.votes| && s.votes[i].proposal == p && s.votes[i].approves && s.votes[i].role == role
  }

  predicate ApprovedByMember(s: Store, p: nat, member: string) {
    exists i :: 0 <= i < |s.votes| && s.votes[i].proposal == p && s.votes[i].approves && s.votes[i].approver == member
  }

  /** Finance reviewers fill finance slots, administrators the governance slots; only major proposals have a second one. */
  predicate MayActAs(tier: ProposalTier, role: Role, a: Authority) {
    match role
    case Governance => a.administers
    case Finance => a.reviewsFinance
    case SecondGovernance => a.administers && tier == MajorTier
  }

  /** What must be so for an approval to be taken. */
  predicate MayApprove(s: Store, p: nat, member: string, role: Role, a: Authority) {
    && p < |s.proposals| && s.proposals[p].status == Open && MayActAs(s.proposals[p].tier, role, a)
    && !ApprovedByMember(s, p, member)
    && (role == Finance ==> ApprovedAs(s, p, Governance))
    && (role == SecondGovernance ==> ApprovedAs(s, p, Finance))
  }

  /** Who must have approved for the proposal to pass. */
  predicate ApprovalsSuffice(s: Store, p: nat, tier: ProposalTier) {
    match tier
    case SingleTier => ApprovedAs(s, p, Governance) || ApprovedAs(s, p, Finance)
    case StandardTier => ApprovedAs(s, p, Governance) && ApprovedAs(s, p, Finance)
    case MajorTier => ApprovedAs(s, p, Governance) && ApprovedAs(s, p, Finance) && ApprovedAs(s, p, SecondGovernance)
  }

  lemma {:induction false} ApprovalsAre(votes: seq<Vote>, p: nat, v: Vote)
    ensures v in Approvals(votes, p) <==> v in votes && v.proposal == p && v.approves
  {
    if votes != [] {
      var last := |votes| - 1;
      assert votes == votes[..last] + [votes[last]];
      ApprovalsAre(votes[..last], p, v);
    }
  }

  lemma ApprovalsTell(s: Store, p: nat)
    ensures forall role :: HasRole(Approvals(s.votes, p), role) <==> ApprovedAs(s, p, role)
    ensures forall m :: ApprovedBy(Approvals(s.votes, p), m) <==> ApprovedByMember(s, p, m)
  {
    var approvals := Approvals(s.votes, p);
    forall v ensures v in approvals <==> v in s.votes && v.proposal == p && v.approves {
      ApprovalsAre(s.votes, p, v);
    }
    forall role ensures HasRole(approvals, role) <==> ApprovedAs(s, p, role) {
      if HasRole(approvals, role) {
        var i :| 0 <= i < |approvals| && approvals[i].role == role;
        assert approvals[i] in approvals && approvals[i] in s.votes;
      }
      if ApprovedAs(s, p, role) {
        var i :| 0 <= i < |s.votes| && s.votes[i].proposal == p && s.votes[i].approves && s.votes[i].role == role;
        assert s.votes[i] in approvals;
      }
    }
    forall m ensures ApprovedBy(approvals, m) <==> ApprovedByMember(s, p, m) {
      if ApprovedBy(approvals, m) {
        var i :| 0 <= i < |approvals| && approvals[i].approver == m;
        assert approvals[i] in approvals && approvals[i] in s.votes;
      }
      if ApprovedByMember(s, p, m) {
        var i :| 0 <= i < |s.votes| && s.votes[i].proposal == p && s.votes[i].approves && s.votes[i].approver == m;
        assert s.votes[i] in approvals;
      }
    }
  }

  lemma RolesAsked(tier: ProposalTier, role: Role, a: Authority)
    ensures RoleAsked(tier, role) && CanFill(a, role) <==> MayActAs(tier, role, a)
  {
    var groups := RequiredGroups(tier);
    match role
    case Governance => assert Governance in groups[0];
    case Finance => assert Finance in groups[if tier == SingleTier then 0 else 1];
    case SecondGovernance =>
      if tier == MajorTier {
        assert SecondGovernance in groups[2];
      }
  }

  /** An approval is taken exactly when it may be. */
  lemma ApproveAnswers(s: Store, p: nat, member: string, role: Role, a: Authority)
    ensures Approve(s, p, member, role, a).1 <==> MayApprove(s, p, member, role, a)
  {
    if p < |s.proposals| {
      ApprovalsTell(s, p);
      RolesAsked(s.proposals[p].tier, role, a);
    }
  }

  lemma GroupsTell(approvals: seq<Vote>, tier: ProposalTier)
    ensures IsApproved(approvals, tier) <==>
              match tier
              case SingleTier => HasRole(approvals, Governance) || HasRole(approvals, Finance)
              case StandardTier => HasRole(approvals, Governance) && HasRole(approvals, Finance)
              case MajorTier =>
                HasRole(approvals, Governance) && HasRole(approvals, Finance) && HasRole(approvals, SecondGovernance)
  {
    var groups := RequiredGroups(tier);
    match tier
    case SingleTier =>
      assert GroupFilled(approvals, groups[0]) <==> HasRole(approvals, Governance) || HasRole(approvals, Finance);
    case StandardTier =>
      assert GroupFilled(approvals, groups[0]) <==> HasRole(approvals, Governance);
      assert GroupFilled(approvals, groups[1]) <==> HasRole(approvals, Finance);
    case MajorTier =>
      assert GroupFilled(approvals, groups[0]) <==> HasRole(approvals, Governance);
      assert GroupFilled(approvals, groups[1]) <==> HasRole(approvals, Finance);
      assert GroupFilled(approvals, groups[2]) <==> HasRole(approvals, SecondGovernance);
  }

  /**
   * The vote is the member's first approval of this proposal, in the order the roles demand; the proposal is approved
   * exactly when all groups of its tier are filled, and then they are filled in order by different members.
   */
  ghost predicate ApprovalAdded(s: Store, after: Store, ok: bool, p: nat, member: string, role: Role, a: Authority) {
    && (ok <==> MayApprove(s, p, member, role, a))
    && if !ok then after == s else VoteAdded(s, after, p, member, role)
  }

  ghost predicate VoteAdded(s: Store, after: Store, p: nat, member: string, role: Role) {
      && p < |s.proposals| && |after.proposals| == |s.proposals| && SameGoods(s, after) && after.offers == s.offers
      && s.proposals[p].status == Open && after.proposals[p].tier == s.proposals[p].tier
      && !ApprovedBy(Approvals(s.votes, p), member)
      && Approvals(after.votes, p) == Approvals(s.votes, p) + [Vote(p, member, role, true)]
      && (forall q :: 0 <= q < |s.proposals| && q != p ==>
            after.proposals[q] == s.proposals[q] && Approvals(after.votes, q) == Approvals(s.votes, q))
      && Orderly(Approvals(after.votes, p), s.proposals[p].tier)
      && after.proposals[p].status == (if ApprovalsSuffice(after, p, s.proposals[p].tier) then Approved else Open)
      && (after.proposals[p].status == Approved ==> FilledInOrder(Approvals(after.votes, p), s.proposals[p].tier))
  }

  lemma ApproveEffect(s: Store, p: nat, member: string, role: Role, a: Authority)
    requires Approve(s, p, member, role, a).1
    ensures p < |s.proposals| && s.proposals[p].status == Open && !ApprovedBy(Approvals(s.votes, p), member)
    ensures var approvals, v := Approvals(s.votes, p), Vote(p, member, role, true);
            var status := if IsApproved(approvals + [v], s.proposals[p].tier) then Approved else Open;
            Approve(s, p, member, role, a).0 ==
              s.(votes := s.votes + [v], proposals := s.proposals[p := s.proposals[p].(status := status)])
  {
  }

  lemma ApproveAdds(s: Store, c: Command)
    requires VotesKept(s.votes, s.proposals) && c.DoApprove?
    ensures ApprovalAdded(s, Step(s, c).0, Step(s, c).1, c.proposal, c.member, c.role, c.authority)
  {
    ApproveAnswers(s, c.proposal, c.member, c.role, c.authority);
    RefusalChangesNothing(s, c);
    if Step(s, c).1 {
      ApproveAddsOne(s, c.proposal, c.member, c.role, c.authority);
    }
  }

  lemma ApproveAddsOne(s: Store, p: nat, member: string, role: Role, a: Authority)
    requires VotesKept(s.votes, s.proposals) && Approve(s, p, member, role, a).1
    ensures VoteAdded(s, Approve(s, p, member, role, a).0, p, member, role)
  {
    var after := Approve(s, p, member, role, a).0;
    ApproveEffect(s, p, member, role, a);
    ApproveKeepsVotes(s, p, member, role, a);
    VoteIsAdded(s, after, Vote(p, member, role, true), after.proposals[p].status);
  }

  lemma VoteIsAdded(s: Store, after: Store, v: Vote, status: ProposalStatus)
    requires v.approves && v.proposal < |s.proposals| && s.proposals[v.proposal].status == Open
    requires !ApprovedBy(Approvals(s.votes, v.proposal), v.approver) && status in {Open, Approved}
    requires after == s.(votes := s.votes + [v],
                         proposals := s.proposals[v.proposal := s.proposals[v.proposal].(status := status)])
    requires VotesKept(after.votes, after.proposals)
    ensures VoteAdded(s, after, v.proposal, v.approver, v.role)
  {
    OneMoreApproval(s.votes, v);
    ApprovalsTell(after, v.proposal);
    GroupsTell(Approvals(after.votes, v.proposal), s.proposals[v.proposal].tier);
    assert SlotKept(Approvals(after.votes, v.proposal), after.proposals[v.proposal]);
    if status == Approved {
      FilledWhenApproved(after, v.proposal);
    }
  }

  lemma OneMoreApproval(votes: seq<Vote>, v: Vote)
    requires v.approves
    ensures Approvals(votes + [v], v.proposal) == Approvals(votes, v.proposal) + [v]
    ensures forall q :: q != v.proposal ==> Approvals(votes + [v], q) == Approvals(votes, q)
  {
    forall q ensures Approvals(votes + [v], q) == Approvals(votes, q) + if q == v.proposal then [v] else [] {
      ApprovalsAppend(votes, v, q);
    }
  }

  /** What must be so for a proposal to be turned down; one row per member and role is kept. */
  predicate MayDecline(s: Store, p: nat, member: string, role: Role, a: Authority) {
    && p < |s.proposals| && s.proposals[p].status == Open && MayActAs(s.proposals[p].tier, role, a)
    && (forall i :: 0 <= i < |s.votes| ==>
          !(s.votes[i].proposal == p && s.votes[i].approver == member && s.votes[i].role == role))
    && s.proposals[p].target < |s.offers| && s.offers[s.proposals[p].target].decision == Submitted
  }

  lemma DeclineAnswers(s: Store, p: nat, member: string, role: Role, a: Authority)
    ensures Decline(s, p, member, role, a).1 <==> MayDecline(s, p, member, role, a)
  {
    if p < |s.proposals| {
      RolesAsked(s.proposals[p].tier, role, a);
    }
  }

  /** The proposal and its offer are turned down together, and no approval is added or lost. */
  ghost predicate TurnedDown(s: Store, after: Store, ok: bool, p: nat, member: string, role: Role, a: Authority) {
    && (ok <==> MayDecline(s, p, member, role, a))
    && if !ok then after == s else BothTurnedDown(s, after, p)
  }

  ghost predicate BothTurnedDown(s: Store, after: Store, p: nat) {
      && p < |s.proposals| == |after.proposals| && |after.offers| == |s.offers| && SameGoods(s, after)
      && s.proposals[p].status == Open && after.proposals[p].status == Declined
      && s.proposals[p].target < |s.offers| && s.offers[s.proposals[p].target].decision == Submitted
      && after.offers[s.proposals[p].target].decision == Rejected
      && forall q :: Approvals(after.votes, q) == Approvals(s.votes, q)
  }

  lemma DeclineTurnsDown(s: Store, c: Command)
    requires c.DoDecline?
    ensures TurnedDown(s, Step(s, c).0, Step(s, c).1, c.proposal, c.member, c.role, c.authority)
  {
    DeclineAnswers(s, c.proposal, c.member, c.role, c.authority);
    RefusalChangesNothing(s, c);
    if Step(s, c).1 {
      forall q ensures Approvals(Step(s, c).0.votes, q) == Approvals(s.votes, q) {
        ApprovalsAppend(s.votes, Vote(c.proposal, c.member, c.role, false), q);
      }
    }
  }

  /** The proposal is executed on a full and ordered set of approvals, and its offer is accepted when it was not before. */
  ghost predicate CarriedOut(s: Store, after: Store, ok: bool, p: nat, a: Authority) {
    && (ok <==> MayExecute(s, p, a))
    && if !ok then after == s else ProposalExecuted(s, after, p)
  }

  /** Administrators and finance reviewers may execute what is approved and not yet refused, and repeat what is executed. */
  predicate MayExecute(s: Store, p: nat, a: Authority) {
    && p < |s.proposals| && (a.administers || a.reviewsFinance)
    && (|| s.proposals[p].status == Executed
        || (&& s.proposals[p].status == Approved && s.proposals[p].target < |s.offers|
            && s.offers[s.proposals[p].target].decision in {Submitted, Accepted}))
  }

  lemma ExecuteAnswers(s: Store, p: nat, a: Authority)
    ensures Execute(s, p, a).1 <==> MayExecute(s, p, a)
  {
  }

  ghost predicate ProposalExecuted(s: Store, after: Store, p: nat) {
      && p < |s.proposals| == |after.proposals| && |after.offers| == |s.offers| && SameGoods(s, after)
      && after.votes == s.votes && after.proposals[p].status == Executed
      && FilledInOrder(Approvals(s.votes, p), s.proposals[p].tier) && after.proposals[p].tier == s.proposals[p].tier
      && (if s.proposals[p].status == Executed then after == s
          else s.proposals[p].target < |s.offers| && after.offers[s.proposals[p].target].decision == Accepted)
  }

  lemma ExecuteCarriesOut(s: Store, c: Command)
    requires VotesKept(s.votes, s.proposals) && c.DoExecute?
    ensures CarriedOut(s, Step(s, c).0, Step(s, c).1, c.proposal, c.authority)
  {
    ExecuteAnswers(s, c.proposal, c.authority);
    if Step(s, c).1 {
      ExecuteEffect(s, c.proposal, c.authority);
      FilledWhenApproved(s, c.proposal);
    } else {
      RefusalChangesNothing(s, c);
    }
  }

  lemma FilledWhenApproved(s: Store, p: nat)
    requires VotesKept(s.votes, s.proposals) && p < |s.proposals|
    requires s.proposals[p].status == Approved || s.proposals[p].status == Executed
    ensures FilledInOrder(Approvals(s.votes, p), s.proposals[p].tier)
  {
    assert SlotKept(Approvals(s.votes, p), s.proposals[p]);
    ApprovedIsFilledInOrder(Approvals(s.votes, p), s.proposals[p].tier);
  }

  lemma ExecuteEffect(s: Store, p: nat, a: Authority)
    requires Execute(s, p, a).1
    ensures p < |s.proposals| && (s.proposals[p].status == Approved || s.proposals[p].status == Executed)
    ensures var after := Execute(s, p, a).0;
            && |after.offers| == |s.offers| && SameGoods(s, after) && after.votes == s.votes
            && after.proposals == s.proposals[p := s.proposals[p].(status := Executed)]
            && if s.proposals[p].status == Executed then after == s
               else s.proposals[p].target < |s.offers| && after.offers[s.proposals[p].target].decision == Accepted
  {
  }

  /** Once received, an offer stays received; its quantity enters the stock of its resource exactly when it was accepted. */
  ghost predicate Received(s: Store, after: Store, ok: bool, i: nat, receipt: Receipt) {
    && (ok <==> MayReceive(s, i, receipt))
    && if !ok then after == s else OfferReceived(s, after, i, receipt)
  }

  /** An accepted offer whose proposal was executed is received once, as accepted or as rejected. */
  predicate MayReceive(s: Store, i: nat, receipt: Receipt) {
    && i < |s.offers| && i < |s.proposals| && s.offers[i].decision == Accepted && s.proposals[i].status == Executed
    && s.offers[i].receipt == NotReceived
    && (|| receipt == ReceiptRejected
        || (&& receipt == ReceiptAccepted && s.offers[i].resource in s.stock
            && s.stock[s.offers[i].resource] + s.offers[i].quantity >= 0.0))
  }

  lemma ReceiptAnswers(opening: map<string, real>, s: Store, c: Command)
    requires Safe(opening, s) && c.DoReceipt?
    ensures Step(s, c).1 <==> MayReceive(s, c.offer, c.receipt)
  {
    var i := c.offer;
    if i < |s.offers| {
      PairedProposal(s.offers, s.proposals, i);
      assert OfferStocked(s.offers[i], s.proposals[i], s.ledger, i);
      ReasonIsGiven(c.notes);
    }
  }

  lemma ReasonIsGiven(notes: string)
    ensures Strip("receipt:" + notes) != ""
  {
    var reason := "receipt:" + notes;
    assert reason[0] == 'r' && !IsSpace('r');
    var from := StripTakesBlanks(reason);
  }

  ghost predicate OfferReceived(s: Store, after: Store, i: nat, receipt: Receipt) {
      && i < |s.offers| == |after.offers| == |s.proposals| && s.offers[i].receipt == NotReceived
      && (receipt == ReceiptAccepted || receipt == ReceiptRejected)
      && after.offers[i].receipt == receipt && after.offers[i].delivered
      && s.proposals[i].status == Executed && FilledInOrder(Approvals(s.votes, i), s.proposals[i].tier)
      && RowsFor(s.ledger, i) == 0 && RowsFor(after.ledger, i) == (if receipt == ReceiptAccepted then 1 else 0)
      && if receipt == ReceiptRejected then after.stock == s.stock
         else
           var resource := s.offers[i].resource;
           resource in s.stock && after.stock == s.stock[resource := s.stock[resource] + s.offers[i].quantity]
  }

  /** An adjustment is recorded exactly when it leaves no negative stock; stock and record move together. */
  lemma AdjustmentIsRecorded(opening: map<string, real>, s: Store, resource: string, delta: real, reason: string,
                             offer: Option<nat>)
    requires StockKept(opening, s.stock, s.ledger)
    ensures var after := RecordAdjustment(s, resource, delta, reason, offer);
            && (after.Some? <==> SaysSomething(reason) && resource in s.stock && s.stock[resource] + delta >= 0.0)
            && (after.Some? ==> StockKept(opening, after.value.stock, after.value.ledger) &&
                                Moved(after.value.ledger, resource) == Moved(s.ledger, resource) + delta)
  {
    var after := RecordAdjustment(s, resource, delta, reason, offer);
    var from := StripTakesBlanks(reason);
    if after.Some? {
      AdjustmentKeepsStock(opening, s, resource, delta, reason, offer);
      AdjustmentEffect(s, resource, delta, reason, offer);
      MovedAppend(s.ledger, after.value.ledger[|s.ledger|], resource);
    }
  }

  lemma MovedAppend(ledger: seq<StockRow>, row: StockRow, resource: string)
    requires row.resource == resource
    ensures Moved(ledger + [row], resource) == Moved(ledger, resource) + row.delta
  {
    assert (ledger + [row])[..|ledger|] == ledger;
  }

  /** What a receipt writes. */
  ghost predicate ReceiptWritten(s: Store, after: Store, i: nat, receipt: Receipt) {
    && i < |s.offers| && s.offers[i].receipt == NotReceived && ReadyForReceipt(s, i)
    && after.offers == s.offers[i := s.offers[i].(receipt := receipt, delivered := true)]
    && match receipt
       case ReceiptAccepted =>
         var resource, quantity := s.offers[i].resource, s.offers[i].quantity;
         && resource in s.stock && after.stock == s.stock[resource := s.stock[resource] + quantity]
         && after.ledger == s.ledger + [StockRow(resource, quantity, s.stock[resource], s.stock[resource] + quantity, Some(i))]
       case ReceiptRejected => after.stock == s.stock && after.ledger == s.ledger
       case _ => false
  }

  lemma ReceiptWrites(s: Store, c: Command)
    requires c.DoReceipt? && Step(s, c).1
    ensures ReceiptWritten(s, Step(s, c).0, c.offer, c.receipt)
  {
    ReceiptEffect(s, c);
    if c.receipt == ReceiptAccepted {
      var o := s.offers[c.offer];
      AdjustmentEffect(s, o.resource, o.quantity, "receipt:" + c.notes, Some(c.offer));
    }
  }

  lemma WrittenIsReceived(opening: map<string, real>, s: Store, after: Store, i: nat, receipt: Receipt)
    requires Safe(opening, s) && ReceiptWritten(s, after, i, receipt)
    ensures OfferReceived(s, after, i, receipt)
  {
    ExecutedIsFilled(opening, s, i);
    assert OfferStocked(s.offers[i], s.proposals[i], s.ledger, i);
    if receipt == ReceiptAccepted {
      RowsForAppend(s.ledger, after.ledger[|s.ledger|], i);
    }
  }

  lemma ReceiptReceives(opening: map<string, real>, s: Store, c: Command)
    requires Safe(opening, s) && c.DoReceipt?
    ensures Received(s, Step(s, c).0, Step(s, c).1, c.offer, c.receipt)
  {
    ReceiptAnswers(opening, s, c);
    RefusalChangesNothing(s, c);
    if Step(s, c).1 {
      ReceiptWrites(s, c);
      WrittenIsReceived(opening, s, Step(s, c).0, c.offer, c.receipt);
    }
  }

  /** The offer is fulfilled: received, stocked once, settled, and with its one credential in the submitter's name. */
  ghost predicate Completed(s: Store, after: Store, ok: bool, i: nat) {
    && (ok <==> MayComplete(s, i))
    && if !ok then after == s else OfferCompleted(s, after, i)
  }

  /** Exactly an accepted offer that was received as accepted, and not paid before, can be completed. */
  predicate MayComplete(s: Store, i: nat) {
    && i < |s.offers| && s.offers[i].decision == Accepted && s.offers[i].receipt == ReceiptAccepted
    && !(s.offers[i].offerType == Quote && s.offers[i].payment == Paid)
  }

  ghost predicate OfferCompleted(s: Store, after: Store, i: nat) {
      && i < |s.offers| == |after.offers| && after.stock == s.stock && after.ledger == s.ledger
      && GrantsFor(s.grants, i) == 0 && GrantsFor(after.grants, i) == 1 && RowsFor(after.ledger, i) == 1
      && after.offers[i].decision == Fulfilled && after.offers[i].receipt == ReceiptAccepted
      && after.offers[i].payment == (if s.offers[i].offerType == Quote then Paid else NotRequired)
      && after.offers[i].credential.Some? && after.offers[i].credential.value < |after.grants|
      && after.grants[after.offers[i].credential.value] == Grant(s.offers[i].submittedBy, i)
  }

  lemma MarkCompletes(opening: map<string, real>, s: Store, c: Command)
    requires Safe(opening, s) && c.DoMark?
    ensures Completed(s, Step(s, c).0, Step(s, c).1, c.offer)
  {
    if Step(s, c).1 {
      var i, after := c.offer, Step(s, c).0;
      MarkEffect(s, i);
      assert OfferCredited(s.offers[i], s.grants, i) && OfferStocked(s.offers[i], s.proposals[i], s.ledger, i);
      GrantsForAppend(s.grants, Grant(s.offers[i].submittedBy, i), i);
    }
  }
}
