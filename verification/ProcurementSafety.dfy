/** End-to-end safety of procurement over every run of its services. */
module ProcurementSafety {
  import opened Common
  import opened Procurement

  // ----- offers and their proposals

  /** Every offer has one acceptance proposal, of the tier its amount calls for. */
  ghost predicate Paired(offers: seq<Offer>, proposals: seq<Proposal>) {
    && |proposals| == |offers|
    && forall i :: 0 <= i < |offers| ==>
         && proposals[i].target == i
         && offers[i].tier == ComputeTier(offers[i].offerType, offers[i].total)
         && proposals[i].tier == ToProposalTier(offers[i].tier)
  }

  /** The tier an amount calls for, on the numbers themselves. */
  predicate TierFits(tier: ProposalTier, offerType: OfferType, amount: real) {
    && (tier == MajorTier <==> offerType == Quote && amount > 5000.0)
    && (tier == StandardTier <==> offerType == Quote && 500.0 < amount <= 5000.0)
    && (tier == SingleTier <==> offerType == Donation || amount <= 500.0)
  }

  lemma ComputedTierFits(offerType: OfferType, amount: real)
    ensures TierFits(ToProposalTier(ComputeTier(offerType, amount)), offerType, amount)
  {
  }

  lemma PairedProposal(offers: seq<Offer>, proposals: seq<Proposal>, i: nat)
    requires Paired(offers, proposals) && i < |offers|
    ensures ProposalFor(proposals, i) == Some(i)
  {
    assert proposals[i].target == i;
  }

  lemma {:induction false} CountUpdate(offers: seq<Offer>, i: nat, o: Offer, member: string, resource: string, day: int)
    requires i < |offers| && o.submittedBy == offers[i].submittedBy && o.resource == offers[i].resource
    requires o.day == offers[i].day
    ensures CountToday(offers[i := o], member, resource, day) == CountToday(offers, member, resource, day)
  {
    var last := |offers| - 1;
    if i < last {
      assert offers[i := o][..last] == offers[..last][i := o];
      CountUpdate(offers[..last], i, o, member, resource, day);
    } else {
      assert offers[i := o][..last] == offers[..last];
    }
  }

  /** The offers are as before, or one of them changed in place, or one was added that the daily limit allows. */
  ghost predicate OneOfferChanged(offers: seq<Offer>, after: seq<Offer>, i: nat) {
    || after == offers
    || (&& i < |offers| && |after| == |offers| && after == offers[i := after[i]]
        && after[i].submittedBy == offers[i].submittedBy && after[i].resource == offers[i].resource
        && after[i].day == offers[i].day)
    || (&& |after| == |offers| + 1 && after[..|offers|] == offers
        && var o := after[|offers|];
           CountToday(offers, o.submittedBy, o.resource, o.day) < DailyOfferLimit)
  }

  lemma OffersChange(s: Store, c: Command) returns (i: nat)
    ensures OneOfferChanged(s.offers, Step(s, c).0.offers, i)
  {
    RefusalChangesNothing(s, c);
    i := match c
      case DoAcceptOffer(k) => k
      case DoRejectOffer(k) => k
      case DoDecline(p, _, _, _) => if p < |s.proposals| then s.proposals[p].target else 0
      case DoExecute(p, _) => if p < |s.proposals| then s.proposals[p].target else 0
      case DoReceipt(k, _, _) => k
      case DoMark(k) => k
      case _ => 0;
  }

  /** The positions of the member's offers on the resource and day. */
  function OffersOf(offers: seq<Offer>, member: string, resource: string, day: int): set<nat> {
    set i | 0 <= i < |offers| && offers[i].submittedBy == member && offers[i].resource == resource && offers[i].day == day
  }

  lemma {:induction false} CountIsNumber(offers: seq<Offer>, member: string, resource: string, day: int)
    ensures CountToday(offers, member, resource, day) == |OffersOf(offers, member, resource, day)|
  {
    if offers != [] {
      var n := |offers| - 1;
      CountIsNumber(offers[..n], member, resource, day);
      OneMoreOffer(offers, member, resource, day);
    }
  }

  lemma OneMoreOffer(offers: seq<Offer>, member: string, resource: string, day: int)
    requires offers != []
    ensures var n, last := |offers| - 1, offers[|offers| - 1];
            var own := last.submittedBy == member && last.resource == resource && last.day == day;
            && n !in OffersOf(offers[..n], member, resource, day)
            && OffersOf(offers, member, resource, day) ==
               OffersOf(offers[..n], member, resource, day) + if own then {n} else {}
  {
    var n := |offers| - 1;
    forall i ensures i in OffersOf(offers, member, resource, day) && i < n <==>
                     i in OffersOf(offers[..n], member, resource, day)
    {
    }
  }

  /** In every run no member has more than five offers on one resource and one day. */
  lemma {:induction false} DailyLimitKept(s: Store, cs: seq<Command>, member: string, resource: string, day: int)
    requires |OffersOf(s.offers, member, resource, day)| <= 5
    ensures |OffersOf(Run(s, cs).offers, member, resource, day)| <= 5
  {
    CountIsNumber(Run(s, cs).offers, member, resource, day);
    if cs != [] {
      DailyLimitKept(s, cs[..|cs| - 1], member, resource, day);
      CountIsNumber(Run(s, cs[..|cs| - 1]).offers, member, resource, day);
      StepKeepsDailyLimit(Run(s, cs[..|cs| - 1]), cs[|cs| - 1], member, resource, day);
    }
  }

  lemma StepKeepsDailyLimit(s: Store, c: Command, member: string, resource: string, day: int)
    requires CountToday(s.offers, member, resource, day) <= DailyOfferLimit
    ensures CountToday(Step(s, c).0.offers, member, resource, day) <= DailyOfferLimit
  {
    var i := OffersChange(s, c);
    OffersKeepLimit(s.offers, Step(s, c).0.offers, i, member, resource, day);
  }

  lemma OffersKeepLimit(offers: seq<Offer>, after: seq<Offer>, i: nat, member: string, resource: string, day: int)
    requires OneOfferChanged(offers, after, i) && CountToday(offers, member, resource, day) <= DailyOfferLimit
    ensures CountToday(after, member, resource, day) <= DailyOfferLimit
  {
    if |after| == |offers| && after != offers {
      CountUpdate(offers, i, after[i], member, resource, day);
    }
  }

  /** What was offered, on which terms and by whom. */
  predicate SameTerms(o: Offer, later: Offer) {
    && later.resource == o.resource && later.submittedBy == o.submittedBy && later.offerType == o.offerType
    && later.quantity == o.quantity && later.total == o.total && later.day == o.day
  }

  lemma StepKeepsTerms(s: Store, c: Command, i: nat)
    requires i < |s.offers|
    ensures i < |Step(s, c).0.offers| && SameTerms(s.offers[i], Step(s, c).0.offers[i])
  {
  }

  /** The terms of an offer never change. */
  lemma {:induction false} TermsNeverChange(s: Store, cs: seq<Command>, i: nat)
    requires i < |s.offers|
    ensures i < |Run(s, cs).offers| && SameTerms(s.offers[i], Run(s, cs).offers[i])
  {
    if cs != [] {
      TermsNeverChange(s, cs[..|cs| - 1], i);
      StepKeepsTerms(Run(s, cs[..|cs| - 1]), cs[|cs| - 1], i);
    }
  }

  // ----- approvals

  lemma ApprovalsAppend(votes: seq<Vote>, v: Vote, p: nat)
    ensures Approvals(votes + [v], p) == Approvals(votes, p) + if v.proposal == p && v.approves then [v] else []
  {
    assert (votes + [v])[..|votes|] == votes;
  }

  lemma {:induction false} NoApprovalsBeyond(votes: seq<Vote>, p: nat)
    requires forall v :: v in votes ==> v.proposal < p
    ensures Approvals(votes, p) == []
  {
    if votes != [] {
      assert votes[|votes| - 1] in votes;
      NoApprovalsBeyond(votes[..|votes| - 1], p);
    }
  }

  /** The approval has a role of the tier; finance comes after governance, the second governance after finance. */
  predicate InTurn(approvals: seq<Vote>, i: nat, tier: ProposalTier)
    requires i < |approvals|
  {
    && RoleAsked(tier, approvals[i].role)
    && (approvals[i].role == Finance ==> HasRole(approvals[..i], Governance))
    && (approvals[i].role == SecondGovernance ==> HasRole(approvals[..i], Finance))
  }

  /** Nobody approves twice, and all approve in turn. */
  ghost predicate Orderly(approvals: seq<Vote>, tier: ProposalTier) {
    && (forall i, j :: 0 <= i < j < |approvals| ==> approvals[i].approver != approvals[j].approver)
    && (forall i :: 0 <= i < |approvals| ==> InTurn(approvals, i, tier))
  }

  lemma OrderlyAppend(approvals: seq<Vote>, tier: ProposalTier, v: Vote)
    requires Orderly(approvals, tier) && RoleAsked(tier, v.role) && !ApprovedBy(approvals, v.approver)
    requires v.role == Finance ==> HasRole(approvals, Governance)
    requires v.role == SecondGovernance ==> HasRole(approvals, Finance)
    ensures Orderly(approvals + [v], tier)
  {
    var all := approvals + [v];
    forall i | 0 <= i < |all| ensures InTurn(all, i, tier) {
      assert all[..i] == approvals[..i];
      if i < |approvals| {
        assert InTurn(approvals, i, tier);
      } else {
        assert approvals[..i] == approvals;
      }
    }
  }

  ghost predicate GovernanceApproved(approvals: seq<Vote>) {
    exists i :: 0 <= i < |approvals| && approvals[i].role == Governance
  }

  /** Governance first, then finance, by two members. */
  ghost predicate TwoApprovedInOrder(approvals: seq<Vote>) {
    exists i, j :: 0 <= i < j < |approvals| && approvals[i].role == Governance && approvals[j].role == Finance &&
                   approvals[i].approver != approvals[j].approver
  }

  /** Governance, then finance, then governance again, by three members. */
  ghost predicate ThreeApprovedInOrder(approvals: seq<Vote>) {
    exists i, j, k :: 0 <= i < j < k < |approvals| &&
      approvals[i].role == Governance && approvals[j].role == Finance && approvals[k].role == SecondGovernance &&
      approvals[i].approver != approvals[j].approver && approvals[j].approver != approvals[k].approver &&
      approvals[i].approver != approvals[k].approver
  }

  /** Every role group of the tier is filled, by different members, in the order governance, finance, governance. */
  ghost predicate FilledInOrder(approvals: seq<Vote>, tier: ProposalTier) {
    match tier
    case SingleTier => GovernanceApproved(approvals)
    case StandardTier => TwoApprovedInOrder(approvals)
    case MajorTier => ThreeApprovedInOrder(approvals)
  }

  lemma MoreIncludesLess(approvals: seq<Vote>)
    ensures ThreeApprovedInOrder(approvals) ==> TwoApprovedInOrder(approvals)
    ensures TwoApprovedInOrder(approvals) ==> GovernanceApproved(approvals)
  {
  }

  lemma GovernanceBefore(approvals: seq<Vote>, tier: ProposalTier, j: nat) returns (i: nat)
    requires Orderly(approvals, tier) && j < |approvals| && approvals[j].role == Finance
    ensures i < j && approvals[i].role == Governance && approvals[i].approver != approvals[j].approver
  {
    assert InTurn(approvals, j, tier);
    i :| 0 <= i < |approvals[..j]| && approvals[..j][i].role == Governance;
  }

  lemma FinanceBefore(approvals: seq<Vote>, tier: ProposalTier, k: nat) returns (j: nat)
    requires Orderly(approvals, tier) && k < |approvals| && approvals[k].role == SecondGovernance
    ensures j < k && approvals[j].role == Finance && approvals[j].approver != approvals[k].approver
  {
    assert InTurn(approvals, k, tier);
    j :| 0 <= j < |approvals[..k]| && approvals[..k][j].role == Finance;
  }

  lemma ApprovedIsFilledInOrder(approvals: seq<Vote>, tier: ProposalTier)
    requires Orderly(approvals, tier) && IsApproved(approvals, tier)
    ensures FilledInOrder(approvals, tier)
  {
    var groups := RequiredGroups(tier);
    var last := |groups| - 1;
    assert GroupFilled(approvals, groups[last]);
    var k :| 0 <= k < |approvals| && approvals[k].role in groups[last];
    match tier
    case SingleTier =>
      if approvals[k].role == Finance {
        var i := GovernanceBefore(approvals, tier, k);
      }
    case StandardTier => StandardFilled(approvals, tier, k);
    case MajorTier => MajorFilled(approvals, tier, k);
  }

  lemma StandardFilled(approvals: seq<Vote>, tier: ProposalTier, k: nat)
    requires Orderly(approvals, tier) && k < |approvals| && approvals[k].role == Finance
    ensures FilledInOrder(approvals, StandardTier)
  {
    var i := GovernanceBefore(approvals, tier, k);
  }

  lemma MajorFilled(approvals: seq<Vote>, tier: ProposalTier, k: nat)
    requires Orderly(approvals, tier) && k < |approvals| && approvals[k].role == SecondGovernance
    ensures FilledInOrder(approvals, MajorTier)
  {
    var j := FinanceBefore(approvals, tier, k);
    var i := GovernanceBefore(approvals, tier, j);
    assert approvals[i].approver != approvals[k].approver;
  }

  /** The approvals of one proposal and its status fit together. */
  ghost predicate SlotKept(approvals: seq<Vote>, p: Proposal) {
    && Orderly(approvals, p.tier)
    && (p.status == Open ==> !IsApproved(approvals, p.tier))
    && (p.status == Approved || p.status == Executed ==> IsApproved(approvals, p.tier))
  }

  ghost predicate VotesKept(votes: seq<Vote>, proposals: seq<Proposal>) {
    && (forall v :: v in votes ==> v.proposal < |proposals|)
    && forall p :: 0 <= p < |proposals| ==> SlotKept(Approvals(votes, p), proposals[p])
  }

  lemma NewSlotKept(p: Proposal)
    requires p.status == Open
    ensures SlotKept([], p)
  {
    assert !GroupFilled([], RequiredGroups(p.tier)[0]);
  }

  lemma NewProposalKept(votes: seq<Vote>, proposals: seq<Proposal>, p: Proposal)
    requires VotesKept(votes, proposals) && p.status == Open
    ensures VotesKept(votes, proposals + [p])
  {
    NoApprovalsBeyond(votes, |proposals|);
    NewSlotKept(p);
  }

  lemma StatusChangeKept(votes: seq<Vote>, proposals: seq<Proposal>, p: nat, status: ProposalStatus)
    requires VotesKept(votes, proposals) && p < |proposals|
    requires status == Executed ==> proposals[p].status == Approved
    requires status == Executed || status == Declined
    ensures VotesKept(votes, proposals[p := proposals[p].(status := status)])
  {
    assert SlotKept(Approvals(votes, p), proposals[p].(status := status));
  }

  lemma OtherVoteKept(votes: seq<Vote>, proposals: seq<Proposal>, v: Vote)
    requires VotesKept(votes, proposals) && v.proposal < |proposals| && !v.approves
    ensures VotesKept(votes + [v], proposals)
  {
    forall q | 0 <= q < |proposals| ensures SlotKept(Approvals(votes + [v], q), proposals[q]) {
      ApprovalsAppend(votes, v, q);
      assert Approvals(votes + [v], q) == Approvals(votes, q);
    }
  }

  lemma ApproveKeepsVotes(s: Store, p: nat, member: string, role: Role, a: Authority)
    requires VotesKept(s.votes, s.proposals) && Approve(s, p, member, role, a).1
    ensures var after := Approve(s, p, member, role, a).0; VotesKept(after.votes, after.proposals)
  {
    var v, approvals := Vote(p, member, role, true), Approvals(s.votes, p);
    var status := if IsApproved(approvals + [v], s.proposals[p].tier) then Approved else Open;
    assert SlotKept(approvals, s.proposals[p]);
    OrderlyAppend(approvals, s.proposals[p].tier, v);
    VoteKeepsVotes(s.votes, s.proposals, v, status);
  }

  lemma VoteKeepsVotes(votes: seq<Vote>, proposals: seq<Proposal>, v: Vote, status: ProposalStatus)
    requires VotesKept(votes, proposals) && v.proposal < |proposals| && v.approves
    requires SlotKept(Approvals(votes, v.proposal) + [v], proposals[v.proposal].(status := status))
    ensures VotesKept(votes + [v], proposals[v.proposal := proposals[v.proposal].(status := status)])
  {
    forall q | 0 <= q < |proposals|
      ensures SlotKept(Approvals(votes + [v], q), proposals[v.proposal := proposals[v.proposal].(status := status)][q])
    {
      ApprovalsAppend(votes, v, q);
      if q != v.proposal {
        assert Approvals(votes + [v], q) == Approvals(votes, q);
        assert SlotKept(Approvals(votes, q), proposals[q]);
      }
    }
  }

  // ----- receipts and stock

  function RowsFor(ledger: seq<StockRow>, i: nat): nat {
    if ledger == [] then 0
    else RowsFor(ledger[..|ledger| - 1], i) + if ledger[|ledger| - 1].offer == Some(i) then 1 else 0
  }

  lemma RowsForAppend(ledger: seq<StockRow>, r: StockRow, i: nat)
    ensures RowsFor(ledger + [r], i) == RowsFor(ledger, i) + if r.offer == Some(i) then 1 else 0
  {
    assert (ledger + [r])[..|ledger|] == ledger;
  }

  lemma {:induction false} NoRowsBeyond(ledger: seq<StockRow>, i: nat)
    requires forall r :: r in ledger ==> r.offer != Some(i)
    ensures RowsFor(ledger, i) == 0
  {
    if ledger != [] {
      assert ledger[|ledger| - 1] in ledger;
      NoRowsBeyond(ledger[..|ledger| - 1], i);
    }
  }

  ghost predicate OfferStocked(o: Offer, p: Proposal, ledger: seq<StockRow>, i: nat) {
    && RowsFor(ledger, i) == (if o.receipt == ReceiptAccepted then 1 else 0)
    && (o.receipt == ReceiptAccepted ==> p.status == Executed)
    && (o.receipt == NotReceived <==> !o.delivered)
  }

  ghost predicate ReceiptsKept(offers: seq<Offer>, proposals: seq<Proposal>, ledger: seq<StockRow>) {
    && |proposals| == |offers|
    && (forall r :: r in ledger && r.offer.Some? ==>
          r.offer.value < |offers| && r.delta == offers[r.offer.value].quantity &&
          r.resource == offers[r.offer.value].resource)
    && forall i :: 0 <= i < |offers| ==> OfferStocked(offers[i], proposals[i], ledger, i)
  }

  function Moved(ledger: seq<StockRow>, resource: string): real {
    if ledger == [] then 0.0
    else
      var last := ledger[|ledger| - 1];
      Moved(ledger[..|ledger| - 1], resource) + if last.resource == resource then last.delta else 0.0
  }

  /** The row tells the stock before and after it. */
  ghost predicate RowTells(opening: map<string, real>, ledger: seq<StockRow>, k: nat)
    requires k < |ledger|
  {
    && ledger[k].resource in opening
    && ledger[k].before == opening[ledger[k].resource] + Moved(ledger[..k], ledger[k].resource)
    && ledger[k].after == ledger[k].before + ledger[k].delta
  }

  /** Stock is the opening stock plus every recorded movement, and never negative; every row tells the stock of its time. */
  ghost predicate StockKept(opening: map<string, real>, stock: map<string, real>, ledger: seq<StockRow>) {
    && stock.Keys == opening.Keys
    && (forall r :: r in opening ==> stock[r] == opening[r] + Moved(ledger, r) && stock[r] >= 0.0)
    && forall k :: 0 <= k < |ledger| ==> RowTells(opening, ledger, k)
  }

  lemma AdjustmentKeepsStock(opening: map<string, real>, s: Store, resource: string, delta: real, reason: string,
                             offer: Option<nat>)
    requires StockKept(opening, s.stock, s.ledger) && RecordAdjustment(s, resource, delta, reason, offer).Some?
    ensures var after := RecordAdjustment(s, resource, delta, reason, offer).value;
            StockKept(opening, after.stock, after.ledger)
  {
    var after := RecordAdjustment(s, resource, delta, reason, offer).value;
    var n := |s.ledger|;
    assert after.ledger[..n] == s.ledger;
    forall k | 0 <= k < |after.ledger| ensures RowTells(opening, after.ledger, k) {
      assert after.ledger[..k] == s.ledger[..k];
      if k < n {
        assert RowTells(opening, s.ledger, k);
      } else {
        assert s.ledger[..k] == s.ledger;
      }
    }
  }

  lemma AdjustmentEffect(s: Store, resource: string, delta: real, reason: string, offer: Option<nat>)
    requires RecordAdjustment(s, resource, delta, reason, offer).Some?
    ensures resource in s.stock
    ensures var after, before := RecordAdjustment(s, resource, delta, reason, offer).value, s.stock[resource];
            && after.stock == s.stock[resource := before + delta]
            && after.ledger == s.ledger + [StockRow(resource, delta, before, before + delta, offer)]
  {
  }

  // ----- credentials

  function GrantsFor(grants: seq<Grant>, i: nat): nat {
    if grants == [] then 0
    else GrantsFor(grants[..|grants| - 1], i) + if grants[|grants| - 1].offer == i then 1 else 0
  }

  lemma GrantsForAppend(grants: seq<Grant>, g: Grant, i: nat)
    ensures GrantsFor(grants + [g], i) == GrantsFor(grants, i) + if g.offer == i then 1 else 0
  {
    assert (grants + [g])[..|grants|] == grants;
  }

  lemma {:induction false} GrantsForPositive(grants: seq<Grant>, k: nat)
    requires k < |grants|
    ensures GrantsFor(grants, grants[k].offer) > 0
  {
    if k < |grants| - 1 {
      GrantsForPositive(grants[..|grants| - 1], k);
    }
  }

  lemma {:induction false} NoGrantsBeyond(grants: seq<Grant>, i: nat)
    requires forall g :: g in grants ==> g.offer != i
    ensures GrantsFor(grants, i) == 0
  {
    if grants != [] {
      assert grants[|grants| - 1] in grants;
      NoGrantsBeyond(grants[..|grants| - 1], i);
    }
  }

  ghost predicate OfferCredited(o: Offer, grants: seq<Grant>, i: nat) {
    && GrantsFor(grants, i) == (if o.decision == Fulfilled then 1 else 0)
    && (o.decision == Fulfilled ==>
          o.receipt == ReceiptAccepted && o.credential.Some? && o.credential.value < |grants| &&
          grants[o.credential.value] == Grant(o.submittedBy, i) &&
          o.payment == (if o.offerType == Quote then Paid else NotRequired))
    && (o.decision != Fulfilled ==> o.credential.None?)
  }

  ghost predicate GrantsKept(offers: seq<Offer>, grants: seq<Grant>) {
    && (forall g :: g in grants ==> g.offer < |offers|)
    && forall i :: 0 <= i < |offers| ==> OfferCredited(offers[i], grants, i)
  }

  // ----- the invariant

  ghost predicate Safe(opening: map<string, real>, s: Store) {
    && Paired(s.offers, s.proposals)
    && VotesKept(s.votes, s.proposals)
    && ReceiptsKept(s.offers, s.proposals, s.ledger)
    && StockKept(opening, s.stock, s.ledger)
    && GrantsKept(s.offers, s.grants)
  }

  lemma SubmitKeepsSafe(opening: map<string, real>, s: Store, c: Command)
    requires Safe(opening, s) && c.DoSubmit? && Step(s, c).1
    ensures Safe(opening, Step(s, c).0)
  {
    var after := Step(s, c).0;
    var n := |s.offers|;
    assert after.offers[..n] == s.offers && after.proposals[..n] == s.proposals;
    NewProposalKept(s.votes, s.proposals, after.proposals[n]);
    NoRowsBeyond(s.ledger, n);
    NoGrantsBeyond(s.grants, n);
    forall i | 0 <= i < n + 1
      ensures OfferStocked(after.offers[i], after.proposals[i], s.ledger, i) && OfferCredited(after.offers[i], s.grants, i)
    {
      if i < n {
        assert OfferStocked(s.offers[i], s.proposals[i], s.ledger, i) && OfferCredited(s.offers[i], s.grants, i);
      }
    }
  }

  /** A decision on an offer that is not yet fulfilled, and that does not fulfil it, disturbs nothing. */
  lemma DecisionKeepsSafe(opening: map<string, real>, s: Store, i: nat, decision: Decision)
    requires Safe(opening, s) && i < |s.offers| && s.offers[i].decision != Fulfilled && decision != Fulfilled
    ensures Safe(opening, s.(offers := s.offers[i := s.offers[i].(decision := decision)]))
  {
    var offers := s.offers[i := s.offers[i].(decision := decision)];
    forall k | 0 <= k < |offers|
      ensures OfferStocked(offers[k], s.proposals[k], s.ledger, k) && OfferCredited(offers[k], s.grants, k)
    {
      assert OfferStocked(s.offers[k], s.proposals[k], s.ledger, k) && OfferCredited(s.offers[k], s.grants, k);
    }
  }

  lemma ProposalChangeKeepsReceipts(offers: seq<Offer>, proposals: seq<Proposal>, ledger: seq<StockRow>, p: nat,
                                    status: ProposalStatus)
    requires ReceiptsKept(offers, proposals, ledger) && p < |proposals| && proposals[p].status != Executed
    ensures ReceiptsKept(offers, proposals[p := proposals[p].(status := status)], ledger)
  {
    var after := proposals[p := proposals[p].(status := status)];
    forall k | 0 <= k < |offers| ensures OfferStocked(offers[k], after[k], ledger, k) {
      assert OfferStocked(offers[k], proposals[k], ledger, k);
    }
  }

  lemma ProposalChangeKeepsSafe(opening: map<string, real>, s: Store, votes: seq<Vote>, p: nat, status: ProposalStatus)
    requires Safe(opening, s) && p < |s.proposals| && s.proposals[p].status != Executed
    requires VotesKept(votes, s.proposals[p := s.proposals[p].(status := status)])
    ensures Safe(opening, s.(votes := votes, proposals := s.proposals[p := s.proposals[p].(status := status)]))
  {
    ProposalChangeKeepsReceipts(s.offers, s.proposals, s.ledger, p, status);
    assert Paired(s.offers, s.proposals[p := s.proposals[p].(status := status)]);
  }

  lemma ApproveKeepsSafe(opening: map<string, real>, s: Store, c: Command)
    requires Safe(opening, s) && c.DoApprove? && Step(s, c).1
    ensures Safe(opening, Step(s, c).0)
  {
    var after := Step(s, c).0;
    ApproveKeepsVotes(s, c.proposal, c.member, c.role, c.authority);
    ProposalChangeKeepsSafe(opening, s, after.votes, c.proposal, after.proposals[c.proposal].status);
  }

  lemma DeclineKeepsSafe(opening: map<string, real>, s: Store, c: Command)
    requires Safe(opening, s) && c.DoDecline? && Step(s, c).1
    ensures Safe(opening, Step(s, c).0)
  {
    var p := c.proposal;
    var v := Vote(p, c.member, c.role, false);
    var rejected := RejectOffer(s, s.proposals[p].target).0;
    DecisionKeepsSafe(opening, s, s.proposals[p].target, Rejected);
    OtherVoteKept(s.votes, s.proposals, v);
    StatusChangeKept(s.votes + [v], s.proposals, p, Declined);
    ProposalChangeKeepsSafe(opening, rejected, s.votes + [v], p, Declined);
  }

  lemma ExecuteKeepsSafe(opening: map<string, real>, s: Store, c: Command)
    requires Safe(opening, s) && c.DoExecute? && Step(s, c).1
    ensures Safe(opening, Step(s, c).0)
  {
    var p := c.proposal;
    if s.proposals[p].status == Approved {
      var i := s.proposals[p].target;
      StatusChangeKept(s.votes, s.proposals, p, Executed);
      if s.offers[i].decision == Accepted {
        ProposalChangeKeepsSafe(opening, s, s.votes, p, Executed);
      } else {
        DecisionKeepsSafe(opening, s, i, Accepted);
        ProposalChangeKeepsSafe(opening, AcceptOffer(s, i).0, s.votes, p, Executed);
      }
    }
  }

  lemma OtherRowKeepsReceipts(offers: seq<Offer>, proposals: seq<Proposal>, ledger: seq<StockRow>, r: StockRow)
    requires ReceiptsKept(offers, proposals, ledger) && r.offer.None?
    ensures ReceiptsKept(offers, proposals, ledger + [r])
  {
    forall k | 0 <= k < |offers| ensures OfferStocked(offers[k], proposals[k], ledger + [r], k) {
      assert OfferStocked(offers[k], proposals[k], ledger, k);
      RowsForAppend(ledger, r, k);
    }
  }

  /** An adjustment outside any receipt keeps everything safe. */
  lemma AdjustmentKeepsSafe(opening: map<string, real>, s: Store, resource: string, delta: real, reason: string)
    requires Safe(opening, s) && RecordAdjustment(s, resource, delta, reason, None).Some?
    ensures Safe(opening, RecordAdjustment(s, resource, delta, reason, None).value)
  {
    var after := RecordAdjustment(s, resource, delta, reason, None).value;
    AdjustmentKeepsStock(opening, s, resource, delta, reason, None);
    var r := StockRow(resource, delta, s.stock[resource], s.stock[resource] + delta, None);
    assert after == s.(stock := after.stock, ledger := s.ledger + [r]);
    OtherRowKeepsReceipts(s.offers, s.proposals, s.ledger, r);
  }

  /** Receiving an offer changes nothing about its credentials. */
  lemma ReceiptKeepsGrants(offers: seq<Offer>, grants: seq<Grant>, i: nat, receipt: Receipt)
    requires GrantsKept(offers, grants) && i < |offers| && offers[i].decision != Fulfilled
    ensures GrantsKept(offers[i := offers[i].(receipt := receipt, delivered := true)], grants)
  {
    var after := offers[i := offers[i].(receipt := receipt, delivered := true)];
    forall k | 0 <= k < |after| ensures OfferCredited(after[k], grants, k) {
      assert OfferCredited(offers[k], grants, k);
    }
  }

  lemma AcceptedReceiptKeeps(s: Store, i: nat, r: StockRow)
    requires ReceiptsKept(s.offers, s.proposals, s.ledger) && i < |s.offers|
    requires s.offers[i].receipt == NotReceived && s.proposals[i].status == Executed
    requires r.offer == Some(i) && r.delta == s.offers[i].quantity && r.resource == s.offers[i].resource
    ensures ReceiptsKept(s.offers[i := s.offers[i].(receipt := ReceiptAccepted, delivered := true)], s.proposals,
                         s.ledger + [r])
  {
    var after := s.offers[i := s.offers[i].(receipt := ReceiptAccepted, delivered := true)];
    forall k | 0 <= k < |after| ensures OfferStocked(after[k], s.proposals[k], s.ledger + [r], k) {
      assert OfferStocked(s.offers[k], s.proposals[k], s.ledger, k);
      RowsForAppend(s.ledger, r, k);
    }
  }

  lemma RefusedReceiptKeeps(s: Store, i: nat)
    requires ReceiptsKept(s.offers, s.proposals, s.ledger) && i < |s.offers| && s.offers[i].receipt == NotReceived
    ensures ReceiptsKept(s.offers[i := s.offers[i].(receipt := ReceiptRejected, delivered := true)], s.proposals, s.ledger)
  {
    var after := s.offers[i := s.offers[i].(receipt := ReceiptRejected, delivered := true)];
    forall k | 0 <= k < |after| ensures OfferStocked(after[k], s.proposals[k], s.ledger, k) {
      assert OfferStocked(s.offers[k], s.proposals[k], s.ledger, k);
    }
  }

  lemma ReceiptKeepsSafe(opening: map<string, real>, s: Store, c: Command)
    requires Safe(opening, s) && c.DoReceipt? && Step(s, c).1
    ensures Safe(opening, Step(s, c).0)
  {
    var after := Step(s, c).0;
    var i := c.offer;
    var o := s.offers[i];
    ReceiptEffect(s, c);
    PairedProposal(s.offers, s.proposals, i);
    ReceiptKeepsGrants(s.offers, s.grants, i, c.receipt);
    if c.receipt == ReceiptAccepted {
      AdjustmentKeepsStock(opening, s, o.resource, o.quantity, "receipt:" + c.notes, Some(i));
      AcceptedReceiptKeeps(s, i, after.ledger[|s.ledger|]);
    } else {
      RefusedReceiptKeeps(s, i);
    }
    PairedAfterReceipt(s.offers, s.proposals, i, c.receipt);
  }

  lemma PairedAfterReceipt(offers: seq<Offer>, proposals: seq<Proposal>, i: nat, receipt: Receipt)
    requires Paired(offers, proposals) && i < |offers|
    ensures Paired(offers[i := offers[i].(receipt := receipt, delivered := true)], proposals)
  {
  }

  lemma ReceiptEffect(s: Store, c: Command)
    requires c.DoReceipt? && Step(s, c).1
    ensures c.offer < |s.offers| && ReadyForReceipt(s, c.offer) && s.offers[c.offer].receipt == NotReceived
    ensures var i, o, after := c.offer, s.offers[c.offer], Step(s, c).0;
            && after.offers == s.offers[i := o.(receipt := c.receipt, delivered := true)]
            && after.proposals == s.proposals && after.votes == s.votes && after.grants == s.grants
            && (c.receipt == ReceiptAccepted || c.receipt == ReceiptRejected)
            && (c.receipt == ReceiptRejected ==> after.stock == s.stock && after.ledger == s.ledger)
            && (c.receipt == ReceiptAccepted ==>
                  var stocked := RecordAdjustment(s, o.resource, o.quantity, "receipt:" + c.notes, Some(i));
                  stocked.Some? && after.stock == stocked.value.stock && after.ledger == stocked.value.ledger)
  {
  }

  /** A received offer that is marked gets its first credential. */
  lemma MarkEffect(s: Store, i: nat)
    requires GrantsKept(s.offers, s.grants) && MarkPaidOrDonated(s, i).1
    ensures i < |s.offers| && s.offers[i].decision == Accepted && s.offers[i].receipt == ReceiptAccepted
    ensures var o := s.offers[i];
            var payment := if o.offerType == Quote then Paid else NotRequired;
            MarkPaidOrDonated(s, i).0 ==
              s.(grants := s.grants + [Grant(o.submittedBy, i)],
                 offers := s.offers[i := o.(payment := payment, credential := Some(|s.grants|), decision := Fulfilled)])
  {
    var g := Grant(s.offers[i].submittedBy, i);
    assert OfferCredited(s.offers[i], s.grants, i);
    if FindGrant(s.grants, g).Some? {
      GrantsForPositive(s.grants, FindGrant(s.grants, g).value);
    }
  }

  /** The offer marked changes in payment, credential and decision alone. */
  predicate MarkedOnly(o: Offer, marked: Offer) {
    marked == o.(payment := marked.payment, credential := marked.credential, decision := Fulfilled)
  }

  lemma MarkKeepsReceipts(s: Store, i: nat, marked: Offer)
    requires Paired(s.offers, s.proposals) && ReceiptsKept(s.offers, s.proposals, s.ledger)
    requires i < |s.offers| && MarkedOnly(s.offers[i], marked)
    ensures Paired(s.offers[i := marked], s.proposals) && ReceiptsKept(s.offers[i := marked], s.proposals, s.ledger)
  {
    var offers := s.offers[i := marked];
    forall k | 0 <= k < |offers| ensures OfferStocked(offers[k], s.proposals[k], s.ledger, k) {
      assert OfferStocked(s.offers[k], s.proposals[k], s.ledger, k);
    }
  }

  lemma MarkKeepsGrants(s: Store, i: nat, marked: Offer)
    requires GrantsKept(s.offers, s.grants) && i < |s.offers| && MarkedOnly(s.offers[i], marked)
    requires s.offers[i].decision != Fulfilled && s.offers[i].receipt == ReceiptAccepted
    requires marked.payment == if marked.offerType == Quote then Paid else NotRequired
    requires marked.credential == Some(|s.grants|)
    ensures GrantsKept(s.offers[i := marked], s.grants + [Grant(marked.submittedBy, i)])
  {
    var offers, g := s.offers[i := marked], Grant(marked.submittedBy, i);
    forall k | 0 <= k < |offers| ensures OfferCredited(offers[k], s.grants + [g], k) {
      assert OfferCredited(s.offers[k], s.grants, k);
      GrantsForAppend(s.grants, g, k);
    }
  }

  lemma MarkKeepsSafe(opening: map<string, real>, s: Store, c: Command)
    requires Safe(opening, s) && c.DoMark? && Step(s, c).1
    ensures Safe(opening, Step(s, c).0)
  {
    var after := Step(s, c).0;
    MarkEffect(s, c.offer);
    MarkKeepsReceipts(s, c.offer, after.offers[c.offer]);
    MarkKeepsGrants(s, c.offer, after.offers[c.offer]);
  }

  lemma StepKeepsSafe(opening: map<string, real>, s: Store, c: Command)
    requires Safe(opening, s)
    ensures Safe(opening, Step(s, c).0)
  {
    if Step(s, c).1 {
      match c
      case DoSubmit(_, _, _, _, _, _, _, _) => SubmitKeepsSafe(opening, s, c);
      case DoAcceptOffer(i) => DecisionKeepsSafe(opening, s, i, Accepted);
      case DoRejectOffer(i) => DecisionKeepsSafe(opening, s, i, Rejected);
      case DoApprove(_, _, _, _) => ApproveKeepsSafe(opening, s, c);
      case DoDecline(_, _, _, _) => DeclineKeepsSafe(opening, s, c);
      case DoExecute(_, _) => ExecuteKeepsSafe(opening, s, c);
      case DoReceipt(_, _, _) => ReceiptKeepsSafe(opening, s, c);
      case DoMark(_) => MarkKeepsSafe(opening, s, c);
      case DoAdjust(resource, delta, reason) => AdjustmentKeepsSafe(opening, s, resource, delta, reason);
    } else {
      RefusalChangesNothing(s, c);
    }
  }

  lemma RefusalChangesNothing(s: Store, c: Command)
    ensures !Step(s, c).1 ==> Step(s, c).0 == s
  {
  }

  lemma {:induction false} RunKeepsSafe(opening: map<string, real>, cs: seq<Command>)
    requires forall r :: r in opening ==> opening[r] >= 0.0
    ensures Safe(opening, Run(Opening(opening), cs))
  {
    if cs != [] {
      RunKeepsSafe(opening, cs[..|cs| - 1]);
      StepKeepsSafe(opening, Run(Opening(opening), cs[..|cs| - 1]), cs[|cs| - 1]);
    }
  }

  /**
   * In every run an offer's quantity enters the stock of its resource at most once, and only with its acceptance
   * proposal executed on a full and ordered set of approvals for its amount; a fulfilled offer was received, stocked and
   * credited once.
   */
  lemma EndToEnd(opening: map<string, real>, cs: seq<Command>, i: nat)
    requires forall r :: r in opening ==> opening[r] >= 0.0
    requires i < |Run(Opening(opening), cs).offers|
    ensures var s := Run(Opening(opening), cs);
            && |s.proposals| == |s.offers|
            && RowsFor(s.ledger, i) <= 1
            && (forall row :: row in s.ledger && row.offer == Some(i) ==>
                  row.resource == s.offers[i].resource && row.delta == s.offers[i].quantity)
            && (RowsFor(s.ledger, i) == 1 ==>
                  && s.proposals[i].status == Executed
                  && GovernanceApproved(Approvals(s.votes, i))
                  && (s.offers[i].offerType == Quote && s.offers[i].total > 500.0 ==>
                        TwoApprovedInOrder(Approvals(s.votes, i)))
                  && (s.offers[i].offerType == Quote && s.offers[i].total > 5000.0 ==>
                        ThreeApprovedInOrder(Approvals(s.votes, i))))
            && (s.offers[i].decision == Fulfilled ==>
                  && s.offers[i].receipt == ReceiptAccepted
                  && RowsFor(s.ledger, i) == 1
                  && GrantsFor(s.grants, i) == 1)
            && (forall r :: r in opening ==> r in s.stock && s.stock[r] == opening[r] + Moved(s.ledger, r))
  {
    RunKeepsSafe(opening, cs);
    var s := Run(Opening(opening), cs);
    assert OfferStocked(s.offers[i], s.proposals[i], s.ledger, i) && OfferCredited(s.offers[i], s.grants, i);
    if s.proposals[i].status == Executed {
      ExecutedIsApprovedByAmount(opening, s, i);
    }
  }

  lemma OnlyReceiptStocks(s: Store, c: Command, i: nat)
    requires RowsFor(Step(s, c).0.ledger, i) > RowsFor(s.ledger, i)
    ensures c.DoReceipt? && c.receipt == ReceiptAccepted && c.offer == i < |s.offers| && ReadyForReceipt(s, i)
    ensures |Step(s, c).0.ledger| == |s.ledger| + 1
    ensures Step(s, c).0.ledger[|s.ledger|].delta == s.offers[i].quantity
  {
    RefusalChangesNothing(s, c);
    if c.DoReceipt? {
      ReceiptEffect(s, c);
      var o := s.offers[c.offer];
      if c.receipt == ReceiptAccepted {
        AdjustmentEffect(s, o.resource, o.quantity, "receipt:" + c.notes, Some(c.offer));
        RowsForAppend(s.ledger, Step(s, c).0.ledger[|s.ledger|], i);
      }
    } else if c.DoAdjust? {
      AdjustmentEffect(s, c.resource, c.delta, c.reason, None);
      RowsForAppend(s.ledger, Step(s, c).0.ledger[|s.ledger|], i);
    } else {
      OthersLeaveLedger(s, c);
    }
  }

  lemma OthersLeaveLedger(s: Store, c: Command)
    requires !c.DoReceipt? && !c.DoAdjust?
    ensures Step(s, c).0.ledger == s.ledger
  {
  }

  /** The step that puts an offer into stock finds the proposal already executed on ordered approvals. */
  lemma StockingComesAfterApproval(opening: map<string, real>, s: Store, c: Command, i: nat)
    requires Safe(opening, s) && i < |s.offers|
    requires RowsFor(Step(s, c).0.ledger, i) > RowsFor(s.ledger, i)
    ensures s.proposals[i].status == Executed && FilledInOrder(Approvals(s.votes, i), s.proposals[i].tier)
    ensures c.DoReceipt? && c.receipt == ReceiptAccepted && c.offer == i
  {
    OnlyReceiptStocks(s, c, i);
    ExecutedIsFilled(opening, s, i);
  }

  lemma ExecutedIsFilled(opening: map<string, real>, s: Store, i: nat)
    requires Safe(opening, s) && i < |s.offers|
    ensures |s.proposals| == |s.offers| && ProposalFor(s.proposals, i) == Some(i)
    ensures s.proposals[i].status == Executed ==> FilledInOrder(Approvals(s.votes, i), s.proposals[i].tier)
  {
    PairedProposal(s.offers, s.proposals, i);
    assert SlotKept(Approvals(s.votes, i), s.proposals[i]);
    if s.proposals[i].status == Executed {
      ApprovedIsFilledInOrder(Approvals(s.votes, i), s.proposals[i].tier);
    }
  }

  /** An executed proposal was approved in order by as many members as the amount of its offer calls for. */
  lemma ExecutedIsApprovedByAmount(opening: map<string, real>, s: Store, i: nat)
    requires Safe(opening, s) && i < |s.offers| && s.proposals[i].status == Executed
    ensures GovernanceApproved(Approvals(s.votes, i))
    ensures s.offers[i].offerType == Quote && s.offers[i].total > 500.0 ==> TwoApprovedInOrder(Approvals(s.votes, i))
    ensures s.offers[i].offerType == Quote && s.offers[i].total > 5000.0 ==> ThreeApprovedInOrder(Approvals(s.votes, i))
  {
    ExecutedIsFilled(opening, s, i);
    ComputedTierFits(s.offers[i].offerType, s.offers[i].total);
    MoreIncludesLess(Approvals(s.votes, i));
  }

  /** Against the stated policy, finance cannot open a single-tier proposal: governance is always needed first. */
  lemma SingleTierNeedsGovernance(opening: map<string, real>, s: Store, p: nat, member: string, a: Authority)
    requires Safe(opening, s) && p < |s.proposals| && s.proposals[p].tier == SingleTier
    ensures Approve(s, p, member, Finance, a) == (s, false)
  {
    if s.proposals[p].status == Open {
      assert SlotKept(Approvals(s.votes, p), s.proposals[p]);
      assert !GroupFilled(Approvals(s.votes, p), RequiredGroups(SingleTier)[0]);
    }
  }
}
