/** The procurement and approval services as they update their tables, which they keep safe from call to call. */
module ProcurementService {
  import opened Common
  import opened Procurement
  import opened ProcurementSafety
  import opened ProcurementEffects

  class ProcurementTables {
    var offers: seq<Offer>
    var proposals: seq<Proposal>
    var votes: seq<Vote>
    var stock: map<string, real>
    var ledger: seq<StockRow>
    var grants: seq<Grant>
    ghost const opening: map<string, real>

    ghost function State(): Store
      reads this
    {
      Store(offers, proposals, votes, stock, ledger, grants)
    }

    /** Everything in stock was approved in order, received once and is accounted for since the opening. */
    ghost predicate Valid()
      reads this
    {
      Safe(opening, State())
    }

    constructor (stock: map<string, real>)
      requires forall r :: r in stock ==> stock[r] >= 0.0
      ensures Valid() && State() == Opening(stock) && opening == stock
    {
      offers, proposals, votes, ledger, grants := [], [], [], [], [];
      this.stock, opening := stock, stock;
    }

    method SubmitResourceOffer(resource: string, member: string, day: int, offerType: OfferType, quantity: real,
                               price: real, acceptsOffers: bool, isPublic: bool) returns (ok: bool)
      requires Valid()
      modifies this`offers, this`proposals
      ensures Valid()
      ensures Offered(old(State()), State(), ok,
                      DoSubmit(resource, member, day, offerType, quantity, price, acceptsOffers, isPublic))
      ensures (State(), ok) ==
              Submit(old(State()), resource, member, day, offerType, quantity, price, acceptsOffers, isPublic)
    {
      ghost var call := DoSubmit(resource, member, day, offerType, quantity, price, acceptsOffers, isPublic);
      ghost var before := State();
      ok := SubmitLocked(resource, member, day, offerType, quantity, price, acceptsOffers, isPublic);
      assert (State(), ok) == Step(before, call);
      assert Valid() by { StepKeepsSafe(opening, before, call); }
      SubmitOffers(opening, before, call);
    }

    /** The checks, then the offer and its proposal together. */
    method SubmitLocked(resource: string, member: string, day: int, offerType: OfferType, quantity: real,
                        price: real, acceptsOffers: bool, isPublic: bool) returns (ok: bool)
      modifies this`offers, this`proposals
      ensures (State(), ok) ==
              Submit(old(State()), resource, member, day, offerType, quantity, price, acceptsOffers, isPublic)
    {
      if !acceptsOffers || resource !in stock {
        return false;
      }
      if CountToday(offers, member, resource, day) >= DailyOfferLimit {
        return false;
      }
      if quantity <= 0.0 || price < 0.0 {
        return false;
      }
      if offerType == Donation && price != 0.0 {
        return false;
      }
      if offerType == Quote && !isPublic {
        return false;
      }
      var total := quantity * price;
      var tier := ComputeTier(offerType, total);
      proposals := proposals + [Proposal(|offers|, ToProposalTier(tier), Open)];
      offers := offers + [Offer(resource, member, day, offerType, quantity, total, tier, Submitted,
                                if offerType == Donation then NotRequired else AwaitingPayment,
                                NotReceived, false, None)];
      return true;
    }

    method AcceptResourceOffer(i: nat) returns (ok: bool)
      modifies this`offers
      ensures old(Valid()) ==> Valid()
      ensures (State(), ok) == AcceptOffer(old(State()), i)
    {
      if Valid() {
        StepKeepsSafe(opening, State(), DoAcceptOffer(i));
      }
      if i >= |offers| || offers[i].decision != Submitted {
        return false;
      }
      offers := offers[i := offers[i].(decision := Accepted)];
      return true;
    }

    method RejectResourceOffer(i: nat) returns (ok: bool)
      modifies this`offers
      ensures old(Valid()) ==> Valid()
      ensures (State(), ok) == RejectOffer(old(State()), i)
    {
      if Valid() {
        StepKeepsSafe(opening, State(), DoRejectOffer(i));
      }
      if i >= |offers| || offers[i].decision != Submitted {
        return false;
      }
      offers := offers[i := offers[i].(decision := Rejected)];
      return true;
    }

    method ApproveProposal(p: nat, member: string, role: Role, a: Authority) returns (ok: bool)
      requires Valid()
      modifies this`votes, this`proposals
      ensures Valid() && ApprovalAdded(old(State()), State(), ok, p, member, role, a)
      ensures (State(), ok) == Approve(old(State()), p, member, role, a)
    {
      ghost var before, call := State(), DoApprove(p, member, role, a);
      ok := ApproveLocked(p, member, role, a);
      assert (State(), ok) == Step(before, call);
      StepKeepsSafe(opening, before, call);
      ApproveAdds(before, call);
    }

    /** The vote is written first; the groups are then counted again with it. */
    method ApproveLocked(p: nat, member: string, role: Role, a: Authority) returns (ok: bool)
      modifies this`votes, this`proposals
      ensures (State(), ok) == Approve(old(State()), p, member, role, a)
    {
      if p >= |proposals| || proposals[p].status != Open {
        return false;
      }
      if !RoleAsked(proposals[p].tier, role) || !CanFill(a, role) {
        return false;
      }
      var existing := Approvals(votes, p);
      if ApprovedBy(existing, member) {
        return false;
      }
      if role == SecondGovernance && !HasRole(existing, Finance) {
        return false;
      }
      if role == Finance && !HasRole(existing, Governance) {
        return false;
      }
      var vote := Vote(p, member, role, true);
      votes := votes + [vote];
      assert votes[..|votes| - 1] == old(votes);
      if IsApproved(Approvals(votes, p), proposals[p].tier) {
        proposals := proposals[p := proposals[p].(status := Approved)];
      } else {
        assert proposals[p := proposals[p].(status := Open)] == proposals;
      }
      return true;
    }

    method RejectProposal(p: nat, member: string, role: Role, a: Authority) returns (ok: bool)
      requires Valid()
      modifies this`votes, this`proposals, this`offers
      ensures Valid() && TurnedDown(old(State()), State(), ok, p, member, role, a)
      ensures (State(), ok) == Decline(old(State()), p, member, role, a)
    {
      ghost var before, call := State(), DoDecline(p, member, role, a);
      ok := DeclineLocked(p, member, role, a);
      assert (State(), ok) == Step(before, call);
      StepKeepsSafe(opening, before, call);
      DeclineTurnsDown(before, call);
    }

    /** The vote and the status are written first, and taken back when the offer cannot be turned down. */
    method DeclineLocked(p: nat, member: string, role: Role, a: Authority) returns (ok: bool)
      modifies this`votes, this`proposals, this`offers
      ensures (State(), ok) == Decline(old(State()), p, member, role, a)
    {
      if p >= |proposals| || proposals[p].status != Open {
        return false;
      }
      if !RoleAsked(proposals[p].tier, role) || !CanFill(a, role) || VoteTaken(votes, p, member, role) {
        return false;
      }
      var savedVotes, savedProposals := votes, proposals;
      votes := votes + [Vote(p, member, role, false)];
      proposals := proposals[p := proposals[p].(status := Declined)];
      ok := RejectResourceOffer(proposals[p].target);
      if !ok {
        votes, proposals := savedVotes, savedProposals;
      }
    }

    method ExecuteProposal(p: nat, a: Authority) returns (ok: bool)
      requires Valid()
      modifies this`proposals, this`offers
      ensures Valid() && CarriedOut(old(State()), State(), ok, p, a)
      ensures (State(), ok) == Execute(old(State()), p, a)
    {
      ghost var before, call := State(), DoExecute(p, a);
      ok := ExecuteLocked(p, a);
      assert (State(), ok) == Step(before, call);
      assert Valid() by { StepKeepsSafe(opening, before, call); }
      ExecuteCarriesOut(before, call);
    }

    /** The offer is accepted first, unless it was before; then the proposal is executed. */
    method ExecuteLocked(p: nat, a: Authority) returns (ok: bool)
      modifies this`proposals, this`offers
      ensures (State(), ok) == Execute(old(State()), p, a)
    {
      if p >= |proposals| {
        return false;
      }
      if proposals[p].status == Executed {
        return a.administers || a.reviewsFinance;
      }
      if proposals[p].status != Approved || (!a.administers && !a.reviewsFinance) {
        return false;
      }
      var i := proposals[p].target;
      if i >= |offers| || offers[i].decision != Accepted {
        ok := AcceptResourceOffer(i);
        if !ok {
          return;
        }
      }
      proposals := proposals[p := proposals[p].(status := Executed)];
      return true;
    }

    method RecordResourceAdjustment(resource: string, delta: real, reason: string) returns (ok: bool)
      requires Valid()
      modifies this`stock, this`ledger
      ensures Valid()
      ensures ok <==> SaysSomething(reason) && resource in old(stock) && old(stock)[resource] + delta >= 0.0
      ensures ok ==> stock == old(stock)[resource := old(stock)[resource] + delta]
      ensures ok ==> Moved(ledger, resource) == Moved(old(ledger), resource) + delta
      ensures (State(), ok) == AdjustStock(old(State()), resource, delta, reason)
    {
      ghost var before := State();
      ok := AdjustLocked(resource, delta, reason, None);
      assert (State(), ok) == Step(before, DoAdjust(resource, delta, reason));
      assert Valid() by { StepKeepsSafe(opening, before, DoAdjust(resource, delta, reason)); }
      AdjustmentIsRecorded(opening, before, resource, delta, reason, None);
      if ok {
        AdjustmentEffect(before, resource, delta, reason, None);
      }
    }

    /** Stock and its record change together, in the name of an offer or of none. */
    method AdjustLocked(resource: string, delta: real, reason: string, offer: Option<nat>) returns (ok: bool)
      modifies this`stock, this`ledger
      ensures ok <==> RecordAdjustment(old(State()), resource, delta, reason, offer).Some?
      ensures State() == if ok then RecordAdjustment(old(State()), resource, delta, reason, offer).value
                         else old(State())
    {
      if Strip(reason) == "" || resource !in stock {
        return false;
      }
      var before := stock[resource];
      var after := before + delta;
      if after < 0.0 {
        return false;
      }
      stock := stock[resource := after];
      ledger := ledger + [StockRow(resource, delta, before, after, offer)];
      return true;
    }

    method RecordOfferReceipt(i: nat, receipt: Receipt, notes: string) returns (ok: bool)
      requires Valid()
      modifies this`offers, this`stock, this`ledger
      ensures Valid() && Received(old(State()), State(), ok, i, receipt)
      ensures (State(), ok) == RecordReceipt(old(State()), i, receipt, notes)
    {
      ghost var before := State();
      ok := ReceiveLocked(i, receipt, notes);
      assert (State(), ok) == Step(before, DoReceipt(i, receipt, notes));
      StepKeepsSafe(opening, before, DoReceipt(i, receipt, notes));
      ReceiptReceives(opening, before, DoReceipt(i, receipt, notes));
    }

    /** Stock is moved before the offer says that it was received; in between the tables do not agree. */
    method ReceiveLocked(i: nat, receipt: Receipt, notes: string) returns (ok: bool)
      modifies this`offers, this`stock, this`ledger
      ensures (State(), ok) == RecordReceipt(old(State()), i, receipt, notes)
    {
      if i >= |offers| || offers[i].decision != Accepted {
        return false;
      }
      var p := ProposalFor(proposals, i);
      if p.Some? && proposals[p.value].status != Executed {
        return false;
      }
      var o := offers[i];
      if o.receipt != NotReceived || o.delivered || receipt == NotReceived || receipt == ReceiptPartial {
        return false;
      }
      if receipt == ReceiptAccepted {
        ok := AdjustLocked(o.resource, o.quantity, "receipt:" + notes, Some(i));
        if !ok {
          return;
        }
      }
      offers := offers[i := o.(receipt := receipt, delivered := true)];
      return true;
    }

    method MarkOfferPaidOrDonated(i: nat) returns (ok: bool)
      requires Valid()
      modifies this`offers, this`grants
      ensures Valid() && Completed(old(State()), State(), ok, i)
      ensures (State(), ok) == MarkPaidOrDonated(old(State()), i)
    {
      ghost var before, call := State(), DoMark(i);
      ok := CompleteLocked(i);
      assert (State(), ok) == Step(before, call);
      assert Valid() by { StepKeepsSafe(opening, before, call); }
      MarkCompletes(opening, before, call);
    }

    /** Payment, credential and decision, in this order; a credential that exists is not issued again. */
    method CompleteLocked(i: nat) returns (ok: bool)
      modifies this`offers, this`grants
      ensures (State(), ok) == MarkPaidOrDonated(old(State()), i)
    {
      if i >= |offers| || offers[i].decision != Accepted || offers[i].receipt != ReceiptAccepted {
        return false;
      }
      var o := offers[i];
      if o.offerType == Quote {
        if o.payment == Paid {
          return false;
        }
        o := o.(payment := Paid);
      } else {
        o := o.(payment := NotRequired);
      }
      if o.credential.None? {
        var g := Grant(o.submittedBy, i);
        var existing := FindGrant(grants, g);
        if existing.Some? {
          o := o.(credential := existing);
        } else {
          o := o.(credential := Some(|grants|));
          grants := grants + [g];
        }
      }
      offers := offers[i := o.(decision := Fulfilled)];
      return true;
    }
  }
}
