/** Who may vote, and how the ballots of one proposal are counted. */
module Tally {
  import opened Common
  import opened JsonValues
  import opened Selector

  datatype Unresolved = RejectUnresolved | ExpireUnresolved

  /** An immutable published rule version. */
  datatype Rule = Rule(
    proposalType: string,
    selector: Json,
    approve: nat,
    reject: nat,
    minimum: nat,
    hours: nat,
    unresolved: Unresolved)

  datatype MemberFacts = MemberFacts(allowsRoleFacts: bool, facts: Facts)

  /** What the services read around a call: the clock, the members, the active domains, and whom the
      authorization service cannot answer for. */
  datatype Env = Env(now: int, members: map<string, MemberFacts>, domains: set<string>, unreachable: set<string>)

  datatype Eligibility = Allowed | Excluded | Inactive | NotSatisfied | NoPolicy | NotInSnapshot | Raises

  function EvaluateRule(env: Env, rule: Rule, member: string, excluded: Option<string>): Eligibility {
    if member in env.unreachable then Raises
    else if excluded == Some(member) then Excluded
    else if member !in env.members || !env.members[member].allowsRoleFacts then Inactive
    else if !Valid(env.domains, rule.selector, 0) then Raises
    else
      var answer := Evaluate(rule.selector, env.members[member].facts).answer;
      if answer.None? then Raises else if answer.value then Allowed else NotSatisfied
  }

  function EligibilityFor(env: Env, rule: Option<Rule>, snapshot: set<string>, member: string,
                          excluded: Option<string>): Eligibility
  {
    if rule.None? then NoPolicy
    else if member !in snapshot then NotInSnapshot
    else EvaluateRule(env, rule.value, member, excluded)
  }

  /** When evaluating a member raises, in terms the caller can look up beforehand. */
  predicate Unanswerable(env: Env, rule: Rule, member: string, excluded: Option<string>) {
    || member in env.unreachable
    || (&& excluded != Some(member)
        && member in env.members && env.members[member].allowsRoleFacts
        && !Valid(env.domains, rule.selector, 0))
  }

  lemma RaisesIffUnanswerable(env: Env, rule: Rule, member: string, excluded: Option<string>)
    ensures EvaluateRule(env, rule, member, excluded) == Raises <==> Unanswerable(env, rule, member, excluded)
  {
    if member in env.members && Valid(env.domains, rule.selector, 0) {
      EvaluationIsMeaning(env.domains, rule.selector, 0, env.members[member].facts);
    }
  }

  /** A member is allowed exactly when reachable, not the applicant, in standing, and the selector says so of the facts. */
  lemma AllowedIff(env: Env, rule: Rule, member: string, excluded: Option<string>)
    ensures EvaluateRule(env, rule, member, excluded) == Allowed <==>
              && member !in env.unreachable && excluded != Some(member)
              && member in env.members && env.members[member].allowsRoleFacts
              && Valid(env.domains, rule.selector, 0) && Meaning(rule.selector, env.members[member].facts)
  {
    if member in env.members && Valid(env.domains, rule.selector, 0) {
      EvaluationIsMeaning(env.domains, rule.selector, 0, env.members[member].facts);
    }
  }

  // ----- ballots

  datatype Choice = Approve | Reject | Abstain
  datatype Ballot = Ballot(voter: string, revision: nat, choice: Choice)

  function MaxRevision(ballots: seq<Ballot>, voter: string): (r: nat)
    ensures forall b :: b in ballots && b.voter == voter ==> b.revision <= r
    ensures r > 0 ==> exists b :: b in ballots && b.voter == voter && b.revision == r
  {
    if ballots == [] then 0
    else
      var last := ballots[|ballots| - 1];
      var r := MaxRevision(ballots[..|ballots| - 1], voter);
      assert forall b :: b in ballots <==> b in ballots[..|ballots| - 1] || b == last;
      if last.voter == voter && r < last.revision then last.revision else r
  }

  /** First pass: the ballots of `part` whose revision is their voter's highest in `all`. */
  function Latest(all: seq<Ballot>, part: seq<Ballot>): seq<Ballot> {
    if part == [] then []
    else
      var last := part[|part| - 1];
      Latest(all, part[..|part| - 1]) + if last.revision == MaxRevision(all, last.voter) then [last] else []
  }

  /** What a count needs besides the ballots. */
  datatype Poll = Poll(rule: Option<Rule>, snapshot: set<string>, excluded: Option<string>)

  predicate Eligible(env: Env, poll: Poll, member: string) {
    EligibilityFor(env, poll.rule, poll.snapshot, member, poll.excluded) == Allowed
  }

  /** Second pass: only ballots of members who are in the snapshot and qualify now. */
  function Counted(env: Env, poll: Poll, ballots: seq<Ballot>): seq<Ballot> {
    if ballots == [] then []
    else
      var last := ballots[|ballots| - 1];
      Counted(env, poll, ballots[..|ballots| - 1]) + if Eligible(env, poll, last.voter) then [last] else []
  }

  function CountChoice(ballots: seq<Ballot>, choice: Choice): nat {
    if ballots == [] then 0
    else
      CountChoice(ballots[..|ballots| - 1], choice) + if ballots[|ballots| - 1].choice == choice then 1 else 0
  }

  datatype Totals = Totals(eligible: nat, participation: nat, approve: nat, reject: nat, abstain: nat)

  /** `proposal_tally`: none when checking some voter raises. */
  function ProposalTally(env: Env, poll: Poll, ballots: seq<Ballot>): Option<Totals> {
    var latest := Latest(ballots, ballots);
    if exists b :: b in latest && EligibilityFor(env, poll.rule, poll.snapshot, b.voter, poll.excluded) == Raises
    then None
    else
      var counted := Counted(env, poll, latest);
      Some(Totals(|poll.snapshot|, |counted|,
                  CountChoice(counted, Approve), CountChoice(counted, Reject), CountChoice(counted, Abstain)))
  }

  // ----- the reference: last ballot wins

  function LastBallots(ballots: seq<Ballot>): map<string, Choice> {
    if ballots == [] then map[]
    else
      var last := ballots[|ballots| - 1];
      LastBallots(ballots[..|ballots| - 1])[last.voter := last.choice]
  }

  function VotersFor(env: Env, poll: Poll, ballots: seq<Ballot>, choice: Choice): set<string> {
    var m := LastBallots(ballots);
    set v | v in m && m[v] == choice && Eligible(env, poll, v)
  }

  /** Each voter's revisions grow in the order of casting. */
  ghost predicate RevisionsGrow(ballots: seq<Ballot>) {
    && (forall i :: 0 <= i < |ballots| ==> ballots[i].revision > 0)
    && forall i, j :: 0 <= i < j < |ballots| && ballots[i].voter == ballots[j].voter ==>
         ballots[i].revision < ballots[j].revision
  }

  /** Among growing revisions, the ballot with the highest one is the voter's last. */
  lemma {:induction false} HighestIsLast(ballots: seq<Ballot>, b: Ballot)
    requires RevisionsGrow(ballots) && b in ballots
    ensures b.voter in LastBallots(ballots)
    ensures b.revision == MaxRevision(ballots, b.voter) ==> LastBallots(ballots)[b.voter] == b.choice
  {
    var n := |ballots| - 1;
    var last := ballots[n];
    assert ballots == ballots[..n] + [last];
    if last.voter != b.voter {
      HighestIsLast(ballots[..n], b);
      MaxIgnoresOthers(ballots, b.voter);
    } else if b.revision == MaxRevision(ballots, b.voter) {
      assert last in ballots;
      var i :| 0 <= i < |ballots| && ballots[i] == b;
      assert i == n;
    }
  }

  lemma MaxIgnoresOthers(ballots: seq<Ballot>, voter: string)
    requires ballots != [] && ballots[|ballots| - 1].voter != voter
    ensures MaxRevision(ballots, voter) == MaxRevision(ballots[..|ballots| - 1], voter)
  {
  }

  lemma {:induction false} LastBallotsKeys(ballots: seq<Ballot>, v: string)
    requires v in LastBallots(ballots)
    ensures exists b :: b in ballots && b.voter == v
  {
    var n := |ballots| - 1;
    assert ballots == ballots[..n] + [ballots[n]];
    if ballots[n].voter != v {
      LastBallotsKeys(ballots[..n], v);
    } else {
      assert ballots[n] in ballots;
    }
  }

  lemma {:induction false} LatestMembers(all: seq<Ballot>, part: seq<Ballot>, b: Ballot)
    ensures b in Latest(all, part) <==> b in part && b.revision == MaxRevision(all, b.voter)
  {
    if part != [] {
      var n := |part| - 1;
      assert part == part[..n] + [part[n]];
      LatestMembers(all, part[..n], b);
    }
  }

  lemma {:induction false} CountedMembers(env: Env, poll: Poll, ballots: seq<Ballot>, b: Ballot)
    ensures b in Counted(env, poll, ballots) <==> b in ballots && Eligible(env, poll, b.voter)
  {
    if ballots != [] {
      var n := |ballots| - 1;
      assert ballots == ballots[..n] + [ballots[n]];
      CountedMembers(env, poll, ballots[..n], b);
    }
  }

  ghost predicate DistinctVoters(ballots: seq<Ballot>) {
    forall i, j :: 0 <= i < j < |ballots| ==> ballots[i].voter != ballots[j].voter
  }

  lemma DistinctAppend(ballots: seq<Ballot>, b: Ballot)
    requires DistinctVoters(ballots) && forall x :: x in ballots ==> x.voter != b.voter
    ensures DistinctVoters(ballots + [b])
  {
  }

  lemma {:induction false} LatestDistinct(all: seq<Ballot>, part: seq<Ballot>)
    requires RevisionsGrow(part)
    ensures DistinctVoters(Latest(all, part))
  {
    if part != [] {
      var n := |part| - 1;
      var before, last := Latest(all, part[..n]), part[n];
      LatestDistinct(all, part[..n]);
      if last.revision == MaxRevision(all, last.voter) {
        forall b | b in before ensures b.voter != last.voter {
          LatestMembers(all, part[..n], b);
          EarlierRevisionsDiffer(part, b);
        }
        DistinctAppend(before, last);
      }
    }
  }

  lemma EarlierRevisionsDiffer(part: seq<Ballot>, b: Ballot)
    requires RevisionsGrow(part) && part != [] && b in part[..|part| - 1]
    ensures b.voter == part[|part| - 1].voter ==> b.revision < part[|part| - 1].revision
  {
    var i :| 0 <= i < |part| - 1 && part[..|part| - 1][i] == b;
    assert part[i] == b;
  }

  lemma {:induction false} CountedDistinct(env: Env, poll: Poll, ballots: seq<Ballot>)
    requires DistinctVoters(ballots)
    ensures DistinctVoters(Counted(env, poll, ballots))
  {
    if ballots != [] {
      var n := |ballots| - 1;
      var last := ballots[n];
      assert ballots == ballots[..n] + [last];
      CountedDistinct(env, poll, ballots[..n]);
      forall b | b in Counted(env, poll, ballots[..n]) ensures b.voter != last.voter {
        CountedMembers(env, poll, ballots[..n], b);
        var i :| 0 <= i < n && ballots[..n][i] == b;
        assert ballots[i] == b;
      }
    }
  }

  function VotersIn(ballots: seq<Ballot>, choice: Choice): set<string> {
    set b | b in ballots && b.choice == choice :: b.voter
  }

  /** Counting ballots with distinct voters counts voters. */
  lemma {:induction false} CountIsCardinality(ballots: seq<Ballot>, choice: Choice)
    requires DistinctVoters(ballots)
    ensures CountChoice(ballots, choice) == |VotersIn(ballots, choice)|
  {
    if ballots != [] {
      var n := |ballots| - 1;
      var last := ballots[n];
      assert ballots == ballots[..n] + [last];
      CountIsCardinality(ballots[..n], choice);
      if last.choice == choice {
        assert VotersIn(ballots, choice) == VotersIn(ballots[..n], choice) + {last.voter};
        assert last.voter !in VotersIn(ballots[..n], choice);
      } else {
        assert VotersIn(ballots, choice) == VotersIn(ballots[..n], choice);
      }
    }
  }

  lemma {:induction false} ChoicesPartition(ballots: seq<Ballot>)
    ensures CountChoice(ballots, Approve) + CountChoice(ballots, Reject) + CountChoice(ballots, Abstain) == |ballots|
  {
    if ballots != [] {
      ChoicesPartition(ballots[..|ballots| - 1]);
    }
  }

  /** The voters of a choice among the counted ballots are those whose last ballot says so and who qualify. */
  lemma CountedVoters(env: Env, poll: Poll, ballots: seq<Ballot>, choice: Choice)
    requires RevisionsGrow(ballots)
    ensures VotersIn(Counted(env, poll, Latest(ballots, ballots)), choice) == VotersFor(env, poll, ballots, choice)
  {
    var latest := Latest(ballots, ballots);
    var m := LastBallots(ballots);
    forall v | v in VotersIn(Counted(env, poll, latest), choice) ensures v in VotersFor(env, poll, ballots, choice) {
      var b :| b in Counted(env, poll, latest) && b.choice == choice && b.voter == v;
      CountedMembers(env, poll, latest, b);
      LatestMembers(ballots, ballots, b);
      HighestIsLast(ballots, b);
    }
    forall v | v in VotersFor(env, poll, ballots, choice) ensures v in VotersIn(Counted(env, poll, latest), choice) {
      LastBallotsKeys(ballots, v);
      var b0 :| b0 in ballots && b0.voter == v;
      var top := MaxRevision(ballots, v);
      assert b0.revision > 0;
      var b :| b in ballots && b.voter == v && b.revision == top;
      HighestIsLast(ballots, b);
      LatestMembers(ballots, ballots, b);
      CountedMembers(env, poll, latest, b);
    }
  }

  /**
   * The two-pass tally is the last-ballot-wins count over members of the snapshot who qualify now; the three
   * choices add up to the participation, which never exceeds the snapshot.
   */
  lemma TallyIsLastBallotWins(env: Env, poll: Poll, ballots: seq<Ballot>)
    requires RevisionsGrow(ballots) && ProposalTally(env, poll, ballots).Some?
    ensures var t := ProposalTally(env, poll, ballots).value;
            && t.approve == |VotersFor(env, poll, ballots, Approve)|
            && t.reject == |VotersFor(env, poll, ballots, Reject)|
            && t.abstain == |VotersFor(env, poll, ballots, Abstain)|
            && t.approve + t.reject + t.abstain == t.participation
            && t.participation <= t.eligible == |poll.snapshot|
  {
    var counted := Counted(env, poll, Latest(ballots, ballots));
    ChoiceIsVoters(env, poll, ballots, Approve);
    ChoiceIsVoters(env, poll, ballots, Reject);
    ChoiceIsVoters(env, poll, ballots, Abstain);
    ChoicesPartition(counted);
    VotersFitSnapshot(env, poll, ballots);
  }

  lemma ChoiceIsVoters(env: Env, poll: Poll, ballots: seq<Ballot>, choice: Choice)
    requires RevisionsGrow(ballots)
    ensures CountChoice(Counted(env, poll, Latest(ballots, ballots)), choice) ==
            |VotersFor(env, poll, ballots, choice)|
  {
    var latest := Latest(ballots, ballots);
    LatestDistinct(ballots, ballots);
    CountedDistinct(env, poll, latest);
    CountIsCardinality(Counted(env, poll, latest), choice);
    CountedVoters(env, poll, ballots, choice);
  }

  lemma VotersFitSnapshot(env: Env, poll: Poll, ballots: seq<Ballot>)
    ensures |VotersFor(env, poll, ballots, Approve)| + |VotersFor(env, poll, ballots, Reject)|
            + |VotersFor(env, poll, ballots, Abstain)| <= |poll.snapshot|
  {
    var a, r, x := VotersFor(env, poll, ballots, Approve), VotersFor(env, poll, ballots, Reject),
                   VotersFor(env, poll, ballots, Abstain);
    assert a !! r && (a + r) !! x && a + r + x <= poll.snapshot;
    SubsetSize(a + r + x, poll.snapshot);
  }

  lemma {:induction false} SubsetSize<T>(a: set<T>, b: set<T>)
    requires a <= b
    ensures |a| <= |b|
  {
    if a != {} {
      var x :| x in a;
      SubsetSize(a - {x}, b - {x});
    }
  }

  /** The revision a new ballot of this voter gets. */
  function NextBallot(ballots: seq<Ballot>, voter: string, choice: Choice): Ballot {
    Ballot(voter, MaxRevision(ballots, voter) + 1, choice)
  }

  /** Casting again replaces the voter's choice and adds no voter; nobody else's last ballot changes. */
  lemma RecastReplaces(ballots: seq<Ballot>, voter: string, choice: Choice)
    requires RevisionsGrow(ballots)
    ensures RevisionsGrow(ballots + [NextBallot(ballots, voter, choice)])
    ensures LastBallots(ballots + [NextBallot(ballots, voter, choice)]) == LastBallots(ballots)[voter := choice]
  {
    var b := NextBallot(ballots, voter, choice);
    assert (ballots + [b])[..|ballots|] == ballots;
    forall i | 0 <= i < |ballots| && ballots[i].voter == voter ensures ballots[i].revision < b.revision {
      assert ballots[i] in ballots;
    }
  }

  /** The excluded applicant is never counted, whatever the snapshot and the ballots hold. */
  lemma ApplicantNeverCounts(env: Env, poll: Poll, ballots: seq<Ballot>, choice: Choice)
    ensures poll.excluded.Some? ==> poll.excluded.value !in VotersFor(env, poll, ballots, choice)
  {
  }

  /** A tally fails exactly when some snapshot member who has voted cannot be checked now. */
  lemma TallyFailsIff(env: Env, poll: Poll, ballots: seq<Ballot>)
    requires RevisionsGrow(ballots) && poll.rule.Some?
    ensures ProposalTally(env, poll, ballots).None?
       <==> exists v :: v in LastBallots(ballots) && v in poll.snapshot &&
                        Unanswerable(env, poll.rule.value, v, poll.excluded)
  {
    var latest := Latest(ballots, ballots);
    if ProposalTally(env, poll, ballots).None? {
      var b :| b in latest && EligibilityFor(env, poll.rule, poll.snapshot, b.voter, poll.excluded) == Raises;
      LatestMembers(ballots, ballots, b);
      HighestIsLast(ballots, b);
      RaisesIffUnanswerable(env, poll.rule.value, b.voter, poll.excluded);
      assert b.voter in LastBallots(ballots);
    }
    if v :| v in LastBallots(ballots) && v in poll.snapshot && Unanswerable(env, poll.rule.value, v, poll.excluded) {
      LastBallotsKeys(ballots, v);
      var b0 :| b0 in ballots && b0.voter == v;
      var top := MaxRevision(ballots, v);
      assert b0.revision > 0;
      var b :| b in ballots && b.voter == v && b.revision == top;
      LatestMembers(ballots, ballots, b);
      RaisesIffUnanswerable(env, poll.rule.value, v, poll.excluded);
      assert b in latest;
    }
  }
}
