/** The voter selector language: validation, short-circuit evaluation with evidence, and its plain meaning. */
module Selector {
  import opened Common
  import opened JsonValues

  const MaxDepth := 8
  const RoleCodes: set<string> := {"covenanter", "deliberator", "administrator"}

  datatype Condition = RoleCode | ParticipationStatus | ProfessionalDomain

  /** How a selector node reads: an object with exactly one condition. */
  datatype View =
    | All(children: seq<Json>)
    | Any(children: seq<Json>)
    | Not(child: Json)
    | Test(condition: Condition, value: Json)
    | Unknown

  function ViewOf(node: Json): View {
    if !node.Obj? || |node.fields| != 1 then Unknown
    else
      var m := node.fields;
      if "all" in m then if m["all"].Arr? then All(m["all"].items) else Unknown
      else if "any" in m then if m["any"].Arr? then Any(m["any"].items) else Unknown
      else if "not" in m then Not(m["not"])
      else if "role_code" in m then Test(RoleCode, m["role_code"])
      else if "participation_status" in m then Test(ParticipationStatus, m["participation_status"])
      else if "professional_domain" in m then Test(ProfessionalDomain, m["professional_domain"])
      else Unknown
  }

  /** `_validate_selector_node`, true when it raises nothing; `domains` are the active professional domains. */
  predicate Valid(domains: set<string>, node: Json, depth: nat)
    decreases node
  {
    depth <= MaxDepth &&
    match ViewOf(node)
    case All(children) => children != [] && forall c :: c in children ==> Valid(domains, c, depth + 1)
    case Any(children) => children != [] && forall c :: c in children ==> Valid(domains, c, depth + 1)
    case Not(child) => Valid(domains, child, depth + 1)
    case Test(RoleCode, value) => value.Str? && value.s in RoleCodes
    case Test(ParticipationStatus, value) => value == Str("contributor")
    case Test(ProfessionalDomain, value) => value.Str? && value.s in domains
    case Unknown => false
  }

  /** What is known of a member at the moment of evaluation. */
  datatype Facts = Facts(roles: set<string>, participation: Json, domains: set<string>)

  predicate Holds(f: Facts, condition: Condition, value: Json) {
    match condition
    case RoleCode => value.Str? && value.s in RoleCodes && value.s in f.roles
    case ParticipationStatus => f.participation == value
    case ProfessionalDomain => value.Str? && value.s in f.domains
  }

  /** The plain Boolean meaning of a selector, read off the JSON itself. */
  predicate Meaning(node: Json, f: Facts)
    decreases node
  {
    node.Obj? &&
    var m := node.fields;
    if "all" in m then m["all"].Arr? && forall c :: c in m["all"].items ==> Meaning(c, f)
    else if "any" in m then m["any"].Arr? && exists c :: c in m["any"].items && Meaning(c, f)
    else if "not" in m then !Meaning(m["not"], f)
    else if "role_code" in m then m["role_code"].Str? && m["role_code"].s in f.roles
    else if "participation_status" in m then m["participation_status"] == f.participation
    else "professional_domain" in m && m["professional_domain"].Str? && m["professional_domain"].s in f.domains
  }

  datatype Atom = Atom(condition: Condition, value: Json, matched: bool)

  /** The answer, or none where evaluation raises, with the atoms it looked at in order. */
  datatype Evaluation = Evaluation(answer: Option<bool>, evidence: seq<Atom>)

  function Evaluate(node: Json, f: Facts): Evaluation
    decreases node, 1
  {
    match ViewOf(node)
    case All(children) => EvaluateUntil(children, f, false)
    case Any(children) => EvaluateUntil(children, f, true)
    case Not(child) =>
      var e := Evaluate(child, f);
      e.(answer := if e.answer.Some? then Some(!e.answer.value) else None)
    case Test(condition, value) =>
      var matched := Holds(f, condition, value);
      Evaluation(Some(matched), [Atom(condition, value, matched)])
    case Unknown => Evaluation(None, [])
  }

  /** Evaluates the children from the left until one answers `stop`: `all` stops on false, `any` on true. */
  function EvaluateUntil(children: seq<Json>, f: Facts, stop: bool): Evaluation
    decreases children, 0
  {
    if children == [] then Evaluation(Some(!stop), [])
    else
      var first := Evaluate(children[0], f);
      if first.answer != Some(!stop) then first
      else
        var rest := EvaluateUntil(children[1..], f, stop);
        Evaluation(rest.answer, first.evidence + rest.evidence)
  }

  // ----- the evaluator computes the meaning

  /** On a validated selector evaluation never meets an unknown condition and returns the Boolean meaning. */
  lemma {:induction false} EvaluationIsMeaning(domains: set<string>, node: Json, depth: nat, f: Facts)
    requires Valid(domains, node, depth)
    ensures Evaluate(node, f).answer == Some(Meaning(node, f))
    decreases node, 1
  {
    match ViewOf(node)
    case All(children) =>
      ChildrenMean(domains, children, depth + 1, f, false);
    case Any(children) =>
      ChildrenMean(domains, children, depth + 1, f, true);
    case Not(child) => EvaluationIsMeaning(domains, child, depth + 1, f);
    case _ =>
  }

  lemma {:induction false} ChildrenMean(domains: set<string>, children: seq<Json>, depth: nat, f: Facts, stop: bool)
    requires forall c :: c in children ==> Valid(domains, c, depth)
    ensures EvaluateUntil(children, f, stop).answer.Some?
    ensures stop ==> (EvaluateUntil(children, f, stop).answer.value <==> exists c :: c in children && Meaning(c, f))
    ensures !stop ==> (EvaluateUntil(children, f, stop).answer.value <==> forall c :: c in children ==> Meaning(c, f))
    decreases children, 0
  {
    if children != [] {
      assert children[0] in children;
      EvaluationIsMeaning(domains, children[0], depth, f);
      ChildrenMean(domains, children[1..], depth, f, stop);
      assert forall c :: c in children <==> c == children[0] || c in children[1..];
    }
  }

  /** The selector with this one condition. */
  function Only(key: string, value: Json): Json {
    Obj(map[key := value])
  }

  /** `all` answers true exactly when every child does. */
  lemma AllOnJson(domains: set<string>, cs: seq<Json>, depth: nat, f: Facts)
    requires Valid(domains, Only("all", Arr(cs)), depth)
    ensures Evaluate(Only("all", Arr(cs)), f).answer ==
              Some(forall c :: c in cs ==> Evaluate(c, f).answer == Some(true))
  {
    AnswersMean(domains, Only("all", Arr(cs)), cs, depth, f);
    assert Only("all", Arr(cs)).fields["all"] == Arr(cs);
  }

  /** `any` answers true exactly when some child does. */
  lemma AnyOnJson(domains: set<string>, cs: seq<Json>, depth: nat, f: Facts)
    requires Valid(domains, Only("any", Arr(cs)), depth)
    ensures Evaluate(Only("any", Arr(cs)), f).answer ==
              Some(exists c :: c in cs && Evaluate(c, f).answer == Some(true))
  {
    AnswersMean(domains, Only("any", Arr(cs)), cs, depth, f);
    assert Only("any", Arr(cs)).fields["any"] == Arr(cs);
  }

  /** `not` answers true exactly when its child answers false. */
  lemma NotOnJson(domains: set<string>, child: Json, depth: nat, f: Facts)
    requires Valid(domains, Only("not", child), depth)
    ensures Evaluate(Only("not", child), f).answer == Some(Evaluate(child, f).answer == Some(false))
  {
    assert Only("not", child).fields["not"] == child;
    EvaluationIsMeaning(domains, child, depth + 1, f);
  }

  /** The three tests look up the role, the participation status and the professional domain they name. */
  lemma TestsOnJson(domains: set<string>, code: string, depth: nat, f: Facts)
    ensures Valid(domains, Only("role_code", Str(code)), depth) ==>
              Evaluate(Only("role_code", Str(code)), f).answer == Some(code in f.roles)
    ensures Valid(domains, Only("participation_status", Str(code)), depth) ==>
              Evaluate(Only("participation_status", Str(code)), f).answer == Some(f.participation == Str(code))
    ensures Valid(domains, Only("professional_domain", Str(code)), depth) ==>
              Evaluate(Only("professional_domain", Str(code)), f).answer == Some(code in f.domains)
  {
  }

  lemma AnswersMean(domains: set<string>, node: Json, cs: seq<Json>, depth: nat, f: Facts)
    requires Valid(domains, node, depth) && (node == Only("all", Arr(cs)) || node == Only("any", Arr(cs)))
    ensures Evaluate(node, f).answer == Some(Meaning(node, f))
    ensures forall c :: c in cs ==> Evaluate(c, f).answer == Some(Meaning(c, f))
  {
    EvaluationIsMeaning(domains, node, depth, f);
    forall c | c in cs ensures Evaluate(c, f).answer == Some(Meaning(c, f)) {
      EvaluationIsMeaning(domains, c, depth + 1, f);
    }
  }

  /** What validation asks, form by form: one condition, known values, at least one child, at most nine levels. */
  lemma ValidOnJson(domains: set<string>, node: Json, depth: nat)
    ensures Valid(domains, node, depth) <==>
              && depth <= 8 && node.Obj? && |node.fields| == 1
              && var m := node.fields;
                 || ("all" in m && m["all"].Arr? && m["all"].items != [] &&
                     forall c :: c in m["all"].items ==> Valid(domains, c, depth + 1))
                 || ("any" in m && m["any"].Arr? && m["any"].items != [] &&
                     forall c :: c in m["any"].items ==> Valid(domains, c, depth + 1))
                 || ("not" in m && Valid(domains, m["not"], depth + 1))
                 || ("role_code" in m &&
                     m["role_code"] in {Str("covenanter"), Str("deliberator"), Str("administrator")})
                 || ("participation_status" in m && m["participation_status"] == Str("contributor"))
                 || ("professional_domain" in m && m["professional_domain"].Str? && m["professional_domain"].s in domains)
  {
    if node.Obj? && |node.fields| == 1 {
      OneKey(node.fields);
    }
  }

  lemma OneKey(m: map<string, Json>)
    requires |m| == 1
    ensures forall j, k :: j in m && k in m ==> j == k
  {
    forall j, k | j in m && k in m ensures j == k {
      assert |m.Keys - {j}| == 0;
      assert k !in m.Keys - {j};
    }
  }

  // ----- the evidence is a certificate

  /** These facts agree with every recorded atom. */
  predicate Supports(g: Facts, evidence: seq<Atom>) {
    forall a :: a in evidence ==> Holds(g, a.condition, a.value) == a.matched
  }

  lemma {:induction false} EvidenceIsTrue(node: Json, f: Facts)
    ensures Supports(f, Evaluate(node, f).evidence)
    decreases node, 1
  {
    match ViewOf(node)
    case All(children) => ChildEvidenceIsTrue(children, f, false);
    case Any(children) => ChildEvidenceIsTrue(children, f, true);
    case Not(child) => EvidenceIsTrue(child, f);
    case _ =>
  }

  lemma {:induction false} ChildEvidenceIsTrue(children: seq<Json>, f: Facts, stop: bool)
    ensures Supports(f, EvaluateUntil(children, f, stop).evidence)
    decreases children, 0
  {
    if children != [] {
      EvidenceIsTrue(children[0], f);
      ChildEvidenceIsTrue(children[1..], f, stop);
    }
  }

  /** Any facts that agree with the recorded atoms give the same answer and the same evidence. */
  lemma {:induction false} EvidenceIsCertificate(node: Json, f: Facts, g: Facts)
    requires Supports(g, Evaluate(node, f).evidence)
    ensures Evaluate(node, g) == Evaluate(node, f)
    decreases node, 1
  {
    match ViewOf(node)
    case All(children) => ChildCertificate(children, f, g, false);
    case Any(children) => ChildCertificate(children, f, g, true);
    case Not(child) => EvidenceIsCertificate(child, f, g);
    case Test(condition, value) =>
      assert Evaluate(node, f).evidence[0] in Evaluate(node, f).evidence;
    case Unknown =>
  }

  lemma {:induction false} ChildCertificate(children: seq<Json>, f: Facts, g: Facts, stop: bool)
    requires Supports(g, EvaluateUntil(children, f, stop).evidence)
    ensures EvaluateUntil(children, g, stop) == EvaluateUntil(children, f, stop)
    decreases children, 0
  {
    if children != [] {
      var first := Evaluate(children[0], f);
      assert forall a :: a in first.evidence ==> a in EvaluateUntil(children, f, stop).evidence;
      EvidenceIsCertificate(children[0], f, g);
      if first.answer == Some(!stop) {
        ChildCertificate(children[1..], f, g, stop);
      }
    }
  }

  // ----- the evaluator as it appends to its evidence list

  class EvidenceLog {
    var items: seq<Atom>

    constructor ()
      ensures items == []
    {
      items := [];
    }

    method EvaluateNode(node: Json, f: Facts) returns (answer: Option<bool>)
      modifies this
      ensures answer == Evaluate(node, f).answer
      ensures items == old(items) + Evaluate(node, f).evidence
      decreases node, 1
    {
      match ViewOf(node) {
        case All(children) => answer := EvaluateChildren(children, f, false);
        case Any(children) => answer := EvaluateChildren(children, f, true);
        case Not(child) =>
          answer := EvaluateNode(child, f);
          if answer.Some? {
            answer := Some(!answer.value);
          }
        case Test(condition, value) =>
          var matched := Holds(f, condition, value);
          items := items + [Atom(condition, value, matched)];
          answer := Some(matched);
        case Unknown => answer := None;
      }
    }

    method EvaluateChildren(children: seq<Json>, f: Facts, stop: bool) returns (answer: Option<bool>)
      modifies this
      ensures answer == EvaluateUntil(children, f, stop).answer
      ensures items == old(items) + EvaluateUntil(children, f, stop).evidence
      decreases children, 0
    {
      var i := 0;
      answer := Some(!stop);
      ghost var whole := EvaluateUntil(children, f, stop);
      while i < |children|
        invariant 0 <= i <= |children|
        invariant answer == Some(!stop)
        invariant EvaluateUntil(children[i..], f, stop).answer == whole.answer
        invariant items + EvaluateUntil(children[i..], f, stop).evidence == old(items) + whole.evidence
      {
        assert children[i..][1..] == children[i + 1..];
        answer := EvaluateNode(children[i], f);
        if answer != Some(!stop) {
          return;
        }
        i := i + 1;
      }
    }
  }
}
