/** The validator that keeps private keys out of public event payloads. */
module PublicPayload {
  import opened Common
  import opened JsonValues

  const Commitments := "private_commitments"
  const PublicSchema := "liveos.system-event.public.v1"

  /** Keys that may not appear in a public payload. */
  const Denylist: set<string> := {
    "contact", "contact_name", "contact_info", "email", "phone", "wechat", "username",
    "account_username", "account_user_id", "password", "password1", "password2",
    "user_id", "member_id", "member_no", "target_member_id", "target_member_no",
    "voter_member_id", "voter_member_no", "actor_member_id", "assignee_member_id",
    "assignee_member_no", "claimant_member_id", "claimant_member_no",
    "respondent_member_id", "respondent_member_no", "proposer_member_id", "proposer_member_no",
    "proposal_id", "role_id", "organization_id", "role_assignment_id",
    "proposer_role_assignment_id", "voter_role_assignment_id", "granted_by_id", "revoked_by_id",
    "ledger_entry_id", "system_event_id", "related_event_id", "related_ledger_entry_id", "related_task_id",
    "applicant_name", "applicant_name_raw", "requested_member_no", "linked_member_id",
    "display_name", "display_name_raw", "assigned_member_display_name",
    "actor", "operator", "handler", "reviewer", "created_by", "reviewed_by", "decided_by",
    "metadata", "payload", "result", "execution_result", "facts", "evidence_refs",
    "reason_raw", "resolution_raw"
  }

  /** The recursive check; `deny` is the denylist. */
  predicate ValidNode(deny: set<string>, node: Json, inside: bool) {
    match node
    case Obj(m) =>
      if inside then forall k :: k in m ==> k in {"name", "present", "reason"} && Scalar(m[k])
      else
        forall k :: k in m ==>
          if k == Commitments then
            m[k].Arr? ==> forall i :: 0 <= i < |m[k].items| ==> ValidNode(deny, m[k].items[i], true)
          else k !in deny && (!Scalar(m[k]) ==> ValidNode(deny, m[k], false))
    case Arr(items) => forall i :: 0 <= i < |items| ==> ValidNode(deny, items[i], false)
    case _ => true
  }

  /** The header every public payload must carry; `text` renders a JSON value as Python's `str` does. */
  predicate HasHeader(text: Json -> string, payload: map<string, Json>) {
    && Field(payload, "schema", Str("")) == Str(PublicSchema)
    && Field(payload, "subject", Null).Obj?
    && Filled(text, payload["subject"].fields, "type")
    && Filled(text, payload["subject"].fields, "ref")
    && Filled(text, payload["subject"].fields, "label")
    && Filled(text, payload, "action")
    && Filled(text, payload, "stage")
    && Filled(text, payload, "summary")
    && Field(payload, "public_facts", Null).Obj?
    && Field(payload, Commitments, Null).Arr?
  }

  function Field(m: map<string, Json>, key: string, default: Json): Json {
    if key in m then m[key] else default
  }

  predicate Filled(text: Json -> string, m: map<string, Json>, key: string) {
    key in m && Strip(if m[key].Str? then m[key].s else text(m[key])) != ""
  }

  /** `validate_public_ledger_payload`: true when it raises nothing. */
  predicate ValidPayload(text: Json -> string, payload: Json) {
    payload.Obj? && HasHeader(text, payload.fields) && ValidNode(Denylist, payload, false)
  }

  // ----- the same rule by paths

  datatype PathStep = Key(key: string) | Index(index: nat)

  /** Where a path leads: an ordinary node, a list of commitments, or one commitment. */
  datatype Spot = Public(node: Json) | CommitmentList(items: seq<Json>) | Commitment(item: Json)

  function Follow(spot: Spot, step: PathStep): Option<Spot> {
    match (spot, step)
    case (Public(Obj(m)), Key(k)) =>
      if k !in m then None
      else if k != Commitments then Some(Public(m[k]))
      else if m[k].Arr? then Some(CommitmentList(m[k].items))
      else None
    case (Public(Arr(items)), Index(i)) => if i < |items| then Some(Public(items[i])) else None
    case (CommitmentList(items), Index(i)) => if i < |items| then Some(Commitment(items[i])) else None
    case (Commitment(Arr(items)), Index(i)) => if i < |items| then Some(Public(items[i])) else None
    case _ => None
  }

  function Reach(spot: Spot, path: seq<PathStep>): Option<Spot>
    decreases |path|
  {
    if path == [] then Some(spot)
    else
      var next := Follow(spot, path[0]);
      if next.None? then None else Reach(next.value, path[1..])
  }

  /** What must hold at one spot, looking no further down. */
  predicate SpotOk(deny: set<string>, spot: Spot) {
    match spot
    case Public(Obj(m)) => forall k :: k in m && k != Commitments ==> k !in deny
    case Commitment(Obj(m)) => forall k :: k in m ==> k in {"name", "present", "reason"} && Scalar(m[k])
    case _ => true
  }

  /** Wherever a path leads, no denied key is met and commitments are flat. */
  ghost predicate CleanPaths(deny: set<string>, node: Json) {
    forall path :: Reach(Public(node), path).Some? ==> SpotOk(deny, Reach(Public(node), path).value)
  }

  predicate ValidSpot(deny: set<string>, spot: Spot) {
    match spot
    case Public(node) => ValidNode(deny, node, false)
    case CommitmentList(items) => forall i :: 0 <= i < |items| ==> ValidNode(deny, items[i], true)
    case Commitment(item) => ValidNode(deny, item, true)
  }

  lemma {:induction false} ReachKeepsValid(deny: set<string>, spot: Spot, path: seq<PathStep>)
    requires ValidSpot(deny, spot) && Reach(spot, path).Some?
    ensures ValidSpot(deny, Reach(spot, path).value) && SpotOk(deny, Reach(spot, path).value)
    decreases |path|
  {
    if path != [] {
      var next := Follow(spot, path[0]).value;
      assert ValidSpot(deny, next);
      ReachKeepsValid(deny, next, path[1..]);
    }
  }

  /** A refused node has a path to the violation that caused the refusal. */
  lemma {:induction false} FindViolation(deny: set<string>, node: Json, inside: bool) returns (path: seq<PathStep>)
    requires !ValidNode(deny, node, inside)
    ensures var start := if inside then Commitment(node) else Public(node);
            Reach(start, path).Some? && !SpotOk(deny, Reach(start, path).value)
    decreases node
  {
    match node
    case Obj(m) =>
      path := [];
      if !inside && SpotOk(deny, Public(node)) {
        if k :| k in m && k != Commitments && !ValidNode(deny, m[k], false) {
          var rest := FindViolation(deny, m[k], false);
          path := [Key(k)] + rest;
          assert path[1..] == rest;
        } else {
          var list := m[Commitments].items;
          var i :| 0 <= i < |list| && !ValidNode(deny, list[i], true);
          var rest := FindViolation(deny, list[i], true);
          path := [Key(Commitments), Index(i)] + rest;
          assert path[1..] == [Index(i)] + rest && path[1..][1..] == rest;
          assert Reach(CommitmentList(list), path[1..]) == Reach(Commitment(list[i]), rest);
        }
      }
    case Arr(items) =>
      var i :| 0 <= i < |items| && !ValidNode(deny, items[i], false);
      var rest := FindViolation(deny, items[i], false);
      path := [Index(i)] + rest;
      assert path[1..] == rest;
  }

  /**
   * The recursive validator accepts exactly the nodes on which every reachable ordinary object is free of
   * denied keys and every reachable commitment object holds only scalar name, present and reason.
   */
  lemma ValidIffEveryPathOk(deny: set<string>, node: Json)
    ensures ValidNode(deny, node, false) <==> CleanPaths(deny, node)
  {
    if ValidNode(deny, node, false) {
      forall path | Reach(Public(node), path).Some? ensures SpotOk(deny, Reach(Public(node), path).value) {
        ReachKeepsValid(deny, Public(node), path);
      }
    } else {
      var path := FindViolation(deny, node, false);
      assert Reach(Public(node), path).Some?;
    }
  }

  /** Plain descent into a JSON value. */
  function At(node: Json, path: seq<PathStep>): Option<Json>
    decreases |path|
  {
    if path == [] then Some(node)
    else
      match (node, path[0])
      case (Obj(m), Key(k)) => if k in m then At(m[k], path[1..]) else None
      case (Arr(items), Index(i)) => if i < |items| then At(items[i], path[1..]) else None
      case _ => None
  }

  lemma {:induction false} ReachIsDescent(node: Json, path: seq<PathStep>)
    requires Key(Commitments) !in path
    ensures At(node, path).Some? ==> Reach(Public(node), path) == Some(Public(At(node, path).value))
    decreases |path|
  {
    if path != [] && At(node, path).Some? {
      var next := if node.Obj? then node.fields[path[0].key] else node.items[path[0].index];
      assert path[0] in path;
      ReachIsDescent(next, path[1..]);
    }
  }

  /** An accepted payload has no denied key anywhere outside its private commitments. */
  lemma AcceptedPayloadIsPublic(text: Json -> string, payload: Json, path: seq<PathStep>, key: string)
    requires ValidPayload(text, payload) && Key(Commitments) !in path
    requires At(payload, path).Some? && At(payload, path).value.Obj? && key in At(payload, path).value.fields
    ensures key == Commitments || key !in Denylist
  {
    ReachIsDescent(payload, path);
    ReachKeepsValid(Denylist, Public(payload), path);
  }

  // ----- what is accepted, on the JSON itself

  /** The field is there, and its text is not blank. */
  predicate Says(text: Json -> string, m: map<string, Json>, key: string) {
    key in m && SaysSomething(if m[key].Str? then m[key].s else text(m[key]))
  }

  /** The schema, a subject with its three fields, the three headings, the facts and the list of commitments. */
  ghost predicate PublicHeader(text: Json -> string, m: map<string, Json>) {
    && "schema" in m && m["schema"] == Str("liveos.system-event.public.v1")
    && "subject" in m && m["subject"].Obj?
    && (forall key :: key in {"type", "ref", "label"} ==> Says(text, m["subject"].fields, key))
    && (forall key :: key in {"action", "stage", "summary"} ==> Says(text, m, key))
    && "public_facts" in m && m["public_facts"].Obj?
    && "private_commitments" in m && m["private_commitments"].Arr?
  }

  ghost predicate Publishable(text: Json -> string, payload: Json) {
    payload.Obj? && PublicHeader(text, payload.fields) && CleanPaths(Denylist, payload)
  }

  lemma FilledIffSays(text: Json -> string, m: map<string, Json>, key: string)
    ensures Filled(text, m, key) <==> Says(text, m, key)
  {
    if key in m {
      var from := StripTakesBlanks(if m[key].Str? then m[key].s else text(m[key]));
    }
  }

  /** The validator accepts exactly the publishable payloads. */
  lemma ValidIffPublishable(text: Json -> string, payload: Json)
    ensures ValidPayload(text, payload) <==> Publishable(text, payload)
  {
    if payload.Obj? {
      HeaderIff(text, payload.fields);
    }
    ValidIffEveryPathOk(Denylist, payload);
  }

  lemma HeaderIff(text: Json -> string, m: map<string, Json>)
    ensures HasHeader(text, m) <==> PublicHeader(text, m)
  {
    assert |PublicSchema| > 0;
    HeadingsFilled(text, m, "action", "stage", "summary");
    if "subject" in m && m["subject"].Obj? {
      HeadingsFilled(text, m["subject"].fields, "type", "ref", "label");
    }
  }

  lemma HeadingsFilled(text: Json -> string, m: map<string, Json>, a: string, b: string, c: string)
    ensures (forall key :: key in {a, b, c} ==> Says(text, m, key)) <==>
            Filled(text, m, a) && Filled(text, m, b) && Filled(text, m, c)
  {
    FilledIffSays(text, m, a);
    FilledIffSays(text, m, b);
    FilledIffSays(text, m, c);
  }

  /** A payload with contact, account or member data, internal ids, raw names, actors or raw blobs on a path is refused. */
  lemma PrivateKeyIsRefused(text: Json -> string, payload: Json, path: seq<PathStep>, key: string)
    requires Key("private_commitments") !in path
    requires At(payload, path).Some? && At(payload, path).value.Obj? && key in At(payload, path).value.fields
    requires key in {
               "contact", "contact_name", "contact_info", "email", "phone", "wechat", "username", "account_username",
               "account_user_id", "password", "password1", "password2", "user_id", "member_id", "member_no",
               "target_member_id", "target_member_no", "voter_member_id", "voter_member_no", "actor_member_id",
               "assignee_member_id", "assignee_member_no", "claimant_member_id", "claimant_member_no",
               "respondent_member_id", "respondent_member_no", "proposer_member_id", "proposer_member_no", "proposal_id",
               "role_id", "organization_id", "role_assignment_id", "proposer_role_assignment_id",
               "voter_role_assignment_id", "granted_by_id", "revoked_by_id", "ledger_entry_id", "system_event_id",
               "related_event_id", "related_ledger_entry_id", "related_task_id", "applicant_name", "applicant_name_raw",
               "requested_member_no", "linked_member_id", "display_name", "display_name_raw",
               "assigned_member_display_name", "actor", "operator", "handler", "reviewer", "created_by", "reviewed_by",
               "decided_by", "metadata", "payload", "result", "execution_result", "facts", "evidence_refs", "reason_raw",
               "resolution_raw"}
    ensures !ValidPayload(text, payload)
  {
    if ValidPayload(text, payload) {
      AcceptedPayloadIsPublic(text, payload, path, key);
    }
  }
}
