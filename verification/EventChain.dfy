/**
 * The event hash chain: the two hash inputs, the whole-chain verifier, the single-event check,
 * and what a verified chain gives away about tampering.
 */
module EventChain {
  import opened Common
  import opened JsonValues
  import opened PublicPayload

  datatype Event = Event(
    seqNo: nat,
    eventType: string,
    aggregateType: string,
    aggregateId: string,
    actor: Option<string>,
    actorRole: Option<int>,
    payload: Json,
    payloadHash: string,
    prevHash: string,
    eventHash: string)

  /** The digest of a canonical JSON text, and Python's `str` on a JSON value that is no string. */
  datatype Primitives = Primitives(hash: Json -> string, text: Json -> string)

  /** Different JSON values have different digests, and no digest is the empty string. */
  ghost predicate SoundHash(p: Primitives) {
    && (forall x, y :: p.hash(x) == p.hash(y) ==> x == y)
    && (forall x :: p.hash(x) != "")
  }

  // ----- hash inputs

  /** `value or {}`, or nothing when a later `.get` would raise. */
  function AsDict(j: Json): Option<map<string, Json>> {
    if Falsy(j) then Some(map[]) else if j.Obj? then Some(j.fields) else None
  }

  predicate IsPublic(m: map<string, Json>) {
    Field(m, "schema", Null) == Str(PublicSchema)
  }

  function SubjectRef(p: Primitives, m: map<string, Json>, aggregateId: string): Option<string> {
    var subject := AsDict(Field(m, "subject", Null));
    if subject.None? then None
    else if "ref" !in subject.value then Some(aggregateId)
    else
      var ref := subject.value["ref"];
      Some(if ref.Str? then ref.s else p.text(ref))
  }

  function PublicInput(e: Event, ref: string): Json {
    Obj(map[
      "schema" := Str("liveos.system-event-hash.v2"),
      "seq" := Num(e.seqNo),
      "event_type" := Str(e.eventType),
      "aggregate_type" := Str(e.aggregateType),
      "subject_ref" := Str(ref),
      "payload_hash" := Str(e.payloadHash),
      "prev_hash" := Str(e.prevHash)])
  }

  function LegacyInput(e: Event): Json {
    Obj(map[
      "seq" := Num(e.seqNo),
      "event_type" := Str(e.eventType),
      "aggregate_type" := Str(e.aggregateType),
      "aggregate_id" := Str(e.aggregateId),
      "actor_member_id" := if e.actor.Some? then Str(e.actor.value) else Null,
      "actor_role_assignment_id" := if e.actorRole.Some? then Num(e.actorRole.value) else Null,
      "payload_hash" := Str(e.payloadHash),
      "prev_hash" := Str(e.prevHash)])
  }

  /** The value whose digest must be the event hash; none when computing it raises. */
  function HashInput(p: Primitives, e: Event): Option<Json> {
    var m := AsDict(e.payload);
    if m.None? then None
    else if !IsPublic(m.value) then Some(LegacyInput(e))
    else
      var ref := SubjectRef(p, m.value, e.aggregateId);
      if ref.None? then None else Some(PublicInput(e, ref.value))
  }

  predicate Sealed(p: Primitives, e: Event) {
    HashInput(p, e).Some? && e.eventHash == p.hash(HashInput(p, e).value)
  }

  // ----- whole-chain verification

  function PrevHash(events: seq<Event>, i: nat): string
    requires i <= |events|
  {
    if i == 0 then "" else events[i - 1].eventHash
  }

  /** The event at this place continues the chain. */
  predicate LinkedAt(p: Primitives, events: seq<Event>, i: nat)
    requires i < |events|
  {
    var e := events[i];
    e.seqNo == i + 1 && e.prevHash == PrevHash(events, i) && e.payloadHash == p.hash(e.payload) && Sealed(p, e)
  }

  predicate Chained(p: Primitives, events: seq<Event>) {
    forall i :: 0 <= i < |events| ==> LinkedAt(p, events, i)
  }

  /** Verification raises at this event: everything before it checks out and its hash input cannot be built. */
  predicate RaisesAt(p: Primitives, events: seq<Event>, i: nat)
    requires i < |events|
  {
    var e := events[i];
    && Chained(p, events[..i])
    && e.seqNo == i + 1 && e.prevHash == PrevHash(events, i) && e.payloadHash == p.hash(e.payload)
    && HashInput(p, e).None?
  }

  /** `verify_event_chain` over the events in order of `seq`; no answer when it raises. */
  method VerifyEventChain(p: Primitives, events: seq<Event>) returns (verdict: Option<bool>)
    ensures verdict == Some(true) <==> Chained(p, events)
    ensures verdict.None? <==> exists i :: 0 <= i < |events| && RaisesAt(p, events, i)
  {
    var expectedPrevHash := "";
    var expectedSeq := 1;
    var i := 0;
    while i < |events|
      invariant 0 <= i <= |events|
      invariant expectedSeq == i + 1 && expectedPrevHash == PrevHash(events, i)
      invariant forall j :: 0 <= j < i ==> LinkedAt(p, events, j)
    {
      var e := events[i];
      PrefixOfChain(p, events, i);
      if e.seqNo != expectedSeq || e.prevHash != expectedPrevHash || e.payloadHash != p.hash(e.payload) {
        assert !LinkedAt(p, events, i);
        NotRaisedAfter(p, events, i);
        return Some(false);
      }
      var input := HashInput(p, e);
      if input.None? {
        assert RaisesAt(p, events, i) && !LinkedAt(p, events, i);
        return None;
      }
      if e.eventHash != p.hash(input.value) {
        assert !LinkedAt(p, events, i);
        NotRaisedAfter(p, events, i);
        return Some(false);
      }
      expectedPrevHash := e.eventHash;
      expectedSeq := expectedSeq + 1;
      i := i + 1;
    }
    NotRaisedInChain(p, events);
    return Some(true);
  }

  lemma PrefixOfChain(p: Primitives, events: seq<Event>, n: nat)
    requires n <= |events| && forall j :: 0 <= j < n ==> LinkedAt(p, events, j)
    ensures Chained(p, events[..n])
  {
    forall j | 0 <= j < n ensures LinkedAt(p, events[..n], j) {
      assert LinkedAt(p, events, j);
    }
  }

  lemma NotRaisedAfter(p: Primitives, events: seq<Event>, i: nat)
    requires i < |events| && forall j :: 0 <= j < i ==> LinkedAt(p, events, j)
    requires var e := events[i];
             || e.seqNo != i + 1 || e.prevHash != PrevHash(events, i) || e.payloadHash != p.hash(e.payload)
             || (HashInput(p, e).Some? && !Sealed(p, e))
    ensures forall k :: 0 <= k < |events| ==> !RaisesAt(p, events, k)
  {
    forall k | 0 <= k < |events| ensures !RaisesAt(p, events, k) {
      if k < i {
        assert LinkedAt(p, events, k);
      } else if k > i {
        assert !LinkedAt(p, events[..k], i);
      }
    }
  }

  lemma NotRaisedInChain(p: Primitives, events: seq<Event>)
    requires forall j :: 0 <= j < |events| ==> LinkedAt(p, events, j)
    ensures forall k :: 0 <= k < |events| ==> !RaisesAt(p, events, k)
  {
    forall k | 0 <= k < |events| ensures !RaisesAt(p, events, k) {
      assert LinkedAt(p, events, k);
    }
  }

  // ----- the separate check of one event

  function FindSeq(table: seq<Event>, n: int): (r: Option<nat>)
    ensures r.Some? ==> r.value < |table| && table[r.value].seqNo == n
    ensures r.None? ==> forall i :: 0 <= i < |table| ==> table[i].seqNo != n
  {
    if table == [] then None
    else
      var last := |table| - 1;
      var earlier := FindSeq(table[..last], n);
      if earlier.Some? then earlier else if table[last].seqNo == n then Some(last) else None
  }

  /** `system_event_chain_check`: it looks up the predecessor by number and hashes `payload or {}`. */
  predicate LocallyValid(p: Primitives, table: seq<Event>, e: Event) {
    var prev := FindSeq(table, e.seqNo - 1);
    && e.payloadHash == p.hash(if Falsy(e.payload) then Obj(map[]) else e.payload)
    && e.prevHash == (if prev.Some? then table[prev.value].eventHash else "")
    && Sealed(p, e)
  }

  ghost predicate Numbered(table: seq<Event>) {
    forall i :: 0 <= i < |table| ==> table[i].seqNo == i + 1
  }

  lemma FindSeqInNumbered(table: seq<Event>, n: nat)
    requires Numbered(table)
    ensures FindSeq(table, n) == if 1 <= n <= |table| then Some(n - 1) else None
  {
    if 1 <= n <= |table| {
      assert table[n - 1].seqNo == n;
    }
  }

  /** On dict payloads the chain verifies exactly when it is numbered 1..n and every event passes its own check. */
  lemma ChainedIffLocal(p: Primitives, table: seq<Event>)
    requires forall i :: 0 <= i < |table| ==> table[i].payload.Obj?
    ensures Chained(p, table)
       <==> Numbered(table) && forall i :: 0 <= i < |table| ==> LocallyValid(p, table, table[i])
  {
    if Chained(p, table) {
      forall i | 0 <= i < |table| ensures table[i].seqNo == i + 1 {
        assert LinkedAt(p, table, i);
      }
    }
    if Numbered(table) {
      forall i | 0 <= i < |table| ensures LinkedAt(p, table, i) <==> LocallyValid(p, table, table[i]) {
        FindSeqInNumbered(table, i);
      }
    }
  }

  /** In a verified chain the single-event check passes exactly the events whose payload is a dict. */
  lemma LocalAcceptsIffDict(p: Primitives, table: seq<Event>, i: nat)
    requires SoundHash(p) && Chained(p, table) && i < |table|
    ensures LocallyValid(p, table, table[i]) <==> table[i].payload.Obj?
  {
    forall k | 0 <= k < |table| ensures table[k].seqNo == k + 1 {
      assert LinkedAt(p, table, k);
    }
    FindSeqInNumbered(table, i);
    assert LinkedAt(p, table, i);
    if !table[i].payload.Obj? {
      assert p.hash(table[i].payload) != p.hash(Obj(map[]));
    }
  }

  /** And a numbered table whose events all pass the single-event check verifies exactly when all payloads are dicts. */
  lemma ChainAcceptsIffDicts(p: Primitives, table: seq<Event>)
    requires SoundHash(p) && Numbered(table) && forall i :: 0 <= i < |table| ==> LocallyValid(p, table, table[i])
    ensures Chained(p, table) <==> forall i :: 0 <= i < |table| ==> table[i].payload.Obj?
  {
    if Chained(p, table) {
      forall i | 0 <= i < |table| ensures table[i].payload.Obj? {
        LocalAcceptsIffDict(p, table, i);
      }
    }
    if forall i :: 0 <= i < |table| ==> table[i].payload.Obj? {
      ChainedIffLocal(p, table);
    }
  }

  /** The first event of a table, sealed, with an empty list for a payload. */
  function EmptyListEvent(p: Primitives, payloadHash: string): Event {
    var e := Event(1, "", "", "", None, None, Arr([]), payloadHash, "", "");
    e.(eventHash := p.hash(LegacyInput(e)))
  }

  lemma EmptyListIsSealed(p: Primitives, payloadHash: string)
    ensures Sealed(p, EmptyListEvent(p, payloadHash))
  {
    var e := EmptyListEvent(p, payloadHash);
    assert AsDict(e.payload) == Some(map[]) && LegacyInput(e) == LegacyInput(e.(eventHash := ""));
  }

  /** Where they part: each check has a one-event table that it passes and the other refuses. */
  lemma FalsyPayloadSplitsChecks(p: Primitives)
    requires SoundHash(p)
    ensures var e := EmptyListEvent(p, p.hash(Arr([])));
            Chained(p, [e]) && !LocallyValid(p, [e], e)
    ensures var e := EmptyListEvent(p, p.hash(Obj(map[])));
            LocallyValid(p, [e], e) && !Chained(p, [e])
  {
    var e, f := EmptyListEvent(p, p.hash(Arr([]))), EmptyListEvent(p, p.hash(Obj(map[])));
    EmptyListIsSealed(p, e.payloadHash);
    EmptyListIsSealed(p, f.payloadHash);
    assert LinkedAt(p, [e], 0);
    LocalAcceptsIffDict(p, [e], 0);
    FindSeqInNumbered([f], 0);
    assert LocallyValid(p, [f], f);
    ChainAcceptsIffDicts(p, [f]);
    assert !([f][0].payload.Obj?);
  }

  // ----- tamper evidence

  predicate Legacy(e: Event) {
    AsDict(e.payload).Some? && !IsPublic(AsDict(e.payload).value)
  }

  /** The two events agree on everything their hash covers. */
  predicate Agree(p: Primitives, e: Event, f: Event) {
    && e.seqNo == f.seqNo && e.eventType == f.eventType && e.aggregateType == f.aggregateType
    && e.payload == f.payload && e.payloadHash == f.payloadHash
    && e.prevHash == f.prevHash && e.eventHash == f.eventHash
    && HashInput(p, e) == HashInput(p, f)
    && (Legacy(e) ==> e.aggregateId == f.aggregateId && e.actor == f.actor && e.actorRole == f.actorRole)
  }

  predicate SameCommonFields(e: Event, f: Event) {
    && e.seqNo == f.seqNo && e.eventType == f.eventType && e.aggregateType == f.aggregateType
    && e.payloadHash == f.payloadHash && e.prevHash == f.prevHash
  }

  lemma PublicInputsAgree(e: Event, f: Event, ref: string, other: string)
    requires PublicInput(e, ref) == PublicInput(f, other)
    ensures SameCommonFields(e, f)
  {
    var x, y := PublicInput(e, ref).fields, PublicInput(f, other).fields;
    assert x["seq"] == y["seq"] && x["event_type"] == y["event_type"];
    assert x["aggregate_type"] == y["aggregate_type"];
    assert x["payload_hash"] == y["payload_hash"] && x["prev_hash"] == y["prev_hash"];
  }

  lemma LegacyInputsAgree(e: Event, f: Event)
    requires LegacyInput(e) == LegacyInput(f)
    ensures SameCommonFields(e, f) && e.aggregateId == f.aggregateId && e.actor == f.actor && e.actorRole == f.actorRole
  {
    var x, y := LegacyInput(e).fields, LegacyInput(f).fields;
    assert x["seq"] == y["seq"] && x["event_type"] == y["event_type"];
    assert x["aggregate_type"] == y["aggregate_type"];
    assert x["payload_hash"] == y["payload_hash"] && x["prev_hash"] == y["prev_hash"];
    assert x["aggregate_id"] == y["aggregate_id"] && x["actor_member_id"] == y["actor_member_id"];
    assert x["actor_role_assignment_id"] == y["actor_role_assignment_id"];
  }

  /** The versions cannot be confused: only the public input names a schema. */
  lemma VersionsDiffer(e: Event, f: Event, ref: string)
    ensures PublicInput(e, ref) != LegacyInput(f)
  {
    assert "schema" in PublicInput(e, ref).fields && "schema" !in LegacyInput(f).fields;
  }

  lemma EqualInputsAgree(p: Primitives, e: Event, f: Event)
    requires HashInput(p, e).Some? && HashInput(p, e) == HashInput(p, f)
    ensures SameCommonFields(e, f)
    ensures Legacy(e) <==> Legacy(f)
    ensures Legacy(e) ==> e.aggregateId == f.aggregateId && e.actor == f.actor && e.actorRole == f.actorRole
  {
    var m, k := AsDict(e.payload).value, AsDict(f.payload).value;
    if Legacy(e) && Legacy(f) {
      LegacyInputsAgree(e, f);
    } else if Legacy(e) {
      VersionsDiffer(f, e, SubjectRef(p, k, f.aggregateId).value);
    } else if Legacy(f) {
      VersionsDiffer(e, f, SubjectRef(p, m, e.aggregateId).value);
    } else {
      PublicInputsAgree(e, f, SubjectRef(p, m, e.aggregateId).value, SubjectRef(p, k, f.aggregateId).value);
    }
  }

  lemma SameHashAgree(p: Primitives, e: Event, f: Event)
    requires SoundHash(p) && Sealed(p, e) && Sealed(p, f)
    requires e.payloadHash == p.hash(e.payload) && f.payloadHash == p.hash(f.payload)
    requires e.eventHash == f.eventHash
    ensures Agree(p, e, f)
  {
    EqualInputsAgree(p, e, f);
  }

  /**
   * Tamper evidence: two verified chains that end in the same event hash have the same length and agree,
   * event by event, on all that the hashes cover, whichever versions their events are.
   */
  lemma {:induction false} TamperEvidence(p: Primitives, xs: seq<Event>, ys: seq<Event>)
    requires SoundHash(p) && Chained(p, xs) && Chained(p, ys) && xs != [] && ys != []
    requires xs[|xs| - 1].eventHash == ys[|ys| - 1].eventHash
    ensures |xs| == |ys| && forall i :: 0 <= i < |xs| ==> Agree(p, xs[i], ys[i])
    decreases |xs|
  {
    var m, n := |xs| - 1, |ys| - 1;
    assert LinkedAt(p, xs, m) && LinkedAt(p, ys, n);
    SameHashAgree(p, xs[m], ys[n]);
    if m > 0 {
      PrefixOfChain(p, xs, m);
      PrefixOfChain(p, ys, n);
      TamperEvidence(p, xs[..m], ys[..n]);
      forall i | 0 <= i < |xs| ensures Agree(p, xs[i], ys[i]) {
        if i < m {
          assert Agree(p, xs[..m][i], ys[..n][i]);
        }
      }
    }
  }

  /** The event has a payload of the public schema. */
  predicate PublicEvent(e: Event) {
    e.payload.Obj? && "schema" in e.payload.fields &&
    e.payload.fields["schema"] == Str("liveos.system-event.public.v1")
  }

  /** The payload names the subject itself. */
  predicate NamesSubject(payload: Json) {
    payload.Obj? && "subject" in payload.fields && payload.fields["subject"].Obj? &&
    "ref" in payload.fields["subject"].fields
  }

  lemma SealedIsPublicOrLegacy(p: Primitives, e: Event)
    requires HashInput(p, e).Some?
    ensures PublicEvent(e) <==> !Legacy(e)
    ensures PublicEvent(e) && NamesSubject(e.payload) ==>
              forall id :: SubjectRef(p, e.payload.fields, id) == SubjectRef(p, e.payload.fields, e.aggregateId)
    ensures PublicEvent(e) && !NamesSubject(e.payload) ==>
              forall id :: SubjectRef(p, e.payload.fields, id) == Some(id)
  {
  }

  /** An event rewritten in place, its hashes left, still fits exactly when its hash input is the same. */
  lemma RewrittenFits(p: Primitives, xs: seq<Event>, i: nat, f: Event)
    requires SoundHash(p) && Chained(p, xs) && i < |xs|
    requires f == xs[i].(aggregateId := f.aggregateId, actor := f.actor, actorRole := f.actorRole)
    ensures Chained(p, xs[i := f]) <==> HashInput(p, f) == HashInput(p, xs[i])
  {
    var ys := xs[i := f];
    assert LinkedAt(p, xs, i);
    if Chained(p, ys) {
      assert LinkedAt(p, ys, i);
    }
    if HashInput(p, f) == HashInput(p, xs[i]) {
      forall j | 0 <= j < |ys| ensures LinkedAt(p, ys, j) {
        assert LinkedAt(p, xs, j);
      }
    }
  }

  /** The actor columns are outside the public hash input: rewriting them goes unnoticed exactly on public events. */
  lemma ActorCoveredIffLegacy(p: Primitives, xs: seq<Event>, i: nat, actor: Option<string>, actorRole: Option<int>)
    requires SoundHash(p) && Chained(p, xs) && i < |xs| && (actor != xs[i].actor || actorRole != xs[i].actorRole)
    ensures Chained(p, xs[i := xs[i].(actor := actor, actorRole := actorRole)]) <==> PublicEvent(xs[i])
  {
    var e := xs[i];
    var f := e.(actor := actor, actorRole := actorRole);
    assert LinkedAt(p, xs, i);
    SealedIsPublicOrLegacy(p, e);
    RewrittenFits(p, xs, i, f);
    if HashInput(p, f) == HashInput(p, e) {
      EqualInputsAgree(p, e, f);
    }
  }

  /** The internal subject id goes unnoticed exactly on public events that name their subject in the payload. */
  lemma SubjectCoveredUnlessNamed(p: Primitives, xs: seq<Event>, i: nat, id: string)
    requires SoundHash(p) && Chained(p, xs) && i < |xs| && id != xs[i].aggregateId
    ensures Chained(p, xs[i := xs[i].(aggregateId := id)]) <==> PublicEvent(xs[i]) && NamesSubject(xs[i].payload)
  {
    var e := xs[i];
    var f := e.(aggregateId := id);
    assert LinkedAt(p, xs, i);
    SealedIsPublicOrLegacy(p, e);
    RewrittenFits(p, xs, i, f);
    if PublicEvent(e) {
      PublicInputsDiffer(e, f, if NamesSubject(e.payload) then SubjectRef(p, e.payload.fields, id).value else e.aggregateId, id);
    } else if HashInput(p, f) == HashInput(p, e) {
      EqualInputsAgree(p, e, f);
    }
  }

  lemma PublicInputsDiffer(e: Event, f: Event, ref: string, other: string)
    ensures ref != other ==> PublicInput(e, ref) != PublicInput(f, other)
  {
    assert PublicInput(e, ref).fields["subject_ref"] == Str(ref);
    assert PublicInput(f, other).fields["subject_ref"] == Str(other);
  }
}
