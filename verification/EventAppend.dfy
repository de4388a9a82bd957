/** Concurrent appenders on the event chain: read the tail, then insert under a unique number, with retries. */
module EventAppend {
  import opened Common
  import opened JsonValues
  import opened PublicPayload
  import opened EventChain

  datatype Request = Request(
    eventType: string,
    aggregateType: string,
    aggregateId: string,
    actor: Option<string>,
    actorRole: Option<int>,
    payload: Json)

  /** The event an appender prepares after reading the tail of the table. */
  function Prepare(p: Primitives, r: Request, table: seq<Event>): Event {
    var seqNo := if table == [] then 1 else table[|table| - 1].seqNo + 1;
    var e := Event(seqNo, r.eventType, r.aggregateType, r.aggregateId, r.actor, r.actorRole, r.payload,
                   p.hash(r.payload), PrevHash(table, |table|), "");
    var ref := if r.payload.Obj? then SubjectRef(p, r.payload.fields, r.aggregateId) else None;
    e.(eventHash := p.hash(PublicInput(e, if ref.Some? then ref.value else r.aggregateId)))
  }

  /** The event says what was requested. */
  predicate Carries(e: Event, r: Request) {
    e.eventType == r.eventType && e.aggregateType == r.aggregateType && e.aggregateId == r.aggregateId &&
    e.actor == r.actor && e.actorRole == r.actorRole && e.payload == r.payload
  }

  /** Both the number and the event hash are unique columns. */
  predicate Conflicts(table: seq<Event>, e: Event) {
    exists i :: 0 <= i < |table| && (table[i].seqNo == e.seqNo || table[i].eventHash == e.eventHash)
  }

  /** The table is kept in order of number. */
  function InsertBySeq(table: seq<Event>, e: Event): seq<Event> {
    if table == [] || table[|table| - 1].seqNo < e.seqNo then table + [e]
    else InsertBySeq(table[..|table| - 1], e) + [table[|table| - 1]]
  }

  /** A prepared event whose read is still consistent with the chain, perhaps of an earlier moment. */
  predicate ReadFrom(p: Primitives, table: seq<Event>, e: Event) {
    && 1 <= e.seqNo <= |table| + 1
    && e.prevHash == PrevHash(table, e.seqNo - 1)
    && e.payloadHash == p.hash(e.payload)
    && Sealed(p, e)
  }

  /** A payload of the public schema whose subject can be read. */
  predicate Hashable(payload: Json) {
    payload.Obj? && IsPublic(payload.fields) && AsDict(Field(payload.fields, "subject", Null)).Some?
  }

  lemma ValidIsHashable(text: Json -> string, payload: Json)
    requires ValidPayload(text, payload)
    ensures Hashable(payload)
  {
  }

  lemma PreparedIsConsistent(p: Primitives, r: Request, table: seq<Event>)
    requires Chained(p, table) && Hashable(r.payload)
    ensures ReadFrom(p, table, Prepare(p, r, table)) && Prepare(p, r, table).seqNo == |table| + 1
    ensures Carries(Prepare(p, r, table), r)
  {
    if table != [] {
      assert LinkedAt(p, table, |table| - 1);
    }
    assert "schema" in r.payload.fields;
    assert AsDict(r.payload) == Some(r.payload.fields);
  }

  /** An insert is refused exactly when somebody else has committed since the tail was read. */
  lemma ConflictIffChainGrew(p: Primitives, table: seq<Event>, e: Event)
    requires SoundHash(p) && Chained(p, table) && ReadFrom(p, table, e)
    ensures Conflicts(table, e) <==> e.seqNo <= |table|
  {
    if e.seqNo <= |table| {
      assert LinkedAt(p, table, e.seqNo - 1);
    }
    if Conflicts(table, e) {
      var i :| 0 <= i < |table| && (table[i].seqNo == e.seqNo || table[i].eventHash == e.eventHash);
      assert LinkedAt(p, table, i);
      if table[i].eventHash == e.eventHash {
        SameHashAgree(p, table[i], e);
      }
    }
  }

  /** An accepted insert goes to the end of the chain and continues it. */
  lemma InsertExtendsChain(p: Primitives, table: seq<Event>, e: Event)
    requires Chained(p, table) && ReadFrom(p, table, e) && e.seqNo == |table| + 1
    ensures InsertBySeq(table, e) == table + [e] && Chained(p, table + [e])
  {
    if table != [] {
      assert LinkedAt(p, table, |table| - 1);
    }
    ChainGrows(p, table, e);
  }

  lemma ChainGrows(p: Primitives, table: seq<Event>, e: Event)
    requires Chained(p, table) && e.seqNo == |table| + 1 && e.prevHash == PrevHash(table, |table|)
    requires e.payloadHash == p.hash(e.payload) && Sealed(p, e)
    ensures Chained(p, table + [e])
  {
    var longer := table + [e];
    forall i | 0 <= i < |longer| ensures LinkedAt(p, longer, i) {
      if i < |table| {
        LinkSurvivesGrowth(p, table, e, i);
      } else {
        assert longer[i] == e && PrevHash(longer, i) == PrevHash(table, i);
      }
    }
  }

  lemma LinkSurvivesGrowth(p: Primitives, table: seq<Event>, e: Event, i: nat)
    requires i < |table| && LinkedAt(p, table, i)
    ensures LinkedAt(p, table + [e], i)
  {
    assert (table + [e])[i] == table[i] && PrevHash(table + [e], i) == PrevHash(table, i);
  }

  // ----- the interleaving of appenders

  datatype Client =
    | Idle
    | Trying(request: Request, attempt: nat)
    | HasRead(request: Request, attempt: nat, event: Event)
    | Succeeded(request: Request, event: Event)
    | Failed

  datatype World = World(table: seq<Event>, clients: map<nat, Client>)

  /** The moves the scheduler may interleave at will. */
  datatype Move = Begin(client: nat, request: Request) | ReadTail(client: nat) | TryInsert(client: nat)

  const MaxAttempts := 3

  function Take(p: Primitives, w: World, move: Move): World {
    var c := if move.client in w.clients then w.clients[move.client] else Idle;
    match move
    case Begin(id, request) =>
      if c.Trying? || c.HasRead? then w
      else w.(clients := w.clients[id := if ValidPayload(p.text, request.payload) then Trying(request, 0) else Failed])
    case ReadTail(id) =>
      if !c.Trying? then w
      else w.(clients := w.clients[id := HasRead(c.request, c.attempt, Prepare(p, c.request, w.table))])
    case TryInsert(id) =>
      if !c.HasRead? then w
      else if !Conflicts(w.table, c.event) then
        World(InsertBySeq(w.table, c.event), w.clients[id := Succeeded(c.request, c.event)])
      else
        w.(clients := w.clients[id := if c.attempt + 1 < MaxAttempts then Trying(c.request, c.attempt + 1) else Failed])
  }

  function Schedule(p: Primitives, w: World, moves: seq<Move>): World {
    if moves == [] then w else Take(p, Schedule(p, w, moves[..|moves| - 1]), moves[|moves| - 1])
  }

  ghost predicate ClientOk(p: Primitives, table: seq<Event>, c: Client) {
    match c
    case Trying(request, attempt) => Hashable(request.payload) && attempt < MaxAttempts
    case HasRead(request, attempt, e) =>
      Hashable(request.payload) && attempt < MaxAttempts && ReadFrom(p, table, e) && Carries(e, request)
    case Succeeded(request, e) => Carries(e, request) && 1 <= e.seqNo <= |table| && table[e.seqNo - 1] == e
    case _ => true
  }

  ghost predicate WorldOk(p: Primitives, w: World) {
    Chained(p, w.table) && forall id :: id in w.clients ==> ClientOk(p, w.table, w.clients[id])
  }

  lemma GrowthKeepsClient(p: Primitives, table: seq<Event>, e: Event, c: Client)
    requires ClientOk(p, table, c)
    ensures ClientOk(p, table + [e], c)
  {
  }

  lemma ClientChangeKeepsWorld(p: Primitives, w: World, id: nat, c: Client)
    requires WorldOk(p, w) && ClientOk(p, w.table, c)
    ensures WorldOk(p, w.(clients := w.clients[id := c]))
  {
  }

  lemma InsertKeepsWorld(p: Primitives, w: World, id: nat, c: Client)
    requires SoundHash(p) && WorldOk(p, w) && c.HasRead? && ClientOk(p, w.table, c) && !Conflicts(w.table, c.event)
    ensures InsertBySeq(w.table, c.event) == w.table + [c.event]
    ensures WorldOk(p, World(w.table + [c.event], w.clients[id := Succeeded(c.request, c.event)]))
  {
    ConflictIffChainGrew(p, w.table, c.event);
    InsertExtendsChain(p, w.table, c.event);
    var clients := w.clients[id := Succeeded(c.request, c.event)];
    forall other | other in clients ensures ClientOk(p, w.table + [c.event], clients[other]) {
      if other != id {
        GrowthKeepsClient(p, w.table, c.event, w.clients[other]);
      }
    }
  }

  lemma TakeKeepsWorld(p: Primitives, w: World, move: Move)
    requires SoundHash(p) && WorldOk(p, w)
    ensures WorldOk(p, Take(p, w, move)) && w.table <= Take(p, w, move).table
  {
    var c := if move.client in w.clients then w.clients[move.client] else Idle;
    assert ClientOk(p, w.table, c);
    match move
    case Begin(id, request) =>
      var valid := ValidPayload(p.text, request.payload);
      if valid {
        ValidIsHashable(p.text, request.payload);
      }
      ClientChangeKeepsWorld(p, w, id, if valid then Trying(request, 0) else Failed);
    case ReadTail(id) =>
      if c.Trying? {
        PreparedIsConsistent(p, c.request, w.table);
        ClientChangeKeepsWorld(p, w, id, HasRead(c.request, c.attempt, Prepare(p, c.request, w.table)));
      }
    case TryInsert(id) =>
      if c.HasRead? {
        if Conflicts(w.table, c.event) {
          ClientChangeKeepsWorld(
            p, w, id, if c.attempt + 1 < MaxAttempts then Trying(c.request, c.attempt + 1) else Failed);
        } else {
          InsertKeepsWorld(p, w, id, c);
        }
      }
  }

  /**
   * Under every interleaving the table verifies after each step and only ever grows at its end, so the
   * chain never forks; every appender that reported success finds its event at the number it was given.
   */
  lemma {:induction false} InterleavingNeverForks(p: Primitives, w: World, moves: seq<Move>)
    requires SoundHash(p) && WorldOk(p, w)
    ensures WorldOk(p, Schedule(p, w, moves)) && w.table <= Schedule(p, w, moves).table
  {
    if moves != [] {
      InterleavingNeverForks(p, w, moves[..|moves| - 1]);
      TakeKeepsWorld(p, Schedule(p, w, moves[..|moves| - 1]), moves[|moves| - 1]);
    }
  }

  /** An attempt fails only if the table grew between its read and its insert, whatever happened in between. */
  lemma FailureNeedsRival(p: Primitives, w: World, id: nat, moves: seq<Move>)
    requires SoundHash(p) && WorldOk(p, w) && id in w.clients && w.clients[id].Trying?
    requires forall m :: m in moves ==> m.client != id
    ensures var before := Schedule(p, Take(p, w, ReadTail(id)), moves);
            var after := Take(p, before, TryInsert(id));
            && after.clients.Keys >= {id}
            && (after.clients[id].Succeeded? <==> before.table == w.table)
            && (after.clients[id].Succeeded? ==> after.table == w.table + [after.clients[id].event])
            && (!after.clients[id].Succeeded? ==> after.table == before.table && |w.table| < |before.table|)
  {
    var read := Take(p, w, ReadTail(id));
    PreparedIsConsistent(p, w.clients[id].request, w.table);
    TakeKeepsWorld(p, w, ReadTail(id));
    InterleavingNeverForks(p, read, moves);
    OthersLeaveClient(p, read, id, moves);
    var before := Schedule(p, read, moves);
    var e := before.clients[id].event;
    assert ClientOk(p, before.table, before.clients[id]);
    ConflictIffChainGrew(p, before.table, e);
    if e.seqNo == |before.table| + 1 {
      InsertExtendsChain(p, before.table, e);
    }
  }

  lemma {:induction false} OthersLeaveClient(p: Primitives, w: World, id: nat, moves: seq<Move>)
    requires id in w.clients && forall m :: m in moves ==> m.client != id
    ensures id in Schedule(p, w, moves).clients && Schedule(p, w, moves).clients[id] == w.clients[id]
  {
    if moves != [] {
      OthersLeaveClient(p, w, id, moves[..|moves| - 1]);
      assert moves[|moves| - 1] in moves;
    }
  }

  // ----- append_event with its retry loop

  predicate AllHashable(requests: seq<Request>) {
    forall r :: r in requests ==> Hashable(r.payload)
  }

  /** The chain after these requests have been appended one after the other. */
  function AppendAll(p: Primitives, table: seq<Event>, requests: seq<Request>): seq<Event> {
    if requests == [] then table
    else
      var before := AppendAll(p, table, requests[..|requests| - 1]);
      before + [Prepare(p, requests[|requests| - 1], before)]
  }

  lemma {:induction false} AppendAllChained(p: Primitives, table: seq<Event>, requests: seq<Request>)
    requires Chained(p, table) && AllHashable(requests)
    ensures Chained(p, AppendAll(p, table, requests)) && table <= AppendAll(p, table, requests)
    ensures |AppendAll(p, table, requests)| == |table| + |requests|
  {
    if requests != [] {
      var n := |requests| - 1;
      AppendAllChained(p, table, requests[..n]);
      var before := AppendAll(p, table, requests[..n]);
      assert requests[n] in requests;
      PreparedIsConsistent(p, requests[n], before);
      InsertExtendsChain(p, before, Prepare(p, requests[n], before));
    }
  }

  lemma {:induction false} AppendAllConcat(p: Primitives, table: seq<Event>, xs: seq<Request>, ys: seq<Request>)
    ensures AppendAll(p, table, xs + ys) == AppendAll(p, AppendAll(p, table, xs), ys)
  {
    if ys == [] {
      assert xs + ys == xs;
    } else {
      assert (xs + ys)[..|xs + ys| - 1] == xs + ys[..|ys| - 1];
      AppendAllConcat(p, table, xs, ys[..|ys| - 1]);
    }
  }

  function Flatten(batches: seq<seq<Request>>): seq<Request> {
    if batches == [] then [] else Flatten(batches[..|batches| - 1]) + batches[|batches| - 1]
  }

  /** The first attempt during which no rival commits. */
  function QuietAttempt(rivals: seq<seq<Request>>): (k: nat)
    ensures k <= |rivals| && (k < |rivals| ==> rivals[k] == [])
    ensures forall i :: 0 <= i < k ==> rivals[i] != []
  {
    if rivals == [] then 0
    else if rivals[0] == [] then 0
    else 1 + QuietAttempt(rivals[1..])
  }

  datatype AppendResult = Appended(event: Event) | InvalidPayload | Exhausted

  class EventTable {
    var table: seq<Event>

    constructor ()
      ensures table == []
    {
      table := [];
    }

    /**
     * `rivals[k]` are the requests other appenders commit between the read and the insert of attempt k.
     * The call succeeds exactly when one of its three attempts meets no rival.
     */
    method AppendEvent(p: Primitives, request: Request, rivals: seq<seq<Request>>) returns (result: AppendResult)
      requires SoundHash(p) && Chained(p, table)
      requires |rivals| == 3
      requires forall k :: 0 <= k < |rivals| ==> AllHashable(rivals[k])
      modifies this
      ensures Chained(p, table) && old(table) <= table
      ensures result.InvalidPayload? <==> !Publishable(p.text, request.payload)
      ensures result.InvalidPayload? ==> table == old(table)
      ensures !result.InvalidPayload? ==> (result.Appended? <==> exists k :: 0 <= k < 3 && rivals[k] == [])
      ensures result.Appended? ==>
                table == AppendAll(p, old(table), Flatten(rivals[..QuietAttempt(rivals)]) + [request])
      ensures result.Exhausted? ==> table == AppendAll(p, old(table), Flatten(rivals))
      ensures result.Appended? ==> Carries(result.event, request) && table != [] && table[|table| - 1] == result.event
    {
      ValidIffPublishable(p.text, request.payload);
      if !ValidPayload(p.text, request.payload) {
        return InvalidPayload;
      }
      ValidIsHashable(p.text, request.payload);
      result := InsertWithRetries(p, request, rivals);
    }

    method InsertWithRetries(p: Primitives, request: Request, rivals: seq<seq<Request>>)
      returns (result: AppendResult)
      requires SoundHash(p) && Chained(p, table) && Hashable(request.payload)
      requires |rivals| == MaxAttempts
      requires forall k :: 0 <= k < |rivals| ==> AllHashable(rivals[k])
      modifies this
      ensures Chained(p, table) && old(table) <= table
      ensures !result.InvalidPayload? && (result.Appended? <==> QuietAttempt(rivals) < MaxAttempts)
      ensures result.Appended? ==>
                table == AppendAll(p, old(table), Flatten(rivals[..QuietAttempt(rivals)]) + [request])
      ensures result.Exhausted? ==> table == AppendAll(p, old(table), Flatten(rivals))
      ensures result.Appended? ==> Carries(result.event, request) && table != [] && table[|table| - 1] == result.event
    {
      ghost var quiet := QuietAttempt(rivals);
      var attempt := 0;
      while attempt < MaxAttempts
        invariant 0 <= attempt <= quiet
        invariant Chained(p, table)
        invariant old(table) <= table
        invariant table == AppendAll(p, old(table), Flatten(rivals[..attempt]))
      {
        var event := TryOnce(p, request, rivals[attempt]);
        if event.Some? {
          assert attempt == quiet;
          AppendAllConcat(p, old(table), Flatten(rivals[..attempt]), [request]);
          return Appended(event.value);
        }
        FlattenOneMore(p, old(table), rivals, attempt);
        attempt := attempt + 1;
      }
      assert rivals[..attempt] == rivals;
      result := Exhausted;
    }

    /** One attempt: read the tail, let the rivals commit, insert unless a unique column is taken. */
    method TryOnce(p: Primitives, request: Request, batch: seq<Request>) returns (event: Option<Event>)
      requires SoundHash(p) && Chained(p, table) && Hashable(request.payload)
      requires AllHashable(batch)
      modifies this
      ensures Chained(p, table) && old(table) <= table
      ensures event.Some? <==> batch == []
      ensures table == AppendAll(p, old(table), if batch == [] then [request] else batch)
      ensures event.Some? ==> Carries(event.value, request) && table != [] && table[|table| - 1] == event.value
    {
      var prepared := Prepare(p, request, table);
      PreparedIsConsistent(p, request, table);
      AppendAllChained(p, table, batch);
      table := AppendAll(p, table, batch);
      GrowthKeepsRead(p, old(table), table, prepared);
      ConflictIffChainGrew(p, table, prepared);
      if Conflicts(table, prepared) {
        return None;
      }
      InsertExtendsChain(p, table, prepared);
      AppendOne(p, table, request);
      table := InsertBySeq(table, prepared);
      return Some(prepared);
    }
  }

  lemma FlattenOneMore(p: Primitives, table: seq<Event>, rivals: seq<seq<Request>>, k: nat)
    requires k < |rivals|
    ensures AppendAll(p, AppendAll(p, table, Flatten(rivals[..k])), rivals[k])
         == AppendAll(p, table, Flatten(rivals[..k + 1]))
  {
    AppendAllConcat(p, table, Flatten(rivals[..k]), rivals[k]);
    assert rivals[..k + 1][..k] == rivals[..k];
  }

  lemma GrowthKeepsRead(p: Primitives, table: seq<Event>, later: seq<Event>, e: Event)
    requires table <= later && ReadFrom(p, table, e)
    ensures ReadFrom(p, later, e)
  {
  }

  lemma AppendOne(p: Primitives, table: seq<Event>, r: Request)
    ensures AppendAll(p, table, [r]) == table + [Prepare(p, r, table)]
  {
    assert [r][..0] == [];
  }
}
