/**
 * The per-message callback of the anomaly worker (`anomaly_detection`).
 * Every I/O result is a parameter, and the callback is a pure function from
 * the decoded body, the incoming properties and those results to the
 * ordered list of effects it performs.
 */
module Worker {
  import opened Wrappers
  import opened Json
  import opened Queue
  import opened Database

  /** The response texts, as constructors instead of formatted strings. */
  datatype Msg =
    | AlreadyProcessed(eventId: Json, score: real)   // "Event … already processed with anomaly score …."
    | InsertFailed(cause: InsertError)               // "Failed to insert event into the database: …"
    | AnomalyDetected(score: real, eventId: Json)    // "Anomaly detected: … for event …"
    | NoAnomaly(eventId: Json)                       // "No anomaly detected for event …"

  /** What one callback does, in order. */
  datatype Effect =
    | Insert(row: Row)                        // a committed INSERT into `anomalies`
    | Respond(reply: Envelope<Reply<Msg>>)    // a `send_response` that reached the broker
    | Nack(requeue: bool)                     // a `basic_nack` call (the delivery was already auto-acknowledged)

  /**
   * The effects of one callback, and whether an exception escaped the
   * callback (raised outside its `try`, so neither answered nor nacked).
   */
  datatype Run = Run(effects: seq<Effect>, escaped: bool)

  /**
   * The results of the callback's collaborators for one message:
   * the table `check_event_exists` reads, whether that query raises, the
   * value `random.random()` returned, whether the INSERT or its commit
   * raises, and which `send_response` call (counting from 0) raises first,
   * if any.
   */
  datatype Collaborators = Collaborators(
    table: seq<Row>,
    lookupRaises: bool,
    score: real,
    insertRaises: bool,
    failingSend: Option<nat>)

  /** Whether send number `k` of this callback reaches the broker. */
  predicate SendSucceeds(c: Collaborators, k: nat)
  {
    c.failingSend.None? || k < c.failingSend.value
  }

  /**
   * Send number `k`, then continue with `next`; a send that raises skips the
   * rest of the `try` and lands in the handler, which calls `basic_nack`
   * with `requeue=True`.
   */
  function Send(props: Props, c: Collaborators, k: nat, statusCode: int, msg: Msg, next: seq<Effect>): (effects: seq<Effect>)
    ensures |effects| >= 1
    ensures effects[0].Nack? <==> !SendSucceeds(c, k)
    ensures effects[0].Nack? ==> effects == [Nack(true)]
    ensures effects[0].Respond? ==>
              && effects[0].reply.routingKey == props.replyTo
              && effects[0].reply.props.correlationId == props.correlationId
              && effects[0].reply.body == Reply(statusCode, msg)
              && effects[1..] == next
  {
    if SendSucceeds(c, k) then [Respond(SendResponse(props, statusCode, msg))] + next else [Nack(true)]
  }

  /** The outcome of `insert_anomaly`: the row it committed, or what it raised. */
  function TryInsert(event: Json, c: Collaborators): (r: Result<Row, InsertError>)
    ensures r.Ok? <==> InsertAnomaly(event, c.score).Ok? && !c.insertRaises
    ensures r.Ok? ==> r == InsertAnomaly(event, c.score)
  {
    match InsertAnomaly(event, c.score)
    case Ok(row) => if c.insertRaises then Err(DatabaseError) else Ok(row)
    case Err(e) => Err(e)
  }

  /**
   * The body of the callback's `try`: dedup lookup, then either the stored
   * score (200), or scoring followed by insert and 201 (with a 500 sent
   * first when the insert raised), or 204 when the score is not positive.
   * Any exception raised in the lookup or a send ends in a nack. With
   * `corrected` the insert-failure handler stops after the 500 instead of
   * falling through to the 201; every other path is the one written.
   */
  function Process(event: Json, eventId: Json, props: Props, c: Collaborators, corrected: bool): seq<Effect>
  {
    if c.lookupRaises then [Nack(true)]
    else match CheckEventExists(c.table, eventId)
      case Some(stored) => Send(props, c, 0, 200, AlreadyProcessed(eventId, stored), [])
      case None =>
        if c.score > 0.0 then
          match TryInsert(event, c)
          case Ok(row) => [Insert(row)] + Send(props, c, 0, 201, AnomalyDetected(c.score, eventId), [])
          case Err(e) =>
            Send(props, c, 0, 500, InsertFailed(e),
                 if corrected then [] else Send(props, c, 1, 201, AnomalyDetected(c.score, eventId), []))
        else Send(props, c, 0, 204, NoAnomaly(eventId), [])
  }

  /**
   * The callback for one delivery. `body` is the result of `json.loads`
   * (`None` when decoding raised). Decoding and reading `EventID` happen
   * before the `try`, so their failures escape.
   */
  function Callback(body: Option<Json>, props: Props, c: Collaborators, corrected: bool): Run
  {
    match body
    case None => Run([], true)
    case Some(event) =>
      match Subscript(event, "EventID")
      case None => Run([], true)
      case Some(eventId) => Run(Process(event, eventId, props, c, corrected), false)
  }

  /** `anomaly_detection` as written. */
  function AnomalyDetection(body: Option<Json>, props: Props, c: Collaborators): Run
  {
    Callback(body, props, c, false)
  }

  /** The replies an effect list sent, in order. */
  function Responses(effects: seq<Effect>): (replies: seq<Envelope<Reply<Msg>>>)
    ensures forall i :: 0 <= i < |replies| ==> Respond(replies[i]) in effects
    ensures (forall i :: 0 <= i < |effects| ==> !effects[i].Respond?) ==> replies == []
  {
    if |effects| == 0 then []
    else (if effects[0].Respond? then [effects[0].reply] else []) + Responses(effects[1..])
  }

  /** The rows an effect list inserted, in order. */
  function Inserted(effects: seq<Effect>): (rows: seq<Row>)
    ensures forall i :: 0 <= i < |rows| ==> Insert(rows[i]) in effects
    ensures (forall i :: 0 <= i < |effects| ==> !effects[i].Insert?) ==> rows == []
  {
    if |effects| == 0 then []
    else (if effects[0].Insert? then [effects[0].row] else []) + Inserted(effects[1..])
  }

  /**
   * `Responses` keeps every reply and its order: it distributes over
   * concatenation.
   */
  lemma {:induction false} ResponsesConcat(a: seq<Effect>, b: seq<Effect>)
    ensures Responses(a + b) == Responses(a) + Responses(b)
  {
    if |a| == 0 {
      assert a + b == b;
    } else {
      var rest := a[1..];
      assert a == [a[0]] + rest;
      assert a + b == [a[0]] + (rest + b);
      ResponsesCons(a[0], rest);
      ResponsesCons(a[0], rest + b);
      ResponsesConcat(rest, b);
    }
  }

  /** One effect in front of a list adds its reply, if it has one, in front. */
  lemma ResponsesCons(e: Effect, rest: seq<Effect>)
    ensures Responses([e] + rest) == (if e.Respond? then [e.reply] else []) + Responses(rest)
  {
    assert ([e] + rest)[1..] == rest;
  }

  /**
   * `Inserted` keeps every row and its order: it distributes over
   * concatenation.
   */
  lemma {:induction false} InsertedConcat(a: seq<Effect>, b: seq<Effect>)
    ensures Inserted(a + b) == Inserted(a) + Inserted(b)
  {
    if |a| == 0 {
      assert a + b == b;
    } else {
      var rest := a[1..];
      assert a == [a[0]] + rest;
      assert a + b == [a[0]] + (rest + b);
      InsertedCons(a[0], rest);
      InsertedCons(a[0], rest + b);
      InsertedConcat(rest, b);
    }
  }

  /** One effect in front of a list adds its row, if it has one, in front. */
  lemma InsertedCons(e: Effect, rest: seq<Effect>)
    ensures Inserted([e] + rest) == (if e.Insert? then [e.row] else []) + Inserted(rest)
  {
    assert ([e] + rest)[1..] == rest;
  }

  /** The table after the inserts of an effect list are committed. */
  function Commit(table: seq<Row>, effects: seq<Effect>): seq<Row>
  {
    table + Inserted(effects)
  }

  /** Whether an effect list nacks the delivery. */
  predicate Nacked(effects: seq<Effect>)
  {
    exists i :: 0 <= i < |effects| && effects[i].Nack?
  }

  /**
   * Decoding the body and reading `EventID` happen outside the `try`: a body
   * that does not decode, or whose value has no `EventID` entry, escapes the
   * callback with no effect at all, and nothing else escapes.
   */
  lemma EscapesOutsideTry(body: Option<Json>, props: Props, c: Collaborators)
    ensures var run := AnomalyDetection(body, props, c);
            && (run.escaped <==> body.None? || Subscript(body.value, "EventID").None?)
            && (run.escaped ==> run.effects == [])
  {
  }

  /**
   * The dedup key is the message's `EventID`: two tables on which
   * `check_event_exists` agrees for that key lead to the same run.
   */
  lemma DedupKeyIsEventId(event: Json, props: Props, c: Collaborators, other: seq<Row>)
    requires Subscript(event, "EventID").Some?
    requires CheckEventExists(other, event.fields["EventID"]) == CheckEventExists(c.table, event.fields["EventID"])
    ensures AnomalyDetection(Some(event), props, c.(table := other)) == AnomalyDetection(Some(event), props, c)
  {
  }

  /**
   * A stored score is answered with exactly one 200 that reports it; nothing
   * is inserted and the score is never computed (the run is the same for
   * every scorer result and insert outcome).
   */
  lemma StoredScoreAnswered(event: Json, props: Props, c: Collaborators, stored: real, anyScore: real, anyInsert: bool)
    requires Subscript(event, "EventID").Some?
    requires !c.lookupRaises && SendSucceeds(c, 0)
    requires CheckEventExists(c.table, event.fields["EventID"]) == Some(stored)
    ensures var run := AnomalyDetection(Some(event), props, c);
            && run.effects == [Respond(SendResponse(props, 200, AlreadyProcessed(event.fields["EventID"], stored)))]
            && !run.escaped
            && Inserted(run.effects) == []
            && run == AnomalyDetection(Some(event), props, c.(score := anyScore, insertRaises := anyInsert))
  {
  }

  /**
   * With no stored score, a positive score and a successful insert, the
   * callback inserts the row built from the event and then sends exactly one
   * 201 reporting score and event.
   */
  lemma NewAnomalyRecorded(event: Json, props: Props, c: Collaborators)
    requires Subscript(event, "EventID").Some?
    requires !c.lookupRaises && SendSucceeds(c, 0)
    requires CheckEventExists(c.table, event.fields["EventID"]).None?
    requires c.score > 0.0 && !c.insertRaises && InsertAnomaly(event, c.score).Ok?
    ensures var run := AnomalyDetection(Some(event), props, c);
            && run.effects == [Insert(InsertAnomaly(event, c.score).value),
                               Respond(SendResponse(props, 201, AnomalyDetected(c.score, event.fields["EventID"])))]
            && |Responses(run.effects)| == 1
            && Inserted(run.effects) == [InsertAnomaly(event, c.score).value]
  {
  }

  /**
   * As written, an insert that raises is answered twice: a 500 naming the
   * failure and then, falling through, the 201. Nothing is inserted and the
   * delivery is not nacked.
   */
  lemma InsertFailureAnsweredTwice(event: Json, props: Props, c: Collaborators)
    requires Subscript(event, "EventID").Some?
    requires !c.lookupRaises && SendSucceeds(c, 0) && SendSucceeds(c, 1)
    requires CheckEventExists(c.table, event.fields["EventID"]).None?
    requires c.score > 0.0 && TryInsert(event, c).Err?
    ensures var run := AnomalyDetection(Some(event), props, c);
            && run.effects == [Respond(SendResponse(props, 500, InsertFailed(TryInsert(event, c).error))),
                               Respond(SendResponse(props, 201, AnomalyDetected(c.score, event.fields["EventID"])))]
            && |Responses(run.effects)| == 2
            && Inserted(run.effects) == []
            && !Nacked(run.effects)
  {
  }

  /**
   * A concrete delivery that is answered twice as written: the message
   * names `EventID` but no `RequestID`, so `insert_anomaly` raises KeyError;
   * the caller gets a 500 and then a 201 for the same correlation id, while
   * the corrected callback sends only the 500.
   */
  lemma MissingRequestIdAnsweredTwice(props: Props)
    ensures var event := JObj(map["EventID" := JStr("e1")]);
            var c := Collaborators([], false, 0.5, false, None);
            var written := Responses(AnomalyDetection(Some(event), props, c).effects);
            var corrected := Responses(AnomalyDetectionCorrected(Some(event), props, c).effects);
            && |written| == 2
            && written[0].body == Reply(500, InsertFailed(MissingField("RequestID")))
            && written[1].body == Reply(201, AnomalyDetected(0.5, JStr("e1")))
            && written[0].props.correlationId == written[1].props.correlationId
            && corrected == [written[0]]
  {
  }

  /**
   * As written, when the insert raised and the 500 went out but the 201
   * that follows raises, the handler nacks: the caller has its 500 and the
   * handler also calls `basic_nack` with `requeue=True` on a delivery that
   * was already auto-acknowledged.
   */
  lemma InsertFailureThenSendFailureNacks(event: Json, props: Props, c: Collaborators)
    requires Subscript(event, "EventID").Some?
    requires !c.lookupRaises && SendSucceeds(c, 0) && !SendSucceeds(c, 1)
    requires CheckEventExists(c.table, event.fields["EventID"]).None?
    requires c.score > 0.0 && TryInsert(event, c).Err?
    ensures var run := AnomalyDetection(Some(event), props, c);
            && run.effects == [Respond(SendResponse(props, 500, InsertFailed(TryInsert(event, c).error))), Nack(true)]
            && |Responses(run.effects)| == 1
            && Nacked(run.effects)
            && Inserted(run.effects) == []
  {
    var run := AnomalyDetection(Some(event), props, c);
    assert run.effects[1] == Nack(true);
    assert run.effects[1..][1..] == [];
  }

  /** A score that is not positive is answered with exactly one 204 and nothing is inserted. */
  lemma NoAnomalyAnswered(event: Json, props: Props, c: Collaborators)
    requires Subscript(event, "EventID").Some?
    requires !c.lookupRaises && SendSucceeds(c, 0)
    requires CheckEventExists(c.table, event.fields["EventID"]).None?
    requires c.score <= 0.0
    ensures var run := AnomalyDetection(Some(event), props, c);
            && run.effects == [Respond(SendResponse(props, 204, NoAnomaly(event.fields["EventID"])))]
            && |Responses(run.effects)| == 1
            && Inserted(run.effects) == []
  {
  }

  /**
   * The nack path is reached exactly when the lookup or a send raises: a
   * raising lookup nacks with nothing else done; when the lookup and every
   * send succeed there is no nack, whatever the insert does; a nack always
   * passes `requeue=True` and is the last effect.
   */
  lemma NackOnlyOnLookupOrSendFailure(body: Option<Json>, props: Props, c: Collaborators)
    ensures var run := AnomalyDetection(body, props, c);
            && (!run.escaped && c.lookupRaises ==> run.effects == [Nack(true)])
            && (!run.escaped && !SendSucceeds(c, 0) ==> Nacked(run.effects))
            && (body.Some? && Subscript(body.value, "EventID").Some? && !c.lookupRaises
                && CheckEventExists(c.table, body.value.fields["EventID"]).None?
                && c.score > 0.0 && TryInsert(body.value, c).Err?
                && SendSucceeds(c, 0) && !SendSucceeds(c, 1) ==>
                  run.effects == [Respond(SendResponse(props, 500, InsertFailed(TryInsert(body.value, c).error))), Nack(true)])
            && (!c.lookupRaises && SendSucceeds(c, 0) && SendSucceeds(c, 1) ==> !Nacked(run.effects))
            && (forall i :: 0 <= i < |run.effects| && run.effects[i].Nack? ==>
                  run.effects[i] == Nack(true) && i == |run.effects| - 1)
  {
    var run := AnomalyDetection(body, props, c);
    if !run.escaped && (c.lookupRaises || !SendSucceeds(c, 0)) {
      var last := |run.effects| - 1;
      assert run.effects[last] == Nack(true);
      assert Nacked(run.effects);
    }
  }

  /**
   * Every reply the callback sends goes to the reply address of the
   * incoming message and carries its correlation id unchanged; at most two
   * replies are sent.
   */
  lemma RepliesEchoCorrelation(body: Option<Json>, props: Props, c: Collaborators)
    ensures var replies := Responses(AnomalyDetection(body, props, c).effects);
            && |replies| <= 2
            && forall i :: 0 <= i < |replies| ==>
                 replies[i].routingKey == props.replyTo && replies[i].props.correlationId == props.correlationId
  {
  }

  /**
   * `anomaly_detection` with the evident intent restored: after the 500 for
   * a failed insert the callback stops, instead of also sending the 201.
   */
  function AnomalyDetectionCorrected(body: Option<Json>, props: Props, c: Collaborators): Run
  {
    Callback(body, props, c, true)
  }

  /**
   * With the correction, every delivery handled inside the `try` gets
   * exactly one reply or is nacked, never both and never two replies; when
   * the lookup and the first send succeed it is exactly one reply, a 500
   * for a failed insert.
   */
  lemma CorrectedAnswersOnce(body: Option<Json>, props: Props, c: Collaborators)
    ensures var run := AnomalyDetectionCorrected(body, props, c);
            && (!run.escaped ==>
                  (|Responses(run.effects)| == 1 && !Nacked(run.effects)) ||
                  (|Responses(run.effects)| == 0 && Nacked(run.effects)))
            && (!run.escaped && !c.lookupRaises && SendSucceeds(c, 0) ==> |Responses(run.effects)| == 1)
            && (body.Some? && Subscript(body.value, "EventID").Some? && !c.lookupRaises && SendSucceeds(c, 0)
                && CheckEventExists(c.table, body.value.fields["EventID"]).None?
                && c.score > 0.0 && TryInsert(body.value, c).Err? ==>
                  Responses(run.effects) == [SendResponse(props, 500, InsertFailed(TryInsert(body.value, c).error))])
  {
  }

  /** The correction changes nothing outside the insert-failure path. */
  lemma CorrectionOnlyTouchesInsertFailure(body: Option<Json>, props: Props, c: Collaborators)
    requires !(body.Some? && Subscript(body.value, "EventID").Some? && !c.lookupRaises
               && CheckEventExists(c.table, body.value.fields["EventID"]).None?
               && c.score > 0.0 && TryInsert(body.value, c).Err?)
    ensures AnomalyDetectionCorrected(body, props, c) == AnomalyDetection(body, props, c)
  {
  }
}
