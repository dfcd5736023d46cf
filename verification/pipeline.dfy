/**
 * The request/response protocol end to end: `/ingest` publishes, the worker
 * answers the published message, and the caller's correlation picks the
 * worker's answer out of the response queue. Also the dedup invariant of
 * the `anomalies` table across deliveries.
 */
module Pipeline {
  import opened Wrappers
  import opened Json
  import opened Queue
  import opened Database
  import opened Worker
  import opened App

  /** At most one row per `event_id`. */
  predicate UniqueEventIds(table: seq<Row>)
  {
    forall i, j :: 0 <= i < j < |table| ==> table[i].eventId != table[j].eventId
  }

  /**
   * A valid request whose message the worker answers gets, as its HTTP
   * answer, the first reply the worker sent for it, however many replies
   * of other requests sit before it on the shared response queue (and
   * consuming does not raise); those foreign replies never become the answer.
   */
  lemma {:induction false} CallerReceivesWorkerReply(
    data: Json, publishQueue: string, responseQueue: string, uuid: string,
    c: Collaborators, foreign: seq<Envelope<Reply<Msg>>>)
    requires AllKeysIn(data, RequiredKeys) == Some(true)
    requires forall i :: 0 <= i < |foreign| ==> !Matches(uuid, foreign[i])
    ensures var request := PublishEvent(data, publishQueue, responseQueue, uuid).envelope;
            var answers := Responses(AnomalyDetection(Some(request.body), request.props, c).effects);
            var r := Ingest(data, publishQueue, responseQueue, Publishes(uuid), foreign + answers, false);
            && r.published == Some(request)
            && (|answers| > 0 ==> r.outcome == Answer(200, Forwarded(answers[0].body)))
            && (|answers| == 0 ==> r.outcome == Blocked)
  {
    var request := PublishEvent(data, publishQueue, responseQueue, uuid).envelope;
    var answers := Responses(AnomalyDetection(Some(request.body), request.props, c).effects);
    RepliesEchoCorrelation(Some(request.body), request.props, c);
    var replies := foreign + answers;
    var corr := Correlate(uuid, replies);
    if |answers| > 0 {
      assert replies[|foreign|] == answers[0];
      assert Matches(uuid, replies[|foreign|]);
      assert forall i :: 0 <= i < |foreign| ==> replies[i] == foreign[i];
      assert corr.consumed - 1 == |foreign|;
    } else {
      assert replies == foreign;
    }
  }

  /**
   * The dedup invariant: if the table holds at most one row per event id
   * before a delivery, it still does after that delivery's inserts commit.
   */
  lemma DeliveryKeepsEventIdsUnique(body: Option<Json>, props: Props, c: Collaborators)
    requires UniqueEventIds(c.table)
    ensures UniqueEventIds(Commit(c.table, AnomalyDetection(body, props, c).effects))
  {
    var run := AnomalyDetection(body, props, c);
    var t := Commit(c.table, run.effects);
    InsertsAtMostTheNewEvent(body, props, c);
    if Inserted(run.effects) != [] {
      var row := Inserted(run.effects)[0];
      assert t == c.table + [row];
      forall i, j | 0 <= i < j < |t| ensures t[i].eventId != t[j].eventId {
        if j == |c.table| {
          assert t[j] == row;
          assert t[i] == c.table[i];
        }
      }
    }
  }

  /**
   * Submitting an event again: after a delivery that recorded a new anomaly
   * with score `s`, a second delivery whose `EventID` is the same (whatever
   * its other fields, such as a new `RequestID`) is answered with a single
   * 200 reporting `s`, and the table does not grow. The first delivery's
   * 201 need not have reached the broker: the row is committed before it.
   */
  lemma ResubmissionReportsStoredScore(event: Json, event2: Json, props1: Props, props2: Props, c1: Collaborators, c2: Collaborators)
    requires Subscript(event, "EventID").Some?
    requires Subscript(event2, "EventID") == Subscript(event, "EventID")
    requires !c1.lookupRaises
    requires CheckEventExists(c1.table, event.fields["EventID"]).None?
    requires c1.score > 0.0 && !c1.insertRaises && InsertAnomaly(event, c1.score).Ok?
    requires c2.table == Commit(c1.table, AnomalyDetection(Some(event), props1, c1).effects)
    requires !c2.lookupRaises && SendSucceeds(c2, 0)
    ensures var run2 := AnomalyDetection(Some(event2), props2, c2);
            && run2.effects == [Respond(SendResponse(props2, 200, AlreadyProcessed(event.fields["EventID"], c1.score)))]
            && Commit(c2.table, run2.effects) == c2.table
  {
    var eventId := event.fields["EventID"];
    var row := InsertAnomaly(event, c1.score).value;
    assert Inserted(AnomalyDetection(Some(event), props1, c1).effects) == [row];
    assert c2.table == Append(c1.table, row);
    LookupAfterInsert(c1.table, row, eventId);
    StoredScoreAnswered(event2, props2, c2, c1.score, c2.score, c2.insertRaises);
  }

  /**
   * A delivery inserts at most one row, and only for an event that had no
   * row yet; the row carries that event's id.
   */
  lemma InsertsAtMostTheNewEvent(body: Option<Json>, props: Props, c: Collaborators)
    ensures var rows := Inserted(AnomalyDetection(body, props, c).effects);
            && |rows| <= 1
            && (|rows| == 1 ==>
                  && body.Some? && Subscript(body.value, "EventID").Some?
                  && rows[0].eventId == body.value.fields["EventID"]
                  && CheckEventExists(c.table, body.value.fields["EventID"]).None?)
  {
  }
}
