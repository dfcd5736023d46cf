/**
 * The HTTP side (`/ingest` and its reply callback `on_response`).
 * Flask parses the request body into a JSON value; publishing is
 * `publish_event` with a token supplied as a parameter, or the exception it
 * raised; the blocking consume loop becomes a search over the finite
 * sequence of replies waiting on the response queue.
 */
module App {
  import opened Wrappers
  import opened Json
  import opened Queue

  /** The keys `/ingest` requires, in the order it tests them. */
  const RequiredKeys: seq<string> := ["RequestID", "EventID", "RoleID", "EventType", "EventTimestamp", "AffectedAssets"]

  const InvalidData: string := "Invalid data"
  const PublishFailurePrefix: string := "Failed to publish event: "

  /**
   * `all(key in data for key in keys)`: stops at the first key that is
   * missing; the membership test raising (data is null, a boolean or a
   * number) is `None`, and then it raises on the first key already.
   */
  function AllKeysIn(data: Json, keys: seq<string>): (r: Option<bool>)
    ensures |keys| > 0 ==> (r.None? <==> Contains(data, keys[0]).None?)
    ensures r == Some(true) <==> forall i :: 0 <= i < |keys| ==> Contains(data, keys[i]) == Some(true)
  {
    if |keys| == 0 then Some(true)
    else match Contains(data, keys[0])
      case None => None
      case Some(false) => Some(false)
      case Some(true) =>
        var rest := AllKeysIn(data, keys[1..]);
        assert forall i :: 1 <= i < |keys| ==> keys[i] == keys[1..][i - 1];
        assert Contains(data, keys[0]).Some? ==> forall i :: 0 <= i < |keys| ==> Contains(data, keys[i]).Some?;
        rest
  }

  /**
   * The validation of `/ingest` on a JSON object: it passes exactly when all
   * six keys are present, whatever their values (a key bound to null passes).
   */
  lemma ObjectValidation(fields: map<string, Json>)
    ensures AllKeysIn(JObj(fields), RequiredKeys) == Some(true) <==> forall k :: k in RequiredKeys ==> k in fields
    ensures AllKeysIn(JObj(fields), RequiredKeys) != Some(true) ==> AllKeysIn(JObj(fields), RequiredKeys) == Some(false)
    ensures forall k :: k in RequiredKeys && k in fields && fields[k] == JNull ==>
              AllKeysIn(JObj(fields), RequiredKeys) == AllKeysIn(JObj(fields[k := JStr("x")]), RequiredKeys)
  {
    var data := JObj(fields);
    assert |RequiredKeys| > 0 && Contains(data, RequiredKeys[0]).Some?;
    var r := AllKeysIn(data, RequiredKeys);
    assert r.Some?;
    if r != Some(true) {
      assert !r.value;
      assert r == Some(false);
    }
    if forall k :: k in RequiredKeys ==> k in fields {
      assert forall i :: 0 <= i < |RequiredKeys| ==> Contains(data, RequiredKeys[i]) == Some(true);
    }
    if AllKeysIn(data, RequiredKeys) == Some(true) {
      assert forall i :: 0 <= i < |RequiredKeys| ==> Contains(data, RequiredKeys[i]) == Some(true);
      forall k | k in RequiredKeys ensures k in fields {
        var i :| 0 <= i < |RequiredKeys| && RequiredKeys[i] == k;
        assert Contains(data, RequiredKeys[i]) == Some(true);
      }
    }
    forall k | k in RequiredKeys && k in fields && fields[k] == JNull
      ensures AllKeysIn(JObj(fields), RequiredKeys) == AllKeysIn(JObj(fields[k := JStr("x")]), RequiredKeys)
    {
      SameKeysSameValidation(fields, fields[k := JStr("x")], RequiredKeys);
    }
  }

  /** Validation depends on the key set of an object only. */
  lemma {:induction false} SameKeysSameValidation(f: map<string, Json>, g: map<string, Json>, keys: seq<string>)
    requires f.Keys == g.Keys
    ensures AllKeysIn(JObj(f), keys) == AllKeysIn(JObj(g), keys)
  {
    if |keys| > 0 {
      SameKeysSameValidation(f, g, keys[1..]);
    }
  }

  /** Which reply `on_response` accepts: the one whose correlation id equals the token. */
  predicate Matches<R>(token: string, reply: Envelope<R>)
  {
    reply.props.correlationId == Some(token)
  }

  /**
   * What consuming the response queue yields: the body of the accepted
   * reply, if any, and how many replies were consumed (auto-ack removes
   * every delivered reply, matching or not).
   */
  datatype Correlation<R> = Correlation(response: Option<R>, consumed: nat)

  /**
   * `start_consuming` with `on_response` as callback, over the finite
   * sequence of replies waiting on the queue: replies with another
   * correlation id are consumed and dropped, the first reply carrying the
   * token becomes the response and stops consumption.
   */
  function Correlate<R>(token: string, replies: seq<Envelope<R>>): (c: Correlation<R>)
    ensures c.consumed <= |replies|
    ensures c.response.None? <==> forall i :: 0 <= i < |replies| ==> !Matches(token, replies[i])
    ensures c.response.None? ==> c.consumed == |replies|
    ensures c.response.Some? ==>
              && c.consumed >= 1
              && Matches(token, replies[c.consumed - 1])
              && c.response.value == replies[c.consumed - 1].body
              && forall i :: 0 <= i < c.consumed - 1 ==> !Matches(token, replies[i])
  {
    if |replies| == 0 then Correlation(None, 0)
    else if Matches(token, replies[0]) then Correlation(Some(replies[0].body), 1)
    else
      var rest := Correlate(token, replies[1..]);
      assert forall i :: 1 <= i < |replies| ==> replies[i] == replies[1..][i - 1];
      Correlation(rest.response, rest.consumed + 1)
  }

  /**
   * The consume loop itself: deliver replies one at a time to the
   * callback's test until it accepts one or the queue is exhausted.
   */
  method AwaitResponse<R>(token: string, replies: seq<Envelope<R>>) returns (response: Option<R>, consumed: nat)
    ensures Correlation(response, consumed) == Correlate(token, replies)
  {
    response := None;
    consumed := 0;
    while consumed < |replies| && response.None?
      invariant consumed <= |replies|
      invariant Correlate(token, replies) ==
                  if response.Some? then Correlation(response, consumed)
                  else var rest := Correlate(token, replies[consumed..]);
                       Correlation(rest.response, consumed + rest.consumed)
      decreases |replies| - consumed
    {
      var reply := replies[consumed];
      assert replies[consumed..][1..] == replies[consumed + 1..];
      consumed := consumed + 1;
      if Matches(token, reply) {
        response := Some(reply.body);
      }
    }
  }

  /** How the request attempt to publish went: the token it minted, or the exception text. */
  datatype PublishAttempt = Publishes(uuid: string) | PublishRaises(reason: string)

  /** The body `/ingest` answers with. */
  datatype HttpBody<R> = ErrorBody(error: string) | Forwarded(response: R)

  /**
   * How `/ingest` ends: an HTTP answer, a request that blocks forever in
   * `start_consuming` because no matching reply arrives, or an unhandled
   * exception (Flask answers 500): a membership test that raises, or a
   * broker error from `basic_consume` or `start_consuming`, neither of
   * which is inside a `try`.
   */
  datatype HttpOutcome<R> = Answer(status: int, body: HttpBody<R>) | Blocked | Unhandled

  /** What `/ingest` published (if anything) and how it ended. */
  datatype IngestResult<R> = IngestResult(published: Option<Envelope<Json>>, outcome: HttpOutcome<R>)

  /**
   * `/ingest` for one request: validate the keys, publish the event with a
   * fresh token, then wait for the reply carrying that token and forward
   * its body. `consumeRaises` says whether `basic_consume` or
   * `start_consuming` raises before a reply is accepted.
   */
  function Ingest<R>(data: Json, publishQueue: string, responseQueue: string,
                     attempt: PublishAttempt, replies: seq<Envelope<R>>, consumeRaises: bool): (r: IngestResult<R>)
    ensures AllKeysIn(data, RequiredKeys) != Some(true) ==> r.published.None?
    ensures AllKeysIn(data, RequiredKeys) == Some(false) ==> r.outcome == Answer(400, ErrorBody(InvalidData))
    ensures AllKeysIn(data, RequiredKeys).None? ==> r.outcome.Unhandled?
    ensures r.outcome.Answer? && r.outcome.status == 500 ==>
              && attempt.PublishRaises?
              && r.outcome.body == ErrorBody(PublishFailurePrefix + attempt.reason)
              && r.published.None?
    ensures AllKeysIn(data, RequiredKeys) == Some(true) && attempt.PublishRaises? ==>
              r.outcome == Answer(500, ErrorBody(PublishFailurePrefix + attempt.reason))
    ensures r.published.Some? && consumeRaises ==> r.outcome.Unhandled?
    ensures r.published.Some? && !consumeRaises && Correlate(attempt.uuid, replies).response.Some? ==>
              r.outcome == Answer(200, Forwarded(Correlate(attempt.uuid, replies).response.value))
    ensures r.published.Some? <==> AllKeysIn(data, RequiredKeys) == Some(true) && attempt.Publishes?
    ensures r.published.Some? ==>
              && r.published.value.exchange == DefaultExchange
              && r.published.value.routingKey == Some(publishQueue)
              && r.published.value.props == Props(Some(responseQueue), Some(attempt.uuid))
              && r.published.value.body == data
    ensures r.outcome.Blocked? <==> r.published.Some? && !consumeRaises && Correlate(attempt.uuid, replies).response.None?
    ensures r.outcome.Answer? && r.outcome.status == 200 ==>
              && r.published.Some?
              && !consumeRaises
              && Correlate(attempt.uuid, replies).response.Some?
              && r.outcome.body == Forwarded(Correlate(attempt.uuid, replies).response.value)
  {
    match AllKeysIn(data, RequiredKeys)
    case None => IngestResult(None, Unhandled)
    case Some(false) => IngestResult(None, Answer(400, ErrorBody(InvalidData)))
    case Some(true) =>
      match attempt
      case PublishRaises(reason) => IngestResult(None, Answer(500, ErrorBody(PublishFailurePrefix + reason)))
      case Publishes(uuid) =>
        var p := PublishEvent(data, publishQueue, responseQueue, uuid);
        if consumeRaises then IngestResult(Some(p.envelope), Unhandled)
        else
          match Correlate(p.token, replies).response
          case None => IngestResult(Some(p.envelope), Blocked)
          case Some(body) => IngestResult(Some(p.envelope), Answer(200, Forwarded(body)))
  }

  /**
   * For a published request whose consumption does not raise, the answer
   * is a 200 with the body of the first reply carrying the request's token,
   * and the request blocks exactly when no reply carries it; a raising
   * consumption is unhandled.
   */
  lemma IngestForwardsFirstMatch<R>(data: Json, publishQueue: string, responseQueue: string,
                                    uuid: string, replies: seq<Envelope<R>>)
    requires AllKeysIn(data, RequiredKeys) == Some(true)
    ensures Ingest(data, publishQueue, responseQueue, Publishes(uuid), replies, true).outcome.Unhandled?
    ensures var r := Ingest(data, publishQueue, responseQueue, Publishes(uuid), replies, false);
            && (r.outcome.Blocked? <==> forall i :: 0 <= i < |replies| ==> !Matches(uuid, replies[i]))
            && forall i ::
                 (0 <= i < |replies| && Matches(uuid, replies[i]) &&
                  forall j :: 0 <= j < i ==> !Matches(uuid, replies[j])) ==>
                 r.outcome == Answer(200, Forwarded(replies[i].body))
  {
    forall i | 0 <= i < |replies| && Matches(uuid, replies[i]) && (forall j :: 0 <= j < i ==> !Matches(uuid, replies[j]))
      ensures Correlate(uuid, replies) == Correlation(Some(replies[i].body), i + 1)
    {
      CorrelateFindsFirst(uuid, replies, i);
    }
  }

  /** The reply at the first matching position is the one accepted, after consuming all before it. */
  lemma {:induction false} CorrelateFindsFirst<R>(token: string, replies: seq<Envelope<R>>, i: nat)
    requires i < |replies| && Matches(token, replies[i])
    requires forall j :: 0 <= j < i ==> !Matches(token, replies[j])
    ensures Correlate(token, replies) == Correlation(Some(replies[i].body), i + 1)
  {
    if i > 0 {
      assert !Matches(token, replies[0]);
      assert forall j :: 0 <= j < i - 1 ==> replies[1..][j] == replies[j + 1];
      CorrelateFindsFirst(token, replies[1..], i - 1);
    }
  }
}
