# Anomaly detection request/response core, in Dafny

This project models the decision logic of a small anomaly-detection service.
An HTTP endpoint (`/ingest`) validates an event and publishes it to a work
queue with a fresh correlation id and a reply address. It then consumes the
response queue until the reply carrying its own id arrives. A worker consumes
the work queue. For each message it looks the event up in the `anomalies`
table, scores it, inserts a row, and answers on the reply queue with a status
code. When the lookup or a send raises, it calls `basic_nack` with `requeue=True`;
the delivery was already auto-acknowledged, so it is not redelivered.

Every I/O result is turned into a parameter, and every operation is a pure
function:

- `json.loads` becomes an `Option<Json>` (decode failure is `None`).
- The stored-score lookup reads a table given as a `seq<Row>`.
- `random.random()` becomes a `real`.
- Insert failure and send failure are flags in a `Collaborators` record.
- `uuid.uuid4()` becomes a string.
- A publish that raises becomes `PublishRaises(reason)`.
- The blocking consume loop becomes a search over a finite sequence of replies.

Files and modules:

- `json.dfy` (`Json`): decoded JSON values, plus Python's `d[key]` and `key in d`.
- `queue.dfy` (`Queue`): message envelopes, `publish_event` and `send_response`.
- `database.dfy` (`Database`): rows, the `AffectedAssets` normaliser, `insert_anomaly` and `check_event_exists`.
- `worker.dfy` (`Worker`): the per-message callback `anomaly_detection`, as an ordered list of effects (`Insert`, `Respond`, `Nack`). It also holds the corrected variant described under Findings.
- `app.dfy` (`App`): `/ingest` validation, the `on_response` correlation filter, and the request outcome.
- `pipeline.dfy` (`Pipeline`): end-to-end properties. These cover the caller receiving the worker's reply, and the one-row-per-event invariant across deliveries processed one at a time.

Behaviour of the code that the model keeps as written:

- A body that does not decode, or has no `EventID`, raises before the `try` (anomaly_worker/worker.py:14-15). It is neither answered nor nacked. The consumer acknowledges on delivery (`auto_ack=True`), so the message is not redelivered, and the exception leaves `start_consuming`, which only catches `KeyboardInterrupt` (anomaly_worker/worker.py:57-62).
- The scoring branch tests `score > 0` (anomaly_worker/worker.py:29). There is no configurable threshold.
- A failed insert is answered twice, a 500 and then a 201 (see Findings).
- The caller waits with no timeout (app/app.py:53). A request whose reply never arrives is the `Blocked` outcome.

## Model

| member | source | states |
|---|---|---|
| Queue.PublishEvent | utils/queue/queue_utils.py:46-54 | the message goes to the work queue on the default exchange `''`; its reply address is the response queue; its correlation id is the token that is returned (the uuid); its body is the event unchanged |
| Queue.SendResponse | utils/queue/queue_utils.py:58-65 | the reply is routed to the incoming message's `reply_to` and copies its correlation id unchanged; its body holds exactly the given status code and message |
| Queue.ReplyAnswersRequest | utils/queue/queue_utils.py:46-65 | a reply built from a published request's properties goes to that request's response queue and carries the token `publish_event` returned |
| Database.NormaliseAssets | utils/database/database_utils.py:39-43 | absent, null or `''` assets are stored as `'{}'`; a list is accepted exactly when every item is a string, and otherwise the join raises; any other value passes through unchanged |
| Database.ListAssetsStored | utils/database/database_utils.py:42-43 | a list of strings is stored as `'{'`, the comma-join and `'}'`; the empty list gives `'{}'`; the ids of a non-empty list of comma-free ids can be split back out of the text |
| Database.SplitJoin | utils/database/database_utils.py:43 | splitting the comma-join of a non-empty list of comma-free strings on commas gives the list back |
| Database.InsertAnomaly | utils/database/database_utils.py:33-49 | a row is built exactly when the event is a dictionary holding the five directly read fields and its assets normalise; the row copies RequestID, EventID, RoleID, EventType and EventTimestamp unchanged, and stores the normalised assets and the given score; a dictionary lacking all five fields fails on RequestID first |
| Database.CheckEventExists | utils/database/database_utils.py:23-29 | the result is `None` exactly when no row has the event id; otherwise it is the score of the first row with that id |
| Database.LookupAfterInsert | utils/database/database_utils.py:23-51 | after a row is inserted, an event that already had a row keeps its first score, and an event that had none finds the new row's score; so a lookup for the inserted event is never `None` |
| Worker.ResponsesConcat | anomaly_worker/worker.py:24-43 | the replies of a run are those of its effects, in order: the reply list of a concatenation is the concatenation of the reply lists |
| Worker.ResponsesCons | anomaly_worker/worker.py:24-43 | an effect put in front of a list puts its reply in front of the list's replies exactly when it is a `Respond`; an insert or a nack adds none |
| Worker.InsertedConcat | anomaly_worker/worker.py:30-34 | the inserted rows of a run are those of its effects, in order: the row list of a concatenation is the concatenation of the row lists |
| Worker.InsertedCons | anomaly_worker/worker.py:30-34 | an effect put in front of a list puts its row in front of the list's rows exactly when it is an `Insert`; a reply or a nack adds none |
| Worker.TryInsert | anomaly_worker/worker.py:30-34 | the insert commits exactly when `insert_anomaly` builds a row and the database does not raise; the committed row is the one built |
| Worker.EscapesOutsideTry | anomaly_worker/worker.py:13-17 | a decode failure or a missing `EventID` makes the callback escape with no effects (no response, no nack), and nothing else escapes |
| Worker.DedupKeyIsEventId | anomaly_worker/worker.py:15-19 | the callback depends on the table only through the lookup of the message's `EventID` |
| Worker.StoredScoreAnswered | anomaly_worker/worker.py:19-25 | a stored score is answered with exactly one `Respond(200)` that reports it; nothing is inserted, and the run does not depend on the score or on the insert outcome |
| Worker.NewAnomalyRecorded | anomaly_worker/worker.py:27-38 | with no stored score, a positive score and a successful insert, the effects are the insert of the built row and then exactly one `Respond(201)` |
| Worker.InsertFailureAnsweredTwice | anomaly_worker/worker.py:29-38 | as written, a failed insert gives `Respond(500)` followed by `Respond(201)`: two replies, no insert, no nack |
| Worker.MissingRequestIdAnsweredTwice | anomaly_worker/worker.py:29-38 | concrete case: a message with `EventID` but no `RequestID` gets a 500 and then a 201 with the same correlation id, while the corrected callback sends only the 500 |
| Worker.InsertFailureThenSendFailureNacks | anomaly_worker/worker.py:30-38 | after a failed insert, when the 500 is sent but the 201 send raises, the effects are exactly `Respond(500)` then `Nack(true)`: one reply, a `basic_nack` call with `requeue=True`, no insert |
| Worker.NoAnomalyAnswered | anomaly_worker/worker.py:39-43 | a score that is not positive gives exactly one `Respond(204)` and no insert |
| Worker.NackOnlyOnLookupOrSendFailure | anomaly_worker/worker.py:17-47 | a lookup that raises nacks and does nothing else; a first send that raises ends in a nack; after a failed insert, a 201 send that raises leaves the effects `Respond(500)` then `Nack(true)`; with the lookup and all sends succeeding there is no nack, whatever the insert does; a nack always passes `requeue=True` and is the last effect |
| Worker.RepliesEchoCorrelation | anomaly_worker/worker.py:24-43 | every reply goes to the message's reply address with its correlation id, and at most two replies are sent |
| Worker.CorrectedAnswersOnce | anomaly_worker/worker.py:29-38 | with a `return` after the 500, each delivery handled inside the `try` gets exactly one reply or a nack, never both; a failed insert is answered with the 500 alone |
| Worker.CorrectionOnlyTouchesInsertFailure | anomaly_worker/worker.py:17-47 | the corrected callback agrees with the written one on every path except a failed insert |
| App.AllKeysIn | app/app.py:39-41 | the `all(key in data …)` test passes exactly when every required key tests present; it raises exactly when the first membership test raises (null, boolean or number data) |
| App.ObjectValidation | app/app.py:39-42 | on a JSON object, validation passes exactly when all six keys are present and otherwise fails without raising; a key bound to null counts as present |
| App.SameKeysSameValidation | app/app.py:41 | validation looks only at which keys an object has, never at their values |
| App.Correlate | app/app.py:26-31 | the response is the body of the first reply whose correlation id equals the token; every reply before it has another id and is consumed; there is no response exactly when no reply matches, and then all replies are consumed |
| App.CorrelateFindsFirst | app/app.py:26-31 | when reply `i` is the first to carry the token, it is the one accepted and exactly the `i + 1` replies up to it are consumed |
| App.AwaitResponse | app/app.py:51-53 | the consume loop, which delivers replies one at a time until the callback accepts one, yields the same response and consumed count as `Correlate` |
| App.Ingest | app/app.py:36-54 | invalid data gets 400 `Invalid data` and publishes nothing; a raising membership test is unhandled; a failed publish gets 500 with the `Failed to publish event: ` prefix; otherwise the event is published with the minted token; a raising `basic_consume`/`start_consuming` is unhandled, and else the answer is 200 with the first reply bearing that token, or the request blocks when no such reply exists |
| App.IngestForwardsFirstMatch | app/app.py:28-54 | for valid data and a successful publish, a raising consumption is unhandled; otherwise the answer is a 200 with the body of the first reply carrying the minted token, and the request blocks exactly when no reply carries it |
| Pipeline.CallerReceivesWorkerReply | app/app.py:44-54 | a valid request whose publish and consumption do not raise gets as its answer the first reply the worker sent for the published message, whatever replies of other requests come before it; if the worker sent none, the request blocks |
| Pipeline.InsertsAtMostTheNewEvent | anomaly_worker/worker.py:19-38 | a delivery inserts at most one row, only for an event with no stored row, and that row carries the message's `EventID` |
| Pipeline.DeliveryKeepsEventIdsUnique | anomaly_worker/worker.py:17-38 | if the table has at most one row per event id before a delivery, it still does after the delivery's insert |
| Pipeline.ResubmissionReportsStoredScore | anomaly_worker/worker.py:19-38 | after a delivery inserted a row with score `s` (whether or not its 201 then reached the broker), a second delivery whose `EventID` is the same, whatever its other fields, gets a single 200 reporting `s`, and the table does not grow |

## Left out

- `connect_queue` and `connect_channel` (utils/queue/queue_utils.py:9-36) are left out. They are blocking network loops with unbounded retry and a sleep.
- pika, SQLAlchemy, Flask and `json` internals are abstract. A publish is the envelope handed to the broker. Bodies carry the value rather than its serialisation, so `json.loads(json.dumps(x)) == x` is taken as given.
- The float formatting of response texts is not modelled. Messages are constructors that carry the event id, the score or the insert error.
- The module globals `current_correlation_id`, `response` and the shared channel (app/app.py:17-22,27-29,44) are not modelled. Each request is modelled alone, so races between concurrent requests are out of scope. So is the extra consumer that every request registers on the shared channel.
- Real-time blocking in `start_consuming` is a search over the finite sequence of replies present. "No match" is the `Blocked` outcome, not a hang.
- `main()` consumer wiring (anomaly_worker/worker.py:51-62) is not modelled. A `Nack(true)` effect records the `basic_nack(requeue=True)` call only: the delivery was already auto-acknowledged (anomaly_worker/worker.py:54), so it is not redelivered, and what the broker does with a nack for an acknowledged delivery is not modelled. Neither are session and pool lifecycle (utils/database/database_utils.py:9-19), or a `basic_nack` call that itself raises.
- The `anomaly_score` column is taken to be non-null. Every row the core writes carries a score, so a null score read back as "no row" is not modelled.
- Flask's parsing of the request body is not modelled. `/ingest` receives the parsed JSON value.
- Pipeline.DeliveryKeepsEventIdsUnique: assumes deliveries are processed one at a time, since the lookup and the commit read the same table. The source deduplicates by check-then-insert (anomaly_worker/worker.py:19,31) with no lock and no unique constraint in view, so two workers on the same queue can both miss the lookup and both insert; that interleaving is not modelled.
- App.Correlate: `consumed` is a lower bound on the replies lost to this request. Consumption is auto-acknowledged (app/app.py:51) and ends with `stop_consuming` (app/app.py:31); replies the broker had already pushed to the consumer behind the match are dropped by the client library as well, and that prefetch is not modelled. The stray 201 of a double send can be lost this way.

## Findings

| source | as written | input that shows it | evidently intended | confidence | as-written member | corrected member |
|---|---|---|---|---|---|---|
| anomaly_worker/worker.py:30-38 | when `insert_anomaly` raises, the handler sends a 500, then falls through and also sends the 201 for the same message | message `{"EventID": "e1"}` with no stored row and score 0.5: the missing `RequestID` makes the insert raise, and the replies are 500 then 201 | one reply per message; after the 500 the callback returns | high; not executed | Worker.MissingRequestIdAnsweredTwice | Worker.CorrectedAnswersOnce |
