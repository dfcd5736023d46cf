/**
 * Message envelopes on the broker and the two builders of utils/queue:
 * `publish_event` (request side) and `send_response` (worker side).
 * The broker call `basic_publish` is modelled as the envelope it is handed;
 * `json.dumps` is abstracted, so an envelope carries the body value itself.
 */
module Queue {
  import opened Wrappers

  /** The AMQP message properties the core sets or reads. */
  datatype Props = Props(replyTo: Option<string>, correlationId: Option<string>)

  /** One `basic_publish` call: exchange, routing key, properties and body. */
  datatype Envelope<B> = Envelope(exchange: string, routingKey: Option<string>, props: Props, body: B)

  /** What `publish_event` hands the broker, together with the token it returns. */
  datatype Published<B> = Published(token: string, envelope: Envelope<B>)

  /** The reply body: a dictionary with exactly `status_code` and `response_msg`. */
  datatype Reply<M> = Reply(statusCode: int, responseMsg: M)

  /** The default exchange, which routes by queue name. */
  const DefaultExchange: string := ""

  /**
   * `publish_event`: a fresh token (the string form of the `uuid4` value,
   * passed in) travels as the correlation id, the response queue as the
   * reply address, and the event itself as the body; the message goes to the
   * work queue on the default exchange and the token is returned.
   */
  function PublishEvent<B>(event: B, publishQueue: string, responseQueue: string, uuid: string): (p: Published<B>)
    ensures p.token == uuid
    ensures p.envelope.exchange == DefaultExchange
    ensures p.envelope.routingKey == Some(publishQueue)
    ensures p.envelope.props.replyTo == Some(responseQueue)
    ensures p.envelope.props.correlationId == Some(p.token)
    ensures p.envelope.body == event
  {
    Published(uuid, Envelope(DefaultExchange, Some(publishQueue), Props(Some(responseQueue), Some(uuid)), event))
  }

  /**
   * `send_response`: the reply goes to whatever queue the incoming message
   * named as its reply address, carries the incoming correlation id
   * unchanged, sets no reply address of its own, and its body holds the
   * given status code and message.
   */
  function SendResponse<M>(incoming: Props, statusCode: int, responseMsg: M): (e: Envelope<Reply<M>>)
    ensures e.exchange == DefaultExchange
    ensures e.routingKey == incoming.replyTo
    ensures e.props.correlationId == incoming.correlationId
    ensures e.props.replyTo.None?
    ensures e.body.statusCode == statusCode && e.body.responseMsg == responseMsg
  {
    Envelope(DefaultExchange, incoming.replyTo, Props(None, incoming.correlationId), Reply(statusCode, responseMsg))
  }

  /**
   * A reply built from the properties of a published request goes back to
   * the response queue the request named and carries the token the
   * publisher returned: the two builders agree on the correlation protocol.
   */
  lemma ReplyAnswersRequest<B, M>(event: B, publishQueue: string, responseQueue: string, uuid: string, statusCode: int, msg: M)
    ensures var p := PublishEvent(event, publishQueue, responseQueue, uuid);
            var reply := SendResponse(p.envelope.props, statusCode, msg);
            && reply.routingKey == Some(responseQueue)
            && reply.props.correlationId == Some(p.token)
            && reply.body == Reply(statusCode, msg)
  {
  }
}
