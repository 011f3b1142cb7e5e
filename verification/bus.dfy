/** What the two Cacher copies share: the bus state, the inbound routing
    that precedes listener invocation, and the publish side of sendMessage. */
module Bus {
  import opened Wrappers
  import JavaText
  import Json
  import Envelope
  import opened Listeners

  /** The producer's message: an id and the data to serialise. */
  datatype Message<D> = Message(id: string, data: D)

  /** A Cacher: its channel, its Gson instance and its listener registry. */
  datatype Cacher<!D, !J> = Cacher(channel: string, gson: Json.Gson<D, J>, listeners: Registry)

  /** Why an inbound message reaches no listener. */
  datatype Drop =
    | Ignored             // other channel, or a null body
    | Malformed           // no separator in the body
    | Unrouted(id: string)    // no listener list for the id; payload never parsed
    | Unparsable(id: string)  // the payload is not a JSON object

  /** The listeners an inbound message is handed to, with its parsed payload. */
  datatype Target<J> = Target(id: string, payload: J, listeners: seq<ListenerData>)

  /** The result of handling one inbound message: dropped, or the trace of
      listener calls made. */
  datatype Delivery<J> =
    | Dropped(reason: Drop)
    | Dispatched(id: string, payload: J, calls: seq<Invocation>)

  /** Traffic the bus looks at: its own channel up to case, and a non-null
      body. */
  predicate Accepts<D, J>(bus: Cacher<D, J>, channel: string, message: Option<string>)
    ensures Accepts(bus, channel, message) <==>
      JavaText.Folded(bus.channel) == JavaText.Folded(channel) && message.Some?
  {
    JavaText.EqualsIgnoreCaseIffSameFolding(bus.channel, channel);
    JavaText.EqualsIgnoreCase(bus.channel, channel) && message.Some?
  }

  /** The steps of the inbound callback before any listener runs: channel and
      null check, split at the first separator, registry lookup, and only
      then the payload parse. */
  function Route<D, J>(bus: Cacher<D, J>, channel: string, message: Option<string>): (r: Result<Target<J>, Drop>)
    ensures r.Failure? && r.error == Ignored <==> !Accepts(bus, channel, message)
    ensures r.Failure? && r.error == Malformed <==> Accepts(bus, channel, message) && Envelope.Separator !in message.value
    ensures r.Failure? && r.error.Unrouted? ==>
      && Accepts(bus, channel, message)
      && Envelope.Split(message.value).Some?
      && Envelope.Split(message.value).value.id == r.error.id
      && r.error.id !in bus.listeners
    ensures r.Failure? && r.error.Unparsable? ==>
      && Accepts(bus, channel, message)
      && Envelope.Split(message.value).Some?
      && Envelope.Split(message.value).value.id == r.error.id
      && r.error.id in bus.listeners
      && bus.gson.parse(Envelope.Split(message.value).value.payload).None?
    ensures r.Success? ==>
      && Accepts(bus, channel, message)
      && Envelope.Split(message.value).Some?
      && Envelope.Split(message.value).value.id == r.value.id
      && r.value.id in bus.listeners
      && r.value.listeners == bus.listeners[r.value.id]
      && bus.gson.parse(Envelope.Split(message.value).value.payload) == Some(r.value.payload)
  {
    if !Accepts(bus, channel, message) then Failure(Ignored)
    else
      match Envelope.Split(message.value)
      case None => Failure(Malformed)
      case Some(parts) =>
        if parts.id !in bus.listeners then Failure(Unrouted(parts.id))
        else
          match bus.gson.parse(parts.payload)
          case None => Failure(Unparsable(parts.id))
          case Some(payload) => Success(Target(parts.id, payload, bus.listeners[parts.id]))
  }

  /** An id nobody listens for is dropped without its payload being read:
      the outcome is the same whatever the parser would have made of it. */
  lemma UnroutedNeverParses<D, J>(bus: Cacher<D, J>, parse: string -> Option<J>, channel: string, message: Option<string>)
    requires Route(bus, channel, message).Failure?
    requires Route(bus, channel, message).error.Unrouted?
    ensures Route(bus.(gson := bus.gson.(parse := parse)), channel, message) == Route(bus, channel, message)
  {
  }

  /** What ends the try block of sendMessage, each with the description of
      the exception thrown: taking a connection from the pool, serialising
      the data (toJsonTree), or the publish itself. */
  datatype Fault = PoolFailed(description: string) | Unserializable | PublishFailed(description: string)

  /** The Redis side of sendMessage, kept abstract: the exception
      jedisPool.getResource() throws (None when a connection is obtained),
      and the exception a publish of a body on a channel throws (None when
      it goes out). */
  datatype Transport = Transport(resource: Option<string>, publish: (string, string) -> Option<string>)

  /** A MessageExceptionHandler supplied by the caller. */
  datatype ExceptionHandler = ExceptionHandler(name: string)

  /** What sendMessage does: the body goes out on the channel, or the
      exception reaches the caller's handler, or it is swallowed. */
  datatype SendOutcome =
    | Published(channel: string, body: string)
    | Reported(handler: ExceptionHandler, fault: Fault)
    | Swallowed(fault: Fault)

  /** The envelope text sendMessage builds for `message`, or None when the
      data cannot be serialised. */
  function Wire<D, J>(bus: Cacher<D, J>, message: Message<D>): (r: Option<string>)
    ensures r.Some? <==> bus.gson.toTree(message.data).Some?
    ensures r.Some? ==> r.value == Envelope.Encode(message.id, bus.gson.render(bus.gson.toTree(message.data).value))
    ensures r.Some? && Envelope.Separator !in message.id ==>
      Envelope.Split(r.value) == Some(Envelope.Parts(message.id, bus.gson.render(bus.gson.toTree(message.data).value)))
  {
    match bus.gson.Serialize(message.data)
    case None => None
    case Some(payload) =>
      if Envelope.Separator in message.id then Some(Envelope.Encode(message.id, payload))
      else
        Envelope.SplitEncode(message.id, payload);
        Some(Envelope.Encode(message.id, payload))
  }

  /** How the try block of sendMessage ends: None when the body goes out,
      otherwise the first exception thrown, in source order: the pool, then
      serialisation, then the publish. Once one step throws, the later ones
      do not run. */
  function Attempt<D, J>(bus: Cacher<D, J>, message: Message<D>, transport: Transport): (r: Option<Fault>)
    ensures (r.Some? && r.value.PoolFailed?) <==> transport.resource.Some?
    ensures r.Some? && r.value.PoolFailed? ==> transport.resource == Some(r.value.description)
    ensures r == Some(Unserializable) <==> transport.resource.None? && bus.gson.toTree(message.data).None?
    ensures r.None? <==>
      && transport.resource.None?
      && Wire(bus, message).Some?
      && transport.publish(bus.channel, Wire(bus, message).value).None?
    ensures r.Some? && r.value.PublishFailed? ==>
      && transport.resource.None?
      && Wire(bus, message).Some?
      && transport.publish(bus.channel, Wire(bus, message).value) == Some(r.value.description)
  {
    match transport.resource
    case Some(description) => Some(PoolFailed(description))
    case None =>
      match Wire(bus, message)
      case None => Some(Unserializable)
      case Some(body) =>
        match transport.publish(bus.channel, body)
        case None => None
        case Some(description) => Some(PublishFailed(description))
  }

  /** sendMessage(message, exceptionHandler): any Exception thrown inside the
      try block goes to the handler when one is given and is swallowed
      otherwise. */
  function SendMessage<D, J>(bus: Cacher<D, J>, message: Message<D>, handler: Option<ExceptionHandler>,
                             transport: Transport): (r: SendOutcome)
    ensures r.Published? <==> Attempt(bus, message, transport).None?
    ensures r.Published? ==> r.channel == bus.channel && Some(r.body) == Wire(bus, message)
    ensures r.Reported? <==> Attempt(bus, message, transport).Some? && handler.Some?
    ensures r.Reported? ==> Some(r.handler) == handler && Some(r.fault) == Attempt(bus, message, transport)
    ensures r.Swallowed? ==> handler.None? && Some(r.fault) == Attempt(bus, message, transport)
  {
    match Attempt(bus, message, transport)
    case None => Published(bus.channel, Wire(bus, message).value)
    case Some(fault) =>
      if handler.Some? then Reported(handler.value, fault) else Swallowed(fault)
  }

  /** Data the codec cannot serialise is never published, whatever the
      publish would do: with a connection, the serialisation failure goes to
      the handler, or is swallowed when there is none. */
  lemma UnserializableNeverPublished<D, J>(bus: Cacher<D, J>, message: Message<D>, handler: Option<ExceptionHandler>,
                                           transport: Transport, other: (string, string) -> Option<string>)
    requires bus.gson.toTree(message.data).None?
    ensures !SendMessage(bus, message, handler, transport).Published?
    ensures SendMessage(bus, message, handler, transport) == SendMessage(bus, message, handler, transport.(publish := other))
    ensures transport.resource.None? ==>
      SendMessage(bus, message, handler, transport)
        == if handler.Some? then Reported(handler.value, Unserializable) else Swallowed(Unserializable)
  {
  }

  /** A message whose id contains the separator is published unescaped, so
      every receiver reads it under the shorter id before the id's first
      separator. */
  lemma PublishedSeparatorIdIsMisread<D, J>(bus: Cacher<D, J>, message: Message<D>,
                                            handler: Option<ExceptionHandler>, transport: Transport)
    requires Envelope.Separator in message.id
    requires SendMessage(bus, message, handler, transport).Published?
    ensures var out := SendMessage(bus, message, handler, transport);
      && Envelope.Split(out.body).Some?
      && Envelope.Split(out.body).value.id == message.id[..JavaText.IndexOf(message.id, Envelope.Separator)]
      && Envelope.Split(out.body).value.id != message.id
  {
    Envelope.SeparatorInIdIsMisread(message.id, bus.gson.render(bus.gson.toTree(message.data).value));
  }

  /** What one bus publishes, another bus on the same channel (up to case)
      with the same codec routes back to the listeners of the message's id,
      with the payload structurally equal to the data sent; an id with no
      listeners is dropped as unrouted. */
  lemma PublishedRoutesBack<D, J(!new)>(sender: Cacher<D, J>, receiver: Cacher<D, J>, message: Message<D>,
                                        handler: Option<ExceptionHandler>, transport: Transport)
    requires Json.RoundTrips(sender.gson)
    requires receiver.gson == sender.gson
    requires JavaText.EqualsIgnoreCase(receiver.channel, sender.channel)
    requires Envelope.Separator !in message.id
    requires SendMessage(sender, message, handler, transport).Published?
    ensures var out := SendMessage(sender, message, handler, transport);
      Route(receiver, out.channel, Some(out.body))
        == if message.id in receiver.listeners
           then Success(Target(message.id, sender.gson.toTree(message.data).value, receiver.listeners[message.id]))
           else Failure(Unrouted(message.id))
  {
    var payload := sender.gson.render(sender.gson.toTree(message.data).value);
    Envelope.SplitEncode(message.id, payload);
  }
}
