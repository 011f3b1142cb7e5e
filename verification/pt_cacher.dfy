/** The pt.jose27iwnl copy of Cacher: the listener loop sits inside one
    try, so the first listener that throws ends the message, and a handler
    with the wrong first parameter aborts registration midway. */
module PtCacher {
  import opened Wrappers
  import opened Listeners
  import opened Bus
  import ExeCacher

  /** The listener loop of onMessage: calls in order, stopping after the
      first call that throws. */
  function InvokeUntilThrow<J>(listeners: seq<ListenerData>, payload: J, throws: (ListenerData, J) -> bool): (calls: seq<Invocation>)
    ensures CallsInOrder(calls, listeners, payload, throws)
    ensures forall i :: 0 <= i < |calls| - 1 ==> !calls[i].threw
    ensures |calls| < |listeners| ==> |calls| > 0 && calls[|calls| - 1].threw
  {
    if |listeners| == 0 then []
    else
      var first := Invocation(listeners[0], InvokeThrows(listeners[0], payload, throws));
      if first.threw then [first]
      else [first] + InvokeUntilThrow(listeners[1..], payload, throws)
  }

  /** onMessage(channel, message): routed as in the other copy, then the
      listeners run in order until one throws. */
  function OnMessage<D, J>(bus: Cacher<D, J>, throws: (ListenerData, J) -> bool,
                           channel: string, message: Option<string>): (r: Delivery<J>)
    ensures r.Dropped? <==> Route(bus, channel, message).Failure?
    ensures r.Dropped? ==> r.reason == Route(bus, channel, message).error
    ensures r.Dispatched? ==>
      && r.id in bus.listeners
      && Route(bus, channel, message) == Success(Target(r.id, r.payload, bus.listeners[r.id]))
      && CallsInOrder(r.calls, bus.listeners[r.id], r.payload, throws)
      && (forall i :: 0 <= i < |r.calls| - 1 ==> !r.calls[i].threw)
      && (|r.calls| < |bus.listeners[r.id]| ==> |r.calls| > 0 && r.calls[|r.calls| - 1].threw)
  {
    match Route(bus, channel, message)
    case Failure(reason) => Dropped(reason)
    case Success(target) =>
      Dispatched(target.id, target.payload, InvokeUntilThrow(target.listeners, target.payload, throws))
  }

  /** The aborting loop makes a prefix of the isolating loop's calls,
      stopping right after the first failure; the two agree exactly when no
      call before the last one throws. */
  lemma UntilThrowIsPrefixOfEach<J>(listeners: seq<ListenerData>, payload: J, throws: (ListenerData, J) -> bool)
    ensures var each := ExeCacher.InvokeEach(listeners, payload, throws);
      var until := InvokeUntilThrow(listeners, payload, throws);
      && until <= each
      && (until == each <==> forall i :: 0 <= i < |each| - 1 ==> !each[i].threw)
  {
    var each := ExeCacher.InvokeEach(listeners, payload, throws);
    var until := InvokeUntilThrow(listeners, payload, throws);
    assert until == each[..|until|];
    if |until| < |each| {
      assert each[|until| - 1] == until[|until| - 1];
    }
  }

  /** Both copies drop the same messages for the same reasons; when they
      dispatch, the aborting copy's trace is a prefix of the isolating
      copy's, and equal to it when no listener but possibly the last throws. */
  lemma OnMessageAgreesWithHandleMessage<D, J>(bus: Cacher<D, J>, throws: (ListenerData, J) -> bool,
                                               channel: string, message: Option<string>)
    ensures var pt := OnMessage(bus, throws, channel, message);
      var exe := ExeCacher.HandleMessage(bus, throws, channel, message);
      && (pt.Dropped? <==> exe.Dropped?)
      && (pt.Dropped? ==> pt.reason == exe.reason)
      && (pt.Dispatched? ==>
            && pt.id == exe.id && pt.payload == exe.payload
            && pt.calls <= exe.calls
            && (pt.calls == exe.calls <==> forall i :: 0 <= i < |exe.calls| - 1 ==> !exe.calls[i].threw))
  {
    var route := Route(bus, channel, message);
    if route.Success? {
      UntilThrowIsPrefixOfEach(route.value.listeners, route.value.payload, throws);
    }
  }

  /** The aborting loop's failure mode: with two listeners for one id where
      the first throws, only the first is called here, while the isolating
      copy calls both. */
  lemma FirstListenerFailureSilencesRest<J>(a: ListenerData, b: ListenerData, payload: J, throws: (ListenerData, J) -> bool)
    requires InvokeThrows(a, payload, throws)
    ensures InvokeUntilThrow([a, b], payload, throws) == [Invocation(a, true)]
    ensures ExeCacher.InvokeEach([a, b], payload, throws)
         == [Invocation(a, true), Invocation(b, InvokeThrows(b, payload, throws))]
  {
  }

  /** The handler registerListener rejects. */
  datatype ConfigError = FirstParameterNotJsonObject(handler: MethodDecl)

  /** The registry after registerListener, and the exception it ended with. */
  datatype Registration = Registration(listeners: Registry, error: Option<ConfigError>)

  /** The position of the first misdeclared handler, or |methods| when none is. */
  function FirstMisdeclared(methods: seq<MethodDecl>): (k: nat)
    ensures k <= |methods|
    ensures forall i :: 0 <= i < k ==> !methods[i].Misdeclared()
    ensures k < |methods| ==> methods[k].Misdeclared()
  {
    if |methods| == 0 || methods[0].Misdeclared() then 0
    else 1 + FirstMisdeclared(methods[1..])
  }

  /** registerListener(listener): qualifying methods are appended in
      declaration order until a handler whose first parameter is not a
      JsonObject throws IllegalStateException; the records added before it
      stay registered. */
  function RegisterListener(reg: Registry, owner: Instance, methods: seq<MethodDecl>): (r: Registration)
    ensures r.listeners == ExeCacher.RegisterListener(reg, owner, methods[..FirstMisdeclared(methods)])
    ensures r.error.None? <==> FirstMisdeclared(methods) == |methods|
    ensures FirstMisdeclared(methods) < |methods| ==>
      r.error == Some(FirstParameterNotJsonObject(methods[FirstMisdeclared(methods)]))
    decreases |methods|
  {
    if |methods| == 0 then
      assert methods[..0] == methods;
      Registration(reg, None)
    else if methods[0].Misdeclared() then
      Registration(reg, Some(FirstParameterNotJsonObject(methods[0])))
    else
      var added := AddListener(reg, owner, methods[0]);
      var r := RegisterListener(added, owner, methods[1..]);
      PrefixRegistration(reg, owner, methods);
      r
  }

  /** Registering the well-declared prefix of `methods` is registering its
      head and then the well-declared prefix of the tail. */
  lemma PrefixRegistration(reg: Registry, owner: Instance, methods: seq<MethodDecl>)
    requires |methods| > 0 && !methods[0].Misdeclared()
    ensures FirstMisdeclared(methods) == 1 + FirstMisdeclared(methods[1..])
    ensures ExeCacher.RegisterListener(reg, owner, methods[..FirstMisdeclared(methods)])
         == ExeCacher.RegisterListener(AddListener(reg, owner, methods[0]), owner, methods[1..][..FirstMisdeclared(methods[1..])])
  {
    var k := FirstMisdeclared(methods);
    var prefix := methods[..k];
    var added := AddListener(reg, owner, methods[0]);
    calc {
      ExeCacher.RegisterListener(reg, owner, prefix);
      ExeCacher.RegisterListener(AddListener(reg, owner, prefix[0]), owner, prefix[1..]);
      { assert prefix[0] == methods[0]; }
      ExeCacher.RegisterListener(added, owner, prefix[1..]);
      { assert prefix[1..] == methods[1..][..k - 1]; }
      ExeCacher.RegisterListener(added, owner, methods[1..][..k - 1]);
    }
  }

  /** With no misdeclared handler the two copies register the same records. */
  lemma RegisterAgreesWhenWellDeclared(reg: Registry, owner: Instance, methods: seq<MethodDecl>)
    requires forall i :: 0 <= i < |methods| ==> !methods[i].Misdeclared()
    ensures RegisterListener(reg, owner, methods) == Registration(ExeCacher.RegisterListener(reg, owner, methods), None)
  {
    assert methods[..|methods|] == methods;
  }

  /** sendMessage(message): the two-argument form with a null handler, so a
      pool, serialisation or publish failure is always swallowed. */
  function SendMessage<D, J>(bus: Cacher<D, J>, message: Message<D>, transport: Transport): (r: SendOutcome)
    ensures !r.Reported?
    ensures r.Swallowed? <==> Attempt(bus, message, transport).Some?
    ensures r.Swallowed? ==> Some(r.fault) == Attempt(bus, message, transport)
    ensures r.Published? ==> r.channel == bus.channel && Some(r.body) == Wire(bus, message)
  {
    Bus.SendMessage(bus, message, None, transport)
  }
}
