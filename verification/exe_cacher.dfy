/** The com.exe copy of Cacher: each listener call is isolated, and a
    handler with the wrong first parameter is skipped at registration. */
module ExeCacher {
  import opened Wrappers
  import opened Listeners
  import opened Bus
  import JavaText
  import Json
  import Envelope

  /** invokeListener over the whole list: every listener is called, in
      order, each failure caught and logged on its own. */
  function InvokeEach<J>(listeners: seq<ListenerData>, payload: J, throws: (ListenerData, J) -> bool): (calls: seq<Invocation>)
    ensures |calls| == |listeners|
    ensures CallsInOrder(calls, listeners, payload, throws)
  {
    if |listeners| == 0 then []
    else [Invocation(listeners[0], InvokeThrows(listeners[0], payload, throws))]
         + InvokeEach(listeners[1..], payload, throws)
  }

  /** handleMessage(channel, message): the listeners of the decoded id each
      receive the parsed payload, whether or not an earlier one threw. */
  function HandleMessage<D, J>(bus: Cacher<D, J>, throws: (ListenerData, J) -> bool,
                               channel: string, message: Option<string>): (r: Delivery<J>)
    ensures r.Dropped? <==> Route(bus, channel, message).Failure?
    ensures r.Dropped? ==> r.reason == Route(bus, channel, message).error
    ensures r.Dispatched? ==>
      && r.id in bus.listeners
      && Route(bus, channel, message) == Success(Target(r.id, r.payload, bus.listeners[r.id]))
      && |r.calls| == |bus.listeners[r.id]|
      && CallsInOrder(r.calls, bus.listeners[r.id], r.payload, throws)
  {
    match Route(bus, channel, message)
    case Failure(reason) => Dropped(reason)
    case Success(target) =>
      Dispatched(target.id, target.payload, InvokeEach(target.listeners, target.payload, throws))
  }

  /** Isolation: which listeners are called, and in what order, does not
      depend on which of them throw. */
  lemma ListenersCalledRegardlessOfFailures<D, J>(bus: Cacher<D, J>, throws: (ListenerData, J) -> bool,
                                                  throws': (ListenerData, J) -> bool,
                                                  channel: string, message: Option<string>)
    ensures var r := HandleMessage(bus, throws, channel, message);
      var r' := HandleMessage(bus, throws', channel, message);
      && (r.Dispatched? <==> r'.Dispatched?)
      && (r.Dispatched? ==>
            && r.id == r'.id
            && |r.calls| == |r'.calls|
            && forall i :: 0 <= i < |r.calls| ==> r.calls[i].listener == r'.calls[i].listener)
  {
  }

  /** registerListener(listener): every qualifying method, in declaration
      order, is appended to the list of its id (the list created when
      absent); other methods are skipped without error. */
  function RegisterListener(reg: Registry, owner: Instance, methods: seq<MethodDecl>): (r: Registry)
    ensures forall id :: Lookup(r, id) == Lookup(reg, id) + Selected(owner, methods, id)
    ensures r.Keys == reg.Keys + QualifyingIds(methods)
    decreases |methods|
  {
    if |methods| == 0 then
      assert QualifyingIds(methods) == {};
      reg
    else
      var r := RegisterListener(AddListener(reg, owner, methods[0]), owner, methods[1..]);
      RegisterStep(reg, owner, methods, r);
      QualifyingIdsSplit(methods);
      r
  }

  /** Registering the head and then the tail gives, for every id, the old
      list followed by the whole list's records. */
  lemma RegisterStep(reg: Registry, owner: Instance, methods: seq<MethodDecl>, r: Registry)
    requires |methods| > 0
    requires forall id :: Lookup(r, id) == Lookup(AddListener(reg, owner, methods[0]), id) + Selected(owner, methods[1..], id)
    ensures forall id :: Lookup(r, id) == Lookup(reg, id) + Selected(owner, methods, id)
  {
    forall id
      ensures Lookup(r, id) == Lookup(reg, id) + Selected(owner, methods, id)
    {
      RegisterStepAt(reg, owner, methods, Lookup(r, id), id);
    }
  }

  /** The same step for one id, with the registered list given as `after`. */
  lemma RegisterStepAt(reg: Registry, owner: Instance, methods: seq<MethodDecl>, after: seq<ListenerData>, id: string)
    requires |methods| > 0
    requires after == Lookup(AddListener(reg, owner, methods[0]), id) + Selected(owner, methods[1..], id)
    ensures after == Lookup(reg, id) + Selected(owner, methods, id)
  {
    SelectedCons(owner, methods, id);
    AppendInTwoSteps(after, Lookup(AddListener(reg, owner, methods[0]), id), Lookup(reg, id),
      Selected(owner, [methods[0]], id), Selected(owner, methods[1..], id), Selected(owner, methods, id));
  }

  /** Appending `head` and then `tail` appends their concatenation. */
  lemma AppendInTwoSteps<T>(after: seq<T>, mid: seq<T>, before: seq<T>, head: seq<T>, tail: seq<T>, whole: seq<T>)
    requires after == mid + tail && mid == before + head && whole == head + tail
    ensures after == before + whole
  {
  }

  /** The records of a non-empty list for one id: those of its head followed
      by those of its tail. */
  lemma SelectedCons(owner: Instance, methods: seq<MethodDecl>, id: string)
    requires |methods| > 0
    ensures Selected(owner, methods, id) == Selected(owner, [methods[0]], id) + Selected(owner, methods[1..], id)
  {
    assert [methods[0]][1..] == [];
  }

  /** The qualifying ids of a non-empty list are those of its head and of
      its tail. */
  lemma QualifyingIdsSplit(methods: seq<MethodDecl>)
    requires |methods| > 0
    ensures QualifyingIds(methods) == QualifyingIds([methods[0]]) + QualifyingIds(methods[1..])
  {
    forall id | id in QualifyingIds(methods)
      ensures id in QualifyingIds([methods[0]]) + QualifyingIds(methods[1..])
    {
      var i :| 0 <= i < |methods| && methods[i].Qualifies() && methods[i].handlerId.value == id;
      if i == 0 {
        assert [methods[0]][0] == methods[i];
      } else {
        assert methods[1..][i - 1] == methods[i];
      }
    }
    forall id | id in QualifyingIds([methods[0]]) + QualifyingIds(methods[1..])
      ensures id in QualifyingIds(methods)
    {
      if id in QualifyingIds(methods[1..]) {
        var i :| 0 <= i < |methods[1..]| && methods[1..][i].Qualifies() && methods[1..][i].handlerId.value == id;
        assert methods[i + 1] == methods[1..][i];
      } else {
        assert [methods[0]][0] == methods[0];
      }
    }
  }

  /** Registration leaves the list of every id no qualifying method names
      exactly as it was, absent ids included. */
  lemma RegisterLeavesOtherIds(reg: Registry, owner: Instance, methods: seq<MethodDecl>, id: string)
    requires id !in QualifyingIds(methods)
    ensures id in RegisterListener(reg, owner, methods) <==> id in reg
    ensures Lookup(RegisterListener(reg, owner, methods), id) == Lookup(reg, id)
  {
    SelectedNonEmptyIffQualifying(owner, methods, id);
  }

  /** Registration keeps the registry invariant: lists are never empty and
      every record sits under its own method's id. */
  lemma RegisterKeepsWellFormed(reg: Registry, owner: Instance, methods: seq<MethodDecl>)
    requires WellFormed(reg)
    ensures WellFormed(RegisterListener(reg, owner, methods))
  {
    var r: Registry := RegisterListener(reg, owner, methods);
    forall id | id in r
      ensures |r[id]| > 0
      ensures forall l: ListenerData :: l in r[id] ==> l.id == id && l.handler.Qualifies() && l.handler.handlerId == Some(id)
    {
      assert Lookup(r, id) == Lookup(reg, id) + Selected(owner, methods, id);
      if id !in reg {
        assert id in QualifyingIds(methods);
        SelectedNonEmptyIffQualifying(owner, methods, id);
      }
    }
  }

  /** Registration followed by a publish: once `owner`'s methods are
      registered, a message published on the channel with a `;`-free id
      reaches the listeners already registered for that id and then the
      owner's qualifying handlers for it, in declaration order, each with
      the data sent. */
  lemma RegisteredHandlersReceivePublished<D, J(!new)>(bus: Cacher<D, J>, owner: Instance, methods: seq<MethodDecl>,
                                                       message: Message<D>, handler: Option<ExceptionHandler>,
                                                       transport: Transport,
                                                       throws: (ListenerData, J) -> bool)
    requires Json.RoundTrips(bus.gson)
    requires Envelope.Separator !in message.id
    requires message.id in bus.listeners || message.id in QualifyingIds(methods)
    requires SendMessage(bus, message, handler, transport).Published?
    ensures var registered := bus.(listeners := RegisterListener(bus.listeners, owner, methods));
      var out := SendMessage(bus, message, handler, transport);
      var expected := Lookup(bus.listeners, message.id) + Selected(owner, methods, message.id);
      HandleMessage(registered, throws, out.channel, Some(out.body))
        == Dispatched(message.id, bus.gson.toTree(message.data).value, InvokeEach(expected, bus.gson.toTree(message.data).value, throws))
  {
    var registered := bus.(listeners := RegisterListener(bus.listeners, owner, methods));
    JavaText.EqualsIgnoreCaseIsEquivalence(registered.channel, bus.channel, bus.channel);
    PublishedRoutesBack(bus, registered, message, handler, transport);
    assert Lookup(registered.listeners, message.id) == registered.listeners[message.id];
  }
}
