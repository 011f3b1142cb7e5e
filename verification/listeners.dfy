/** Listener discovery and the registry, shared by both Cacher copies.
    Reflection is replaced by explicit method declarations: what
    getDeclaredMethods, getAnnotation and getParameterTypes would report. */
module Listeners {
  import opened Wrappers

  /** The declared type of a handler parameter. registerListener asks whether
      JsonObject.class.isAssignableFrom(T); Gson's JsonObject is a final class,
      so that holds only for T == JsonObject. */
  datatype ParamType = JsonObjectType | OtherType(name: string)

  /** A declared method of a listener class: the id of its
      @IncomingMessageHandler annotation (None when not annotated) and its
      parameter types, in declaration order. */
  datatype MethodDecl = MethodDecl(name: string, handlerId: Option<string>, params: seq<ParamType>)
  {
    /** Annotated and taking at least one parameter: the methods
        registerListener looks at further. */
    predicate IsHandler()
    {
      handlerId.Some? && |params| > 0
    }

    /** A handler whose first parameter accepts a JsonObject: the methods
        that get a listener record. */
    predicate Qualifies()
      ensures Qualifies() ==> handlerId.Some? && |params| >= 1
    {
      IsHandler() && params[0] == JsonObjectType
    }

    /** A handler whose first parameter cannot take a JsonObject. */
    predicate Misdeclared()
      ensures IsHandler() <==> Qualifies() || Misdeclared()
      ensures !(Qualifies() && Misdeclared())
    {
      IsHandler() && params[0] != JsonObjectType
    }
  }

  /** The listener object a method is bound to (compared by identity). */
  datatype Instance = Instance(identity: nat)

  /** MessageListenerData: the receiver, the method and the id it listens on. */
  datatype ListenerData = ListenerData(instance: Instance, handler: MethodDecl, id: string)

  /** Message id to the listeners registered for it, in registration order. */
  type Registry = map<string, seq<ListenerData>>

  /** The listener list for `id`; an absent id has none. */
  function Lookup(reg: Registry, id: string): seq<ListenerData>
  {
    if id in reg then reg[id] else []
  }

  /** The records registering `owner`'s `methods`, in order, adds to the list
      of `id`: one per qualifying method annotated with that id. This is the
      reference the registration functions are measured against. */
  function Selected(owner: Instance, methods: seq<MethodDecl>, id: string): (r: seq<ListenerData>)
    ensures forall l :: l in r ==> l.instance == owner && l.id == id && l.handler.Qualifies() && l.handler.handlerId == Some(id)
  {
    if |methods| == 0 then []
    else
      var m := methods[0];
      (if m.Qualifies() && m.handlerId.value == id then [ListenerData(owner, m, id)] else [])
      + Selected(owner, methods[1..], id)
  }

  /** The ids some qualifying method among `methods` is annotated with. */
  function QualifyingIds(methods: seq<MethodDecl>): set<string>
  {
    set i | 0 <= i < |methods| && methods[i].Qualifies() :: methods[i].handlerId.value
  }

  /** An id receives records exactly when some qualifying method names it. */
  lemma {:induction false} SelectedNonEmptyIffQualifying(owner: Instance, methods: seq<MethodDecl>, id: string)
    ensures |Selected(owner, methods, id)| > 0 <==> id in QualifyingIds(methods)
  {
    if |methods| > 0 {
      SelectedNonEmptyIffQualifying(owner, methods[1..], id);
      var m := methods[0];
      if id in QualifyingIds(methods[1..]) {
        var i :| 0 <= i < |methods[1..]| && methods[1..][i].Qualifies() && methods[1..][i].handlerId.value == id;
        assert methods[i + 1] == methods[1..][i];
      }
      if id in QualifyingIds(methods) && !(m.Qualifies() && m.handlerId.value == id) {
        var i :| 0 <= i < |methods| && methods[i].Qualifies() && methods[i].handlerId.value == id;
        assert i > 0;
        assert methods[1..][i - 1] == methods[i];
      }
    }
  }

  /** Registering one method: computeIfAbsent(id, new list).add(record) for a
      qualifying method; any other method leaves the registry as it is. */
  function AddListener(reg: Registry, owner: Instance, m: MethodDecl): (r: Registry)
    ensures forall id :: Lookup(r, id) == Lookup(reg, id) + Selected(owner, [m], id)
    ensures r.Keys == reg.Keys + QualifyingIds([m])
  {
    if m.Qualifies() then
      var id := m.handlerId.value;
      assert [m][0] == m;
      assert QualifyingIds([m]) == {id};
      reg[id := Lookup(reg, id) + [ListenerData(owner, m, id)]]
    else
      assert QualifyingIds([m]) == {};
      reg
  }

  /** The registry invariant both copies keep: no empty list, and every record
      sits under the id its method is annotated with. */
  ghost predicate WellFormed(reg: Registry)
  {
    forall id :: id in reg ==>
      && |reg[id]| > 0
      && forall l :: l in reg[id] ==> l.id == id && l.handler.Qualifies() && l.handler.handlerId == Some(id)
  }

  /** What calling Method.invoke(instance, payload) does: reflection throws
      IllegalArgumentException when the method takes more than the one
      argument passed; otherwise the handler body decides, as `throws` says. */
  predicate InvokeThrows<J>(l: ListenerData, payload: J, throws: (ListenerData, J) -> bool)
    ensures |l.handler.params| != 1 ==> InvokeThrows(l, payload, throws)
    ensures |l.handler.params| == 1 ==> (InvokeThrows(l, payload, throws) <==> throws(l, payload))
  {
    |l.handler.params| != 1 || throws(l, payload)
  }

  /** One listener call in a dispatch trace, and whether it threw. */
  datatype Invocation = Invocation(listener: ListenerData, threw: bool)

  /** The calls made on `listeners`, in order, when each receives `payload`. */
  ghost predicate CallsInOrder<J>(calls: seq<Invocation>, listeners: seq<ListenerData>, payload: J, throws: (ListenerData, J) -> bool)
  {
    && |calls| <= |listeners|
    && forall i :: 0 <= i < |calls| ==>
         calls[i] == Invocation(listeners[i], InvokeThrows(listeners[i], payload, throws))
  }
}
