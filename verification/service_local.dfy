/** A service registered on this node: action resolution for `call`, the
    subscriber list and event fan-out, and the wire definition. */
module LocalServices {
  import opened Js
  import opened Seqs
  import opened Wire

  /** What running one function member of an implementation object did. A
      method returning a promise is described by how that promise settles. */
  datatype Completion =
    | Returned(value: Value)
    | Threw(thrown: Thrown)
    | Rejects(reason: Thrown)

  /** A member of an implementation object: a function or a data property. */
  datatype Member = Method(run: seq<Value> -> Completion) | Property(value: Value)

  /** The implementation object handed to `register`: its members by name,
      and the fields of the object its `metadata` member holds, which
      `definition` reads. `WellFormed` ties the two together. */
  datatype Instance = Instance(members: map<string, Member>, metadata: map<string, Value>)

  /** The `metadata` member is a data property holding the metadata object. */
  predicate WellFormed(inst: Instance) {
    "metadata" in inst.members && inst.members["metadata"].Property?
    && inst.members["metadata"].value == Obj(inst.metadata)
  }

  datatype LocalService = LocalService(
    id: ServiceId,
    instanceId: string,
    instance: Instance,
    subscriptions: seq<NodeId>)

  /** How the promise returned by `call` settles. */
  datatype Outcome = Resolved(value: Value) | Rejected(reason: Thrown)

  /** The branch `call` takes, in the order the lookup tries them. */
  datatype Resolution =
    | DirectMethod(run: seq<Value> -> Completion)
    | PropertyValue(value: Value)
    | GenericDispatch(run: seq<Value> -> Completion)
    | GenericNotFunction
    | NotFound

  /** `if (instance[name])`: the member exists and is truthy (every function
      is truthy). */
  predicate Present(inst: Instance, name: string) {
    name in inst.members &&
    (inst.members[name].Method? || Truthy(inst.members[name].value))
  }

  /** Direct method first, then a truthy data property, then the instance's
      generic `call`, then failure. A falsy property counts as absent. */
  function Resolve(inst: Instance, action: string): (r: Resolution)
    ensures r.DirectMethod? <==> action in inst.members && inst.members[action].Method?
    ensures r.DirectMethod? ==> r.run == inst.members[action].run
    ensures r.PropertyValue? <==> Present(inst, action) && inst.members[action].Property?
    ensures r.PropertyValue? ==> r.value == inst.members[action].value && Truthy(r.value)
    ensures r.GenericDispatch? <==> !Present(inst, action) && "call" in inst.members && inst.members["call"].Method?
    ensures r.GenericDispatch? ==> r.run == inst.members["call"].run
    ensures r.GenericNotFunction? <==> !Present(inst, action) && Present(inst, "call") && inst.members["call"].Property?
    ensures r.NotFound? <==> !Present(inst, action) && !Present(inst, "call")
  {
    if !Present(inst, action) then
      if !Present(inst, "call") then NotFound
      else if inst.members["call"].Method? then GenericDispatch(inst.members["call"].run)
      else GenericNotFunction
    else if inst.members[action].Property? then PropertyValue(inst.members[action].value)
    else DirectMethod(inst.members[action].run)
  }

  /** A synchronous throw becomes a rejection; a thrown non-Error value is
      wrapped as `new Error(value)`, whose message is `String(value)`, or
      empty when the value is `undefined`. */
  function Settle(c: Completion, show: Value -> string): (r: Outcome)
    ensures c.Returned? <==> r.Resolved?
    ensures c.Returned? ==> r.value == c.value
    ensures c.Threw? ==> r.reason.ErrorObject?
    ensures c.Threw? && c.thrown.ErrorObject? ==> r.reason == c.thrown
    ensures c.Threw? && c.thrown.NonError? && c.thrown.v != Undefined ==>
      r.reason.err == JsError("Error", show(c.thrown.v))
    ensures c == Threw(NonError(Undefined)) ==> r == Rejected(ErrorObject(JsError("Error", "")))
    ensures c.Rejects? ==> r == Rejected(c.reason)
  {
    match c
    case Returned(v) => Resolved(v)
    case Threw(ErrorObject(e)) => Rejected(ErrorObject(e))
    case Threw(NonError(Undefined)) => Rejected(ErrorObject(JsError("Error", "")))
    case Threw(NonError(v)) => Rejected(ErrorObject(JsError("Error", show(v))))
    case Rejects(t) => Rejected(t)
  }

  /** Invoke `action` with `args` on the implementation object. */
  function Call(inst: Instance, action: string, args: seq<Value>, show: Value -> string): (r: Outcome)
    ensures action in inst.members && inst.members[action].Method? ==>
      r == Settle(inst.members[action].run(args), show)
    ensures Present(inst, action) && inst.members[action].Property? ==>
      r == Resolved(inst.members[action].value)
    ensures !Present(inst, action) && "call" in inst.members && inst.members["call"].Method? ==>
      r == Settle(inst.members["call"].run([Str(action), Arr(args)]), show)
    ensures !Present(inst, action) && Present(inst, "call") && inst.members["call"].Property? ==>
      r == Rejected(ErrorObject(JsError("TypeError", "instance.call is not a function")))
    ensures !Present(inst, action) && !Present(inst, "call") ==>
      r == Rejected(ErrorObject(JsError("Error", "No action named " + action)))
  {
    match Resolve(inst, action)
    case DirectMethod(run) => Settle(run(args), show)
    case PropertyValue(v) => Resolved(v)
    case GenericDispatch(run) => Settle(run([Str(action), Arr(args)]), show)
    case GenericNotFunction => Rejected(ErrorObject(JsError("TypeError", "instance.call is not a function")))
    case NotFound => Rejected(ErrorObject(JsError("Error", "No action named " + action)))
  }

  /** A truthy data member is returned as it is: no member is run, so the
      arguments make no difference. */
  lemma PropertyIgnoresArguments(inst: Instance, action: string, a1: seq<Value>, a2: seq<Value>, show: Value -> string)
    requires Present(inst, action) && inst.members[action].Property?
    ensures Call(inst, action, a1, show) == Call(inst, action, a2, show)
    ensures Call(inst, action, a1, show).Resolved?
  {
  }

  /** The metadata object is itself a member: `call("metadata")` resolves
      with it, and a `service:event` carries it along with the other data
      members. */
  lemma MetadataIsAMember(inst: Instance, args: seq<Value>, show: Value -> string)
    requires WellFormed(inst)
    ensures Call(inst, "metadata", args, show) == Resolved(Obj(inst.metadata))
    ensures "metadata" in Snapshot(inst) && Snapshot(inst)["metadata"] == Obj(inst.metadata)
  {
  }

  /** A method that throws `undefined` answers an invoke with the bare
      error name: `String(new Error(undefined))` is `"Error"`. */
  lemma ThrowingUndefinedReadsError(inst: Instance, action: string, args: seq<Value>, show: Value -> string)
    requires action in inst.members && inst.members[action].Method?
    requires inst.members[action].run(args) == Threw(NonError(Undefined))
    ensures Call(inst, action, args, show).Rejected?
    ensures Stringify(Call(inst, action, args, show).reason, show) == "Error"
  {
  }

  /** `Array.from` applied to `Set` values; every other value is kept. */
  function SetsToArrays(v: Value): (r: Value)
    ensures v.JsSet? ==> r == Arr(v.elems)
    ensures !v.JsSet? ==> r == v
    ensures !r.JsSet?
  {
    if v.JsSet? then Arr(v.elems) else v
  }

  /** The `definition` getter: id, instance id, and a copy of the metadata
      object with every `Set` value turned into an array. */
  function DefinitionOf(ls: LocalService): (d: Definition)
    ensures d.id == ls.id && d.instance == ls.instanceId
    ensures d.metadata.Keys == ls.instance.metadata.Keys
    ensures forall k :: k in d.metadata ==> d.metadata[k] == SetsToArrays(ls.instance.metadata[k])
  {
    Definition(ls.id, ls.instanceId, map k | k in ls.instance.metadata :: SetsToArrays(ls.instance.metadata[k]))
  }

  /** A definition carries no `Set`, and computing it from an object that
      already has none changes nothing. */
  lemma DefinitionIsSetFree(ls: LocalService)
    ensures forall k :: k in DefinitionOf(ls).metadata ==> !DefinitionOf(ls).metadata[k].JsSet?
    ensures (forall k :: k in ls.instance.metadata ==> !ls.instance.metadata[k].JsSet?) ==>
      DefinitionOf(ls).metadata == ls.instance.metadata
  {
  }

  /** The data part of the implementation object, which is what travels in
      the `instance` field of `service:event`. */
  function Snapshot(inst: Instance): (m: map<string, Value>)
    ensures forall k :: k in m <==> k in inst.members && inst.members[k].Property?
    ensures forall k :: k in m ==> m[k] == inst.members[k].value
  {
    map k | k in inst.members && inst.members[k].Property? :: inst.members[k].value
  }

  /** `subscribe`: the node goes to the end of the list; duplicates stay. */
  function Subscribe(ls: LocalService, node: NodeId): (r: LocalService)
    ensures r.id == ls.id && r.instanceId == ls.instanceId && r.instance == ls.instance
    ensures |r.subscriptions| == |ls.subscriptions| + 1
    ensures r.subscriptions[..|ls.subscriptions|] == ls.subscriptions
    ensures r.subscriptions[|ls.subscriptions|] == node
  {
    ls.(subscriptions := ls.subscriptions + [node])
  }

  /** `s` without its first occurrence of `x`. */
  function RemoveFirst(s: seq<NodeId>, x: NodeId): (r: seq<NodeId>)
    ensures |r| == if x in s then |s| - 1 else |s|
    ensures forall y :: y in r ==> y in s
    ensures x !in s ==> r == s
    ensures x in s ==> exists i :: 0 <= i < |s| && s[i] == x && x !in s[..i] && r == s[..i] + s[i + 1..]
  {
    if x in s then
      var i := FirstIndex(s, x);
      assert x !in s[..i] by {
        forall k | 0 <= k < i ensures s[..i][k] != x { assert s[..i][k] == s[k]; }
      }
      s[..i] + s[i + 1..]
    else s
  }

  /** `unsubscribe`, as evidently intended: drop the first entry with the
      node's id. */
  function Unsubscribe(ls: LocalService, node: NodeId): (r: LocalService)
    ensures r.id == ls.id && r.instanceId == ls.instanceId && r.instance == ls.instance
    ensures |r.subscriptions| == if node in ls.subscriptions then |ls.subscriptions| - 1 else |ls.subscriptions|
    ensures forall n :: n in r.subscriptions ==> n in ls.subscriptions
    ensures node !in ls.subscriptions ==> r == ls
    ensures var s := ls.subscriptions;
      node in s ==> exists i :: 0 <= i < |s| && s[i] == node && node !in s[..i] && r.subscriptions == s[..i] + s[i + 1..]
  {
    ls.(subscriptions := RemoveFirst(ls.subscriptions, node))
  }

  /** Unsubscribing takes away exactly one entry of that node when it has
      one. */
  lemma UnsubscribeDropsOneEntry(ls: LocalService, node: NodeId)
    ensures Count(Unsubscribe(ls, node).subscriptions, node) ==
      if node in ls.subscriptions then Count(ls.subscriptions, node) - 1 else 0
  {
    var s := ls.subscriptions;
    if node in s {
      var i := FirstIndex(s, node);
      assert s == s[..i] + [s[i]] + s[i + 1..];
      assert node !in s[..i];
      CountAppend(s[..i] + [s[i]], s[i + 1..], node);
      CountAppend(s[..i], [s[i]], node);
      CountAppend(s[..i], s[i + 1..], node);
      CountAbsent(s[..i], node);
    } else {
      CountAbsent(s, node);
    }
  }

  /** Unsubscribing one node leaves every other node's entries alone. */
  lemma UnsubscribeKeepsOthers(ls: LocalService, node: NodeId, other: NodeId)
    requires other != node
    ensures Count(Unsubscribe(ls, node).subscriptions, other) == Count(ls.subscriptions, other)
  {
    var s := ls.subscriptions;
    if node in s {
      var i := FirstIndex(s, node);
      assert s == s[..i] + [s[i]] + s[i + 1..];
      CountAppend(s[..i] + [s[i]], s[i + 1..], other);
      CountAppend(s[..i], [s[i]], other);
      CountAppend(s[..i], s[i + 1..], other);
    }
  }

  /** `unsubscribe` as written: `find` returns the matching node (or
      `undefined`), not an index, so `idx >= 0`, where `idx` is the found
      node or `undefined`, compares NaN with 0, which is false, and the
      splice never runs. */
  function UnsubscribeAsWritten(ls: LocalService, node: NodeId): (r: LocalService)
    ensures r.subscriptions == ls.subscriptions
  {
    ls
  }

  /** Subscribing a node that was not subscribed and then unsubscribing it
      restores the service. */
  lemma SubscribeThenUnsubscribe(ls: LocalService, node: NodeId)
    requires node !in ls.subscriptions
    ensures Unsubscribe(Subscribe(ls, node), node) == ls
  {
    var s := ls.subscriptions + [node];
    assert s[|ls.subscriptions|] == node;
    var i := FirstIndex(s, node);
    assert forall j :: 0 <= j < |ls.subscriptions| ==> s[j] == ls.subscriptions[j];
    assert i == |ls.subscriptions|;
    assert s[..i] == ls.subscriptions;
  }

  /** Finding: with the code as written, a subscribed node is still
      subscribed after asking to unsubscribe, one entry more than intended. */
  lemma UnsubscribeAsWrittenKeepsNode(ls: LocalService, node: NodeId)
    requires node in ls.subscriptions
    ensures node in UnsubscribeAsWritten(ls, node).subscriptions
    ensures Count(UnsubscribeAsWritten(ls, node).subscriptions, node) == Count(Unsubscribe(ls, node).subscriptions, node) + 1
  {
    UnsubscribeDropsOneEntry(ls, node);
    CountAbsent(ls.subscriptions, node);
  }

  /** The local listeners of the service, notified after the fan-out. */
  datatype Listeners = Listeners(name: string, payload: Value)

  /** `emitEvent`: one `service:event` per subscription entry, in list order,
      then the local listeners. */
  function EmitEvent(ls: LocalService, name: string, payload: Value): (r: seq<Effect<Listeners>>)
    ensures |r| == |ls.subscriptions| + 1
    ensures forall i :: 0 <= i < |ls.subscriptions| ==>
      r[i] == Send(ls.subscriptions[i], ServiceEvent(ls.id, Snapshot(ls.instance), name, payload))
    ensures r[|ls.subscriptions|] == Signal(Listeners(name, payload))
  {
    FanOut(ls.subscriptions, ServiceEvent(ls.id, Snapshot(ls.instance), name, payload)) + [Signal(Listeners(name, payload))]
  }

  /** The same message sent to each node of the list, in order. */
  function FanOut(nodes: seq<NodeId>, msg: Message): (r: seq<Effect<Listeners>>)
    ensures |r| == |nodes|
    ensures forall i :: 0 <= i < |nodes| ==> r[i] == Send(nodes[i], msg)
  {
    if nodes == [] then [] else [Send(nodes[0], msg)] + FanOut(nodes[1..], msg)
  }

  lemma {:induction false} FanOutReachesEachEntry(nodes: seq<NodeId>, msg: Message, n: NodeId)
    ensures SendsTo(FanOut(nodes, msg), n) == Count(nodes, n)
  {
    if nodes != [] {
      var r := FanOut(nodes, msg);
      assert r[1..] == FanOut(nodes[1..], msg);
      FanOutReachesEachEntry(nodes[1..], msg, n);
    }
  }

  /** A node receives an event once per time it appears in the subscriber
      list; a node that subscribes once receives exactly one copy. */
  lemma {:induction false} EmitReachesSubscribers(ls: LocalService, name: string, payload: Value, n: NodeId)
    ensures SendsTo(EmitEvent(ls, name, payload), n) == Count(ls.subscriptions, n)
    ensures n !in ls.subscriptions ==> SendsTo(EmitEvent(Subscribe(ls, n), name, payload), n) == 1
  {
    var msg := ServiceEvent(ls.id, Snapshot(ls.instance), name, payload);
    SendsAppend(FanOut(ls.subscriptions, msg), [Signal(Listeners(name, payload))], n);
    FanOutReachesEachEntry(ls.subscriptions, msg, n);
    var ls' := Subscribe(ls, n);
    SendsAppend(FanOut(ls'.subscriptions, msg), [Signal(Listeners(name, payload))], n);
    FanOutReachesEachEntry(ls'.subscriptions, msg, n);
    CountAppend(ls.subscriptions, [n], n);
    CountAbsent(ls.subscriptions, n);
  }

  lemma {:induction false} SendsAppend(a: seq<Effect<Listeners>>, b: seq<Effect<Listeners>>, n: NodeId)
    ensures SendsTo(a + b, n) == SendsTo(a, n) + SendsTo(b, n)
  {
    if a == [] {
      assert a + b == b;
    } else {
      assert (a + b)[1..] == a[1..] + b;
      SendsAppend(a[1..], b, n);
    }
  }
}
