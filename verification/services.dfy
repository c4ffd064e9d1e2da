/** The distributed service registry: a JavaScript `Map` from id to a local
    or remote service, with one pure transition per network event and per
    message type. Each transition returns the new registry and the effects
    it asks for (messages to send, events to emit). */
module Services {
  import opened Js
  import opened Seqs
  import opened Wire
  import opened LocalServices

  /** A proxy for a service hosted on another node. Its pending-call table
      and any later definitions belong to the RemoteService class, outside
      this model. */
  datatype RemoteService = RemoteService(id: ServiceId, node: NodeId, announcement: Announcement)

  datatype Service = Local(local: LocalService) | Remote(remote: RemoteService) {
    function Id(): ServiceId {
      match this
      case Local(l) => l.id
      case Remote(r) => r.id
    }
  }

  /** Calls into the RemoteService and Service base classes, outside this
      model, recorded rather than interpreted. */
  datatype ProxyCall =
    | UpdateDefinition(data: Announcement)
    | ReceiveEvent(name: string, payload: Value)
    | ReceiveReply(seqNo: int, reply: Reply)

  /** Process-local effects: the registry's `available`/`unavailable` events
      and forwarded proxy calls. */
  datatype Notice =
    | Available(service: Service)
    | Unavailable(service: Service)
    | Forwarded(target: ServiceId, call: ProxyCall)

  /** `order` is the Map's insertion order, which its iteration follows. */
  datatype Registry = Registry(netId: NodeId, services: map<ServiceId, Service>, order: seq<ServiceId>)

  datatype Step = Step(state: Registry, effects: seq<Effect<Notice>>)

  /** Every reachable registry: the order lists each key once, and each
      service is stored under its own id. */
  ghost predicate Valid(reg: Registry) {
    && Distinct(reg.order)
    && (forall k :: k in reg.order <==> k in reg.services)
    && (forall k :: k in reg.services ==> reg.services[k].Id() == k)
  }

  function Init(netId: NodeId): (r: Registry)
    ensures Valid(r) && r.services == map[]
  {
    Registry(netId, map[], [])
  }

  /** `services.set(id, s)`: an existing key keeps its place in the order. */
  function Put(reg: Registry, id: ServiceId, s: Service): (r: Registry)
    ensures r.netId == reg.netId && r.services == reg.services[id := s]
    ensures id in reg.services ==> r.order == reg.order
    ensures id !in reg.services ==> r.order == reg.order + [id]
    ensures Valid(reg) && s.Id() == id ==> Valid(r)
  {
    var order := if id in reg.services then reg.order else reg.order + [id];
    assert Valid(reg) && id !in reg.services ==> Distinct(order) by {
      if Valid(reg) && id !in reg.services {
        assert forall i :: 0 <= i < |reg.order| ==> order[i] == reg.order[i];
        assert order[|reg.order|] == id;
      }
    }
    reg.(services := reg.services[id := s], order := order)
  }

  /** `services.delete(id)`: the key's one position leaves the order and
      every other key keeps its place relative to the rest. */
  function Delete(reg: Registry, id: ServiceId): (r: Registry)
    ensures r.netId == reg.netId && r.services == reg.services - {id}
    ensures Valid(reg) ==> Valid(r)
    ensures id !in reg.order ==> r.order == reg.order
    ensures Valid(reg) && id in reg.services ==>
      var i := FirstIndex(reg.order, id);
      reg.order[i] == id && r.order == reg.order[..i] + reg.order[i + 1..]
  {
    assert Valid(reg) && id in reg.services ==>
      Without(reg.order, id) == reg.order[..FirstIndex(reg.order, id)] + reg.order[FirstIndex(reg.order, id) + 1..] by {
      if Valid(reg) && id in reg.services { WithoutDistinct(reg.order, id); }
    }
    reg.(services := reg.services - {id}, order := Without(reg.order, id))
  }

  /** The ids of `order`, in order, whose service satisfies `pick`. */
  function Select(services: map<ServiceId, Service>, order: seq<ServiceId>, pick: Service -> bool): (r: seq<ServiceId>)
    ensures forall k :: k in r <==> k in order && k in services && pick(services[k])
    ensures Distinct(order) ==> Distinct(r)
    ensures forall i, j :: 0 <= i < j < |r| ==> InOrder(order, r[i], r[j])
    ensures |r| <= |order|
  {
    if order == [] then []
    else
      var rest := Select(services, order[1..], pick);
      assert Distinct(order) ==> order[0] !in order[1..] && Distinct(order[1..]) by {
        if Distinct(order) { DistinctTail(order); }
      }
      var r := if order[0] in services && pick(services[order[0]]) then [order[0]] + rest else rest;
      assert forall i, j :: 0 <= i < j < |r| ==> InOrder(order, r[i], r[j]) by {
        forall i, j | 0 <= i < j < |r| ensures InOrder(order, r[i], r[j]) {
          if r == rest {
            InOrderCons(order, r[i], r[j]);
          } else if i == 0 {
            assert r[j] == rest[j - 1];
            InOrderCons(order, r[i], r[j]);
          } else {
            assert r[i] == rest[i - 1] && r[j] == rest[j - 1];
            InOrderCons(order, r[i], r[j]);
          }
        }
      }
      r
  }

  /** The instance id a local service is given: the node's id, a colon and a
      freshly generated suffix (the generator is not modelled). */
  function InstanceId(netId: NodeId, suffix: string): (r: string)
    ensures |r| == |netId| + 1 + |suffix|
    ensures r[..|netId| + 1] == netId + ":" && r[|netId| + 1..] == suffix
  {
    netId + ":" + suffix
  }

  /** Two nodes never hand out the same instance id for the same suffix. */
  lemma InstanceIdNamesNode(a: NodeId, b: NodeId, suffix: string)
    requires InstanceId(a, suffix) == InstanceId(b, suffix)
    ensures a == b
  {
    var r := InstanceId(a, suffix);
    assert |a| == |b|;
    assert a == r[..|a|];
    assert b == InstanceId(b, suffix)[..|b|];
  }

  /** The instance id as written: `parent.id` reads the registry object,
      which has no `id` property, so the prefix is always `undefined`. */
  function InstanceIdAsWritten(netId: NodeId, suffix: string): (r: string)
    ensures r == "undefined:" + suffix
  {
    "undefined" + ":" + suffix
  }

  /** Finding: as written, two nodes that draw the same suffix produce the
      same instance id, whereas the intended ids differ. */
  lemma InstanceIdAsWrittenIgnoresNode(suffix: string)
    ensures InstanceIdAsWritten("A", suffix) == InstanceIdAsWritten("B", suffix)
    ensures InstanceId("A", suffix) != InstanceId("B", suffix)
  {
    if InstanceId("A", suffix) == InstanceId("B", suffix) {
      InstanceIdNamesNode("A", "B", suffix);
    }
  }

  /** `register(id, instance)`: bind `id` to a new local service, replacing
      whatever was there, announce it to every peer and emit `available`. */
  function Register(reg: Registry, id: ServiceId, instance: Instance, suffix: string): (r: Step)
    ensures id in r.state.services && r.state.services[id].Local?
    ensures r.state.services[id].local == LocalService(id, InstanceId(reg.netId, suffix), instance, [])
    ensures r.state.services.Keys == reg.services.Keys + {id}
    ensures forall k :: k in reg.services && k != id ==> r.state.services[k] == reg.services[k]
    ensures r.effects == [ Broadcast(ServiceAvailable(Full(DefinitionOf(r.state.services[id].local)))),
                           Signal(Available(r.state.services[id])) ]
    ensures Valid(reg) ==> Valid(r.state)
  {
    var ls := LocalService(id, InstanceId(reg.netId, suffix), instance, []);
    Step(Put(reg, id, Local(ls)),
         [Broadcast(ServiceAvailable(Full(DefinitionOf(ls)))), Signal(Available(Local(ls)))])
  }

  /** `remove(id)`: only a local service is removed; it is announced as gone
      and `unavailable` is emitted. Anything else is left alone. */
  function Remove(reg: Registry, id: ServiceId): (r: Step)
    ensures !(id in reg.services && reg.services[id].Local?) ==> r == Step(reg, [])
    ensures id in reg.services && reg.services[id].Local? ==>
      && r.state.services == reg.services - {id}
      && r.effects == [ Broadcast(ServiceUnavailable(DefinitionOf(reg.services[id].local))),
                        Signal(Unavailable(reg.services[id])) ]
    ensures Valid(reg) ==> Valid(r.state)
  {
    if id in reg.services && reg.services[id].Local? then
      var s := reg.services[id];
      Step(Delete(reg, id), [Broadcast(ServiceUnavailable(DefinitionOf(s.local))), Signal(Unavailable(s))])
    else
      Step(reg, [])
  }

  /** Removing twice is removing once: the second call finds nothing. */
  lemma RemoveIsIdempotent(reg: Registry, id: ServiceId)
    ensures Remove(Remove(reg, id).state, id) == Step(Remove(reg, id).state, [])
  {
  }

  /** Registering and then removing a service leaves every other binding as
      it was; a previous binding of the same id is gone for good. */
  lemma RegisterThenRemove(reg: Registry, id: ServiceId, instance: Instance, suffix: string)
    ensures Remove(Register(reg, id, instance, suffix).state, id).state.services == reg.services - {id}
  {
  }

  /** A service is a remote hosted by node `n`. */
  predicate RemoteOf(s: Service, n: NodeId) {
    s.Remote? && s.remote.node == n
  }

  /** The local services' ids in registration order. */
  function LocalIds(reg: Registry): (r: seq<ServiceId>)
    ensures forall k :: k in r <==> k in reg.order && k in reg.services && reg.services[k].Local?
    ensures Distinct(reg.order) ==> Distinct(r)
    ensures forall i, j :: 0 <= i < j < |r| ==> InOrder(reg.order, r[i], r[j])
  {
    Select(reg.services, reg.order, (s: Service) => s.Local?)
  }

  /** The ids of the remote services hosted by `node`, in map order. */
  function RemoteIdsOf(reg: Registry, node: NodeId): (r: seq<ServiceId>)
    ensures forall k :: k in r <==> k in reg.order && k in reg.services && RemoteOf(reg.services[k], node)
    ensures Distinct(reg.order) ==> Distinct(r)
    ensures forall i, j :: 0 <= i < j < |r| ==> InOrder(reg.order, r[i], r[j])
  {
    Select(reg.services, reg.order, (s: Service) => RemoteOf(s, node))
  }

  /** A node connected: push every local service to it, and only to it, in
      registration order. */
  function NodeAvailable(reg: Registry, node: NodeId): (r: seq<Effect<Notice>>)
    ensures var locals := LocalIds(reg);
      && |r| == |locals|
      && forall i :: 0 <= i < |locals| ==>
           r[i] == Send(node, ServiceAvailable(Brief(reg.services[locals[i]].local.id)))
  {
    var locals := LocalIds(reg);
    seq(|locals|, i requires 0 <= i < |locals| => Send(node, ServiceAvailable(Brief(reg.services[locals[i]].local.id))))
  }

  /** In a valid registry every local service is pushed exactly once, nothing
      else is pushed, and nothing is broadcast. */
  lemma NodeAvailablePushesEachLocalOnce(reg: Registry, node: NodeId)
    requires Valid(reg)
    ensures forall e :: e in NodeAvailable(reg, node) ==> e.Send? && e.to == node
    ensures forall id :: Send(node, ServiceAvailable(Brief(id))) in NodeAvailable(reg, node) <==>
      id in reg.services && reg.services[id].Local?
    ensures forall i, j :: 0 <= i < j < |NodeAvailable(reg, node)| ==>
      NodeAvailable(reg, node)[i] != NodeAvailable(reg, node)[j]
  {
    var locals := LocalIds(reg);
    var r := NodeAvailable(reg, node);
    forall id
      ensures Send(node, ServiceAvailable(Brief(id))) in r <==> id in reg.services && reg.services[id].Local?
    {
      if id in reg.services && reg.services[id].Local? {
        var i :| 0 <= i < |locals| && locals[i] == id;
        assert r[i] == Send(node, ServiceAvailable(Brief(id)));
      }
    }
  }

  /** A node went away: drop exactly its remote services, emitting
      `unavailable` for each in map order; everything else stays. */
  function NodeUnavailable(reg: Registry, node: NodeId): (r: Step)
    ensures forall k :: k in r.state.services <==> k in reg.services && !RemoteOf(reg.services[k], node)
    ensures forall k :: k in r.state.services ==> r.state.services[k] == reg.services[k]
    ensures var gone := RemoteIdsOf(reg, node);
      && |r.effects| == |gone|
      && forall i :: 0 <= i < |gone| ==> r.effects[i] == Signal(Unavailable(reg.services[gone[i]]))
    ensures forall i, j :: 0 <= i < j < |r.state.order| ==> InOrder(reg.order, r.state.order[i], r.state.order[j])
    ensures Valid(reg) ==> Valid(r.state)
  {
    var gone := RemoteIdsOf(reg, node);
    var kept := map k | k in reg.services && !RemoteOf(reg.services[k], node) :: reg.services[k];
    var order := Select(reg.services, reg.order, (s: Service) => !RemoteOf(s, node));
    Step(Registry(reg.netId, kept, order),
         seq(|gone|, i requires 0 <= i < |gone| => Signal(Unavailable(reg.services[gone[i]]))))
  }

  /** In a valid registry one `unavailable` is emitted per remote service of
      the departed node and for no other service. */
  lemma NodeUnavailableEmitsOncePerRemote(reg: Registry, node: NodeId)
    requires Valid(reg)
    ensures forall e :: e in NodeUnavailable(reg, node).effects ==>
      e.Signal? && e.event.Unavailable? && RemoteOf(e.event.service, node)
    ensures forall k :: k in reg.services && RemoteOf(reg.services[k], node) ==>
      Signal(Unavailable(reg.services[k])) in NodeUnavailable(reg, node).effects
    ensures forall i, j :: 0 <= i < j < |NodeUnavailable(reg, node).effects| ==>
      NodeUnavailable(reg, node).effects[i] != NodeUnavailable(reg, node).effects[j]
  {
    var gone := RemoteIdsOf(reg, node);
    var r := NodeUnavailable(reg, node).effects;
    forall k | k in reg.services && RemoteOf(reg.services[k], node)
      ensures Signal(Unavailable(reg.services[k])) in r
    {
      var i :| 0 <= i < |gone| && gone[i] == k;
      assert r[i] == Signal(Unavailable(reg.services[k]));
    }
    forall i, j | 0 <= i < j < |r| ensures r[i] != r[j] {
      assert reg.services[gone[i]].Id() == gone[i];
      assert reg.services[gone[j]].Id() == gone[j];
    }
  }

  /** `service:available`: an unknown id becomes a remote service of the
      sender and `available` is emitted; a known id keeps its entry and only
      has its definition updated. */
  function HandleServiceAvailable(reg: Registry, node: NodeId, data: Announcement): (r: Step)
    ensures data.Id() !in reg.services ==>
      && r.state.services == reg.services[data.Id() := Remote(RemoteService(data.Id(), node, data))]
      && r.effects == [Signal(Available(Remote(RemoteService(data.Id(), node, data))))]
    ensures data.Id() in reg.services ==>
      r == Step(reg, [Signal(Forwarded(data.Id(), UpdateDefinition(data)))])
    ensures r.state.services.Keys == reg.services.Keys + {data.Id()}
    ensures Valid(reg) ==> Valid(r.state)
  {
    var id := data.Id();
    if id !in reg.services then
      var s := Remote(RemoteService(id, node, data));
      Step(Put(reg, id, s), [Signal(Available(s))])
    else
      Step(reg, [Signal(Forwarded(id, UpdateDefinition(data)))])
  }

  /** `service:unavailable`: only a remote service is deleted, whichever node
      sent the message. */
  function HandleServiceUnavailable(reg: Registry, node: NodeId, def: Definition): (r: Step)
    ensures !(def.id in reg.services && reg.services[def.id].Remote?) ==> r == Step(reg, [])
    ensures def.id in reg.services && reg.services[def.id].Remote? ==>
      && r.state.services == reg.services - {def.id}
      && r.effects == [Signal(Unavailable(reg.services[def.id]))]
    ensures Valid(reg) ==> Valid(r.state)
  {
    if def.id in reg.services && reg.services[def.id].Remote? then
      Step(Delete(reg, def.id), [Signal(Unavailable(reg.services[def.id]))])
    else
      Step(reg, [])
  }

  /** `service:subscribe`: the sender goes to the end of a local service's
      subscriber list; other targets are ignored. */
  function HandleServiceSubscribe(reg: Registry, node: NodeId, id: ServiceId): (r: Step)
    ensures r.effects == []
    ensures !(id in reg.services && reg.services[id].Local?) ==> r.state == reg
    ensures id in reg.services && reg.services[id].Local? ==>
      r.state.services == reg.services[id := Local(Subscribe(reg.services[id].local, node))]
    ensures Valid(reg) ==> Valid(r.state) && r.state.order == reg.order
  {
    if id in reg.services && reg.services[id].Local? then
      Step(Put(reg, id, Local(Subscribe(reg.services[id].local, node))), [])
    else
      Step(reg, [])
  }

  /** `service:unsubscribe`: the sender's first entry leaves a local
      service's subscriber list; other targets are ignored. */
  function HandleServiceUnsubscribe(reg: Registry, node: NodeId, id: ServiceId): (r: Step)
    ensures r.effects == []
    ensures !(id in reg.services && reg.services[id].Local?) ==> r.state == reg
    ensures id in reg.services && reg.services[id].Local? ==>
      r.state.services == reg.services[id := Local(Unsubscribe(reg.services[id].local, node))]
    ensures Valid(reg) ==> Valid(r.state) && r.state.order == reg.order
  {
    if id in reg.services && reg.services[id].Local? then
      Step(Put(reg, id, Local(Unsubscribe(reg.services[id].local, node))), [])
    else
      Step(reg, [])
  }

  /** `service:event`: handed to a remote service's proxy, dropped otherwise. */
  function HandleServiceEvent(reg: Registry, node: NodeId, id: ServiceId, name: string, payload: Value): (r: Step)
    ensures r.state == reg
    ensures id in reg.services && reg.services[id].Remote? ==>
      r.effects == [Signal(Forwarded(id, ReceiveEvent(name, payload)))]
    ensures !(id in reg.services && reg.services[id].Remote?) ==> r.effects == []
  {
    if id in reg.services && reg.services[id].Remote? then
      Step(reg, [Signal(Forwarded(id, ReceiveEvent(name, payload)))])
    else
      Step(reg, [])
  }

  /** The reply owed for one `service:invoke`. */
  function InvokeReply(reg: Registry, id: ServiceId, action: string, args: seq<Value>, show: Value -> string): (r: Reply)
    ensures !(id in reg.services && reg.services[id].Local?) ==> r == Error("Unknown service")
    ensures id in reg.services && reg.services[id].Local? ==>
      var outcome := Call(reg.services[id].local.instance, action, args, show);
      && (outcome.Resolved? ==> r == Result(outcome.value))
      && (outcome.Rejected? ==> r == Error(Stringify(outcome.reason, show)))
  {
    if !(id in reg.services && reg.services[id].Local?) then Error("Unknown service")
    else
      match Call(reg.services[id].local.instance, action, args, show)
      case Resolved(v) => Result(v)
      case Rejected(t) => Error(Stringify(t, show))
  }

  /** `service:invoke`: exactly one result goes back to the sender, for the
      same service and sequence number; the registry does not change. */
  function HandleServiceInvoke(reg: Registry, node: NodeId, id: ServiceId, action: string, args: seq<Value>,
                               seqNo: int, show: Value -> string): (r: Step)
    ensures r.state == reg
    ensures |r.effects| == 1 && r.effects[0].Send? && r.effects[0].to == node
    ensures r.effects[0].msg == ServiceInvokeResult(id, seqNo, InvokeReply(reg, id, action, args, show))
  {
    Step(reg, [Send(node, ServiceInvokeResult(id, seqNo, InvokeReply(reg, id, action, args, show)))])
  }

  /** `service:invoke-result`: handed to a remote service's proxy, dropped
      otherwise. */
  function HandleServiceInvokeResult(reg: Registry, node: NodeId, id: ServiceId, seqNo: int, reply: Reply): (r: Step)
    ensures r.state == reg
    ensures id in reg.services && reg.services[id].Remote? ==>
      r.effects == [Signal(Forwarded(id, ReceiveReply(seqNo, reply)))]
    ensures !(id in reg.services && reg.services[id].Remote?) ==> r.effects == []
  {
    if id in reg.services && reg.services[id].Remote? then
      Step(reg, [Signal(Forwarded(id, ReceiveReply(seqNo, reply)))])
    else
      Step(reg, [])
  }

  /** `_handleMessage`: dispatch on the message type; other types change
      nothing. */
  function HandleMessage(reg: Registry, env: Envelope, show: Value -> string): (r: Step)
    ensures Valid(reg) ==> Valid(r.state)
    ensures r.state.netId == reg.netId
    ensures (env.msg.Device? || env.msg.DeviceGone? || env.msg.Other?) ==> r == Step(reg, [])
  {
    var node := env.returnPath;
    match env.msg
    case ServiceAvailable(data) => HandleServiceAvailable(reg, node, data)
    case ServiceUnavailable(def) => HandleServiceUnavailable(reg, node, def)
    case ServiceSubscribe(id) => HandleServiceSubscribe(reg, node, id)
    case ServiceUnsubscribe(id) => HandleServiceUnsubscribe(reg, node, id)
    case ServiceEvent(id, _, name, payload) => HandleServiceEvent(reg, node, id, name, payload)
    case ServiceInvoke(id, action, args, seqNo) => HandleServiceInvoke(reg, node, id, action, args, seqNo, show)
    case ServiceInvokeResult(id, seqNo, reply) => HandleServiceInvokeResult(reg, node, id, seqNo, reply)
    case _ => Step(reg, [])
  }

  /** Only `service:available`, `service:unavailable` and the subscription
      messages change the registry; a local service is only ever changed in
      its subscriber list and never removed by a message. */
  lemma MessagesNeverDropLocals(reg: Registry, env: Envelope, show: Value -> string, id: ServiceId)
    requires id in reg.services && reg.services[id].Local?
    ensures id in HandleMessage(reg, env, show).state.services
    ensures var s := HandleMessage(reg, env, show).state.services[id];
      s.Local? && s.local.id == reg.services[id].local.id && s.local.instance == reg.services[id].local.instance
  {
  }

  /** Two nodes: one registers `light-1`, whose `on` action returns `true`.
      An invoke of `on` with sequence number 7 is answered to the caller with
      that result; an invoke of a missing action is answered with the
      stringified error; an invoke naming an unknown service is answered
      with "Unknown service". */
  lemma LightScenario(reg: Registry, light: Instance, show: Value -> string)
    requires "on" in light.members && light.members["on"].Method?
    requires light.members["on"].run([]) == Returned(Bool(true))
    requires "missing" !in light.members && "call" !in light.members
    ensures var x := Register(reg, "light-1", light, "1").state;
      && HandleServiceInvoke(x, "Y", "light-1", "on", [], 7, show).effects
           == [Send("Y", ServiceInvokeResult("light-1", 7, Result(Bool(true))))]
      && HandleServiceInvoke(x, "Y", "light-1", "missing", [], 8, show).effects
           == [Send("Y", ServiceInvokeResult("light-1", 8, Error("Error: No action named missing")))]
      && (forall other :: other != "light-1" && other !in reg.services ==>
            HandleServiceInvoke(x, "Y", other, "on", [], 9, show).effects
              == [Send("Y", ServiceInvokeResult(other, 9, Error("Unknown service")))])
  {
    var x := Register(reg, "light-1", light, "1").state;
    var ls := x.services["light-1"].local;
    var e := JsError("Error", "No action named " + "missing");
    assert "No action named " + "missing" == "No action named missing";
    assert Call(ls.instance, "missing", [], show) == Rejected(ErrorObject(e));
    assert ErrorToString(e) == "Error" + ": " + "No action named missing";
    assert InvokeReply(x, "light-1", "missing", [], show) == Error("Error: No action named missing");
  }
}
