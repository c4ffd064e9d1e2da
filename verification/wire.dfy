/** The records and messages that travel between nodes, and the effects a
    registry transition asks its environment to perform. */
module Wire {
  import opened Js

  type NodeId = string
  type DeviceId = string
  type ServiceId = string

  /** A device as announced: `peer` is the node that told us about it (maybe
      a relay), `owner` the node that created it. */
  datatype DeviceRecord = DeviceRecord(id: DeviceId, peer: NodeId, owner: NodeId, methods: seq<string>)

  /** An authoritative record came directly from its owner. */
  predicate Authoritative(d: DeviceRecord) {
    d.owner == d.peer
  }

  /** The wire `definition` of a local service: id, instance id and a
      metadata object whose `Set`s have been turned into arrays. */
  datatype Definition = Definition(id: ServiceId, instance: string, metadata: map<string, Value>)

  /** The payload of `service:available`: a full definition (sent on
      registration) or the short `{id, distance}` form pushed to a node that
      has just connected. The distance is `bestDistance` of the
      Service base class, outside this model, and is not modelled. */
  datatype Announcement =
    | Full(def: Definition)
    | Brief(id: ServiceId)
  {
    function Id(): ServiceId {
      match this
      case Full(d) => d.id
      case Brief(i) => i
    }
  }

  /** The outcome carried by `service:invoke-result`: exactly one of
      `result` and `error`. */
  datatype Reply = Result(value: Value) | Error(text: string)

  /** Every message type the registries read; `Other` stands for the rest
      (handshake frames, unknown types). */
  datatype Message =
    | Device(device: DeviceRecord)
    | DeviceGone(id: DeviceId, peer: NodeId)
    | ServiceAvailable(announcement: Announcement)
    | ServiceUnavailable(def: Definition)
    | ServiceSubscribe(service: ServiceId)
    | ServiceUnsubscribe(service: ServiceId)
    | ServiceEvent(service: ServiceId, instance: map<string, Value>, name: string, payload: Value)
    | ServiceInvoke(service: ServiceId, action: string, arguments: seq<Value>, seqNo: int)
    | ServiceInvokeResult(service: ServiceId, seqNo: int, reply: Reply)
    | Other(kind: string)

  /** A received message together with the node it came from. */
  datatype Envelope = Envelope(returnPath: NodeId, msg: Message)

  /** What a transition asks for: a message to every peer, a message to one
      node, or a process-local signal (an emitted event or a call into code
      this model does not cover). */
  datatype Effect<E> =
    | Broadcast(msg: Message)
    | Send(to: NodeId, msg: Message)
    | Signal(event: E)

  /** How many effects send a message to node `n`. */
  function SendsTo<E>(effects: seq<Effect<E>>, n: NodeId): nat {
    if effects == [] then 0
    else (if effects[0].Send? && effects[0].to == n then 1 else 0) + SendsTo(effects[1..], n)
  }
}
