/** The device registry: every device this node knows of, keyed by id, and
    the devices registered on this node itself. Announcements are accepted
    unless they would displace a record received directly from its owner. */
module DeviceRegistry {
  import opened Js
  import opened Seqs
  import opened Wire

  /** `deviceConnected` carries the stored record; `deviceDisconnected`
      carries the stored record when a peer leaves, and the message's own
      `{id, peer}` when a `device:disconnected` message retracts it. */
  datatype DeviceSignal =
    | DeviceConnected(device: DeviceRecord)
    | DeviceDisconnected(device: DeviceRecord)
    | DeviceRetracted(id: DeviceId, peer: NodeId)

  datatype Registry = Registry(
    netId: NodeId,
    devices: map<DeviceId, DeviceRecord>,
    local: map<DeviceId, DeviceRecord>)

  datatype Step = Step(state: Registry, effects: seq<Effect<DeviceSignal>>)

  /** The constructor: both tables start empty. */
  function Init(netId: NodeId): (r: Registry)
    ensures r.netId == netId && r.devices == map[] && r.local == map[]
    ensures KeysAgree(r) && LocalsKnown(r)
  {
    Registry(netId, map[], map[])
  }

  /** Every record is stored under its own id. */
  ghost predicate KeysAgree(reg: Registry) {
    && (forall k :: k in reg.devices ==> reg.devices[k].id == k)
    && (forall k :: k in reg.local ==> reg.local[k].id == k)
  }

  /** Every local device still has its record in the device table. */
  ghost predicate LocalsKnown(reg: Registry) {
    forall k :: k in reg.local ==> k in reg.devices && reg.devices[k] == reg.local[k]
  }

  /** An announcement is taken unless the device is local, or the stored
      record came straight from its owner and this one arrives from another
      peer. */
  predicate Accepts(reg: Registry, d: DeviceRecord) {
    && d.id !in reg.local
    && !(d.id in reg.devices && Authoritative(reg.devices[d.id]) && d.peer != reg.devices[d.id].peer)
  }

  /** A `device` announcement. */
  function RegisterDevice(reg: Registry, d: DeviceRecord): (r: Step)
    ensures d.id in reg.local ==> r == Step(reg, [])
    ensures d.id !in reg.local && d.id !in reg.devices ==>
      r == Step(reg.(devices := reg.devices[d.id := d]), [Signal(DeviceConnected(d))])
    ensures d.id !in reg.local && d.id in reg.devices && Authoritative(reg.devices[d.id]) ==>
      (d.peer != reg.devices[d.id].peer <==> r == Step(reg, []))
    ensures Accepts(reg, d) <==> r == Step(reg.(devices := reg.devices[d.id := d]), [Signal(DeviceConnected(d))])
    ensures !Accepts(reg, d) <==> r == Step(reg, [])
  {
    if d.id in reg.local then Step(reg, [])
    else if d.id in reg.devices && reg.devices[d.id].owner == reg.devices[d.id].peer
            && d.peer != reg.devices[d.id].peer then Step(reg, [])
    else Step(reg.(devices := reg.devices[d.id := d]), [Signal(DeviceConnected(d))])
  }

  /** An authoritative announcement wins over a relayed one for the same
      device, whichever arrives first. */
  lemma AuthoritativeWins(reg: Registry, a: DeviceRecord, b: DeviceRecord)
    requires a.id == b.id && Accepts(reg, a)
    requires Authoritative(a) && b.owner == a.owner && !Authoritative(b)
    ensures RegisterDevice(RegisterDevice(reg, a).state, b).state.devices[a.id] == a
    ensures RegisterDevice(RegisterDevice(reg, b).state, a).state.devices[a.id] == a
  {
  }

  /** `register(id, methods)`: this node owns and relays the device; it goes
      into both tables, is announced to every peer and `deviceConnected` is
      emitted. */
  function Register(reg: Registry, id: DeviceId, methods: seq<string>): (r: Step)
    ensures var d := DeviceRecord(id, reg.netId, reg.netId, methods);
      && r.state == reg.(devices := reg.devices[id := d], local := reg.local[id := d])
      && r.effects == [Broadcast(Device(d)), Signal(DeviceConnected(d))]
    ensures KeysAgree(reg) ==> KeysAgree(r.state)
    ensures LocalsKnown(reg) ==> LocalsKnown(r.state)
  {
    var d := DeviceRecord(id, reg.netId, reg.netId, methods);
    Step(reg.(devices := reg.devices[id := d], local := reg.local[id := d]),
         [Broadcast(Device(d)), Signal(DeviceConnected(d))])
  }

  /** A `device:disconnected` message, as evidently intended: look the
      device up by the message's id; an unknown id, or a stored record that
      arrived via another peer, leaves everything as it is. */
  function RemoveDevice(reg: Registry, id: DeviceId, peer: NodeId): (r: Step)
    ensures !(id in reg.devices && reg.devices[id].peer == peer) ==> r == Step(reg, [])
    ensures id in reg.devices && reg.devices[id].peer == peer ==>
      r == Step(reg.(devices := reg.devices - {id}), [Signal(DeviceRetracted(id, peer))])
    ensures KeysAgree(reg) ==> KeysAgree(r.state)
    ensures LocalsKnown(reg) && peer != reg.netId && (forall k :: k in reg.local ==> reg.local[k].peer == reg.netId)
      ==> LocalsKnown(r.state)
  {
    if id !in reg.devices then Step(reg, [])
    else if reg.devices[id].peer != peer then Step(reg, [])
    else Step(reg.(devices := reg.devices - {id}), [Signal(DeviceRetracted(id, peer))])
  }

  /** A `device:disconnected` message as written: the lookup reads an
      undeclared variable `id`, which throws a ReferenceError before any
      check is made. */
  function RemoveDeviceAsWritten(reg: Registry, id: DeviceId, peer: NodeId): (r: Result<Step>)
    ensures r == Failure(ErrorObject(JsError("ReferenceError", "id is not defined")))
  {
    Failure(ErrorObject(JsError("ReferenceError", "id is not defined")))
  }

  /** Finding: as written, a retraction from the very peer the record came
      from never removes it, while the intended handler does. */
  lemma RemoveDeviceAsWrittenNeverRemoves(reg: Registry, id: DeviceId, peer: NodeId)
    requires id in reg.devices && reg.devices[id].peer == peer
    ensures RemoveDeviceAsWritten(reg, id, peer).Failure?
    ensures id !in RemoveDevice(reg, id, peer).state.devices
  {
  }

  /** `_onmessage`: dispatch on the message type; other types change nothing. */
  function OnMessage(reg: Registry, msg: Message): (r: Step)
    ensures !(msg.Device? || msg.DeviceGone?) ==> r == Step(reg, [])
    ensures r.state.local == reg.local && r.state.netId == reg.netId
    ensures KeysAgree(reg) ==> KeysAgree(r.state)
  {
    match msg
    case Device(d) => RegisterDevice(reg, d)
    case DeviceGone(id, peer) => RemoveDevice(reg, id, peer)
    case _ => Step(reg, [])
  }

  /** Feed a sequence of messages through the registry. */
  function OnMessages(reg: Registry, msgs: seq<Message>): (r: Registry)
    decreases |msgs|
  {
    if msgs == [] then reg else OnMessages(OnMessage(reg, msgs[0]).state, msgs[1..])
  }

  /** A message that retracts device `id` in this node's name. */
  predicate RetractsAsSelf(reg: Registry, msg: Message, id: DeviceId) {
    msg == DeviceGone(id, reg.netId)
  }

  /** No network traffic changes the local table, and a locally registered
      device's record survives every message except a retraction that names
      this node itself as the peer. */
  lemma {:induction false} LocalDevicesSurvive(reg: Registry, msgs: seq<Message>, id: DeviceId)
    requires id in reg.local && id in reg.devices && reg.devices[id] == reg.local[id]
    requires forall i :: 0 <= i < |msgs| ==> !RetractsAsSelf(reg, msgs[i], id)
    requires reg.local[id].peer == reg.netId
    ensures OnMessages(reg, msgs).local == reg.local
    ensures id in OnMessages(reg, msgs).devices && OnMessages(reg, msgs).devices[id] == reg.local[id]
    decreases |msgs|
  {
    if msgs != [] {
      var next := OnMessage(reg, msgs[0]).state;
      assert next.devices[id] == reg.local[id];
      forall i | 0 <= i < |msgs[1..]| ensures !RetractsAsSelf(next, msgs[1..][i], id) {
        assert msgs[1..][i] == msgs[i + 1];
      }
      LocalDevicesSurvive(next, msgs[1..], id);
    }
  }

  /** A peer disconnected: remove exactly the records relayed by that peer,
      with one `deviceDisconnected` per removed record. Object key order is
      not modelled, so `removed` reports the order chosen. */
  method RemoveDevicesForPeer(reg: Registry, peer: NodeId) returns (r: Registry, removed: seq<DeviceId>, effects: seq<Effect<DeviceSignal>>)
    ensures r.netId == reg.netId && r.local == reg.local
    ensures forall k :: k in r.devices <==> k in reg.devices && reg.devices[k].peer != peer
    ensures forall k :: k in r.devices ==> r.devices[k] == reg.devices[k]
    ensures Distinct(removed)
    ensures forall k :: k in removed <==> k in reg.devices && reg.devices[k].peer == peer
    ensures |effects| == |removed|
    ensures forall i :: 0 <= i < |removed| ==> effects[i] == Signal(DeviceDisconnected(reg.devices[removed[i]]))
  {
    var devices := reg.devices;
    var remaining := reg.devices.Keys;
    removed := [];
    effects := [];
    while remaining != {}
      invariant remaining <= reg.devices.Keys
      invariant forall k :: k in devices <==> k in reg.devices && (k in remaining || reg.devices[k].peer != peer)
      invariant forall k :: k in devices ==> devices[k] == reg.devices[k]
      invariant Distinct(removed)
      invariant forall k :: k in removed <==> k in reg.devices && k !in remaining && reg.devices[k].peer == peer
      invariant |effects| == |removed|
      invariant forall i :: 0 <= i < |removed| ==> effects[i] == Signal(DeviceDisconnected(reg.devices[removed[i]]))
      decreases remaining
    {
      var k :| k in remaining;
      if devices[k].peer == peer {
        devices := devices - {k};
        removed := removed + [k];
        effects := effects + [Signal(DeviceDisconnected(reg.devices[k]))];
      }
      remaining := remaining - {k};
    }
    r := reg.(devices := devices);
  }

  /** A peer connected: send it each local device, except the ones that came
      from it or that it owns. Nothing is broadcast and no remote record is
      sent. */
  method SendDeviceListTo(reg: Registry, peer: NodeId) returns (sent: seq<DeviceId>, effects: seq<Effect<DeviceSignal>>)
    requires forall k :: k in reg.local ==> k in reg.devices
    ensures Distinct(sent)
    ensures forall k :: k in sent <==>
      k in reg.local && reg.devices[k].peer != peer && reg.devices[k].owner != peer
    ensures |effects| == |sent|
    ensures forall i :: 0 <= i < |sent| ==> effects[i] == Send(peer, Device(reg.devices[sent[i]]))
  {
    var remaining := reg.local.Keys;
    sent := [];
    effects := [];
    while remaining != {}
      invariant remaining <= reg.local.Keys
      invariant Distinct(sent)
      invariant forall k :: k in sent <==>
        k in reg.local && k !in remaining && reg.devices[k].peer != peer && reg.devices[k].owner != peer
      invariant |effects| == |sent|
      invariant forall i :: 0 <= i < |sent| ==> effects[i] == Send(peer, Device(reg.devices[sent[i]]))
      decreases remaining
    {
      var k :| k in remaining;
      var device := reg.devices[k];
      if !(device.peer == peer || device.owner == peer) {
        sent := sent + [k];
        effects := effects + [Send(peer, Device(device))];
      }
      remaining := remaining - {k};
    }
  }
}
