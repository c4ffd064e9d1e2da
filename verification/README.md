# Tinkerhub device and service registries in Dafny

This project models the core of Tinkerhub, a peer-to-peer home-automation
hub. Nodes on a local network share devices and services with each other,
and the model covers five parts of it:

- **The device registry** (`device/registry.js`). It is a table of device
  records keyed by id. Peers announce records with `device` messages and
  retract them with `device:disconnected` messages. A record that came
  straight from its owner ("authoritative": `owner == peer`) cannot be
  displaced by one relayed through another peer. Devices registered on
  this node are never overwritten from the network. A departing peer takes
  its relayed records with it, and a joining peer is told about the local
  devices.
- **The service registry** (`lib/services/index.js`). It is a JavaScript
  `Map` from service id to a local or remote service. Its iteration order
  is the insertion order, and the model keeps that order explicitly.
  Local registration and removal are broadcast. A joining node is pushed
  every local service. A leaving node's remote services are dropped. The
  seven `service:*` message types are dispatched to their handlers.
  `service:invoke` runs an action on a local service and answers the caller
  with a `service:invoke-result` that carries the same sequence number.
- **Local services** (`lib/services/service-local.js`). Covers action
  resolution for `call`, the `definition` sent over the wire, the
  subscriber list, and the event fan-out.
- **Device metadata** (`src/device/metadata.js`). Covers the tag list
  derived from a device definition, and the requests a device's metadata
  passes to the owning device.
- **Thing metadata** (`lib/things/metadata.js`). Covers tag, type and
  capability membership queries, and how a thing's metadata is rebuilt
  from the metadata of the services behind it.

Every event handler is a pure function from the current state to a new
state plus a list of effects:

- `Broadcast(msg)`: a network broadcast.
- `Send(node, msg)`: a message to one node.
- `Signal(e)`: a process-local event, such as `available`,
  `deviceConnected`, or a call forwarded to a remote-service proxy.

Code outside these five files enters as a parameter. This covers
`String()`, the `merge` helper, the id generator and implementation
objects.

Files:

- `js.dfy` (`Js`): JavaScript values and truthiness, thrown values, and
  `Error.prototype.toString`.
- `seqs.dfy` (`Seqs`): distinct lists, first occurrences, element
  removal, relative order, and occurrence counts.
- `wire.dfy` (`Wire`): device records, service definitions, messages, and
  effects.
- `service_local.dfy` (`LocalServices`).
- `services.dfy` (`Services`).
- `device_registry.dfy` (`DeviceRegistry`).
- `device_metadata.dfy` (`DeviceMetadata`).
- `thing_metadata.dfy` (`ThingMetadata`).

## Model

| member | source | states |
|---|---|---|
| DeviceRegistry.Init | device/registry.js:5-16 | The constructor: the node id is the network's and both the device table and the local table start empty, so the keys-agree and locals-known invariants hold from the start. |
| DeviceRegistry.RegisterDevice | device/registry.js:35-55 | A local device's id is ignored. An unknown id is stored, and `deviceConnected` is emitted. A stored authoritative record is kept exactly when the new record comes from another peer. The announcement is accepted (stored and signalled) if and only if `Accepts` holds; otherwise nothing changes. |
| DeviceRegistry.AuthoritativeWins | device/registry.js:40-52 | An authoritative record and a relayed record for the same device can arrive in either order, and the authoritative one ends up stored either way. |
| DeviceRegistry.Register | device/registry.js:57-71 | The record `{id, self, self, methods}` goes into both tables, then it is broadcast as `device`, then `deviceConnected` is emitted. The keys-agree and locals-known invariants are preserved. |
| DeviceRegistry.RemoveDevice | device/registry.js:73-81 | Intended retraction: the record is deleted and signalled exactly when it is stored under that id and came from the same peer; otherwise nothing changes. `KeysAgree` is preserved. `LocalsKnown` is preserved unless the retraction names this node as the peer; this assumes every local record names this node as its peer, as `DeviceRegistry.Register` makes them. |
| DeviceRegistry.RemoveDeviceAsWritten | device/registry.js:73-75 | As written, the handler fails with a ReferenceError for the undeclared `id` before it checks anything. |
| DeviceRegistry.RemoveDeviceAsWrittenNeverRemoves | device/registry.js:73-81 | A retraction from the record's own peer fails as written, while the intended handler removes the record. |
| DeviceRegistry.OnMessage | device/registry.js:24-33 | Only `device` and `device:disconnected` change anything. The local table and the node id never change, and every record stays keyed by its own id. A retraction goes to the corrected `DeviceRegistry.RemoveDevice`; as written it throws (see Findings). |
| DeviceRegistry.LocalDevicesSurvive | device/registry.js:24-55 | Any sequence of network messages leaves the local table unchanged. A local device's record survives every message except a retraction of that same device that names this node as the peer. Retractions are handled by the corrected handler; as written they all throw and none removes anything. |
| DeviceRegistry.RemoveDevicesForPeer | device/registry.js:96-107 | Exactly the records whose `peer` is the departed peer are removed; every other record is untouched. One `deviceDisconnected` carrying the removed record is emitted for each, and no id is reported twice. |
| DeviceRegistry.SendDeviceListTo | device/registry.js:83-94 | Each local device is sent to the new peer exactly once, unless the peer relayed it or owns it. Only that peer receives anything. |
| Services.Init | lib/services/index.js:14-23 | The registry starts empty and satisfies the registry invariant. |
| Services.Put | lib/services/index.js:58 | `Map.set`: the map gets the binding. A key already present keeps its place in the iteration order, and a new key goes last. The invariant is preserved. |
| Services.Delete | lib/services/index.js:128 | `Map.delete`: in a valid registry the key's single position is cut out of the iteration order, so every other key keeps its relative order. An absent key leaves the order unchanged. The invariant is preserved. |
| Services.Select | lib/services/index.js:30-31 | Iterating the map and keeping the matching services: an id is listed if and only if it is in the order and its service matches. Any two listed ids appear in their relative order, and nothing repeats when the order has no repeats. |
| Services.InstanceId | lib/services/service-local.js:19 | Intended instance id: the node id, then `:`, then the generated suffix. Both parts can be read back. |
| Services.InstanceIdNamesNode | lib/services/service-local.js:19 | For the same suffix, equal instance ids imply the same node. |
| Services.InstanceIdAsWritten | lib/services/service-local.js:19 | As written, the prefix is always `undefined`, because the registry object has no `id`. |
| Services.InstanceIdAsWrittenIgnoresNode | lib/services/service-local.js:19 | As written, two nodes that draw the same suffix get the same instance id; the intended ids differ. |
| Services.Register | lib/services/index.js:56-64 | The id is bound to a fresh local service with no subscribers, replacing any earlier binding; other bindings are unchanged. The definition is broadcast as `service:available`, then `available` is emitted. The invariant is preserved. The instance id is the corrected `Services.InstanceId`; as written it would be `"undefined:<suffix>"` (see Findings). |
| Services.Remove | lib/services/index.js:66-74 | Only a local service is removed. It is broadcast as `service:unavailable` and `unavailable` is emitted. A remote or unknown id changes nothing. |
| Services.RemoveIsIdempotent | lib/services/index.js:66-74 | A second `remove` of the same id has no effect. |
| Services.RegisterThenRemove | lib/services/index.js:56-74 | `register` followed by `remove` leaves every other binding as before. |
| Services.LocalIds | lib/services/index.js:30-31 | The ids whose service is local, listed in the iteration order of the map (any two appear in the order they have in `order`). The list is distinct when the order is. |
| Services.RemoteIdsOf | lib/services/index.js:41-42 | The ids of the remote services hosted by the given node, listed in the iteration order of the map. |
| Services.NodeAvailable | lib/services/index.js:25-38 | One `service:available {id}` goes to the joining node per local service, in map order. |
| Services.NodeAvailablePushesEachLocalOnce | lib/services/index.js:25-38 | Everything sent goes to the joining node. An id is pushed if and only if it names a local service, and no push repeats. |
| Services.NodeUnavailable | lib/services/index.js:40-46 | A service is kept if and only if it is not a remote hosted by the departed node. The kept keys stay in their relative order. One `unavailable` is emitted per dropped service, in map order. The invariant is preserved. |
| Services.NodeUnavailableEmitsOncePerRemote | lib/services/index.js:40-46 | Every `unavailable` names a remote of the departed node, each such remote gets one, and none is repeated. |
| Services.HandleServiceAvailable | lib/services/index.js:102-114 | An unknown id becomes a remote service of the sender and `available` is emitted. A known id keeps its entry, and its definition update is forwarded. |
| Services.HandleServiceUnavailable | lib/services/index.js:116-130 | Only a remote service is deleted, with `unavailable`. Local and unknown ids are ignored, whichever node sent the message. |
| Services.HandleServiceSubscribe | lib/services/index.js:132-137 | The sender is added to a local service's subscribers. Other targets are ignored. Nothing is sent. |
| Services.HandleServiceUnsubscribe | lib/services/index.js:139-144 | The sender's first entry leaves a local service's subscribers. Other targets are ignored. Nothing is sent. This uses the corrected `LocalServices.Unsubscribe`; as written the list never changes (see Findings). |
| Services.HandleServiceEvent | lib/services/index.js:146-151 | The event is forwarded only to a remote service's proxy. The registry never changes. |
| Services.InvokeReply | lib/services/index.js:153-180 | An unknown or remote id gets "Unknown service". A resolved call gets its value as `result`. A rejected call gets the stringified reason as `error`. |
| Services.HandleServiceInvoke | lib/services/index.js:153-180 | Exactly one `service:invoke-result` goes back to the sender, carrying the same service id and sequence number. The registry never changes. |
| Services.HandleServiceInvokeResult | lib/services/index.js:182-187 | The reply is forwarded only to a remote service's proxy. The registry never changes. |
| Services.HandleMessage | lib/services/index.js:76-100 | Dispatch on the message type. Every handler preserves the registry invariant, and a device or unknown message changes nothing. |
| Services.MessagesNeverDropLocals | lib/services/index.js:76-187 | No message removes a local service or changes its id or implementation. |
| Services.LightScenario | lib/services/index.js:153-180 | Scenario: invoking `on` of `light-1` replies `result: true` with the same sequence number. Invoking `missing` replies `error: "Error: No action named missing"`. Any other id replies "Unknown service". |
| LocalServices.Resolve | lib/services/service-local.js:82-111 | The branch `call` takes for an action, each stated as an if-and-only-if. The order is: a method of that name, then a truthy data member, then the generic `call` method, then `call` present but not a function, then nothing. A falsy data member counts as absent. |
| LocalServices.Settle | lib/services/service-local.js:85-111 | A return resolves with the value. A synchronous throw rejects. A thrown non-Error is wrapped as `new Error(value)`, whose message is `String(value)`, or empty for `undefined`. A rejection passes through unchanged. |
| LocalServices.Call | lib/services/service-local.js:81-114 | The outcome in each resolution branch. The generic dispatch gets `(action, args)`. A non-function `call` gives a TypeError. No action at all gives `Error("No action named " + action)`. |
| LocalServices.PropertyIgnoresArguments | lib/services/service-local.js:99-100 | A truthy data member resolves to itself whatever the arguments are. |
| LocalServices.MetadataIsAMember | lib/services/service-local.js:83-100 | For an instance whose `metadata` member holds its metadata object, `call("metadata")` resolves with that object, and a `service:event` carries it. |
| LocalServices.ThrowingUndefinedReadsError | lib/services/service-local.js:102-110 | A method that throws `undefined` is rejected with an Error whose string form is `"Error"`. |
| LocalServices.SetsToArrays | lib/services/service-local.js:31-34 | A `Set` value becomes an array of its elements, and every other value is kept. |
| LocalServices.DefinitionOf | lib/services/service-local.js:28-42 | The definition carries the id and the instance id. Its metadata has the same keys as the instance's, with each `Set` value turned into an array. |
| LocalServices.DefinitionIsSetFree | lib/services/service-local.js:28-42 | A definition contains no `Set`. It equals the original metadata when that metadata held none. |
| LocalServices.Snapshot | lib/services/service-local.js:47-52 | A `service:event` carries the data members of the implementation object as `instance`: exactly those keys, each with the member's value. |
| LocalServices.Subscribe | lib/services/service-local.js:62-64 | The node is appended to the subscribers. Duplicates are kept, and the rest is unchanged. |
| LocalServices.Unsubscribe | lib/services/service-local.js:66-71 | Intended behaviour: when the node is subscribed, its first entry is cut out and every other entry keeps its position relative to the rest. Otherwise nothing changes. |
| LocalServices.UnsubscribeDropsOneEntry | lib/services/service-local.js:66-71 | Intended behaviour: the node loses exactly one of its entries. |
| LocalServices.UnsubscribeKeepsOthers | lib/services/service-local.js:66-71 | Intended behaviour: every other node keeps all of its entries. |
| LocalServices.SubscribeThenUnsubscribe | lib/services/service-local.js:62-71 | Intended behaviour: subscribing a new node and then unsubscribing it restores the service. |
| LocalServices.UnsubscribeAsWritten | lib/services/service-local.js:66-71 | As written, the subscriber list is never changed. |
| LocalServices.UnsubscribeAsWrittenKeepsNode | lib/services/service-local.js:66-71 | As written, an unsubscribed node is still subscribed, with one entry more than intended. |
| LocalServices.EmitEvent | lib/services/service-local.js:44-60 | One `service:event {service, instance, name, payload}` goes to each subscriber entry, in list order. The local listeners are notified last. |
| LocalServices.FanOut | lib/services/service-local.js:54-56 | The same message is sent to each node of the list, in order. |
| LocalServices.EmitReachesSubscribers | lib/services/service-local.js:44-64 | A node receives one copy of an event per subscriber entry. A node that subscribed once receives exactly one copy. |
| DeviceMetadata.UpdateDef | src/device/metadata.js:23-43 | The tags are built in order: the definition's own tags, then `type:` per type, then `cap:` per capability, then the device id. A missing list adds nothing. |
| DeviceMetadata.New | src/device/metadata.js:5-11 | The owner is remembered and the id comes from the definition. The tags are those `updateDef` derives. |
| DeviceMetadata.UpdateDefOverwrites | src/device/metadata.js:23-43 | The result depends only on the last definition, so repeating an update changes nothing. |
| DeviceMetadata.TagsOfDef | src/device/metadata.js:23-43 | A tag is derived exactly when it is one of the definition's own tags, `type:` plus one of its types, `cap:` plus one of its capabilities, or the device id. |
| DeviceMetadata.SetName | src/device/metadata.js:16-18 | Asks the owner to run `_setName` with the name as the only argument. |
| DeviceMetadata.Tag | src/device/metadata.js:48-50 | Asks the owner to run `_addTags` with the tags as one array argument. |
| DeviceMetadata.RemoveTag | src/device/metadata.js:55-57 | Asks the owner to run `_removeTags` with the tags as one array argument. |
| ThingMetadata.Reset | lib/things/metadata.js:83-93 | Empty tag, type and capability sets, a `null` name, and empty action, event and state tables. Identity is kept. |
| ThingMetadata.New | lib/things/metadata.js:9-15 | The id is the parent's, the thing is not a collection, and everything else is reset. |
| ThingMetadata.HasType | lib/things/metadata.js:22-24 | True if and only if the type is in the type set. `ThingMetadata.ResetMatchesNothing` is its partner: it is false for every type after a reset. |
| ThingMetadata.HasCapability | lib/things/metadata.js:31-33 | True if and only if the capability is in the capability set; false for every capability after a reset (`ThingMetadata.ResetMatchesNothing`). |
| ThingMetadata.HasTag | lib/things/metadata.js:52-54 | True if and only if the tag is in the tag set, which is exactly `hasTags` called with that one tag. |
| ThingMetadata.HasTags | lib/things/metadata.js:40-45 | True if and only if every listed tag is present. |
| ThingMetadata.Matches | lib/things/metadata.js:61-63 | Behaves like `hasTags`: true if and only if `hasTag` holds for every listed tag. |
| ThingMetadata.ResetMatchesNothing | lib/things/metadata.js:83-93 | After reset, `hasType`, `hasCapability` and `hasTag` are false for every argument, and `hasTags` holds only for the empty list. |
| ThingMetadata.TagQueriesAgree | lib/things/metadata.js:40-54 | `hasTag(t)` equals `hasTags(t)`, and `hasTags` of a concatenation holds if and only if it holds for both parts. |
| ThingMetadata.AddTags | lib/things/metadata.js:70-72 | Asks every service of the parent to run `metadata:addTags` with the tags. |
| ThingMetadata.RemoveTags | lib/things/metadata.js:79-81 | Asks every service of the parent to run `metadata:removeTags` with the tags. |
| ThingMetadata.NextName | lib/things/metadata.js:99-101 | A truthy name is kept. Otherwise the name becomes the service's name if that is truthy, and `null` if not. |
| ThingMetadata.Absorb | lib/things/metadata.js:98-112 | Folding in one service keeps the thing's identity and applies the name rule. The merged tags are kept, and the only tag added beyond them is `parent:` followed by the parent, exactly when the service names a truthy parent. |
| ThingMetadata.UpdateName | lib/things/metadata.js:95-114 | After `update`, the name is the first truthy service name in order, or `null` when there is none. |
| ThingMetadata.Update | lib/things/metadata.js:95-114 | Identity is kept, and updating from no services is a reset. |
| ThingMetadata.UpdateForgetsPast | lib/things/metadata.js:95-97 | `update` starts from reset, so its result depends only on the services and not on the earlier contents. |

## Left out

- The transport (`lib/net/local.js`): connections, handshakes and framing are outside this core. Peers and nodes appear only as their ids, and two node objects with the same id cannot be told apart.
- The remote-service proxy and the `Service` base class (`./service-remote`, `./service`) are not part of this model. Their effects are recorded as `Forwarded` notices or as the final local-listeners signal, not interpreted. This covers `updateDefinition`, `receiveEvent`, `receiveReply`, the pending-call table, and `super.emitEvent`.
- Services.NodeAvailable: the `distance` field (`service.bestDistance`) is not modelled. It comes from the base class, which is not part of this model, so the push carries only the id.
- The id generator (`../utils/id`) is a `suffix` parameter.
- `String(value)` is a `show` parameter.
- The `merge` helper is a `Merge` parameter, and `'parent:' + value` uses `show` for the concatenation.
- Promise timing: a call's outcome is stated as how its promise settles. The moment the reply is sent is not modelled.
- Services.HandleServiceInvoke: every call's promise is assumed to settle. In the source the reply is sent only from the `.then` or `.catch` handler (lib/services/index.js:164-178), so a call whose promise never settles gets no reply.
- Implementation objects are maps from member name to a pure method or a data value. A method's access to `this` is not modelled, nor are its side effects or getters.
- Services.Register: the instance's metadata object is taken as given. For an implementation object without a `metadata` member, `definition` throws at lib/services/index.js:59, after the binding is stored at line 58. Such a service is not broadcast at registration. It is still pushed to nodes that join later, because `_handleNodeAvailable` (lines 25-38) sends `{id, distance}` without reading `definition`. `remove` deletes it at line 70 and then throws at line 71, before broadcasting or emitting anything. That path is not modelled. Only `LocalServices.MetadataIsAMember` relies on `LocalServices.WellFormed`, which links the metadata to the `metadata` member.
- LocalServices.Call: NaN is not modelled, because numbers are integers. A numeric data member of value NaN is falsy in JavaScript and would be treated as absent there.
- The TypeError text for a non-function `call` is one fixed message; the exact V8 wording is not modelled.
- EventEmitter wiring (`on`, `off`, listener registration) is not modelled, nor is debug logging (`debug`, `console.log`, `inspect`). Emitted events appear as `Signal` effects.
- `LocalService.metadata` is a plain getter.
- `LocalService.remove()` delegates to `Services.remove(id)`, which is `Services.Remove`.
- `LocalService.rebroadcast()` is left out. It broadcasts the same definition that `Services.Register` broadcasts, and nothing in this core calls it.
- DeviceRegistry.RemoveDevicesForPeer and DeviceRegistry.SendDeviceListTo visit keys in an unspecified order, not JavaScript's `Object.keys` order. The reported `removed` and `sent` lists name the order taken.
- DeviceRegistry.SendDeviceListTo requires every local device to still have a record. Only the corrected retraction handler can remove a local device's record, which it does for a retraction naming this node as the peer. The loop in `_sendDeviceListTo` would then throw a TypeError on `device.peer` at device/registry.js:90 for that device.
- DeviceRegistry.RegisterDevice: device ids are assumed not to name `Object.prototype` members such as `constructor`, `toString` or `__proto__`. The two tables are plain objects, so such an id reads as already present (the announcement is dropped), and `register("__proto__", …)` replaces the table's prototype.
- DeviceRegistry.RemoveDevice: deletion uses the message's id. If the lookup were fixed to `device.id`, line 75 would throw a TypeError on `registered.peer` for an unknown id. The corrected handler ignores that id instead.
- Deletions use the map key where the source uses the stored record's `id` (`device.id`, `service.id`). The two agree under the invariants `DeviceRegistry.KeysAgree` and `Services.Valid`.

## Findings

| source | as written | input that shows it | evidently intended | confidence | as-written member | corrected member |
|---|---|---|---|---|---|---|
| device/registry.js:74 | `this._devices[id]` reads an undeclared variable, so every `device:disconnected` throws a ReferenceError and no record is ever retracted by message | device `lamp` stored via peer `B`, then `device:disconnected {id: lamp, peer: B}` | look up `this._devices[device.id]` and delete it when the peers match | high, not executed | DeviceRegistry.RemoveDeviceAsWritten (lemma DeviceRegistry.RemoveDeviceAsWrittenNeverRemoves) | DeviceRegistry.RemoveDevice |
| lib/services/service-local.js:67-68 | `find` returns the matching node object (or `undefined`), and `idx >= 0` is false for both, so `unsubscribe` never removes anything | subscribers `[Y]`, then `service:unsubscribe` from `Y`; `Y` keeps receiving events | `findIndex`, removing the first entry for that node | high, not executed | LocalServices.UnsubscribeAsWritten (lemma LocalServices.UnsubscribeAsWrittenKeepsNode) | LocalServices.Unsubscribe (lemmas LocalServices.SubscribeThenUnsubscribe, LocalServices.UnsubscribeDropsOneEntry) |
| lib/services/service-local.js:19 | `parent.id` reads the `Services` registry object, which has no `id`, so every instance id is `"undefined:<suffix>"` | nodes `A` and `B` that draw the same suffix `s` both produce `"undefined:s"` | the node's id as prefix (`parent.network.id`), so that instance ids name their node | medium, not executed | Services.InstanceIdAsWritten (lemma Services.InstanceIdAsWrittenIgnoresNode) | Services.InstanceId (lemma Services.InstanceIdNamesNode) |
