/** The metadata of a thing: tag, type and capability sets with membership
    queries, and its rebuilding from the metadata of the services behind
    the thing. */
module ThingMetadata {
  import opened Js

  datatype Metadata = Metadata(
    parentId: string,
    id: string,
    collection: bool,
    tags: set<string>,
    types: set<string>,
    capabilities: set<string>,
    name: Value,
    actions: map<string, Value>,
    events: map<string, Value>,
    state: map<string, Value>)

  /** The library `merge` helper, which this model does not interpret: one
      function merges into a set, one into a plain object. */
  datatype Merge = Merge(
    intoSet: (set<string>, Value) -> set<string>,
    intoObject: (map<string, Value>, Value) -> map<string, Value>)

  /** A request to every service of the parent: `parent.callAll(action, args)`. */
  datatype CallAll = CallAll(action: string, args: seq<Value>)

  /** `[reset]`: empty sets, no name, empty action, event and state tables;
      identity and the collection flag are kept. */
  function Reset(md: Metadata): (r: Metadata)
    ensures r.tags == {} && r.types == {} && r.capabilities == {}
    ensures r.name == Null
    ensures r.actions == map[] && r.events == map[] && r.state == map[]
    ensures r.parentId == md.parentId && r.id == md.id && r.collection == md.collection
  {
    md.(tags := {}, types := {}, capabilities := {}, name := Null,
        actions := map[], events := map[], state := map[])
  }

  /** The constructor: the id is the parent's, the thing is not a
      collection, and everything else starts reset. */
  function New(parentId: string): (r: Metadata)
    ensures r.id == parentId && r.parentId == parentId && !r.collection
    ensures r == Reset(r)
  {
    Reset(Metadata(parentId, parentId, false, {}, {}, {}, Null, map[], map[], map[]))
  }

  /** `hasType(type)`: membership in the type set. */
  predicate HasType(md: Metadata, t: string)
    ensures HasType(md, t) <==> t in md.types
  {
    t in md.types
  }

  /** `hasCapability(cap)`: membership in the capability set. */
  predicate HasCapability(md: Metadata, c: string)
    ensures HasCapability(md, c) <==> c in md.capabilities
  {
    c in md.capabilities
  }

  /** `hasTag(tag)`: membership in the tag set, which is `hasTags` of that
      one tag. */
  predicate HasTag(md: Metadata, t: string)
    ensures HasTag(md, t) <==> t in md.tags
    ensures HasTag(md, t) == HasTags(md, [t])
  {
    t in md.tags
  }

  /** `hasTags(...tags)`: stop at the first tag that is missing. */
  function HasTags(md: Metadata, ts: seq<string>): (r: bool)
    ensures r <==> forall i :: 0 <= i < |ts| ==> ts[i] in md.tags
  {
    if ts == [] then true
    else if ts[0] !in md.tags then false
    else HasTags(md, ts[1..])
  }

  /** `matches(...tags)`, an alias of `hasTags`. */
  function Matches(md: Metadata, ts: seq<string>): (r: bool)
    ensures r <==> forall i :: 0 <= i < |ts| ==> HasTag(md, ts[i])
    ensures r == HasTags(md, ts)
  {
    HasTags(md, ts)
  }

  /** Freshly reset metadata answers no membership query positively, and
      `hasTags` holds only of the empty list. */
  lemma ResetMatchesNothing(md: Metadata, t: string, ts: seq<string>)
    ensures !HasTag(Reset(md), t) && !HasType(Reset(md), t) && !HasCapability(Reset(md), t)
    ensures HasTags(Reset(md), ts) <==> ts == []
  {
    if ts != [] {
      assert ts[0] !in Reset(md).tags;
    }
  }

  /** `hasTag` is `hasTags` of one tag, and a list of tags is present exactly
      when each part of it is. */
  lemma TagQueriesAgree(md: Metadata, t: string, a: seq<string>, b: seq<string>)
    ensures HasTags(md, [t]) == HasTag(md, t)
    ensures HasTags(md, a + b) == (HasTags(md, a) && HasTags(md, b))
  {
    if HasTags(md, a) && HasTags(md, b) {
      forall i | 0 <= i < |a + b| ensures (a + b)[i] in md.tags {
        if i >= |a| { assert (a + b)[i] == b[i - |a|]; }
      }
    }
    if HasTags(md, a + b) {
      forall i | 0 <= i < |a| ensures a[i] in md.tags {
        assert (a + b)[i] == a[i];
      }
      forall i | 0 <= i < |b| ensures b[i] in md.tags {
        assert (a + b)[|a| + i] == b[i];
      }
    }
  }

  /** `addTags(...tags)`: ask every service of the parent to add them. */
  function AddTags(md: Metadata, ts: seq<Value>): (r: CallAll)
    ensures r.action == "metadata:addTags" && r.args == ts
  {
    CallAll("metadata:addTags", ts)
  }

  /** `removeTags(...tags)`: ask every service of the parent to remove them. */
  function RemoveTags(md: Metadata, ts: seq<Value>): (r: CallAll)
    ensures r.action == "metadata:removeTags" && r.args == ts
  {
    CallAll("metadata:removeTags", ts)
  }

  /** The name rule for one service: keep a name already chosen, otherwise
      take this service's name if it is truthy, otherwise `null`. */
  function NextName(current: Value, service: map<string, Value>): (r: Value)
    ensures Truthy(current) ==> r == current
    ensures !Truthy(current) ==> r == OrNull(Get(service, "name"))
  {
    if !Truthy(current) then OrNull(Get(service, "name")) else current
  }

  /** Fold one service's metadata into the thing's metadata. */
  function Absorb(md: Metadata, service: map<string, Value>, merge: Merge, show: Value -> string): (r: Metadata)
    ensures r.parentId == md.parentId && r.id == md.id && r.collection == md.collection
    ensures r.name == NextName(md.name, service)
    ensures merge.intoSet(md.tags, Get(service, "tags")) <= r.tags
    ensures Truthy(Get(service, "parent")) ==> "parent:" + show(Get(service, "parent")) in r.tags
    ensures !Truthy(Get(service, "parent")) ==> r.tags == merge.intoSet(md.tags, Get(service, "tags"))
    ensures r.tags - merge.intoSet(md.tags, Get(service, "tags")) <= {"parent:" + show(Get(service, "parent"))}
  {
    var tags := merge.intoSet(md.tags, Get(service, "tags"));
    var parent := Get(service, "parent");
    md.(name := NextName(md.name, service),
        tags := if Truthy(parent) then tags + {"parent:" + show(parent)} else tags,
        types := merge.intoSet(md.types, Get(service, "types")),
        capabilities := merge.intoSet(md.capabilities, Get(service, "capabilities")),
        actions := merge.intoObject(md.actions, Get(service, "actions")),
        events := merge.intoObject(md.events, Get(service, "events")),
        state := merge.intoObject(md.state, Get(service, "state")))
  }

  function AbsorbAll(md: Metadata, services: seq<map<string, Value>>, merge: Merge, show: Value -> string): (r: Metadata)
    ensures r.parentId == md.parentId && r.id == md.id && r.collection == md.collection
    decreases |services|
  {
    if services == [] then md
    else AbsorbAll(Absorb(md, services[0], merge, show), services[1..], merge, show)
  }

  /** `[update](services)`: start from reset and fold in every service's
      metadata in order. */
  function Update(md: Metadata, services: seq<map<string, Value>>, merge: Merge, show: Value -> string): (r: Metadata)
    ensures r.parentId == md.parentId && r.id == md.id && r.collection == md.collection
    ensures services == [] ==> r == Reset(md)
  {
    AbsorbAll(Reset(md), services, merge, show)
  }

  /** The name a list of services gives a thing, stated on positions: the
      first truthy `name`, or `null` when there is none. */
  ghost predicate FirstTruthyName(services: seq<map<string, Value>>, v: Value) {
    || ((forall i :: 0 <= i < |services| ==> !Truthy(Get(services[i], "name"))) && v == Null)
    || (exists i :: 0 <= i < |services| && Truthy(Get(services[i], "name")) && v == Get(services[i], "name")
                    && forall j :: 0 <= j < i ==> !Truthy(Get(services[j], "name")))
  }

  lemma {:induction false} AbsorbAllName(md: Metadata, services: seq<map<string, Value>>, merge: Merge, show: Value -> string)
    requires md.name == Null
    ensures FirstTruthyName(services, AbsorbAll(md, services, merge, show).name)
    decreases |services|
  {
    if services != [] {
      var next := Absorb(md, services[0], merge, show);
      var tail := services[1..];
      var n := Get(services[0], "name");
      if Truthy(n) {
        assert next.name == n;
        KeepsTruthyName(next, tail, merge, show);
        assert FirstTruthyName(services, AbsorbAll(md, services, merge, show).name) by {
          assert Truthy(Get(services[0], "name"));
        }
      } else {
        assert next.name == Null;
        AbsorbAllName(next, tail, merge, show);
        var v := AbsorbAll(next, tail, merge, show).name;
        if forall i :: 0 <= i < |tail| ==> !Truthy(Get(tail[i], "name")) {
          forall i | 0 <= i < |services| ensures !Truthy(Get(services[i], "name")) {
            if i > 0 { assert services[i] == tail[i - 1]; }
          }
        } else {
          var i :| 0 <= i < |tail| && Truthy(Get(tail[i], "name")) && v == Get(tail[i], "name")
                   && forall j :: 0 <= j < i ==> !Truthy(Get(tail[j], "name"));
          assert services[i + 1] == tail[i];
          forall j | 0 <= j < i + 1 ensures !Truthy(Get(services[j], "name")) {
            if j > 0 { assert services[j] == tail[j - 1]; }
          }
        }
      }
    }
  }

  lemma {:induction false} KeepsTruthyName(md: Metadata, services: seq<map<string, Value>>, merge: Merge, show: Value -> string)
    requires Truthy(md.name)
    ensures AbsorbAll(md, services, merge, show).name == md.name
    decreases |services|
  {
    if services != [] {
      KeepsTruthyName(Absorb(md, services[0], merge, show), services[1..], merge, show);
    }
  }

  /** After `[update]` the name is the first truthy `name` among the
      services, in their order, or `null` if none has one. */
  lemma UpdateName(md: Metadata, services: seq<map<string, Value>>, merge: Merge, show: Value -> string)
    ensures FirstTruthyName(services, Update(md, services, merge, show).name)
  {
    AbsorbAllName(Reset(md), services, merge, show);
  }

  /** Everything `[reset]` clears, without the identity fields. */
  function Contents(md: Metadata): (set<string>, set<string>, set<string>, Value,
                                    map<string, Value>, map<string, Value>, map<string, Value>) {
    (md.tags, md.types, md.capabilities, md.name, md.actions, md.events, md.state)
  }

  lemma {:induction false} AbsorbAllDependsOnContents(a: Metadata, b: Metadata, services: seq<map<string, Value>>,
                                                       merge: Merge, show: Value -> string)
    requires Contents(a) == Contents(b)
    ensures Contents(AbsorbAll(a, services, merge, show)) == Contents(AbsorbAll(b, services, merge, show))
    decreases |services|
  {
    if services != [] {
      AbsorbAllDependsOnContents(Absorb(a, services[0], merge, show), Absorb(b, services[0], merge, show),
                                 services[1..], merge, show);
    }
  }

  /** `[update]` starts from reset, so what it computes depends on the
      services alone and not on what the metadata held before. */
  lemma UpdateForgetsPast(a: Metadata, b: Metadata, services: seq<map<string, Value>>, merge: Merge, show: Value -> string)
    ensures Contents(Update(a, services, merge, show)) == Contents(Update(b, services, merge, show))
  {
    AbsorbAllDependsOnContents(Reset(a), Reset(b), services, merge, show);
  }
}
