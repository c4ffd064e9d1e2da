/** The public metadata of a device: its definition and the flat tag list
    derived from it. Changes are not made here but requested from the
    owning device. */
module DeviceMetadata {
  import opened Js

  /** A device definition. `types` and `capabilities` may be missing. */
  datatype DeviceDef = DeviceDef(
    id: string,
    tags: seq<string>,
    types: Option<seq<string>>,
    capabilities: Option<seq<string>>)

  datatype Metadata = Metadata(owner: string, id: string, def: DeviceDef, tags: seq<string>)

  /** A request to the owning device: `owner.call(action, args)`. */
  datatype OwnerCall = OwnerCall(action: string, args: seq<Value>)

  /** Each name with a prefix in front, in order. */
  function Prefixed(prefix: string, names: seq<string>): (r: seq<string>)
    ensures |r| == |names|
    ensures forall i :: 0 <= i < |names| ==> r[i] == prefix + names[i]
  {
    if names == [] then [] else [prefix + names[0]] + Prefixed(prefix, names[1..])
  }

  /** A missing list contributes nothing. */
  function OrEmpty(names: Option<seq<string>>): seq<string> {
    if names.Some? then names.value else []
  }

  /** `updateDef(def)`: keep the definition and rebuild the tags from it:
      its own tags, then `type:` per type, then `cap:` per capability, then
      the device id. */
  function UpdateDef(md: Metadata, def: DeviceDef): (r: Metadata)
    ensures r.owner == md.owner && r.id == md.id && r.def == def
    ensures var types := OrEmpty(def.types); var caps := OrEmpty(def.capabilities);
      && |r.tags| == |def.tags| + |types| + |caps| + 1
      && r.tags[..|def.tags|] == def.tags
      && (forall i :: 0 <= i < |types| ==> r.tags[|def.tags| + i] == "type:" + types[i])
      && (forall i :: 0 <= i < |caps| ==> r.tags[|def.tags| + |types| + i] == "cap:" + caps[i])
      && r.tags[|r.tags| - 1] == def.id
  {
    var tags := def.tags + Prefixed("type:", OrEmpty(def.types)) + Prefixed("cap:", OrEmpty(def.capabilities)) + [def.id];
    md.(def := def, tags := tags)
  }

  /** The constructor: remember the owner, take the id from the definition,
      and derive the tags exactly as `updateDef` does. */
  function New(owner: string, def: DeviceDef): (r: Metadata)
    ensures r.owner == owner && r.id == def.id && r.def == def
    ensures forall md :: UpdateDef(md, def).tags == r.tags
  {
    UpdateDef(Metadata(owner, def.id, def, []), def)
  }

  /** The tags depend on the definition alone: updating twice with the same
      definition is updating once, and a later definition replaces an
      earlier one completely. */
  lemma UpdateDefOverwrites(md: Metadata, d1: DeviceDef, d2: DeviceDef)
    ensures UpdateDef(UpdateDef(md, d1), d2) == UpdateDef(md, d2)
  {
  }

  /** A name occurs with a prefix exactly when it is one of the names. */
  lemma InPrefixed(prefix: string, names: seq<string>, t: string)
    ensures t in Prefixed(prefix, names) <==> exists n :: n in names && t == prefix + n
  {
    var r := Prefixed(prefix, names);
    if t in r {
      var i :| 0 <= i < |r| && r[i] == t;
      assert names[i] in names && t == prefix + names[i];
    }
    if exists n :: n in names && t == prefix + n {
      var n :| n in names && t == prefix + n;
      var i :| 0 <= i < |names| && names[i] == n;
      assert r[i] == t;
    }
  }

  /** The tags `updateDef` derives, as a set: a tag is present exactly when
      it is one of the definition's own tags, `type:` followed by one of its
      types, `cap:` followed by one of its capabilities, or the device id. */
  lemma TagsOfDef(md: Metadata, def: DeviceDef, t: string)
    ensures t in UpdateDef(md, def).tags <==>
      || t in def.tags
      || (exists ty :: ty in OrEmpty(def.types) && t == "type:" + ty)
      || (exists c :: c in OrEmpty(def.capabilities) && t == "cap:" + c)
      || t == def.id
  {
    var types := Prefixed("type:", OrEmpty(def.types));
    var caps := Prefixed("cap:", OrEmpty(def.capabilities));
    assert UpdateDef(md, def).tags == def.tags + types + caps + [def.id];
    InPrefixed("type:", OrEmpty(def.types), t);
    InPrefixed("cap:", OrEmpty(def.capabilities), t);
  }

  /** `setName(name)`: ask the owner to rename the device. */
  function SetName(md: Metadata, name: Value): (r: OwnerCall)
    ensures r.action == "_setName" && |r.args| == 1 && r.args[0] == name
  {
    OwnerCall("_setName", [name])
  }

  /** `tag(...tags)`: ask the owner to add tags, passed as one array. */
  function Tag(md: Metadata, tags: seq<Value>): (r: OwnerCall)
    ensures r.action == "_addTags" && |r.args| == 1 && r.args[0] == Arr(tags)
  {
    OwnerCall("_addTags", [Arr(tags)])
  }

  /** `removeTag(...tags)`: ask the owner to remove tags, passed as one
      array. */
  function RemoveTag(md: Metadata, tags: seq<Value>): (r: OwnerCall)
    ensures r.action == "_removeTags" && |r.args| == 1 && r.args[0] == Arr(tags)
  {
    OwnerCall("_removeTags", [Arr(tags)])
  }
}
