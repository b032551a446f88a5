/** The strip pass over a decoded JSON tree, in place, and the masked marshaller. */
module StripWalk {
  import opened Descriptors
  import opened Messages
  import opened Reachability
  import opened Masking
  import opened ClearWalk
  import opened JsonValue
  import opened ProtoJson
  import opened StripPass
  import opened MaskedJson
  import opened NoLeak
  import opened NameClash

  /** A decoded JSON object, whose members the pass deletes and replaces. */
  class JsonObject {
    var members: map<string, Json>

    constructor (members: map<string, Json>)
      ensures this.members == members
    {
      this.members := members;
    }

    method Delete(k: string)
      modifies this
      ensures members == old(members) - {k}
    {
      members := members - {k};
    }

    method Put(k: string, v: Json)
      modifies this
      ensures members == old(members)[k := v]
    {
      members := members[k := v];
    }
  }

  method StripSchemaExcludedJSON(e: Env, hit: Matcher, md: TypeName, decoded: Json) returns (r: Json)
    requires ValidEnv(e) && md in e.g
    ensures r == Strip(e, hit, md, decoded)
    decreases Height(decoded), 3
  {
    if !decoded.JObj? {
      return decoded;
    }
    var obj := new JsonObject(decoded.members);
    if md == ANY {
      StripSchemaExcludedAnyJSON(e, hit, decoded, obj);
    } else {
      StripFields(e, hit, md, decoded, obj);
    }
    r := JObj(obj.members);
  }

  /** The loop over the fields of a message, on the members of its object. */
  method StripFields(e: Env, hit: Matcher, md: TypeName, ghost was: Json, obj: JsonObject)
    requires ValidEnv(e) && md in e.g && was == JObj(obj.members)
    modifies obj
    ensures JObj(obj.members) == StripObject(e, hit, md, |e.g[md].fields|, was)
    decreases Height(was), 1
  {
    NothingStripped(e, hit, md, was);
    for i := 0 to |e.g[md].fields|
      invariant JObj(obj.members) == StripObject(e, hit, md, i, was)
    {
      ObjectStep(e, hit, md, i + 1, was);
      StripField(e, hit, e.g[md].fields[i], obj);
    }
  }

  /** One round of that loop. */
  method StripField(e: Env, hit: Matcher, fd: FieldDesc, obj: JsonObject)
    requires ValidEnv(e) && (fd.kind.MessageKind? ==> fd.kind.ty in e.g)
    modifies obj
    ensures obj.members == StripMembers(e, hit, fd, old(obj.members))
    decreases Height(JObj(obj.members)), 0
  {
    if hit(fd) {
      obj.Delete(fd.jsonName);
      obj.Delete(fd.name);
      return;
    }
    var key := fd.jsonName;
    var found := fd.jsonName in obj.members;
    if !found {
      key := fd.name;
      found := fd.name in obj.members;
    }
    if found {
      assert key in JObj(obj.members).members;
      var v := StripSchemaExcludedJSONValue(e, hit, fd, obj.members[key]);
      obj.Put(key, v);
    }
  }

  method StripSchemaExcludedAnyJSON(e: Env, hit: Matcher, ghost was: Json, obj: JsonObject)
    requires ValidEnv(e) && was == JObj(obj.members)
    modifies obj
    ensures JObj(obj.members) == Strip(e, hit, ANY, was)
    decreases Height(was), 2
  {
    var mt := e.resolve(TypeUrlOf(obj.members));
    if mt.None? {
      var keys := obj.members.Keys;
      while keys != {}
        invariant keys <= was.members.Keys
        invariant obj.members == map k | k in was.members && (k == "@type" || k in keys) :: was.members[k]
        decreases keys
      {
        var k :| k in keys;
        if k != "@type" {
          obj.Delete(k);
        }
        keys := keys - {k};
      }
      assert obj.members == OnlyType(was.members);
      return;
    }
    if mt.value == ANY {
      if "value" in obj.members {
        var v := StripSchemaExcludedJSON(e, hit, ANY, obj.members["value"]);
        obj.Put("value", v);
      }
    } else if !mt.value.WellKnownType? {
      StripFields(e, hit, mt.value, was, obj);
    }
  }

  method StripSchemaExcludedJSONValue(e: Env, hit: Matcher, fd: FieldDesc, value: Json) returns (r: Json)
    requires ValidEnv(e) && (fd.kind.MessageKind? ==> fd.kind.ty in e.g)
    ensures r == StripValue(e, hit, fd, value)
    decreases Height(value), 4
  {
    hide Strip;
    if fd.kind.ScalarKind? {
      return value;
    }
    match fd.card
    case Singular =>
      r := StripSchemaExcludedJSON(e, hit, fd.kind.ty, value);
    case Repeated =>
      if !value.JArr? {
        return value;
      }
      var items := StripItems(e, hit, fd.kind.ty, value);
      r := JArr(items);
    case MapField =>
      if !value.JObj? {
        return value;
      }
      var entries := StripEntries(e, hit, fd.kind.ty, value);
      r := JObj(entries);
  }

  /** The loop over the items of a list. */
  method StripItems(e: Env, hit: Matcher, md: TypeName, value: Json) returns (items: seq<Json>)
    requires ValidEnv(e) && md in e.g && value.JArr?
    ensures |items| == |value.items|
    ensures forall k :: 0 <= k < |items| ==> items[k] == Strip(e, hit, md, value.items[k])
    decreases Height(value), 3
  {
    hide Strip;
    items := value.items;
    for i := 0 to |items|
      invariant |items| == |value.items|
      invariant forall k :: 0 <= k < |items| ==>
        items[k] == if k < i then Strip(e, hit, md, value.items[k]) else value.items[k]
    {
      var item := StripSchemaExcludedJSON(e, hit, md, items[i]);
      items := items[i := item];
    }
  }

  /** The loop over the entries of a map, in any order. */
  method StripEntries(e: Env, hit: Matcher, md: TypeName, value: Json) returns (entries: map<string, Json>)
    requires ValidEnv(e) && md in e.g && value.JObj?
    ensures entries == map k | k in value.members :: Strip(e, hit, md, value.members[k])
    decreases Height(value), 3
  {
    hide Strip;
    var obj := new JsonObject(value.members);
    var keys := value.members.Keys;
    while keys != {}
      invariant keys <= value.members.Keys == obj.members.Keys
      invariant forall k :: k in value.members ==>
        obj.members[k] == if k in keys then value.members[k] else Strip(e, hit, md, value.members[k])
      decreases keys
    {
      var k :| k in keys;
      var entry := StripSchemaExcludedJSON(e, hit, md, obj.members[k]);
      obj.Put(k, entry);
      keys := keys - {k};
    }
    entries := obj.members;
  }

  /** Masked marshalling. The caller's message is outside its frame. It succeeds exactly when the
      message can be verified and its visible part can be rendered. Without the emit options the
      response is exactly the JSON of the visible part, whatever the names. With them it is what the
      strip pass leaves of the rendered clone, which is the same exactly when the members come out
      right, as they do where the keys are clear; then it names nothing hidden. */
  method MarshalProtoMaskedForRPC(e: Env, o: MarshalOptions, m: Message, rpc: string) returns (r: Option<Json>)
    requires ValidEnv(e) && WellTyped(e.g, m.Value()) && PlainWellKnowns(e, OutputExclusionMatcher(rpc))
    ensures var hit := OutputExclusionMatcher(rpc);
      && (r.Some? <==> Verifiable(e, hit, e.maxDepth, m.Value()) && CanMarshal(e, o, hit, m.Value()))
      && (!EmitsDefaults(o) || ClearBelow(e, o, hit, m.ty) || !Reaches(e.g, hit, m.ty) ==>
           r == MaskedJsonOf(e, o, hit, m.Value()))
      && (r.Some? && EmitsDefaults(o) ==>
           && CanMarshal(e, o, Nothing, Erase(e, hit, m.Value()))
           && r.value == Strip(e, hit, m.ty, ToJson(e, o, Nothing, Erase(e, hit, m.Value())))
           && (r.value == ToJson(e, o, hit, m.Value()) <==> RightMembers(e, o, hit, m.Value())))
      && (r.Some? && ClearBelow(e, o, hit, m.ty) ==> Masked(e, hit, m.ty, r.value))
  {
    var hit := OutputExclusionMatcher(rpc);
    ghost var was := m.Value();
    hide Reaches, Strip, ToJson, Masked, ClearBelow, PlainWellKnowns, CanMarshal, Verifiable, Closed, Erase;
    hide RightMembers;
    var masked := new Message(m.Value());
    var _, err := ClearFieldsMatchingReflect(e, hit, FailLoud, 0, masked);
    if err.Some? {
      return None;
    }
    VerifiableIsErased(e, hit, e.maxDepth, was);
    ErasedCanMarshal(e, o, hit, was);
    var payload := MarshalProto(e, o, masked.Value());
    if payload.None? {
      return None;
    }
    if !Reaches(e.g, hit, m.ty) { ColdIsClear(e, o, hit, m.ty); }
    if ClearBelow(e, o, hit, m.ty) { MaskedRendering(e, o, hit, was); }
    if !o.emitDefaultValues && !o.emitUnpopulated {
      CompactErased(e, o, hit, was);
      return payload;
    }
    if ClearBelow(e, o, hit, m.ty) { StrippedErased(e, o, hit, was); }
    StrippedExactly(e, o, hit, was);
    var decoded := StripSchemaExcludedJSON(e, hit, m.ty, payload.value);
    r := Some(decoded);
  }
}
