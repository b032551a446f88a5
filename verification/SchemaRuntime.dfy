/** The generated schemas and the runtime agree on which fields exist. */
module SchemaRuntime {
  import opened Descriptors
  import opened Messages
  import opened Masking
  import opened JsonValue
  import opened ProtoJson
  import opened MaskedJson
  import opened NoLeak
  import opened NameClash
  import opened Reachability
  import opened ClearWalk
  import opened StripWalk
  import opened SchemaGen
  import opened SchemaLaws

  // ----- responses -----

  /** Walking `j` and `s` in parallel, down to placeholders and types with a shape of their own,
      every key is a property of its node. */
  ghost predicate KeysCovered(s: Schema, j: Json)
    decreases s
  {
    match s
    case ArrayOf(x) => j.JArr? ==> forall i :: 0 <= i < |j.items| ==> KeysCovered(x, j.items[i])
    case MapOf(x) => j.JObj? ==> forall k :: k in j.members ==> KeysCovered(x, j.members[k])
    case Object(_, props, _, _) =>
      j.JObj? ==> forall k :: k in j.members ==> k in props && KeysCovered(props[k], j.members[k])
    case _ => true
  }

  /** The generator's filter is the complement of the runtime's mask. */
  ghost predicate Complements(o: Options, hit: Matcher) {
    forall fd :: o.filter(fd) <==> !hit(fd)
  }

  lemma OutputFilterComplements(g: Graph, configured: int, rpc: string)
    ensures Complements(OutputOptions(g, configured, rpc), OutputExclusionMatcher(rpc))
  {
  }

  lemma CoveredItems(fd: FieldDesc, item: Schema, keys: seq<string>, items: seq<Json>)
    requires ShapeOk(fd.card, keys, |items|)
    requires forall i :: 0 <= i < |items| ==> KeysCovered(item, items[i])
    ensures KeysCovered(match fd.card case Singular => item case Repeated => ArrayOf(item) case MapField => MapOf(item),
      Assemble(fd.card, keys, items))
  {
  }

  lemma CoveredUnset(o: Options, seen: Counts, mo: MarshalOptions, fd: FieldDesc)
    requires ValidOptions(o, seen) && fd.kind.MessageKind? && fd.kind.ty in o.g
    ensures KeysCovered(FieldSchema(o, seen, fd), UnsetJson(mo, fd))
  {
  }

  lemma {:induction false} SlotCovered(
    e: Env, o: Options, seen: Counts, mo: MarshalOptions, hit: Matcher, fd: FieldDesc, v: Val)
    requires ValidEnv(e) && ValidOptions(o, seen) && o.g == e.g && Complements(o, hit) && !mo.useProtoNames
    requires SlotTyped(e.g, fd, v) && (fd.kind.MessageKind? ==> fd.kind.ty in e.g) && SlotCanMarshal(e, mo, hit, fd, v)
    ensures KeysCovered(FieldSchema(o, seen, fd), SlotJson(e, mo, hit, fd, v))
    decreases v, 0
  {
    if fd.kind.MessageKind? {
      if v.Unset? {
        CoveredUnset(o, seen, mo, fd);
      } else {
        var item := if fd.kind.ty.WellKnownType? then Custom(fd.kind.ty) else MessageSchema(o, seen, fd.kind.ty);
        var items := seq(|v.items|, j requires 0 <= j < |v.items| => ToJson(e, mo, hit, v.items[j]));
        forall j | 0 <= j < |v.items| ensures KeysCovered(item, items[j]) {
          if !fd.kind.ty.WellKnownType? { ResponseCovered(e, o, seen, mo, hit, v.items[j]); }
        }
        CoveredItems(fd, item, v.keys, items);
      }
    }
  }

  lemma {:induction false} ObjectCovered(
    e: Env, o: Options, seen: Counts, mo: MarshalOptions, hit: Matcher, m: Msg, s: Schema)
    requires ValidEnv(e) && ValidOptions(o, seen) && o.g == e.g && Complements(o, hit) && !mo.useProtoNames
    requires WellTyped(e.g, m) && CanMarshal(e, mo, hit, m) && !m.ty.WellKnownType?
    requires s.Object? && s.props == Properties(o, seen, m.ty, |o.g[m.ty].fields|)
    ensures KeysCovered(s, JObj(FieldsJson(e, mo, hit, m)))
    decreases m, 1
  {
    forall k | k in FieldsJson(e, mo, hit, m)
      ensures k in s.props && KeysCovered(s.props[k], FieldsJson(e, mo, hit, m)[k])
    {
      FieldsCovered(e, o, seen, mo, hit, m, k);
    }
  }

  lemma {:induction false} FieldsCovered(
    e: Env, o: Options, seen: Counts, mo: MarshalOptions, hit: Matcher, m: Msg, k: string)
    requires ValidEnv(e) && ValidOptions(o, seen) && o.g == e.g && Complements(o, hit) && !mo.useProtoNames
    requires WellTyped(e.g, m) && CanMarshal(e, mo, hit, m) && !m.ty.WellKnownType?
    requires k in FieldsJson(e, mo, hit, m)
    ensures var props := Properties(o, seen, m.ty, |o.g[m.ty].fields|);
      k in props && KeysCovered(props[k], FieldsJson(e, mo, hit, m)[k])
    decreases m, 0
  {
    var i := FieldsJsonKey(e, mo, hit, m, k);
    PropertyAt(o, seen, m.ty, |e.g[m.ty].fields|, i);
    SlotCovered(e, o, seen, mo, hit, e.g[m.ty].fields[i], m.slots[i]);
  }

  lemma {:induction false} ObjectRendered(e: Env, o: Options, seen: Counts, mo: MarshalOptions, hit: Matcher, m: Msg)
    requires ValidEnv(e) && ValidOptions(o, seen) && o.g == e.g && Complements(o, hit) && !mo.useProtoNames
    requires WellTyped(e.g, m) && CanMarshal(e, mo, hit, m) && !m.ty.WellKnownType? && seen[m.ty] < o.maxDepth
    ensures KeysCovered(MessageSchema(o, seen, m.ty), JObj(FieldsJson(e, mo, hit, m)))
    decreases m, 2
  {
    Expanded(o, seen, m.ty);
    ObjectCovered(e, o, seen[m.ty := seen[m.ty] + 1], mo, hit, m, MessageSchema(o, seen, m.ty));
  }

  lemma {:induction false} ResponseCovered(e: Env, o: Options, seen: Counts, mo: MarshalOptions, hit: Matcher, m: Msg)
    requires ValidEnv(e) && ValidOptions(o, seen) && o.g == e.g && Complements(o, hit) && !mo.useProtoNames
    requires WellTyped(e.g, m) && CanMarshal(e, mo, hit, m) && !m.ty.WellKnownType?
    ensures KeysCovered(MessageSchema(o, seen, m.ty), ToJson(e, mo, hit, m))
    decreases m, 3
  {
    if seen[m.ty] < o.maxDepth {
      PlainRendered(e, mo, hit, m);
      ObjectRendered(e, o, seen, mo, hit, m);
    }
  }

  lemma VisiblePartCovered(e: Env, mo: MarshalOptions, configured: int, rpc: string, m: Msg)
    requires ValidEnv(e) && WellTyped(e.g, m) && !m.ty.WellKnownType? && !mo.useProtoNames
    requires CanMarshal(e, mo, OutputExclusionMatcher(rpc), m)
    ensures KeysCovered(OutputSchema(e.g, configured, rpc, m.ty), ToJson(e, mo, OutputExclusionMatcher(rpc), m))
  {
    OutputFilterComplements(e.g, configured, rpc);
    ResponseCovered(e, OutputOptions(e.g, configured, rpc), NoCounts(e.g), mo, OutputExclusionMatcher(rpc), m);
  }

  /** A masked response under the default JSON names has only keys its output schema declares. */
  lemma MaskedResponseMatchesSchema(e: Env, mo: MarshalOptions, configured: int, rpc: string, m: Msg)
    requires ValidEnv(e) && WellTyped(e.g, m) && !m.ty.WellKnownType? && !mo.useProtoNames
    requires MaskedJsonOf(e, mo, OutputExclusionMatcher(rpc), m).Some?
    ensures KeysCovered(
      OutputSchema(e.g, configured, rpc, m.ty), MaskedJsonOf(e, mo, OutputExclusionMatcher(rpc), m).value)
  {
    VisiblePartCovered(e, mo, configured, rpc, m);
  }

  lemma AnySchemaKeys(o: Options, seen: Counts)
    requires ValidOptions(o, seen) && StandardAny(o.g) && seen[ANY] < o.maxDepth
    ensures MessageSchema(o, seen, ANY).Object? && "@type" !in MessageSchema(o, seen, ANY).props
  {
    Expanded(o, seen, ANY);
    hide MessageSchema, Properties, RequiredNames, Groups, Left;
    var seen' := seen[ANY := seen[ANY] + 1];
    if "@type" in Properties(o, seen', ANY, |o.g[ANY].fields|) {
      var i := PropertyOf(o, seen', ANY, |o.g[ANY].fields|, "@type");
    }
  }

  lemma AnyJsonKeys(e: Env, mo: MarshalOptions, hit: Matcher, m: Msg)
    requires ValidEnv(e) && WellTyped(e.g, m) && m.ty == ANY && CanMarshal(e, mo, hit, m)
    ensures ToJson(e, mo, hit, m).JObj?
    ensures if AnyUrl(m) == [] then ToJson(e, mo, hit, m).members == map[] else "@type" in ToJson(e, mo, hit, m).members
  {
    hide FieldsJson, Reaches;
  }

  /** The one well-known root the model can render itself: for an Any returned by the RPC itself
      the schema lists the two fields of Any, so it covers the JSON only when no type is set. */
  lemma AnyRootMismatch(e: Env, mo: MarshalOptions, configured: int, rpc: string, m: Msg)
    requires ValidEnv(e) && StandardAny(e.g) && WellTyped(e.g, m) && m.ty == ANY
    requires MaskedJsonOf(e, mo, OutputExclusionMatcher(rpc), m).Some?
    ensures AnyUrl(m) == [] <==>
      KeysCovered(
        OutputSchema(e.g, configured, rpc, ANY), MaskedJsonOf(e, mo, OutputExclusionMatcher(rpc), m).value)
  {
    hide ToJson, CanMarshal, Verifiable, MessageSchema, Reaches;
    AnySchemaKeys(OutputOptions(e.g, configured, rpc), NoCounts(e.g));
    AnyJsonKeys(e, mo, OutputExclusionMatcher(rpc), m);
  }

  /** The whole output path of a generated handler: the gate decides at generation time which
      marshaller runs. Whatever it decides, the response is the JSON of the visible part exactly when
      no emit option is on or the members come out of the strip pass right; under the default JSON
      names it then has only keys its output schema declares. */
  method MarshalOutput(e: Env, mo: MarshalOptions, configured: int, m: Message, rpc: string) returns (r: Option<Json>)
    requires ValidEnv(e) && WellTyped(e.g, m.Value()) && PlainWellKnowns(e, OutputExclusionMatcher(rpc))
    ensures var hit := OutputExclusionMatcher(rpc);
      && (r.Some? <==>
           && CanMarshal(e, mo, hit, m.Value())
           && (Reaches(e.g, hit, m.ty) ==> Verifiable(e, hit, e.maxDepth, m.Value())))
      && (r.Some? ==>
           (r.value == ToJson(e, mo, hit, m.Value()) <==> !EmitsDefaults(mo) || RightMembers(e, mo, hit, m.Value())))
      && (r.Some? && (ClearBelow(e, mo, hit, m.ty) || !Reaches(e.g, hit, m.ty)) ==> RightMembers(e, mo, hit, m.Value()))
      && (r.Some? && r.value == ToJson(e, mo, hit, m.Value()) && !m.ty.WellKnownType? && !mo.useProtoNames ==>
           KeysCovered(OutputSchema(e.g, configured, rpc, m.ty), r.value))
  {
    ghost var hit := OutputExclusionMatcher(rpc);
    hide ToJson, CanMarshal, Verifiable, ClearBelow, PlainWellKnowns, KeysCovered, Reaches, OutputSchema, RightMembers;
    if CanMarshal(e, mo, hit, m.Value()) {
      if !m.ty.WellKnownType? && !mo.useProtoNames { VisiblePartCovered(e, mo, configured, rpc, m.Value()); }
      if !Reaches(e.g, hit, m.ty) { ColdIsClear(e, mo, hit, m.ty); }
      if ClearBelow(e, mo, hit, m.ty) { ClearIsRight(e, mo, hit, m.Value()); }
    }
    var outputHasExcluded := HasOutputExclusions(e.g, m.ty, rpc);
    if outputHasExcluded {
      r := MarshalProtoMaskedForRPC(e, mo, m, rpc);
    } else {
      ColdRendering(e, mo, hit, m.Value());
      r := MarshalProto(e, mo, m.Value());
    }
  }

  // ----- fields of well-known types -----

  /** The shape that the protobuf JSON mapping gives a well-known type. */
  predicate RendersAs(t: WellKnown, j: Json) {
    match t
    case Value => true
    case Any => j.JObj? && (j.members != map[] ==> "@type" in j.members && j.members["@type"].JLeaf?)
    case Struct => j.JObj?
    case Empty => j.JObj?
    case ListValue => j.JArr?
    case _ => j.JLeaf?
  }

  /** The schema of a field of such a type accepts what the type is rendered as, an Any without a type
      excepted, and beyond that at most a null. */
  lemma WellKnownFields(t: WellKnown, j: Json)
    ensures RendersAs(t, j) ==> (CustomAccepts(t, j) <==> !(t == WellKnown.Any && j.members == map[]))
    ensures CustomAccepts(t, j) ==> RendersAs(t, j) || j == JNull
    ensures CustomAccepts(t, JNull) <==> t !in {WellKnown.Struct, Empty, ListValue, FieldMask}
  {
  }

  /** So a field that holds an Any matches its schema exactly when a type is set. */
  lemma AnyFieldMismatch(e: Env, mo: MarshalOptions, hit: Matcher, m: Msg)
    requires ValidEnv(e) && WellTyped(e.g, m) && m.ty == ANY && CanMarshal(e, mo, hit, m)
    ensures CustomAccepts(WellKnown.Any, ToJson(e, mo, hit, m)) <==> AnyUrl(m) != []
  {
    AnyJsonKeys(e, mo, hit, m);
    if AnyUrl(m) != [] { AnyMarker(e, mo, hit, m); }
  }

  lemma AnyMarker(e: Env, mo: MarshalOptions, hit: Matcher, m: Msg)
    requires ValidEnv(e) && WellTyped(e.g, m) && m.ty == ANY && CanMarshal(e, mo, hit, m) && AnyUrl(m) != []
    ensures var j := ToJson(e, mo, hit, m);
      j.JObj? && "@type" in j.members && j.members["@type"] == JLeaf(AnyUrl(m))
  {
    hide FieldsJson, Reaches;
  }

  /** And an unset message field that emitUnpopulated renders as null matches its schema exactly when
      it is of a well-known type other than Struct, Empty, ListValue and FieldMask. */
  lemma UnsetMessageMismatch(o: Options, seen: Counts, mo: MarshalOptions, fd: FieldDesc)
    requires ValidOptions(o, seen) && fd.card.Singular? && fd.kind.MessageKind? && fd.kind.ty in o.g
    requires fd.presence && fd.oneof.None? && mo.emitUnpopulated
    ensures Emitted(mo, fd, Unset) && UnsetJson(mo, fd) == JNull
    ensures Accepts(FieldSchema(o, seen, fd), UnsetJson(mo, fd)) <==>
      fd.kind.ty.WellKnownType? && fd.kind.ty.wkt !in {WellKnown.Struct, Empty, ListValue, FieldMask}
  {
    if fd.kind.ty.WellKnownType? { WellKnownFields(fd.kind.ty.wkt, JNull); }
  }

  // ----- requests -----

  /** Walking `m` and `s` in parallel, every field still set is a property of its node. */
  ghost predicate SetFieldsCovered(g: Graph, s: Schema, m: Msg)
    requires WellTyped(g, m)
    decreases m, 1
  {
    s.Object? ==> PropertiesCover(g, s.props, m)
  }

  ghost predicate PropertiesCover(g: Graph, props: map<string, Schema>, m: Msg)
    requires WellTyped(g, m)
    decreases m, 0
  {
    forall i :: 0 <= i < |m.slots| && !m.slots[i].Unset? ==>
      && g[m.ty].fields[i].jsonName in props
      && ItemsCovered(g, g[m.ty].fields[i], ItemOf(props[g[m.ty].fields[i].jsonName]), m.slots[i])
  }

  ghost predicate ItemsCovered(g: Graph, fd: FieldDesc, s: Schema, v: Val)
    requires SlotTyped(g, fd, v)
    decreases v, 0
  {
    v.VMsgs? ==> forall j :: 0 <= j < |v.items| ==> SetFieldsCovered(g, s, v.items[j])
  }

  lemma {:induction false} CleanIsCovered(e: Env, o: Options, seen: Counts, hit: Matcher, m: Msg)
    requires ValidEnv(e) && ValidOptions(o, seen) && o.g == e.g && Complements(o, hit)
    requires WellTyped(e.g, m) && m.ty != ANY && Clean(e, hit, m)
    ensures SetFieldsCovered(e.g, MessageSchema(o, seen, m.ty), m)
    decreases m, 2
  {
    if seen[m.ty] < o.maxDepth {
      CleanFieldsCovered(e, o, seen[m.ty := seen[m.ty] + 1], hit, m);
      NodeCovered(o, seen, m);
    }
  }

  lemma NodeCovered(o: Options, seen: Counts, m: Msg)
    requires ValidOptions(o, seen) && WellTyped(o.g, m) && seen[m.ty] < o.maxDepth
    requires PropertiesCover(o.g, Properties(o, seen[m.ty := seen[m.ty] + 1], m.ty, |o.g[m.ty].fields|), m)
    ensures SetFieldsCovered(o.g, MessageSchema(o, seen, m.ty), m)
  {
    Expanded(o, seen, m.ty);
  }

  lemma {:induction false} CleanFieldsCovered(e: Env, o: Options, seen: Counts, hit: Matcher, m: Msg)
    requires ValidEnv(e) && ValidOptions(o, seen) && o.g == e.g && Complements(o, hit)
    requires WellTyped(e.g, m) && m.ty != ANY && Clean(e, hit, m)
    ensures PropertiesCover(e.g, Properties(o, seen, m.ty, |o.g[m.ty].fields|), m)
    decreases m, 1
  {
    forall i | 0 <= i < |m.slots| && !m.slots[i].Unset?
      ensures e.g[m.ty].fields[i].jsonName in Properties(o, seen, m.ty, |o.g[m.ty].fields|)
      ensures ItemsCovered(e.g, e.g[m.ty].fields[i],
        ItemOf(Properties(o, seen, m.ty, |o.g[m.ty].fields|)[e.g[m.ty].fields[i].jsonName]), m.slots[i])
    {
      assert SlotClean(e, hit, e.g[m.ty].fields[i], m.slots[i]);
      PropertyAt(o, seen, m.ty, |e.g[m.ty].fields|, i);
      CleanSlotCovered(e, o, seen, hit, e.g[m.ty].fields[i], m.slots[i]);
    }
  }

  lemma {:induction false} CleanSlotCovered(e: Env, o: Options, seen: Counts, hit: Matcher, fd: FieldDesc, v: Val)
    requires ValidEnv(e) && ValidOptions(o, seen) && o.g == e.g && Complements(o, hit)
    requires SlotTyped(e.g, fd, v) && (fd.kind.MessageKind? ==> fd.kind.ty in e.g) && SlotClean(e, hit, fd, v)
    ensures ItemsCovered(e.g, fd, ItemOf(FieldSchema(o, seen, fd)), v)
    decreases v, 0
  {
    if v.VMsgs? {
      forall j | 0 <= j < |v.items| ensures SetFieldsCovered(e.g, ItemOf(FieldSchema(o, seen, fd)), v.items[j]) {
        if !fd.kind.ty.WellKnownType? { CleanIsCovered(e, o, seen, hit, v.items[j]); }
      }
    }
  }

  lemma AnyCovered(e: Env, configured: int, m: Msg)
    requires ValidEnv(e) && StandardAny(e.g) && WellTyped(e.g, m) && m.ty == ANY
    ensures SetFieldsCovered(e.g, InputSchema(e.g, configured, ANY), m)
  {
    var o, seen := InputOptions(e.g, configured), NoCounts(e.g);
    AnyFieldsCovered(e, o, seen[ANY := seen[ANY] + 1], m);
    NodeCovered(o, seen, m);
  }

  lemma AnyFieldsCovered(e: Env, o: Options, seen: Counts, m: Msg)
    requires ValidEnv(e) && StandardAny(e.g) && WellTyped(e.g, m) && m.ty == ANY
    requires ValidOptions(o, seen) && o.g == e.g && Complements(o, InputMask)
    ensures PropertiesCover(e.g, Properties(o, seen, ANY, |e.g[ANY].fields|), m)
  {
    hide Properties, Left;
    forall i | 0 <= i < |m.slots| && !m.slots[i].Unset?
      ensures e.g[ANY].fields[i].jsonName in Properties(o, seen, ANY, |e.g[ANY].fields|)
      ensures m.slots[i].VScalar?
    {
      PropertyAt(o, seen, ANY, |e.g[ANY].fields|, i);
      assert SlotTyped(e.g, e.g[ANY].fields[i], m.slots[i]);
    }
  }

  /** After the handler's clears, every field still set in a request is one its input schema
      offers at that node. */
  lemma ClearedRequestMatchesSchema(e: Env, configured: int, m: Msg)
    requires ValidEnv(e) && StandardAny(e.g) && WellTyped(e.g, m)
    ensures SetFieldsCovered(e.g, InputSchema(e.g, configured, m.ty), Closed(e, InputMask, e.maxDepth, m))
  {
    if m.ty == ANY {
      AnyCovered(e, configured, Closed(e, InputMask, e.maxDepth, m));
      return;
    }
    ClosedIsClean(e, InputMask, e.maxDepth, m);
    CleanIsCovered(e, InputOptions(e.g, configured), NoCounts(e.g), InputMask, Closed(e, InputMask, e.maxDepth, m));
  }
}
