/** No key of a masked response names a hidden field, at any message position. */
module NoLeak {
  import opened Descriptors
  import opened Messages
  import opened Reachability
  import opened Masking
  import opened JsonValue
  import opened ProtoJson
  import opened StripPass
  import opened MaskedJson

  /** No key of `j`, the JSON of a message of type `t`, names a hidden field: nested, in lists, in
      map values, in Any payloads, in an Any inside an Any. */
  ghost predicate Masked(e: Env, hit: Matcher, t: TypeName, j: Json)
    requires ValidEnv(e) && t in e.g
    decreases j, 1
  {
    if !j.JObj? then true
    else if t == ANY then
      var target := e.resolve(TypeUrlOf(j.members));
      if target.None? then j.members.Keys <= {"@type"}
      else if target.value == ANY then "value" in j.members ==> Masked(e, hit, ANY, j.members["value"])
      else target.value.WellKnownType? || MaskedObject(e, hit, target.value, j)
    else MaskedObject(e, hit, t, j)
  }

  ghost predicate MaskedObject(e: Env, hit: Matcher, t: TypeName, j: Json)
    requires ValidEnv(e) && t in e.g && j.JObj?
    decreases j, 0
  {
    forall i, k :: 0 <= i < |e.g[t].fields| && k in j.members && HasName(e.g[t].fields[i], k) ==>
      !hit(e.g[t].fields[i]) && MaskedValue(e, hit, e.g[t].fields[i], j.members[k])
  }

  ghost predicate MaskedValue(e: Env, hit: Matcher, fd: FieldDesc, v: Json)
    requires ValidEnv(e) && (fd.kind.MessageKind? ==> fd.kind.ty in e.g)
    decreases v, 2
  {
    fd.kind.ScalarKind? ||
    match fd.card
    case Singular => Masked(e, hit, fd.kind.ty, v)
    case Repeated => v.JArr? ==> forall i :: 0 <= i < |v.items| ==> Masked(e, hit, fd.kind.ty, v.items[i])
    case MapField => v.JObj? ==> forall k :: k in v.members ==> Masked(e, hit, fd.kind.ty, v.members[k])
  }

  lemma {:induction false} ColdMasked(e: Env, hit: Matcher, t: TypeName, j: Json)
    requires ValidEnv(e) && t in e.g && !Reaches(e.g, hit, t)
    ensures Masked(e, hit, t, j)
    decreases j, 0
  {
    Cold(e.g, hit, t);
    if j.JObj? {
      forall i, k | 0 <= i < |e.g[t].fields| && k in j.members
        ensures MaskedValue(e, hit, e.g[t].fields[i], j.members[k])
      {
        ColdMaskedValue(e, hit, e.g[t].fields[i], j.members[k]);
      }
    }
  }

  lemma {:induction false} ColdMaskedValue(e: Env, hit: Matcher, fd: FieldDesc, v: Json)
    requires ValidEnv(e) && (fd.kind.MessageKind? ==> fd.kind.ty in e.g && !Reaches(e.g, hit, fd.kind.ty))
    ensures MaskedValue(e, hit, fd, v)
    decreases v, 1
  {
    if fd.kind.MessageKind? {
      match fd.card
      case Singular => ColdMasked(e, hit, fd.kind.ty, v);
      case Repeated => if v.JArr? { forall i | 0 <= i < |v.items| { ColdMasked(e, hit, fd.kind.ty, v.items[i]); } }
      case MapField => if v.JObj? { forall k | k in v.members { ColdMasked(e, hit, fd.kind.ty, v.members[k]); } }
    }
  }

  lemma MaskedAssembly(e: Env, hit: Matcher, fd: FieldDesc, keys: seq<string>, items: seq<Json>)
    requires ValidEnv(e) && fd.kind.MessageKind? && fd.kind.ty in e.g && ShapeOk(fd.card, keys, |items|)
    requires forall j :: 0 <= j < |items| ==> Masked(e, hit, fd.kind.ty, items[j])
    ensures MaskedValue(e, hit, fd, Assemble(fd.card, keys, items))
  {
  }

  lemma {:induction false} MaskedSlot(e: Env, o: MarshalOptions, hit: Matcher, fd: FieldDesc, v: Val)
    requires ValidEnv(e) && SlotTyped(e.g, fd, v) && PlainWellKnowns(e, hit)
    requires fd.kind.MessageKind? ==> fd.kind.ty in e.g && ClearBelow(e, o, hit, fd.kind.ty)
    requires SlotCanMarshal(e, o, hit, fd, v)
    ensures MaskedValue(e, hit, fd, SlotJson(e, o, hit, fd, v))
    decreases SlotBudget(v), v, 0
  {
    if v.VMsgs? {
      forall j | 0 <= j < |v.items| ensures Masked(e, hit, fd.kind.ty, ToJson(e, o, hit, v.items[j])) {
        MaskedRendering(e, o, hit, v.items[j]);
      }
      MaskedAssembly(e, hit, fd, v.keys,
        seq(|v.items|, j requires 0 <= j < |v.items| => ToJson(e, o, hit, v.items[j])));
    }
  }

  lemma HarmlessMasked(e: Env, hit: Matcher, fd: FieldDesc, v: Json)
    requires ValidEnv(e) && (fd.kind.MessageKind? ==> fd.kind.ty in e.g) && !Matters(e.g, hit, fd)
    ensures MaskedValue(e, hit, fd, v)
  {
    if fd.kind.MessageKind? { ColdMaskedValue(e, hit, fd, v); }
  }

  lemma {:induction false} MaskedMember(
    e: Env, o: MarshalOptions, hit: Matcher, m: Msg, extra: map<string, Json>, i: nat, k: string)
    requires ValidEnv(e) && WellTyped(e.g, m) && PlainWellKnowns(e, hit) && ClearBelow(e, o, hit, m.ty)
    requires CanMarshal(e, o, hit, m) && !m.ty.WellKnownType? && extra.Keys <= {"@type"}
    requires i < |m.slots| && k in FieldsJson(e, o, hit, m) + extra && HasName(e.g[m.ty].fields[i], k)
    ensures var fd, v := e.g[m.ty].fields[i], (FieldsJson(e, o, hit, m) + extra)[k];
      !hit(fd) && MaskedValue(e, hit, fd, v)
    decreases Budget(m), m, 0
  {
    var fd, b := e.g[m.ty].fields[i], FieldsJson(e, o, hit, m);
    ClearHere(e, o, hit, m.ty);
    if Matters(e.g, hit, fd) {
      assert k != "@type";
      var n := FieldsJsonKey(e, o, hit, m, k);
      assert n == i;
      if fd.kind.MessageKind? { ClearChild(e, o, hit, m.ty, fd.kind.ty); }
      MaskedSlot(e, o, hit, fd, m.slots[i]);
    } else {
      HarmlessMasked(e, hit, fd, (b + extra)[k]);
    }
  }

  lemma {:induction false} MaskedFields(
    e: Env, o: MarshalOptions, hit: Matcher, m: Msg, extra: map<string, Json>)
    requires ValidEnv(e) && WellTyped(e.g, m) && PlainWellKnowns(e, hit) && ClearBelow(e, o, hit, m.ty)
    requires CanMarshal(e, o, hit, m) && !m.ty.WellKnownType? && extra.Keys <= {"@type"}
    ensures MaskedObject(e, hit, m.ty, JObj(FieldsJson(e, o, hit, m) + extra))
    decreases Budget(m), m, 1
  {
    var fields, b := e.g[m.ty].fields, FieldsJson(e, o, hit, m);
    forall i, k | 0 <= i < |fields| && k in (b + extra) && HasName(fields[i], k)
      ensures !hit(fields[i]) && MaskedValue(e, hit, fields[i], (b + extra)[k])
    {
      MaskedMember(e, o, hit, m, extra, i, k);
    }
  }

  /** Rendering without the hidden fields names none of them. */
  lemma {:induction false} MaskedRendering(e: Env, o: MarshalOptions, hit: Matcher, m: Msg)
    requires ValidEnv(e) && WellTyped(e.g, m) && PlainWellKnowns(e, hit) && ClearBelow(e, o, hit, m.ty)
    requires CanMarshal(e, o, hit, m)
    ensures Masked(e, hit, m.ty, ToJson(e, o, hit, m))
    decreases Budget(m), m, 2
  {
    if m.ty == ANY {
      if AnyUrl(m) != [] {
        var p := Payload(e, m).value;
        ClearPayload(e, o, hit, p.ty);
        if p.ty.WellKnownType? {
          AnyWrapped(e, o, hit, m);
          assert TypeUrlOf(ToJson(e, o, hit, m).members) == AnyUrl(m);
          if p.ty == ANY { MaskedRendering(e, o, hit, p); }
        } else {
          AnyMerged(e, o, hit, m);
          assert TypeUrlOf(ToJson(e, o, hit, m).members) == AnyUrl(m);
          MaskedFields(e, o, hit, p, map["@type" := JLeaf(AnyUrl(m))]);
        }
      }
    } else if m.ty.WellKnownType? {
      ColdMasked(e, hit, m.ty, o.wkt(m).value);
    } else {
      NoExtra(FieldsJson(e, o, hit, m));
      MaskedFields(e, o, hit, m, map[]);
    }
  }

  /** What masked marshalling must return: the JSON of the visible part of the message, or nothing
      when the message cannot be verified or its visible part cannot be rendered. */
  ghost function MaskedJsonOf(e: Env, o: MarshalOptions, hit: Matcher, m: Msg): Option<Json>
    requires ValidEnv(e) && WellTyped(e.g, m)
  {
    if Verifiable(e, hit, e.maxDepth, m) && CanMarshal(e, o, hit, m) then Some(ToJson(e, o, hit, m)) else None
  }

  /** protojson.Marshal */
  function MarshalProto(e: Env, o: MarshalOptions, m: Msg): Option<Json>
    requires ValidEnv(e) && WellTyped(e.g, m)
  {
    if CanMarshal(e, o, Nothing, m) then Some(ToJson(e, o, Nothing, m)) else None
  }

  /** Without anything hidden below a type, the plain marshaller gives the visible part. */
  lemma {:induction false} ColdRendering(e: Env, o: MarshalOptions, hit: Matcher, m: Msg)
    requires ValidEnv(e) && WellTyped(e.g, m) && !Reaches(e.g, hit, m.ty)
    ensures CanMarshal(e, o, Nothing, m) <==> CanMarshal(e, o, hit, m)
    ensures CanMarshal(e, o, hit, m) ==> ToJson(e, o, Nothing, m) == ToJson(e, o, hit, m)
    decreases m, 2
  {
    Cold(e.g, hit, m.ty);
    if !m.ty.WellKnownType? {
      forall i | 0 <= i < |m.slots|
        ensures SlotCanMarshal(e, o, Nothing, e.g[m.ty].fields[i], m.slots[i]) <==>
          SlotCanMarshal(e, o, hit, e.g[m.ty].fields[i], m.slots[i])
      {
        ColdSlotMarshals(e, o, hit, e.g[m.ty].fields[i], m.slots[i]);
      }
      if CanMarshal(e, o, hit, m) { ColdFields(e, o, hit, m); }
    }
  }

  lemma {:induction false} ColdSlotMarshals(e: Env, o: MarshalOptions, hit: Matcher, fd: FieldDesc, v: Val)
    requires ValidEnv(e) && SlotTyped(e.g, fd, v) && (fd.kind.MessageKind? ==> !Reaches(e.g, hit, fd.kind.ty))
    ensures SlotCanMarshal(e, o, Nothing, fd, v) <==> SlotCanMarshal(e, o, hit, fd, v)
    ensures SlotCanMarshal(e, o, hit, fd, v) ==> SlotJson(e, o, Nothing, fd, v) == SlotJson(e, o, hit, fd, v)
    decreases v, 0
  {
    if v.VMsgs? {
      forall j | 0 <= j < |v.items|
        ensures CanMarshal(e, o, Nothing, v.items[j]) <==> CanMarshal(e, o, hit, v.items[j])
        ensures CanMarshal(e, o, hit, v.items[j]) ==> ToJson(e, o, Nothing, v.items[j]) == ToJson(e, o, hit, v.items[j])
      {
        ColdRendering(e, o, hit, v.items[j]);
      }
      if SlotCanMarshal(e, o, hit, fd, v) {
        var a := seq(|v.items|, j requires 0 <= j < |v.items| => ToJson(e, o, Nothing, v.items[j]));
        var b := seq(|v.items|, j requires 0 <= j < |v.items| => ToJson(e, o, hit, v.items[j]));
        assert a == b;
        assert SlotJson(e, o, Nothing, fd, v) == Assemble(fd.card, v.keys, a);
        assert SlotJson(e, o, hit, fd, v) == Assemble(fd.card, v.keys, b);
      }
    }
  }

  lemma {:induction false} ColdFields(e: Env, o: MarshalOptions, hit: Matcher, m: Msg)
    requires ValidEnv(e) && WellTyped(e.g, m) && !Reaches(e.g, hit, m.ty) && !m.ty.WellKnownType?
    requires CanMarshal(e, o, Nothing, m) && CanMarshal(e, o, hit, m)
    ensures FieldsJson(e, o, Nothing, m) == FieldsJson(e, o, hit, m)
    decreases m, 1
  {
    var a, b := FieldsJson(e, o, Nothing, m), FieldsJson(e, o, hit, m);
    Cold(e.g, hit, m.ty);
    forall k: string
      ensures k in a <==> k in b
      ensures k in b ==> a[k] == b[k]
    {
      if k in a {
        var i := FieldsJsonKey(e, o, Nothing, m, k);
        FieldsJsonAt(e, o, hit, m, i);
      }
      if k in b {
        var i := FieldsJsonKey(e, o, hit, m, k);
        FieldsJsonAt(e, o, Nothing, m, i);
        ColdSlotMarshals(e, o, hit, e.g[m.ty].fields[i], m.slots[i]);
      }
    }
    SameMap(a, b);
  }

  /** The generator's gate refines the slow path: where it finds nothing, plain and masked
      marshalling agree on exactly the messages that stay above the depth bound, and beyond it
      only the plain one answers. */
  lemma GateRefinesMasking(e: Env, o: MarshalOptions, hit: Matcher, m: Msg)
    requires ValidEnv(e) && WellTyped(e.g, m) && !Reaches(e.g, hit, m.ty)
    ensures NestsWithin(m, e.maxDepth) ==> MaskedJsonOf(e, o, hit, m) == MarshalProto(e, o, m)
    ensures !NestsWithin(m, e.maxDepth) ==> MaskedJsonOf(e, o, hit, m) == None
  {
    ColdWalk(e, hit, e.maxDepth, m);
    ColdRendering(e, o, hit, m);
  }

  // ----- which fields a response shows -----

  /** A field is in the visible part for an RPC exactly when it is neither excluded nor excluded from
      the outputs of that RPC, of which only the first counts without an RPC; and when it is set, or it
      is in no oneof and the options ask for it: emitUnpopulated always, emitDefaultValues where an
      unset field is the same as its default. */
  lemma ShownForRpc(e: Env, o: MarshalOptions, rpc: string, m: Msg, i: nat)
    requires ValidEnv(e) && WellTyped(e.g, m) && !m.ty.WellKnownType?
    requires CanMarshal(e, o, OutputExclusionMatcher(rpc), m) && i < |m.slots|
    ensures var fd, v := e.g[m.ty].fields[i], ToJson(e, o, OutputExclusionMatcher(rpc), m);
      && v.JObj?
      && ((if o.useProtoNames then fd.name else fd.jsonName) in v.members <==>
           && !fd.exclude && (rpc == "" || rpc !in fd.excludeFromOutputs)
           && (!m.slots[i].Unset? ||
               (fd.oneof.None? && (o.emitUnpopulated || (o.emitDefaultValues && !fd.presence)))))
  {
    var hit, fields := OutputExclusionMatcher(rpc), e.g[m.ty].fields;
    hide CanMarshal, SlotJson;
    PlainRendered(e, o, hit, m);
    if Shown(e, o, hit, m, i) { FieldsJsonAt(e, o, hit, m, i); }
    if KeyOf(o, fields[i]) in FieldsJson(e, o, hit, m) {
      var n := FieldsJsonKey(e, o, hit, m, KeyOf(o, fields[i]));
      assert n == i;
    }
  }
}
