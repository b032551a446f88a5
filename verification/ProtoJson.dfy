/** protojson rendering. */
module ProtoJson {
  import opened Descriptors
  import opened Messages
  import opened Masking
  import opened JsonValue

  /** The options of the marshaller. How it renders scalars, zero values and the well-known types
      with a shape of their own is left open. */
  datatype MarshalOptions = MarshalOptions(
    useProtoNames: bool, emitUnpopulated: bool, emitDefaultValues: bool,
    leaf: (FieldDesc, Bytes) -> Json, zero: FieldDesc -> Json, wkt: Msg -> Option<Json>)

  predicate EmitsDefaults(o: MarshalOptions) { o.emitUnpopulated || o.emitDefaultValues }

  function KeyOf(o: MarshalOptions, fd: FieldDesc): string {
    if o.useProtoNames then fd.name else fd.jsonName
  }

  /** Unset fields appear only under the emit options, never in a oneof, and with presence only
      as a null of emitUnpopulated. */
  predicate Emitted(o: MarshalOptions, fd: FieldDesc, v: Val) {
    !v.Unset? || (EmitsDefaults(o) && fd.oneof.None? && (fd.presence ==> o.emitUnpopulated))
  }

  function UnsetJson(o: MarshalOptions, fd: FieldDesc): Json {
    if fd.presence then JNull
    else if fd.kind.ScalarKind? then o.zero(fd)
    else if fd.card.Repeated? then JArr([])
    else if fd.card.MapField? then JObj(map[])
    else JNull
  }

  predicate Nothing(fd: FieldDesc) { false }

  /** Marshalling `m` without the fields `mask` hides succeeds. */
  predicate CanMarshal(e: Env, o: MarshalOptions, mask: Matcher, m: Msg)
    requires ValidEnv(e) && WellTyped(e.g, m)
    decreases Budget(m), m, 1
  {
    if m.ty == ANY then
      if AnyUrl(m) == [] then AnyRaw(m) == []
      else Payload(e, m).Some? && CanMarshal(e, o, mask, Payload(e, m).value)
    else if m.ty.WellKnownType? then o.wkt(m).Some?
    else forall i :: 0 <= i < |m.slots| && !mask(e.g[m.ty].fields[i]) ==>
      SlotCanMarshal(e, o, mask, e.g[m.ty].fields[i], m.slots[i])
  }

  predicate SlotCanMarshal(e: Env, o: MarshalOptions, mask: Matcher, fd: FieldDesc, v: Val)
    requires ValidEnv(e) && SlotTyped(e.g, fd, v)
    decreases SlotBudget(v), v, 0
  {
    v.VMsgs? ==> forall j :: 0 <= j < |v.items| ==> CanMarshal(e, o, mask, v.items[j])
  }

  /** The JSON of `m`, rendered as if the fields `mask` hides were not in the descriptors. With
      `Nothing` hidden this is protojson.Marshal. */
  function ToJson(e: Env, o: MarshalOptions, mask: Matcher, m: Msg): Json
    requires ValidEnv(e) && WellTyped(e.g, m) && CanMarshal(e, o, mask, m)
    decreases Budget(m), m, 1
  {
    if m.ty == ANY then
      if AnyUrl(m) == [] then JObj(map[])
      else
        var p := Payload(e, m).value;
        if p.ty.WellKnownType? then JObj(map["@type" := JLeaf(AnyUrl(m)), "value" := ToJson(e, o, mask, p)])
        else JObj(FieldsJson(e, o, mask, p)["@type" := JLeaf(AnyUrl(m))])
    else if m.ty.WellKnownType? then o.wkt(m).value
    else JObj(FieldsJson(e, o, mask, m))
  }

  /** Slot `i` of `m` is rendered. */
  predicate Shown(e: Env, o: MarshalOptions, mask: Matcher, m: Msg, i: int)
    requires WellTyped(e.g, m)
  {
    0 <= i < |m.slots| && !mask(e.g[m.ty].fields[i]) && Emitted(o, e.g[m.ty].fields[i], m.slots[i])
  }

  function FieldsJson(e: Env, o: MarshalOptions, mask: Matcher, m: Msg): map<string, Json>
    requires ValidEnv(e) && WellTyped(e.g, m) && CanMarshal(e, o, mask, m) && !m.ty.WellKnownType?
    decreases Budget(m), m, 0
  {
    map i | 0 <= i < |m.slots| && Shown(e, o, mask, m, i) ::
      KeyOf(o, e.g[m.ty].fields[i]) := SlotJson(e, o, mask, e.g[m.ty].fields[i], m.slots[i])
  }

  function SlotJson(e: Env, o: MarshalOptions, mask: Matcher, fd: FieldDesc, v: Val): Json
    requires ValidEnv(e) && SlotTyped(e.g, fd, v) && SlotCanMarshal(e, o, mask, fd, v)
    decreases SlotBudget(v), v, 0
  {
    match v
    case Unset => UnsetJson(o, fd)
    case VScalar(d) => o.leaf(fd, d)
    case VMsgs(keys, items) =>
      Assemble(fd.card, keys, seq(|items|, j requires 0 <= j < |items| => ToJson(e, o, mask, items[j])))
  }

  /** The JSON of a set field, from the JSON of its items. */
  function Assemble(card: Card, keys: seq<string>, items: seq<Json>): Json
    requires ShapeOk(card, keys, |items|)
  {
    match card
    case Singular => items[0]
    case Repeated => JArr(items)
    case MapField => JObj(map k | k in keys :: items[KeyIndex(keys, k)])
  }

  function KeyIndex(keys: seq<string>, k: string): (i: nat)
    requires k in keys
    ensures i < |keys| && keys[i] == k
  {
    if keys[0] == k then 0 else 1 + KeyIndex(keys[1..], k)
  }
}
