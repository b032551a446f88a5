/** The masked marshaller: clearing, rendering and stripping together give exactly the JSON of the
    original message with the hidden fields left out. */
module MaskedJson {
  import opened Descriptors
  import opened Paths
  import opened Messages
  import opened Codec
  import opened Reachability
  import opened Masking
  import opened JsonValue
  import opened ProtoJson
  import opened StripPass

  /** No field of the well-known types that protojson renders in its own way is hidden. */
  ghost predicate PlainWellKnowns(e: Env, hit: Matcher) {
    forall t: TypeName :: t.WellKnownType? && t in e.g && t != ANY ==> !Reaches(e.g, hit, t)
  }

  lemma BlankErased(e: Env, hit: Matcher, t: TypeName)
    requires ValidEnv(e) && t in e.g
    ensures Erase(e, hit, Blank(e.g, t)) == Blank(e.g, t)
  {
    EraseFixesClean(e, hit, Blank(e.g, t));
  }

  /** Erasing an Any erases its payload, and nothing else of it. */
  lemma ErasedPayload(e: Env, hit: Matcher, m: Msg)
    requires ValidEnv(e) && WellTyped(e.g, m) && m.ty == ANY
    ensures AnyUrl(Erase(e, hit, m)) == AnyUrl(m)
    ensures Payload(e, m).None? ==> Erase(e, hit, m) == m
    ensures Payload(e, m).Some? ==> Payload(e, Erase(e, hit, m)) == Some(Erase(e, hit, Payload(e, m).value))
  {
    if Payload(e, m).Some? {
      var p := Payload(e, m).value;
      if AnyRaw(m) == [] {
        EmptyIsBlank(e.g, Blank(e.g, p.ty));
        BlankErased(e, hit, p.ty);
      } else {
        RepackPayload(e, m, Erase(e, hit, p));
      }
    }
  }

  /** The erased message can be marshalled exactly when the visible part of the original can. */
  lemma {:induction false} ErasedCanMarshal(e: Env, o: MarshalOptions, hit: Matcher, m: Msg)
    requires ValidEnv(e) && WellTyped(e.g, m) && PlainWellKnowns(e, hit)
    ensures CanMarshal(e, o, Nothing, Erase(e, hit, m)) <==> CanMarshal(e, o, hit, m)
    decreases Budget(m), m
  {
    if m.ty == ANY {
      ErasedPayload(e, hit, m);
      if Payload(e, m).Some? { ErasedCanMarshal(e, o, hit, Payload(e, m).value); }
    } else if m.ty.WellKnownType? {
      ColdMessage(e, hit, m);
    } else {
      var r := Erase(e, hit, m);
      forall i | 0 <= i < |m.slots|
        ensures SlotCanMarshal(e, o, Nothing, e.g[m.ty].fields[i], r.slots[i]) <==>
          (hit(e.g[m.ty].fields[i]) || SlotCanMarshal(e, o, hit, e.g[m.ty].fields[i], m.slots[i]))
      {
        var fd, v := e.g[m.ty].fields[i], m.slots[i];
        assert r.slots[i] == EraseSlot(e, hit, fd, v);
        if v.VMsgs? && !hit(fd) {
          forall j | 0 <= j < |v.items|
            ensures CanMarshal(e, o, Nothing, r.slots[i].items[j]) <==> CanMarshal(e, o, hit, v.items[j])
          {
            ErasedCanMarshal(e, o, hit, v.items[j]);
          }
        }
      }
    }
  }

  lemma FieldsJsonAt(e: Env, o: MarshalOptions, mask: Matcher, m: Msg, i: nat)
    requires ValidEnv(e) && WellTyped(e.g, m) && CanMarshal(e, o, mask, m) && !m.ty.WellKnownType?
    requires Shown(e, o, mask, m, i)
    ensures KeyOf(o, e.g[m.ty].fields[i]) in FieldsJson(e, o, mask, m)
    ensures FieldsJson(e, o, mask, m)[KeyOf(o, e.g[m.ty].fields[i])] ==
      SlotJson(e, o, mask, e.g[m.ty].fields[i], m.slots[i])
  {
    hide CanMarshal, SlotJson, Emitted;
  }

  lemma FieldsJsonKey(e: Env, o: MarshalOptions, mask: Matcher, m: Msg, k: string) returns (i: nat)
    requires ValidEnv(e) && WellTyped(e.g, m) && CanMarshal(e, o, mask, m) && !m.ty.WellKnownType?
    requires k in FieldsJson(e, o, mask, m)
    ensures Shown(e, o, mask, m, i) && k == KeyOf(o, e.g[m.ty].fields[i])
    ensures FieldsJson(e, o, mask, m)[k] == SlotJson(e, o, mask, e.g[m.ty].fields[i], m.slots[i])
  {
    hide CanMarshal, SlotJson, Emitted, Reaches;
    i :| 0 <= i < |m.slots| && Shown(e, o, mask, m, i) && k == KeyOf(o, e.g[m.ty].fields[i]);
  }

  /** Without the emit options no strip pass is needed: a cleared field leaves no trace. */
  lemma {:induction false} CompactErased(e: Env, o: MarshalOptions, hit: Matcher, m: Msg)
    requires ValidEnv(e) && WellTyped(e.g, m) && PlainWellKnowns(e, hit)
    requires !EmitsDefaults(o) && CanMarshal(e, o, hit, m)
    ensures CanMarshal(e, o, Nothing, Erase(e, hit, m))
    ensures ToJson(e, o, Nothing, Erase(e, hit, m)) == ToJson(e, o, hit, m)
    decreases Budget(m), m, 2
  {
    ErasedCanMarshal(e, o, hit, m);
    if m.ty == ANY {
      ErasedPayload(e, hit, m);
      if AnyUrl(m) != [] {
        var p := Payload(e, m).value;
        if p.ty.WellKnownType? {
          CompactErased(e, o, hit, p);
        } else {
          CompactFields(e, o, hit, p);
        }
      }
    } else if m.ty.WellKnownType? {
      ColdMessage(e, hit, m);
    } else {
      CompactFields(e, o, hit, m);
    }
  }

  lemma {:induction false} CompactVisible(e: Env, o: MarshalOptions, hit: Matcher, m: Msg, k: string)
    requires ValidEnv(e) && WellTyped(e.g, m) && PlainWellKnowns(e, hit)
    requires !EmitsDefaults(o) && CanMarshal(e, o, hit, m) && !m.ty.WellKnownType?
    requires CanMarshal(e, o, Nothing, Erase(e, hit, m)) && k in FieldsJson(e, o, hit, m)
    ensures k in FieldsJson(e, o, Nothing, Erase(e, hit, m))
    ensures FieldsJson(e, o, Nothing, Erase(e, hit, m))[k] == FieldsJson(e, o, hit, m)[k]
    decreases Budget(m), m, 0
  {
    var i := FieldsJsonKey(e, o, hit, m, k);
    assert Erase(e, hit, m).slots[i] == EraseSlot(e, hit, e.g[m.ty].fields[i], m.slots[i]);
    FieldsJsonAt(e, o, Nothing, Erase(e, hit, m), i);
    CompactSlot(e, o, hit, e.g[m.ty].fields[i], m.slots[i]);
  }

  lemma CompactHidden(e: Env, o: MarshalOptions, hit: Matcher, m: Msg, k: string)
    requires ValidEnv(e) && WellTyped(e.g, m)
    requires !EmitsDefaults(o) && CanMarshal(e, o, hit, m) && !m.ty.WellKnownType?
    requires CanMarshal(e, o, Nothing, Erase(e, hit, m)) && k in FieldsJson(e, o, Nothing, Erase(e, hit, m))
    ensures k in FieldsJson(e, o, hit, m)
  {
    var i := FieldsJsonKey(e, o, Nothing, Erase(e, hit, m), k);
    assert Erase(e, hit, m).slots[i] == EraseSlot(e, hit, e.g[m.ty].fields[i], m.slots[i]);
    FieldsJsonAt(e, o, hit, m, i);
  }

  lemma {:induction false} CompactFields(e: Env, o: MarshalOptions, hit: Matcher, m: Msg)
    requires ValidEnv(e) && WellTyped(e.g, m) && PlainWellKnowns(e, hit)
    requires !EmitsDefaults(o) && CanMarshal(e, o, hit, m) && !m.ty.WellKnownType?
    ensures CanMarshal(e, o, Nothing, Erase(e, hit, m))
    ensures FieldsJson(e, o, Nothing, Erase(e, hit, m)) == FieldsJson(e, o, hit, m)
    decreases Budget(m), m, 1
  {
    ErasedCanMarshal(e, o, hit, m);
    forall k: string
      ensures k in FieldsJson(e, o, Nothing, Erase(e, hit, m)) <==> k in FieldsJson(e, o, hit, m)
      ensures k in FieldsJson(e, o, hit, m) ==>
        FieldsJson(e, o, Nothing, Erase(e, hit, m))[k] == FieldsJson(e, o, hit, m)[k]
    {
      if k in FieldsJson(e, o, Nothing, Erase(e, hit, m)) { CompactHidden(e, o, hit, m, k); }
      if k in FieldsJson(e, o, hit, m) { CompactVisible(e, o, hit, m, k); }
    }
    SameMap(FieldsJson(e, o, Nothing, Erase(e, hit, m)), FieldsJson(e, o, hit, m));
  }

  lemma SameMap(a: map<string, Json>, b: map<string, Json>)
    requires forall k :: k in a <==> k in b
    requires forall k :: k in b ==> a[k] == b[k]
    ensures a == b
  {
  }

  lemma {:induction false} CompactSlot(e: Env, o: MarshalOptions, hit: Matcher, fd: FieldDesc, v: Val)
    requires ValidEnv(e) && SlotTyped(e.g, fd, v) && PlainWellKnowns(e, hit)
    requires !EmitsDefaults(o) && SlotCanMarshal(e, o, hit, fd, v) && !hit(fd)
    ensures SlotCanMarshal(e, o, Nothing, fd, EraseSlot(e, hit, fd, v))
    ensures SlotJson(e, o, Nothing, fd, EraseSlot(e, hit, fd, v)) == SlotJson(e, o, hit, fd, v)
    decreases SlotBudget(v), v, 0
  {
    var r := EraseSlot(e, hit, fd, v);
    if v.VMsgs? {
      forall j | 0 <= j < |v.items|
        ensures CanMarshal(e, o, Nothing, r.items[j])
        ensures ToJson(e, o, Nothing, r.items[j]) == ToJson(e, o, hit, v.items[j])
      {
        CompactErased(e, o, hit, v.items[j]);
      }
      var a := seq(|v.items|, j requires 0 <= j < |v.items| => ToJson(e, o, Nothing, r.items[j]));
      var b := seq(|v.items|, j requires 0 <= j < |v.items| => ToJson(e, o, hit, v.items[j]));
      assert a == b;
      assert SlotJson(e, o, Nothing, fd, r) == Assemble(fd.card, v.keys, a);
      assert SlotJson(e, o, hit, fd, v) == Assemble(fd.card, v.keys, b);
    }
  }

  // ----- with the emit options: the strip pass removes the names that come back -----

  ghost function ThatOrAny(t: TypeName): Goal { x => x == t || x == ANY }

  /** A message of type `root` may contain one of type `t`; with an Any in it, anything. */
  ghost predicate MayContain(g: Graph, root: TypeName, t: TypeName) { Reach(Steps(g), ThatOrAny(t), root) }

  /** The keys are clear in every type that a message of type `root` may contain. */
  ghost predicate ClearBelow(e: Env, o: MarshalOptions, hit: Matcher, root: TypeName) {
    forall t :: t in e.g && MayContain(e.g, root, t) ==> ClearKeys(e.g, o, hit, e.g[t].fields)
  }

  lemma ClearHere(e: Env, o: MarshalOptions, hit: Matcher, t: TypeName)
    requires t in e.g && ClearBelow(e, o, hit, t)
    ensures ClearKeys(e.g, o, hit, e.g[t].fields)
  {
    GoalReaches(Steps(e.g), ThatOrAny(t), t);
  }

  lemma ClearChild(e: Env, o: MarshalOptions, hit: Matcher, t: TypeName, child: TypeName)
    requires Step(e.g, t, child) && ClearBelow(e, o, hit, t)
    ensures ClearBelow(e, o, hit, child)
  {
    forall u | u in e.g && MayContain(e.g, child, u) ensures ClearKeys(e.g, o, hit, e.g[u].fields) {
      StepBack(Steps(e.g), ThatOrAny(u), t, child);
    }
  }

  lemma ClearPayload(e: Env, o: MarshalOptions, hit: Matcher, t: TypeName)
    requires ClearBelow(e, o, hit, ANY)
    ensures ClearBelow(e, o, hit, t)
  {
    forall u | u in e.g ensures MayContain(e.g, ANY, u) {
      GoalReaches(Steps(e.g), ThatOrAny(u), ANY);
    }
  }

  /** Names without any clash are clear everywhere. */
  lemma ClearNamesSuffice(e: Env, o: MarshalOptions, hit: Matcher, root: TypeName)
    requires ValidEnv(e) && ClearNames(e.g)
    ensures ClearBelow(e, o, hit, root)
  {
    forall t | t in e.g ensures ClearKeys(e.g, o, hit, e.g[t].fields) {
      assert UniqueNames(e.g[t].fields) && NoNameClash(e.g[t].fields);
    }
  }

  lemma {:induction false} ColdAlong(g: Graph, hit: Matcher, p: seq<TypeName>)
    requires ClosedGraph(g) && IsPath(Steps(g), p) && p[0] in g && !Reaches(g, hit, p[0])
    ensures p[|p| - 1] in g && !Reaches(g, hit, p[|p| - 1])
    decreases |p|
  {
    if |p| > 1 {
      Cold(g, hit, p[0]);
      assert Step(g, p[0], p[1]);
      assert forall k :: 0 <= k < |p[1..]| ==> p[1..][k] == p[k + 1];
      ColdAlong(g, hit, p[1..]);
    }
  }

  /** Where nothing hidden is reachable, names do not matter. */
  lemma ColdIsClear(e: Env, o: MarshalOptions, hit: Matcher, root: TypeName)
    requires ValidEnv(e) && root in e.g && !Reaches(e.g, hit, root)
    ensures ClearBelow(e, o, hit, root)
  {
    forall t | t in e.g && MayContain(e.g, root, t) ensures ClearKeys(e.g, o, hit, e.g[t].fields) {
      var p :| Leads(Steps(e.g), ThatOrAny(t), root, p);
      ColdAlong(e.g, hit, p);
      Cold(e.g, hit, p[|p| - 1]);
      assert forall w :: 0 <= w < |e.g[t].fields| ==> !Matters(e.g, hit, e.g[t].fields[w]);
    }
  }

  lemma StrippedItems(e: Env, hit: Matcher, fd: FieldDesc, keys: seq<string>, a: seq<Json>, b: seq<Json>)
    requires ValidEnv(e) && fd.kind.MessageKind? && fd.kind.ty in e.g
    requires ShapeOk(fd.card, keys, |a|) && |b| == |a|
    requires forall j :: 0 <= j < |a| ==> Strip(e, hit, fd.kind.ty, a[j]) == b[j]
    ensures StripValue(e, hit, fd, Assemble(fd.card, keys, a)) == Assemble(fd.card, keys, b)
  {
    var v := Assemble(fd.card, keys, a);
    match fd.card
    case Singular =>
    case Repeated =>
      assert StripValue(e, hit, fd, v).items == b;
    case MapField =>
      var s, w := StripValue(e, hit, fd, v).members, Assemble(fd.card, keys, b).members;
      assert s.Keys == v.members.Keys == w.Keys;
      forall k | k in s ensures s[k] == w[k] {
        var j := KeyIndex(keys, k);
        assert v.members[k] == a[j] && w[k] == b[j];
      }
  }

  lemma StrippedUnset(e: Env, o: MarshalOptions, hit: Matcher, fd: FieldDesc)
    requires ValidEnv(e) && (fd.kind.MessageKind? ==> fd.kind.ty in e.g)
    ensures StripValue(e, hit, fd, UnsetJson(o, fd)) == UnsetJson(o, fd)
  {
    var v := UnsetJson(o, fd);
    if fd.kind.MessageKind? && v.JArr? { assert StripValue(e, hit, fd, v) == JArr([]) || fd.card != Repeated; }
    if fd.kind.MessageKind? && v.JObj? { assert StripValue(e, hit, fd, v) == JObj(map[]) || fd.card != MapField; }
  }

  lemma {:induction false} StrippedSlot(e: Env, o: MarshalOptions, hit: Matcher, fd: FieldDesc, v: Val)
    requires ValidEnv(e) && SlotTyped(e.g, fd, v) && PlainWellKnowns(e, hit)
    requires fd.kind.MessageKind? ==> fd.kind.ty in e.g && ClearBelow(e, o, hit, fd.kind.ty)
    requires SlotCanMarshal(e, o, hit, fd, v) && !hit(fd)
    ensures SlotCanMarshal(e, o, Nothing, fd, EraseSlot(e, hit, fd, v))
    ensures StripValue(e, hit, fd, SlotJson(e, o, Nothing, fd, EraseSlot(e, hit, fd, v))) == SlotJson(e, o, hit, fd, v)
    decreases SlotBudget(v), v, 0
  {
    var r := EraseSlot(e, hit, fd, v);
    match v
    case Unset => StrippedUnset(e, o, hit, fd);
    case VScalar(_) =>
    case VMsgs(keys, items) =>
      forall j | 0 <= j < |items|
        ensures CanMarshal(e, o, Nothing, r.items[j])
        ensures Strip(e, hit, fd.kind.ty, ToJson(e, o, Nothing, r.items[j])) == ToJson(e, o, hit, items[j])
      {
        StrippedErased(e, o, hit, items[j]);
      }
      var a := seq(|items|, j requires 0 <= j < |items| => ToJson(e, o, Nothing, r.items[j]));
      var b := seq(|items|, j requires 0 <= j < |items| => ToJson(e, o, hit, items[j]));
      assert SlotJson(e, o, Nothing, fd, r) == Assemble(fd.card, keys, a);
      assert SlotJson(e, o, hit, fd, v) == Assemble(fd.card, keys, b);
      StrippedItems(e, hit, fd, keys, a, b);
  }

  lemma ErasedSlotIs(e: Env, hit: Matcher, m: Msg, i: nat)
    requires ValidEnv(e) && WellTyped(e.g, m) && m.ty != ANY && i < |m.slots|
    ensures SlotTyped(e.g, e.g[m.ty].fields[i], m.slots[i])
    ensures Erase(e, hit, m).slots[i] == EraseSlot(e, hit, e.g[m.ty].fields[i], m.slots[i])
  {
    hide EraseSlot;
  }

  lemma {:induction false} VisibleStrips(e: Env, o: MarshalOptions, hit: Matcher, m: Msg, k: string) returns (i: nat)
    requires ValidEnv(e) && WellTyped(e.g, m) && PlainWellKnowns(e, hit) && ClearBelow(e, o, hit, m.ty)
    requires CanMarshal(e, o, hit, m) && !m.ty.WellKnownType?
    requires CanMarshal(e, o, Nothing, Erase(e, hit, m))
    requires k in FieldsJson(e, o, hit, m)
    ensures var a := FieldsJson(e, o, Nothing, Erase(e, hit, m));
      && k in a && i < |m.slots| && k == KeyOf(o, e.g[m.ty].fields[i]) && !hit(e.g[m.ty].fields[i])
      && StripValue(e, hit, e.g[m.ty].fields[i], a[k]) == FieldsJson(e, o, hit, m)[k]
    decreases Budget(m), m, 0
  {
    i := FieldsJsonKey(e, o, hit, m, k);
    ErasedSlotIs(e, hit, m, i);
    hide Erase, ClearBelow, Reaches, PlainWellKnowns, CanMarshal, FieldsJson, ThatOrAny;
    FieldsJsonAt(e, o, Nothing, Erase(e, hit, m), i);
    if e.g[m.ty].fields[i].kind.MessageKind? { ClearChild(e, o, hit, m.ty, e.g[m.ty].fields[i].kind.ty); }
    StrippedSlot(e, o, hit, e.g[m.ty].fields[i], m.slots[i]);
  }

  lemma ErasedMember(e: Env, o: MarshalOptions, hit: Matcher, m: Msg, k: string) returns (i: nat)
    requires ValidEnv(e) && WellTyped(e.g, m) && CanMarshal(e, o, hit, m) && !m.ty.WellKnownType?
    requires CanMarshal(e, o, Nothing, Erase(e, hit, m))
    requires k in FieldsJson(e, o, Nothing, Erase(e, hit, m))
    ensures i < |m.slots| && k == KeyOf(o, e.g[m.ty].fields[i])
    ensures hit(e.g[m.ty].fields[i]) || k in FieldsJson(e, o, hit, m)
  {
    i := FieldsJsonKey(e, o, Nothing, Erase(e, hit, m), k);
    assert Erase(e, hit, m).slots[i] == EraseSlot(e, hit, e.g[m.ty].fields[i], m.slots[i]);
    if !hit(e.g[m.ty].fields[i]) { FieldsJsonAt(e, o, hit, m, i); }
  }

  lemma RenderedOnly(e: Env, o: MarshalOptions, mask: Matcher, m: Msg, extra: map<string, Json>)
    requires ValidEnv(e) && WellTyped(e.g, m) && CanMarshal(e, o, mask, m) && !m.ty.WellKnownType?
    requires extra.Keys <= {"@type"}
    ensures RenderedKeys(o, e.g[m.ty].fields, FieldsJson(e, o, mask, m) + extra)
  {
    forall k | k in FieldsJson(e, o, mask, m)
      ensures exists n :: 0 <= n < |m.slots| && k == KeyOf(o, e.g[m.ty].fields[n])
    {
      var n := FieldsJsonKey(e, o, mask, m, k);
    }
  }

  /** A member of the rendered object beside the marker is dropped if its field is hidden, and
      otherwise becomes what the visible part shows for it. */
  lemma {:induction false} FieldMember(
    e: Env, o: MarshalOptions, hit: Matcher, m: Msg, extra: map<string, Json>, k: string)
    requires ValidEnv(e) && WellTyped(e.g, m) && PlainWellKnowns(e, hit) && ClearBelow(e, o, hit, m.ty)
    requires CanMarshal(e, o, hit, m) && !m.ty.WellKnownType? && extra.Keys <= {"@type"} && k !in extra
    requires CanMarshal(e, o, Nothing, Erase(e, hit, m))
    requires k in FieldsJson(e, o, Nothing, Erase(e, hit, m))
    ensures var a, b := FieldsJson(e, o, Nothing, Erase(e, hit, m)), FieldsJson(e, o, hit, m);
      var r := StripObject(e, hit, m.ty, |e.g[m.ty].fields|, JObj(a + extra)).members;
      (k in r <==> k in b) && (k in b ==> r[k] == b[k])
    decreases Budget(m), m, 1
  {
    var fields, n := e.g[m.ty].fields, |e.g[m.ty].fields|;
    var a, b := FieldsJson(e, o, Nothing, Erase(e, hit, m)), FieldsJson(e, o, hit, m);
    var j := JObj(a + extra);
    ClearHere(e, o, hit, m.ty);
    RenderedOnly(e, o, Nothing, Erase(e, hit, m), extra);
    if k in b {
      var i := VisibleStrips(e, o, hit, m, k);
      OwnMember(e, o, hit, m.ty, j, i);
    } else {
      var i := ErasedMember(e, o, hit, m, k);
      KeysLeft(e, hit, m.ty, n, j, k);
      assert HasName(fields[i], k);
      assert Deleted(fields, hit, n, k);
    }
  }

  /** The strip pass over the rendered fields of the erased message, with or without a type marker
      beside them, leaves exactly the visible ones. */
  lemma {:induction false} StrippedFields(
    e: Env, o: MarshalOptions, hit: Matcher, m: Msg, extra: map<string, Json>)
    requires ValidEnv(e) && WellTyped(e.g, m) && PlainWellKnowns(e, hit) && ClearBelow(e, o, hit, m.ty)
    requires CanMarshal(e, o, hit, m) && !m.ty.WellKnownType? && extra.Keys <= {"@type"}
    requires CanMarshal(e, o, Nothing, Erase(e, hit, m))
    ensures StripObject(e, hit, m.ty, |e.g[m.ty].fields|, JObj(FieldsJson(e, o, Nothing, Erase(e, hit, m)) + extra)) ==
      JObj(FieldsJson(e, o, hit, m) + extra)
    decreases Budget(m), m, 2
  {
    var a, b := FieldsJson(e, o, Nothing, Erase(e, hit, m)), FieldsJson(e, o, hit, m);
    var n, j := |e.g[m.ty].fields|, JObj(a + extra);
    var r := StripObject(e, hit, m.ty, n, j).members;
    forall k: string
      ensures k in r <==> k in b + extra
      ensures k in b + extra ==> r[k] == (b + extra)[k]
    {
      if k in extra {
        ClearHere(e, o, hit, m.ty);
        MarkerLeft(e, o, hit, m.ty, j);
      } else if k in a {
        FieldMember(e, o, hit, m, extra, k);
      } else {
        KeysLeft(e, hit, m.ty, n, j, k);
        if k in b { var _ := VisibleStrips(e, o, hit, m, k); }
      }
    }
    SameMap(r, b + extra);
  }

  /** Stripping the JSON of the erased message gives the JSON of the visible part. */
  lemma {:induction false} StrippedErased(e: Env, o: MarshalOptions, hit: Matcher, m: Msg)
    requires ValidEnv(e) && WellTyped(e.g, m) && PlainWellKnowns(e, hit) && ClearBelow(e, o, hit, m.ty)
    requires CanMarshal(e, o, hit, m)
    ensures CanMarshal(e, o, Nothing, Erase(e, hit, m))
    ensures Strip(e, hit, m.ty, ToJson(e, o, Nothing, Erase(e, hit, m))) == ToJson(e, o, hit, m)
    decreases Budget(m), m, 4
  {
    ErasedCanMarshal(e, o, hit, m);
    if m.ty == ANY {
      if AnyUrl(m) == [] {
        ErasedPayload(e, hit, m);
      } else {
        StrippedAny(e, o, hit, m);
      }
    } else if m.ty.WellKnownType? {
      ColdMessage(e, hit, m);
      ColdStrip(e, hit, m.ty, o.wkt(m).value);
    } else {
      StrippedMessage(e, o, hit, m);
    }
  }

  lemma PlainRendered(e: Env, o: MarshalOptions, mask: Matcher, m: Msg)
    requires ValidEnv(e) && WellTyped(e.g, m) && CanMarshal(e, o, mask, m) && !m.ty.WellKnownType?
    ensures ToJson(e, o, mask, m) == JObj(FieldsJson(e, o, mask, m))
  {
  }

  lemma PlainStripped(e: Env, hit: Matcher, t: TypeName, members: map<string, Json>)
    requires ValidEnv(e) && t in e.g && t != ANY
    ensures Strip(e, hit, t, JObj(members)) == StripObject(e, hit, t, |e.g[t].fields|, JObj(members))
  {
  }

  lemma MergedStripped(e: Env, hit: Matcher, t: TypeName, members: map<string, Json>, url: Bytes)
    requires ValidEnv(e) && t in e.g && !t.WellKnownType? && e.resolve(url) == Some(t)
    ensures Strip(e, hit, ANY, JObj(members + map["@type" := JLeaf(url)])) ==
      StripObject(e, hit, t, |e.g[t].fields|, JObj(members + map["@type" := JLeaf(url)]))
  {
    assert TypeUrlOf(members + map["@type" := JLeaf(url)]) == url;
  }

  lemma WrappedStripped(e: Env, hit: Matcher, t: TypeName, j: Json, url: Bytes)
    requires ValidEnv(e) && t in e.g && t.WellKnownType? && e.resolve(url) == Some(t)
    ensures Strip(e, hit, ANY, JObj(map["@type" := JLeaf(url), "value" := j])) ==
      JObj(map["@type" := JLeaf(url), "value" := if t == ANY then Strip(e, hit, ANY, j) else j])
  {
    var members := map["@type" := JLeaf(url), "value" := j];
    assert TypeUrlOf(members) == url;
    assert members["value" := Strip(e, hit, ANY, j)] == map["@type" := JLeaf(url), "value" := Strip(e, hit, ANY, j)];
  }

  lemma {:induction false} StrippedMessage(e: Env, o: MarshalOptions, hit: Matcher, m: Msg)
    requires ValidEnv(e) && WellTyped(e.g, m) && PlainWellKnowns(e, hit) && ClearBelow(e, o, hit, m.ty)
    requires CanMarshal(e, o, hit, m) && !m.ty.WellKnownType?
    requires CanMarshal(e, o, Nothing, Erase(e, hit, m))
    ensures Strip(e, hit, m.ty, ToJson(e, o, Nothing, Erase(e, hit, m))) == ToJson(e, o, hit, m)
    decreases Budget(m), m, 3
  {
    var r := Erase(e, hit, m);
    assert Strip(e, hit, m.ty, ToJson(e, o, Nothing, r)) ==
      StripObject(e, hit, m.ty, |e.g[m.ty].fields|, JObj(FieldsJson(e, o, Nothing, r)))
    by {
      PlainRendered(e, o, Nothing, r);
      PlainStripped(e, hit, m.ty, FieldsJson(e, o, Nothing, r));
    }
    NoExtra(FieldsJson(e, o, Nothing, r));
    NoExtra(FieldsJson(e, o, hit, m));
    StrippedFields(e, o, hit, m, map[]);
    PlainRendered(e, o, hit, m);
  }

  lemma NoExtra(members: map<string, Json>)
    ensures members + map[] == members
  {
  }

  /** The rendering of an Any with a payload that merges its fields into the Any's object. */
  lemma AnyMerged(e: Env, o: MarshalOptions, mask: Matcher, m: Msg)
    requires ValidEnv(e) && WellTyped(e.g, m) && CanMarshal(e, o, mask, m)
    requires m.ty == ANY && Payload(e, m).Some? && !Payload(e, m).value.ty.WellKnownType?
    ensures ToJson(e, o, mask, m) ==
      JObj(FieldsJson(e, o, mask, Payload(e, m).value) + map["@type" := JLeaf(AnyUrl(m))])
  {
    var f := FieldsJson(e, o, mask, Payload(e, m).value);
    assert f["@type" := JLeaf(AnyUrl(m))] == f + map["@type" := JLeaf(AnyUrl(m))];
  }

  /** The rendering of an Any whose payload has a shape of its own. */
  lemma AnyWrapped(e: Env, o: MarshalOptions, mask: Matcher, m: Msg)
    requires ValidEnv(e) && WellTyped(e.g, m) && CanMarshal(e, o, mask, m)
    requires m.ty == ANY && Payload(e, m).Some? && Payload(e, m).value.ty.WellKnownType?
    ensures ToJson(e, o, mask, m) ==
      JObj(map["@type" := JLeaf(AnyUrl(m)), "value" := ToJson(e, o, mask, Payload(e, m).value)])
  {
  }

  lemma {:induction false} StrippedAny(e: Env, o: MarshalOptions, hit: Matcher, m: Msg)
    requires ValidEnv(e) && WellTyped(e.g, m) && PlainWellKnowns(e, hit) && ClearBelow(e, o, hit, m.ty)
    requires CanMarshal(e, o, hit, m) && m.ty == ANY && AnyUrl(m) != []
    requires CanMarshal(e, o, Nothing, Erase(e, hit, m))
    ensures Strip(e, hit, ANY, ToJson(e, o, Nothing, Erase(e, hit, m))) == ToJson(e, o, hit, m)
    decreases Budget(m), m, 3
  {
    ErasedPayload(e, hit, m);
    var p := Payload(e, m).value;
    ClearPayload(e, o, hit, p.ty);
    if p.ty.WellKnownType? {
      AnyWrapped(e, o, Nothing, Erase(e, hit, m));
      AnyWrapped(e, o, hit, m);
      WrappedStripped(e, hit, p.ty, ToJson(e, o, Nothing, Erase(e, hit, p)), AnyUrl(m));
      if p.ty == ANY { StrippedErased(e, o, hit, p); } else { ColdMessage(e, hit, p); }
    } else {
      AnyMerged(e, o, Nothing, Erase(e, hit, m));
      AnyMerged(e, o, hit, m);
      StrippedFields(e, o, hit, p, map["@type" := JLeaf(AnyUrl(m))]);
      MergedStripped(e, hit, p.ty, FieldsJson(e, o, Nothing, Erase(e, hit, p)), AnyUrl(m));
    }
  }
}
