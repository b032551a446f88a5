/** The failures of the strip pass under a clash of names, on concrete messages. */
module ClashExamples {
  import opened Descriptors
  import opened Messages
  import opened Reachability
  import opened Masking
  import opened JsonValue
  import opened ProtoJson
  import opened StripPass
  import opened MaskedJson
  import opened NameClash

  function Plain(name: string, jsonName: string): FieldDesc {
    FieldDesc(name, jsonName, Singular, ScalarKind, false, None, false, false, false, [], false, false, Unspecified,
      false)
  }

  const ANY_DESC := MessageDesc([Plain("type_url", "typeUrl"), Plain("value", "value")], [])
  const OUTER := Named("Outer")
  const INNER := Named("Inner")
  const OTHER := Named("Other")

  /** Outer { outer }, Inner { inner }, Other { string token [excluded] } */
  function ExampleEnv(outer: seq<FieldDesc>, inner: seq<FieldDesc>): Env {
    var g := map[ANY := ANY_DESC, OUTER := MessageDesc(outer, []), INNER := MessageDesc(inner, []),
        OTHER := MessageDesc([TOKEN], [])];
    Env(g, _ => None, 10000)
  }

  function ExampleOptions(useProtoNames: bool): MarshalOptions {
    MarshalOptions(useProtoNames, false, true, (fd, d) => JLeaf(d), fd => JLeaf([]), m => None)
  }

  /** Outer { Inner foo [json "bar"]; string bar [json "baz"] }, Inner { string token [excluded] } */
  const FOO := Plain("foo", "bar").(kind := MessageKind(INNER), presence := true)
  const BAR := Plain("bar", "baz")
  const TOKEN := Plain("token", "token").(exclude := true)

  /** Outer { string bar [json "secret", excluded]; string shown [json "bar"] } */
  const SECRET := Plain("bar", "secret").(exclude := true)
  const SHOWN := Plain("shown", "bar")

  lemma ExampleValid(outer: seq<FieldDesc>, inner: seq<FieldDesc>)
    requires UniqueNames(outer) && UniqueNames(inner)
    requires forall fd :: fd in outer + inner && fd.kind.MessageKind? ==> fd.kind.ty in {INNER, OTHER}
    ensures ValidEnv(ExampleEnv(outer, inner))
    ensures PlainWellKnowns(ExampleEnv(outer, inner), IsSchemaExcluded)
  {
    var g := ExampleEnv(outer, inner).g;
    forall t, i | t in g && 0 <= i < |g[t].fields| && g[t].fields[i].kind.MessageKind?
      ensures g[t].fields[i].kind.ty in g
    {
      if t == OUTER { assert outer[i] in outer + inner; }
      if t == INNER { assert inner[i] in outer + inner; }
    }
  }

  lemma ErasedUnset(e: Env, hit: Matcher, m: Msg, i: nat)
    requires ValidEnv(e) && WellTyped(e.g, m) && m.ty != ANY && i < |m.slots| && m.slots[i].Unset?
    ensures i < |Erase(e, hit, m).slots| && Erase(e, hit, m).slots[i] == Unset
  {
    assert Erase(e, hit, m).slots[i] == EraseSlot(e, hit, e.g[m.ty].fields[i], m.slots[i]);
  }

  const LEAK_ITEM := Msg(INNER, [Unset])
  const LEAK := Msg(OUTER, [VMsgs([], [LEAK_ITEM]), Unset])

  lemma LeakTyped(e: Env)
    requires e == ExampleEnv([FOO, BAR], [TOKEN])
    ensures WellTyped(e.g, LEAK_ITEM) && WellTyped(e.g, LEAK)
  {
    assert SlotTyped(e.g, TOKEN, Unset);
    assert WellTyped(e.g, LEAK_ITEM);
    assert SlotTyped(e.g, FOO, LEAK.slots[0]) && SlotTyped(e.g, BAR, LEAK.slots[1]);
  }

  lemma LeakVerified(e: Env)
    requires e == ExampleEnv([FOO, BAR], [TOKEN]) && ValidEnv(e) && WellTyped(e.g, LEAK_ITEM) && WellTyped(e.g, LEAK)
    ensures Verifiable(e, IsSchemaExcluded, e.maxDepth, LEAK)
  {
    hide ValidEnv, Reaches, WellTyped;
    assert Verifiable(e, IsSchemaExcluded, e.maxDepth - 1, LEAK_ITEM);
    assert SlotVerifiable(e, IsSchemaExcluded, e.maxDepth - 1, FOO, LEAK.slots[0]);
  }

  lemma LeakMarshals(e: Env, o: MarshalOptions)
    requires e == ExampleEnv([FOO, BAR], [TOKEN]) && ValidEnv(e) && WellTyped(e.g, LEAK_ITEM) && WellTyped(e.g, LEAK)
    ensures CanMarshal(e, o, IsSchemaExcluded, LEAK)
  {
    hide ValidEnv, Reaches, WellTyped;
    assert CanMarshal(e, o, IsSchemaExcluded, LEAK_ITEM);
    assert SlotCanMarshal(e, o, IsSchemaExcluded, FOO, LEAK.slots[0]);
  }
  lemma LeakNested(e: Env, o: MarshalOptions)
    requires e == ExampleEnv([FOO, BAR], [TOKEN]) && o == ExampleOptions(true)
    requires ValidEnv(e) && WellTyped(e.g, LEAK_ITEM) && WellTyped(e.g, LEAK)
    ensures NestedItem(e, o, IsSchemaExcluded, LEAK, 0)
  {
  }

  lemma BarRendered(e: Env, o: MarshalOptions)
    requires e == ExampleEnv([FOO, BAR], [TOKEN]) && o == ExampleOptions(true) && ValidEnv(e) && WellTyped(e.g, LEAK)
    requires CanMarshal(e, o, Nothing, Erase(e, IsSchemaExcluded, LEAK))
    ensures "bar" in FieldsJson(e, o, Nothing, Erase(e, IsSchemaExcluded, LEAK))
  {
    hide FieldsJson, CanMarshal, Erase, WellTyped, ValidEnv;
    ErasedUnset(e, IsSchemaExcluded, LEAK, 1);
    FieldsJsonAt(e, o, Nothing, Erase(e, IsSchemaExcluded, LEAK), 1);
  }

  /** No field takes up the member of `foo`: its own finds `bar` first. */
  lemma LeakNotRemoved(e: Env, o: MarshalOptions)
    requires e == ExampleEnv([FOO, BAR], [TOKEN]) && o == ExampleOptions(true)
    requires ValidEnv(e) && WellTyped(e.g, LEAK_ITEM) && WellTyped(e.g, LEAK)
    requires CanMarshal(e, o, Nothing, Erase(e, IsSchemaExcluded, LEAK))
    requires NestedItem(e, o, IsSchemaExcluded, LEAK, 0)
    ensures !Removed(e, o, IsSchemaExcluded, LEAK, 0, "token")
  {
    hide FieldsJson, CanMarshal, Erase, WellTyped, ValidEnv, NestedItem, Removes;
    BarRendered(e, o);
    var a := FieldsJson(e, o, Nothing, Erase(e, IsSchemaExcluded, LEAK));
    assert forall w :: !TakesUp([FOO, BAR], IsSchemaExcluded, w, "foo", a);
  }

  /** Masked marshalling can answer with the name of an excluded field. */
  lemma LeakExample()
    ensures var e, o := ExampleEnv([FOO, BAR], [TOKEN]), ExampleOptions(true);
      && ValidEnv(e) && PlainWellKnowns(e, IsSchemaExcluded) && WellTyped(e.g, LEAK)
      && Verifiable(e, IsSchemaExcluded, e.maxDepth, LEAK) && CanMarshal(e, o, IsSchemaExcluded, LEAK)
      && CanMarshal(e, o, Nothing, Erase(e, IsSchemaExcluded, LEAK))
      && var r := Strip(e, IsSchemaExcluded, OUTER, ToJson(e, o, Nothing, Erase(e, IsSchemaExcluded, LEAK)));
        r.JObj? && "foo" in r.members && r.members["foo"].JObj? && "token" in r.members["foo"].members
  {
    var e, o, hit := ExampleEnv([FOO, BAR], [TOKEN]), ExampleOptions(true), IsSchemaExcluded;
    hide WellTyped, Verifiable, CanMarshal, Erase, Strip, ToJson, NestedItem, Removed, PlainWellKnowns, ValidEnv;
    ExampleValid([FOO, BAR], [TOKEN]);
    LeakTyped(e);
    LeakVerified(e);
    LeakMarshals(e, o);
    LeakNested(e, o);
    ErasedCanMarshal(e, o, hit, LEAK);
    LeakNotRemoved(e, o);
    LeaksExactly(e, o, hit, LEAK, 0, 0);
  }

  const DROP := Msg(OUTER, [Unset, VScalar([1])])

  lemma DropTyped(e: Env)
    requires e == ExampleEnv([SECRET, SHOWN], [])
    ensures WellTyped(e.g, DROP)
  {
    assert SlotTyped(e.g, SECRET, DROP.slots[0]) && SlotTyped(e.g, SHOWN, DROP.slots[1]);
  }

  lemma DropVerified(e: Env)
    requires e == ExampleEnv([SECRET, SHOWN], []) && ValidEnv(e) && WellTyped(e.g, DROP)
    ensures Verifiable(e, IsSchemaExcluded, e.maxDepth, DROP)
  {
    hide ValidEnv, Reaches, WellTyped;
    assert SlotVerifiable(e, IsSchemaExcluded, e.maxDepth - 1, SECRET, DROP.slots[0]);
    assert SlotVerifiable(e, IsSchemaExcluded, e.maxDepth - 1, SHOWN, DROP.slots[1]);
  }

  lemma DropMarshals(e: Env, o: MarshalOptions)
    requires e == ExampleEnv([SECRET, SHOWN], []) && ValidEnv(e) && WellTyped(e.g, DROP)
    ensures CanMarshal(e, o, IsSchemaExcluded, DROP)
  {
    hide ValidEnv, Reaches, WellTyped;
    assert SlotCanMarshal(e, o, IsSchemaExcluded, SHOWN, DROP.slots[1]);
  }
  /** And it can lose a visible field. */
  lemma DropExample()
    ensures var e, o := ExampleEnv([SECRET, SHOWN], []), ExampleOptions(false);
      && ValidEnv(e) && PlainWellKnowns(e, IsSchemaExcluded) && WellTyped(e.g, DROP)
      && Verifiable(e, IsSchemaExcluded, e.maxDepth, DROP) && CanMarshal(e, o, IsSchemaExcluded, DROP)
      && CanMarshal(e, o, Nothing, Erase(e, IsSchemaExcluded, DROP))
      && "bar" in FieldsJson(e, o, IsSchemaExcluded, DROP)
      && var r := Strip(e, IsSchemaExcluded, OUTER, ToJson(e, o, Nothing, Erase(e, IsSchemaExcluded, DROP)));
        r.JObj? && "bar" !in r.members
  {
    var e, o, hit := ExampleEnv([SECRET, SHOWN], []), ExampleOptions(false), IsSchemaExcluded;
    hide ValidEnv, PlainWellKnowns, WellTyped, Verifiable, CanMarshal, Erase, FieldsJson, Strip, ToJson;
    ExampleValid([SECRET, SHOWN], []);
    DropTyped(e);
    DropVerified(e);
    DropMarshals(e, o);
    ErasedCanMarshal(e, o, hit, DROP);
    KeptUnlessNamed(e, o, hit, DROP, 1);
    assert hit(e.g[OUTER].fields[0]) && HasName(e.g[OUTER].fields[0], "bar");
  }

  /** Outer { Inner a [json "k"]; Other k [json "z"] }, Inner { string token } */
  const A := Plain("a", "k").(kind := MessageKind(INNER), presence := true)
  const K := Plain("k", "z").(kind := MessageKind(OTHER), presence := true)
  const SHOWN_TOKEN := Plain("token", "token")

  const MISREAD_ITEM := Msg(INNER, [VScalar([1])])
  const MISREAD := Msg(OUTER, [VMsgs([], [MISREAD_ITEM]), Unset])

  lemma MisreadTyped(e: Env)
    requires e == ExampleEnv([A, K], [SHOWN_TOKEN])
    ensures WellTyped(e.g, MISREAD_ITEM) && WellTyped(e.g, MISREAD)
  {
    assert SlotTyped(e.g, SHOWN_TOKEN, VScalar([1]));
    assert WellTyped(e.g, MISREAD_ITEM);
    assert SlotTyped(e.g, A, MISREAD.slots[0]) && SlotTyped(e.g, K, MISREAD.slots[1]);
  }

  lemma MisreadVerified(e: Env)
    requires e == ExampleEnv([A, K], [SHOWN_TOKEN])
    requires ValidEnv(e) && WellTyped(e.g, MISREAD_ITEM) && WellTyped(e.g, MISREAD)
    ensures Verifiable(e, IsSchemaExcluded, e.maxDepth, MISREAD)
  {
    hide ValidEnv, Reaches, WellTyped;
    assert SlotVerifiable(e, IsSchemaExcluded, e.maxDepth - 2, SHOWN_TOKEN, VScalar([1]));
    assert Verifiable(e, IsSchemaExcluded, e.maxDepth - 1, MISREAD_ITEM);
    assert SlotVerifiable(e, IsSchemaExcluded, e.maxDepth - 1, A, MISREAD.slots[0]);
    assert SlotVerifiable(e, IsSchemaExcluded, e.maxDepth - 1, K, MISREAD.slots[1]);
  }

  lemma MisreadMarshals(e: Env, o: MarshalOptions)
    requires e == ExampleEnv([A, K], [SHOWN_TOKEN])
    requires ValidEnv(e) && WellTyped(e.g, MISREAD_ITEM) && WellTyped(e.g, MISREAD)
    ensures CanMarshal(e, o, IsSchemaExcluded, MISREAD)
  {
    hide ValidEnv, Reaches, WellTyped;
    assert CanMarshal(e, o, IsSchemaExcluded, MISREAD_ITEM);
    assert SlotCanMarshal(e, o, IsSchemaExcluded, A, MISREAD.slots[0]);
  }
  lemma MisreadNested(e: Env, o: MarshalOptions)
    requires e == ExampleEnv([A, K], [SHOWN_TOKEN]) && o == ExampleOptions(false)
    requires ValidEnv(e) && WellTyped(e.g, MISREAD)
    ensures NestedItem(e, o, IsSchemaExcluded, MISREAD, 0)
  {
  }

  /** Nothing is rendered as "z", so field `k` takes the member of field `a` for its own. */
  lemma NothingAtZ(e: Env, o: MarshalOptions)
    requires e == ExampleEnv([A, K], [SHOWN_TOKEN]) && o == ExampleOptions(false)
    requires ValidEnv(e) && WellTyped(e.g, MISREAD)
    requires CanMarshal(e, o, Nothing, Erase(e, IsSchemaExcluded, MISREAD))
    ensures "z" !in FieldsJson(e, o, Nothing, Erase(e, IsSchemaExcluded, MISREAD))
  {
    var r := Erase(e, IsSchemaExcluded, MISREAD);
    hide FieldsJson, CanMarshal, Erase, ValidEnv;
    ErasedUnset(e, IsSchemaExcluded, MISREAD, 1);
    if "z" in FieldsJson(e, o, Nothing, r) {
      var i := FieldsJsonKey(e, o, Nothing, r, "z");
    }
  }

  /** And it can strip a visible message as if it were another: no field of Outer or Inner is hidden,
      and JSON names are in use. */
  lemma MisreadExample()
    ensures var e, o := ExampleEnv([A, K], [SHOWN_TOKEN]), ExampleOptions(false);
      && ValidEnv(e) && PlainWellKnowns(e, IsSchemaExcluded) && WellTyped(e.g, MISREAD)
      && Verifiable(e, IsSchemaExcluded, e.maxDepth, MISREAD) && CanMarshal(e, o, IsSchemaExcluded, MISREAD)
      && CanMarshal(e, o, Nothing, Erase(e, IsSchemaExcluded, MISREAD))
      && var v := ToJson(e, o, IsSchemaExcluded, MISREAD);
      var r := Strip(e, IsSchemaExcluded, OUTER, ToJson(e, o, Nothing, Erase(e, IsSchemaExcluded, MISREAD)));
      && v.JObj? && "k" in v.members && v.members["k"].JObj? && "token" in v.members["k"].members
      && r.JObj? && "k" in r.members && r.members["k"].JObj? && "token" !in r.members["k"].members
  {
    var e, o, hit := ExampleEnv([A, K], [SHOWN_TOKEN]), ExampleOptions(false), IsSchemaExcluded;
    hide WellTyped, Verifiable, CanMarshal, Erase, Strip, ToJson, FieldsJson, NestedItem, PlainWellKnowns, ValidEnv;
    ExampleValid([A, K], [SHOWN_TOKEN]);
    MisreadTyped(e);
    MisreadVerified(e);
    MisreadMarshals(e, o);
    MisreadNested(e, o);
    ErasedCanMarshal(e, o, hit, MISREAD);
    NothingAtZ(e, o);
    var other := e.g[OTHER].fields;
    assert hit(other[0]) && HasName(other[0], "token");
    assert Deleted(other, hit, |other|, "token");
    ClashStripsOther(e, o, hit, MISREAD, 0, 1, 0);
  }
}
