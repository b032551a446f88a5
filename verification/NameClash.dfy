/** What a clash of names does to the strip pass: exactly which members it drops, and exactly which
    fields strip those it keeps, whatever the names. */
module NameClash {
  import opened Descriptors
  import opened Messages
  import opened Reachability
  import opened Masking
  import opened JsonValue
  import opened ProtoJson
  import opened StripPass
  import opened MaskedJson

  // ----- visible members that are dropped -----

  /** A visible field that is rendered keeps its member exactly when no hidden field has its key as
      one of its names. */
  lemma KeptUnlessNamed(e: Env, o: MarshalOptions, hit: Matcher, m: Msg, i: nat)
    requires ValidEnv(e) && WellTyped(e.g, m) && !m.ty.WellKnownType? && Shown(e, o, hit, m, i)
    requires CanMarshal(e, o, Nothing, Erase(e, hit, m)) && CanMarshal(e, o, hit, m)
    ensures var k, fields := KeyOf(o, e.g[m.ty].fields[i]), e.g[m.ty].fields;
      var r := Strip(e, hit, m.ty, ToJson(e, o, Nothing, Erase(e, hit, m)));
      && k in FieldsJson(e, o, hit, m) && r.JObj?
      && (k in r.members <==> forall w :: 0 <= w < |fields| && hit(fields[w]) ==> !HasName(fields[w], k))
  {
    var fields, k := e.g[m.ty].fields, KeyOf(o, e.g[m.ty].fields[i]);
    var a := FieldsJson(e, o, Nothing, Erase(e, hit, m));
    FieldsJsonAt(e, o, hit, m, i);
    assert Erase(e, hit, m).slots[i] == EraseSlot(e, hit, fields[i], m.slots[i]);
    FieldsJsonAt(e, o, Nothing, Erase(e, hit, m), i);
    KeysLeft(e, hit, m.ty, |fields|, JObj(a), k);
    PlainRendered(e, o, Nothing, Erase(e, hit, m));
  }

  // ----- visible members that the wrong field strips, or none -----

  /** When its turn comes, field `i` is looked up under the key it is rendered with: unless proto
      names are in use and another member still has its JSON name. */
  ghost predicate OwnKeyFirst(
    o: MarshalOptions, fields: seq<FieldDesc>, hit: Matcher, i: nat, members: map<string, Json>)
    requires i < |fields|
  {
    || !o.useProtoNames || fields[i].jsonName == fields[i].name || fields[i].jsonName !in members
    || Deleted(fields, hit, i, fields[i].jsonName)
  }

  lemma OwnKeyTaken(o: MarshalOptions, fields: seq<FieldDesc>, hit: Matcher, i: nat, members: map<string, Json>)
    requires i < |fields| && !hit(fields[i])
    ensures TakesUp(fields, hit, i, KeyOf(o, fields[i]), members) <==> OwnKeyFirst(o, fields, hit, i, members)
  {
  }

  /** A visible member that no hidden field has a name for is left, and its own field strips it
      exactly when that is looked up under its key. So do the others that take it up: where none of
      those matters, the member is stripped as its own field or not at all. */
  lemma StrippedIfFound(e: Env, o: MarshalOptions, hit: Matcher, t: TypeName, j: Json, i: nat)
    requires ValidEnv(e) && t in e.g && i < |e.g[t].fields| && j.JObj? && !hit(e.g[t].fields[i])
    requires KeyOf(o, e.g[t].fields[i]) in j.members
    requires !Deleted(e.g[t].fields, hit, |e.g[t].fields|, KeyOf(o, e.g[t].fields[i]))
    ensures var fields, k := e.g[t].fields, KeyOf(o, e.g[t].fields[i]);
      var r := StripObject(e, hit, t, |fields|, j).members;
      && k in r && r[k] == Passed(e, hit, t, |fields|, j.members, k, j.members[k])
      && (TakesUp(fields, hit, i, k, j.members) <==> OwnKeyFirst(o, fields, hit, i, j.members))
      && (TakenAlone(e.g, hit, fields, j.members, k, i) ==>
           r[k] == if OwnKeyFirst(o, fields, hit, i, j.members) then StripValue(e, hit, fields[i], j.members[k])
                   else j.members[k])
  {
    hide StripObject, StripValue, Passed, TakenAlone, Deleted;
    var fields, k := e.g[t].fields, KeyOf(o, e.g[t].fields[i]);
    MemberExactly(e, hit, t, |fields|, j, k);
    OwnKeyTaken(o, fields, hit, i, j.members);
    if TakenAlone(e.g, hit, fields, j.members, k, i) {
      PassedAlone(e, hit, t, |fields|, j.members, k, j.members[k], i);
    }
  }

  // ----- which keys are left one level down -----

  /** Stripping an object as the value of `fd` deletes the key `x`: it is a name of a hidden field of
      the type it is read as. Lists and maps are not read as one object. */
  ghost predicate Removes(e: Env, hit: Matcher, fd: FieldDesc, members: map<string, Json>, x: string)
    requires ValidEnv(e) && (fd.kind.MessageKind? ==> fd.kind.ty in e.g)
  {
    fd.kind.MessageKind? && fd.card.Singular? &&
    if fd.kind.ty != ANY then Deleted(e.g[fd.kind.ty].fields, hit, |e.g[fd.kind.ty].fields|, x)
    else
      match e.resolve(TypeUrlOf(members))
      case None => x != "@type"
      case Some(t) => !t.WellKnownType? && Deleted(e.g[t].fields, hit, |e.g[t].fields|, x)
  }

  /** Leaves come out of every pass as they are, and nothing else comes out as a leaf. */
  lemma StripLeaf(e: Env, hit: Matcher, fd: FieldDesc, v: Json)
    requires ValidEnv(e) && (fd.kind.MessageKind? ==> fd.kind.ty in e.g)
    ensures StripValue(e, hit, fd, v).JLeaf? <==> v.JLeaf?
    ensures v.JLeaf? ==> StripValue(e, hit, fd, v) == v
  {
  }

  lemma {:induction false} PassedLeaf(
    e: Env, hit: Matcher, t: TypeName, n: nat, members: map<string, Json>, k: string, v: Json)
    requires ValidEnv(e) && t in e.g && n <= |e.g[t].fields|
    ensures Passed(e, hit, t, n, members, k, v).JLeaf? <==> v.JLeaf?
    ensures v.JLeaf? ==> Passed(e, hit, t, n, members, k, v) == v
  {
    hide StripValue;
    if n > 0 {
      FieldTypeKnown(e, t, n - 1);
      PassedLeaf(e, hit, t, n - 1, members, k, v);
      StripLeaf(e, hit, e.g[t].fields[n - 1], Passed(e, hit, t, n - 1, members, k, v));
    }
  }

  /** The type marker, if it is left, is unchanged. */
  predicate SameMarker(was: map<string, Json>, now: map<string, Json>) {
    "@type" in now ==> "@type" in was && TypeUrlOf(now) == TypeUrlOf(was)
  }

  lemma ObjectMarker(e: Env, hit: Matcher, t: TypeName, j: Json)
    requires ValidEnv(e) && t in e.g && j.JObj?
    ensures SameMarker(j.members, StripObject(e, hit, t, |e.g[t].fields|, j).members)
  {
    hide StripObject, Deleted, Passed;
    var n := |e.g[t].fields|;
    if "@type" in StripObject(e, hit, t, n, j).members {
      KeysLeft(e, hit, t, n, j, "@type");
      MemberExactly(e, hit, t, n, j, "@type");
      PassedLeaf(e, hit, t, n, j.members, "@type", j.members["@type"]);
    }
  }

  lemma MessageKeys(e: Env, hit: Matcher, t: TypeName, j: Json, x: string)
    requires ValidEnv(e) && t in e.g && t != ANY && j.JObj?
    ensures Strip(e, hit, t, j).JObj? && SameMarker(j.members, Strip(e, hit, t, j).members)
    ensures x in Strip(e, hit, t, j).members <==> x in j.members && !Deleted(e.g[t].fields, hit, |e.g[t].fields|, x)
  {
    hide StripObject, Deleted;
    assert Strip(e, hit, t, j) == StripObject(e, hit, t, |e.g[t].fields|, j);
    ObjectMarker(e, hit, t, j);
    KeysLeft(e, hit, t, |e.g[t].fields|, j, x);
  }

  lemma AnyKeys(e: Env, hit: Matcher, j: Json, x: string)
    requires ValidEnv(e) && j.JObj?
    ensures Strip(e, hit, ANY, j).JObj? && SameMarker(j.members, Strip(e, hit, ANY, j).members)
    ensures var left :=
      match e.resolve(TypeUrlOf(j.members))
      case None => x == "@type"
      case Some(t) => t.WellKnownType? || !Deleted(e.g[t].fields, hit, |e.g[t].fields|, x);
      x in Strip(e, hit, ANY, j).members <==> x in j.members && left
  {
    hide StripObject, Deleted;
    var target := e.resolve(TypeUrlOf(j.members));
    if target.Some? && !target.value.WellKnownType? {
      assert Strip(e, hit, ANY, j) == StripObject(e, hit, target.value, |e.g[target.value].fields|, j);
      ObjectMarker(e, hit, target.value, j);
      KeysLeft(e, hit, target.value, |e.g[target.value].fields|, j, x);
    }
  }

  lemma ValueKeys(e: Env, hit: Matcher, fd: FieldDesc, v: Json, x: string)
    requires ValidEnv(e) && (fd.kind.MessageKind? ==> fd.kind.ty in e.g) && v.JObj?
    ensures StripValue(e, hit, fd, v).JObj? && SameMarker(v.members, StripValue(e, hit, fd, v).members)
    ensures x in StripValue(e, hit, fd, v).members <==> x in v.members && !Removes(e, hit, fd, v.members, x)
  {
    hide Strip, Deleted;
    if fd.kind.MessageKind? && fd.card.Singular? {
      if fd.kind.ty == ANY { AnyKeys(e, hit, v, x); } else { MessageKeys(e, hit, fd.kind.ty, v, x); }
    } else if fd.kind.MessageKind? && fd.card.MapField? && "@type" in v.members {
      MapMarker(e, hit, fd, v);
    }
  }

  lemma MapMarker(e: Env, hit: Matcher, fd: FieldDesc, v: Json)
    requires ValidEnv(e) && fd.kind.MessageKind? && fd.kind.ty in e.g && fd.card.MapField?
    requires v.JObj? && "@type" in v.members
    ensures StripValue(e, hit, fd, v).JObj? && SameMarker(v.members, StripValue(e, hit, fd, v).members)
  {
    var one := fd.(card := Singular);
    StripLeaf(e, hit, one, v.members["@type"]);
    assert StripValue(e, hit, fd, v).members["@type"] == StripValue(e, hit, one, v.members["@type"]);
  }

  /** One of the first `n` fields takes up `k`, and deletes `x` from the object there. */
  ghost predicate TakenAndRemoved(
    e: Env, hit: Matcher, t: TypeName, n: nat, members: map<string, Json>, k: string, x: string)
    requires ValidEnv(e) && t in e.g && k in members && members[k].JObj?
  {
    exists w :: 0 <= w < |e.g[t].fields| && w < n && TakesUp(e.g[t].fields, hit, w, k, members)
      && (FieldTypeKnown(e, t, w); Removes(e, hit, e.g[t].fields[w], members[k].members, x))
  }

  lemma RemovedStep(
    e: Env, hit: Matcher, t: TypeName, n: nat, members: map<string, Json>, k: string, x: string)
    requires ValidEnv(e) && t in e.g && k in members && members[k].JObj? && 0 < n <= |e.g[t].fields|
    ensures TakenAndRemoved(e, hit, t, n, members, k, x) <==>
      || TakenAndRemoved(e, hit, t, n - 1, members, k, x)
      || (TakesUp(e.g[t].fields, hit, n - 1, k, members)
          && (FieldTypeKnown(e, t, n - 1); Removes(e, hit, e.g[t].fields[n - 1], members[k].members, x)))
  {
    hide TakesUp, Removes;
    FieldTypeKnown(e, t, n - 1);
    if TakenAndRemoved(e, hit, t, n, members, k, x) && !TakenAndRemoved(e, hit, t, n - 1, members, k, x) {
      var w :| 0 <= w < |e.g[t].fields| && w < n && TakesUp(e.g[t].fields, hit, w, k, members)
        && (FieldTypeKnown(e, t, w); Removes(e, hit, e.g[t].fields[w], members[k].members, x));
      assert w == n - 1;
    }
  }

  /** While the type marker is not deleted, an object that is left has lost exactly the keys that some
      field that takes it up deletes. */
  lemma {:induction false} PassedKeys(
    e: Env, hit: Matcher, t: TypeName, n: nat, members: map<string, Json>, k: string, x: string)
    requires ValidEnv(e) && t in e.g && k in members && members[k].JObj? && n <= |e.g[t].fields|
    requires "@type" in members[k].members ==> !TakenAndRemoved(e, hit, t, n, members, k, "@type")
    ensures var was, r := members[k].members, Passed(e, hit, t, n, members, k, members[k]);
      && r.JObj? && TypeUrlOf(r.members) == TypeUrlOf(was)
      && ("@type" in r.members <==> "@type" in was)
      && (x in r.members <==> x in was && !TakenAndRemoved(e, hit, t, n, members, k, x))
  {
    hide StripValue, TakesUp, Deleted, TakenAndRemoved;
    if n == 0 {
      NothingRemoved(e, hit, t, members, k, x);
    } else {
      FieldTypeKnown(e, t, n - 1);
      RemovedStep(e, hit, t, n, members, k, "@type");
      RemovedStep(e, hit, t, n, members, k, x);
      PassedKeys(e, hit, t, n - 1, members, k, x);
      ValueKeys(e, hit, e.g[t].fields[n - 1], Passed(e, hit, t, n - 1, members, k, members[k]), x);
      ValueKeys(e, hit, e.g[t].fields[n - 1], Passed(e, hit, t, n - 1, members, k, members[k]), "@type");
    }
  }

  lemma NothingRemoved(e: Env, hit: Matcher, t: TypeName, members: map<string, Json>, k: string, x: string)
    requires ValidEnv(e) && t in e.g && k in members && members[k].JObj?
    ensures !TakenAndRemoved(e, hit, t, 0, members, k, x)
  {
  }

  // ----- when the whole response is the visible part -----

  /** No member of the visible part `b` is dropped from `a`, and each comes out of its passes right. */
  ghost predicate MembersRight(
    e: Env, hit: Matcher, t: TypeName, a: map<string, Json>, b: map<string, Json>)
    requires ValidEnv(e) && t in e.g
  {
    forall k :: k in b ==>
      && k in a && !Deleted(e.g[t].fields, hit, |e.g[t].fields|, k)
      && Passed(e, hit, t, |e.g[t].fields|, a, k, a[k]) == b[k]
  }

  lemma FieldsExactly(e: Env, o: MarshalOptions, hit: Matcher, m: Msg, extra: map<string, Json>)
    requires ValidEnv(e) && WellTyped(e.g, m) && !m.ty.WellKnownType? && extra.Keys <= {"@type"}
    requires CanMarshal(e, o, hit, m) && CanMarshal(e, o, Nothing, Erase(e, hit, m))
    ensures var a, b := FieldsJson(e, o, Nothing, Erase(e, hit, m)) + extra, FieldsJson(e, o, hit, m) + extra;
      StripObject(e, hit, m.ty, |e.g[m.ty].fields|, JObj(a)) == JObj(b) <==> MembersRight(e, hit, m.ty, a, b)
  {
    hide StripObject, Passed, FieldsJson, CanMarshal, Erase, Deleted;
    var a, b := FieldsJson(e, o, Nothing, Erase(e, hit, m)) + extra, FieldsJson(e, o, hit, m) + extra;
    var fields, n := e.g[m.ty].fields, |e.g[m.ty].fields|;
    var r := StripObject(e, hit, m.ty, n, JObj(a)).members;
    forall k: string
      ensures k in r <==> k in a && !Deleted(fields, hit, n, k)
      ensures k in r ==> r[k] == Passed(e, hit, m.ty, n, a, k, a[k])
      ensures k in r ==> k in b
    {
      KeysLeft(e, hit, m.ty, n, JObj(a), k);
      if k in r {
        MemberExactly(e, hit, m.ty, n, JObj(a), k);
        LeftIsVisible(e, o, hit, m, extra, k);
      }
    }
    if MembersRight(e, hit, m.ty, a, b) { SameMap(r, b); }
  }

  lemma LeftIsVisible(e: Env, o: MarshalOptions, hit: Matcher, m: Msg, extra: map<string, Json>, k: string)
    requires ValidEnv(e) && WellTyped(e.g, m) && !m.ty.WellKnownType? && extra.Keys <= {"@type"}
    requires CanMarshal(e, o, hit, m) && CanMarshal(e, o, Nothing, Erase(e, hit, m))
    requires k in FieldsJson(e, o, Nothing, Erase(e, hit, m)) + extra
    requires !Deleted(e.g[m.ty].fields, hit, |e.g[m.ty].fields|, k)
    ensures k in FieldsJson(e, o, hit, m) + extra
  {
    hide FieldsJson, CanMarshal, Erase;
    if k !in extra {
      var i := ErasedMember(e, o, hit, m, k);
      assert HasName(e.g[m.ty].fields[i], k);
    }
  }

  /** The members that decide about a message, those of an Any being its payload's. */
  ghost predicate RightMembers(e: Env, o: MarshalOptions, hit: Matcher, m: Msg)
    requires ValidEnv(e) && WellTyped(e.g, m) && PlainWellKnowns(e, hit) && CanMarshal(e, o, hit, m)
    decreases Budget(m)
  {
    ErasedCanMarshal(e, o, hit, m);
    if m.ty == ANY then
      AnyUrl(m) != [] ==>
        var p, marker := Payload(e, m).value, map["@type" := JLeaf(AnyUrl(m))];
        ErasedCanMarshal(e, o, hit, p);
        if p.ty.WellKnownType? then p.ty == ANY ==> RightMembers(e, o, hit, p)
        else MembersRight(e, hit, p.ty,
               FieldsJson(e, o, Nothing, Erase(e, hit, p)) + marker, FieldsJson(e, o, hit, p) + marker)
    else !m.ty.WellKnownType? ==>
      MembersRight(e, hit, m.ty, FieldsJson(e, o, Nothing, Erase(e, hit, m)), FieldsJson(e, o, hit, m))
  }

  /** Whatever the names, stripping the JSON of the erased message gives the visible part exactly
      when no visible member is dropped and each is right after its passes. */
  lemma {:induction false} StrippedExactly(e: Env, o: MarshalOptions, hit: Matcher, m: Msg)
    requires ValidEnv(e) && WellTyped(e.g, m) && PlainWellKnowns(e, hit) && CanMarshal(e, o, hit, m)
    ensures CanMarshal(e, o, Nothing, Erase(e, hit, m))
    ensures Strip(e, hit, m.ty, ToJson(e, o, Nothing, Erase(e, hit, m))) == ToJson(e, o, hit, m) <==>
      RightMembers(e, o, hit, m)
    decreases Budget(m), 1
  {
    hide Strip, ToJson, FieldsJson, CanMarshal, Erase, MembersRight, Reaches;
    ErasedCanMarshal(e, o, hit, m);
    var r := Erase(e, hit, m);
    if m.ty == ANY {
      AnyExactly(e, o, hit, m);
    } else if m.ty.WellKnownType? {
      ColdMessage(e, hit, m);
      ColdStrip(e, hit, m.ty, ToJson(e, o, Nothing, r));
      OwnShape(e, o, hit, m);
    } else {
      PlainRendered(e, o, Nothing, r);
      PlainRendered(e, o, hit, m);
      PlainStripped(e, hit, m.ty, FieldsJson(e, o, Nothing, r));
      NoExtra(FieldsJson(e, o, Nothing, r));
      NoExtra(FieldsJson(e, o, hit, m));
      FieldsExactly(e, o, hit, m, map[]);
    }
  }

  lemma OwnShape(e: Env, o: MarshalOptions, hit: Matcher, m: Msg)
    requires ValidEnv(e) && WellTyped(e.g, m) && m.ty.WellKnownType? && m.ty != ANY
    requires CanMarshal(e, o, hit, m) && CanMarshal(e, o, Nothing, m)
    ensures ToJson(e, o, Nothing, m) == ToJson(e, o, hit, m)
  {
  }

  lemma EmptyStripped(e: Env, hit: Matcher, t: TypeName)
    requires ValidEnv(e) && t in e.g
    ensures Strip(e, hit, t, JObj(map[])) == JObj(map[])
  {
    hide StripObject;
    var r := Strip(e, hit, t, JObj(map[]));
    assert r.members.Keys == {};
  }

  lemma {:induction false} AnyExactly(e: Env, o: MarshalOptions, hit: Matcher, m: Msg)
    requires ValidEnv(e) && WellTyped(e.g, m) && PlainWellKnowns(e, hit) && CanMarshal(e, o, hit, m) && m.ty == ANY
    requires CanMarshal(e, o, Nothing, Erase(e, hit, m))
    ensures Strip(e, hit, ANY, ToJson(e, o, Nothing, Erase(e, hit, m))) == ToJson(e, o, hit, m) <==>
      RightMembers(e, o, hit, m)
    decreases Budget(m), 0
  {
    hide Strip, StripObject, Erase, MembersRight, Reaches, FieldsJson;
    ErasedPayload(e, hit, m);
    if AnyUrl(m) == [] {
      EmptyStripped(e, hit, ANY);
    } else {
      var p, marker := Payload(e, m).value, map["@type" := JLeaf(AnyUrl(m))];
      ErasedCanMarshal(e, o, hit, p);
      if p.ty.WellKnownType? {
        AnyWrapped(e, o, Nothing, Erase(e, hit, m));
        AnyWrapped(e, o, hit, m);
        WrappedStripped(e, hit, p.ty, ToJson(e, o, Nothing, Erase(e, hit, p)), AnyUrl(m));
        if p.ty == ANY {
          StrippedExactly(e, o, hit, p);
          assert map["@type" := JLeaf(AnyUrl(m)), "value" := ToJson(e, o, hit, p)]["value"] == ToJson(e, o, hit, p);
        } else {
          ColdMessage(e, hit, p);
        }
      } else {
        AnyMerged(e, o, Nothing, Erase(e, hit, m));
        AnyMerged(e, o, hit, m);
        FieldsExactly(e, o, hit, p, marker);
        MergedStripped(e, hit, p.ty, FieldsJson(e, o, Nothing, Erase(e, hit, p)), AnyUrl(m));
      }
    }
  }

  /** Clear keys below the type are enough. */
  lemma ClearIsRight(e: Env, o: MarshalOptions, hit: Matcher, m: Msg)
    requires ValidEnv(e) && WellTyped(e.g, m) && PlainWellKnowns(e, hit) && CanMarshal(e, o, hit, m)
    requires ClearBelow(e, o, hit, m.ty)
    ensures RightMembers(e, o, hit, m)
  {
    hide *;
    StrippedErased(e, o, hit, m);
    StrippedExactly(e, o, hit, m);
  }

  // ----- inside a nested message: what leaks, and what is lost -----

  lemma ErasedHidden(e: Env, hit: Matcher, p: Msg, h: nat)
    requires ValidEnv(e) && WellTyped(e.g, p) && p.ty != ANY && h < |p.slots| && hit(e.g[p.ty].fields[h])
    ensures Erase(e, hit, p).slots[h] == Unset
  {
    assert Erase(e, hit, p).slots[h] == EraseSlot(e, hit, e.g[p.ty].fields[h], p.slots[h]);
  }

  /** A singular message of a visible field, after the clear, and what it is rendered as. */
  lemma ErasedItem(e: Env, o: MarshalOptions, hit: Matcher, m: Msg, i: nat)
    requires ValidEnv(e) && WellTyped(e.g, m) && !m.ty.WellKnownType? && i < |m.slots|
    requires m.slots[i].VMsgs? && !hit(e.g[m.ty].fields[i])
    requires e.g[m.ty].fields[i].card.Singular? && e.g[m.ty].fields[i].kind.MessageKind?
    requires CanMarshal(e, o, Nothing, Erase(e, hit, m))
    ensures |m.slots[i].items| == 1 && m.slots[i].items[0].ty == e.g[m.ty].fields[i].kind.ty
    ensures WellTyped(e.g, m.slots[i].items[0])
    ensures var p := Erase(e, hit, m.slots[i].items[0]);
      && CanMarshal(e, o, Nothing, p)
      && KeyOf(o, e.g[m.ty].fields[i]) in FieldsJson(e, o, Nothing, Erase(e, hit, m))
      && FieldsJson(e, o, Nothing, Erase(e, hit, m))[KeyOf(o, e.g[m.ty].fields[i])] == ToJson(e, o, Nothing, p)
  {
    var fd, r := e.g[m.ty].fields[i], Erase(e, hit, m);
    assert SlotTyped(e.g, fd, m.slots[i]);
    assert r.slots[i] == EraseSlot(e, hit, fd, m.slots[i]);
    assert r.slots[i].items[0] == Erase(e, hit, m.slots[i].items[0]);
    assert SlotCanMarshal(e, o, Nothing, fd, r.slots[i]);
    FieldsJsonAt(e, o, Nothing, r, i);
  }

  /** A nested message of visible field `i`, not itself dropped, and whose keys are not the marker. */
  ghost predicate NestedItem(e: Env, o: MarshalOptions, hit: Matcher, m: Msg, i: nat)
    requires ValidEnv(e) && WellTyped(e.g, m)
  {
    && !m.ty.WellKnownType? && i < |m.slots| && m.slots[i].VMsgs?
    && var fields, fd := e.g[m.ty].fields, e.g[m.ty].fields[i];
      && !hit(fd) && !Deleted(fields, hit, |fields|, KeyOf(o, fd))
      && fd.card.Singular? && fd.kind.MessageKind? && fd.kind.ty in e.g && !fd.kind.ty.WellKnownType?
      && forall n :: 0 <= n < |e.g[fd.kind.ty].fields| ==> KeyOf(o, e.g[fd.kind.ty].fields[n]) != "@type"
  }

  /** In the response, some field deletes the key `x` of the member of field `i`. */
  ghost predicate Removed(e: Env, o: MarshalOptions, hit: Matcher, m: Msg, i: nat, x: string)
    requires ValidEnv(e) && WellTyped(e.g, m) && NestedItem(e, o, hit, m, i)
    requires CanMarshal(e, o, Nothing, Erase(e, hit, m))
  {
    var a, k := FieldsJson(e, o, Nothing, Erase(e, hit, m)), KeyOf(o, e.g[m.ty].fields[i]);
    k in a && a[k].JObj? && TakenAndRemoved(e, hit, m.ty, |e.g[m.ty].fields|, a, k, x)
  }

  /** The response shows, inside the member of field `i`, the key `x`. */
  ghost predicate ShownBelow(e: Env, o: MarshalOptions, hit: Matcher, m: Msg, i: nat, x: string)
    requires ValidEnv(e) && WellTyped(e.g, m) && NestedItem(e, o, hit, m, i)
    requires CanMarshal(e, o, Nothing, Erase(e, hit, m))
  {
    && ObjectAt(e, o, hit, m, i)
    && x in Strip(e, hit, m.ty, ToJson(e, o, Nothing, Erase(e, hit, m))).members[KeyOf(o, e.g[m.ty].fields[i])].members
  }

  /** The response shows an object as the member of field `i`. */
  ghost predicate ObjectAt(e: Env, o: MarshalOptions, hit: Matcher, m: Msg, i: nat)
    requires ValidEnv(e) && WellTyped(e.g, m) && NestedItem(e, o, hit, m, i)
    requires CanMarshal(e, o, Nothing, Erase(e, hit, m))
  {
    var r, k := Strip(e, hit, m.ty, ToJson(e, o, Nothing, Erase(e, hit, m))), KeyOf(o, e.g[m.ty].fields[i]);
    r.JObj? && k in r.members && r.members[k].JObj?
  }

  /** The nested message shows exactly what it was rendered with, less what is removed. */
  lemma ShownUnlessRemoved(e: Env, o: MarshalOptions, hit: Matcher, m: Msg, i: nat, x: string)
    requires ValidEnv(e) && WellTyped(e.g, m) && NestedItem(e, o, hit, m, i)
    requires CanMarshal(e, o, Nothing, Erase(e, hit, m))
    ensures |m.slots[i].items| == 1 && WellTyped(e.g, m.slots[i].items[0])
    ensures m.slots[i].items[0].ty == e.g[m.ty].fields[i].kind.ty
    ensures CanMarshal(e, o, Nothing, Erase(e, hit, m.slots[i].items[0]))
    ensures ObjectAt(e, o, hit, m, i)
    ensures ShownBelow(e, o, hit, m, i, x) <==>
      x in FieldsJson(e, o, Nothing, Erase(e, hit, m.slots[i].items[0])) && !Removed(e, o, hit, m, i, x)
  {
    hide StripObject, Passed, TakenAndRemoved, FieldsJson, ToJson, CanMarshal, Erase, Deleted;
    var fields, k := e.g[m.ty].fields, KeyOf(o, e.g[m.ty].fields[i]);
    ErasedItem(e, o, hit, m, i);
    var r, p := Erase(e, hit, m), Erase(e, hit, m.slots[i].items[0]);
    var a, v := FieldsJson(e, o, Nothing, r), FieldsJson(e, o, Nothing, p);
    PlainRendered(e, o, Nothing, r);
    PlainRendered(e, o, Nothing, p);
    PlainStripped(e, hit, m.ty, a);
    MemberExactly(e, hit, m.ty, |fields|, JObj(a), k);
    if "@type" in v { var n := FieldsJsonKey(e, o, Nothing, p, "@type"); }
    PassedKeys(e, hit, m.ty, |fields|, a, k, x);
  }

  /** A hidden field of the nested message whose default is rendered is named in the response exactly
      when no field that takes up the member deletes the name. */
  lemma LeaksExactly(e: Env, o: MarshalOptions, hit: Matcher, m: Msg, i: nat, h: nat)
    requires ValidEnv(e) && WellTyped(e.g, m) && NestedItem(e, o, hit, m, i)
    requires CanMarshal(e, o, Nothing, Erase(e, hit, m))
    requires var fields := e.g[e.g[m.ty].fields[i].kind.ty].fields;
      h < |fields| && hit(fields[h]) && Emitted(o, fields[h], Unset)
    ensures var x := KeyOf(o, e.g[e.g[m.ty].fields[i].kind.ty].fields[h]);
      ObjectAt(e, o, hit, m, i) && (ShownBelow(e, o, hit, m, i, x) <==> !Removed(e, o, hit, m, i, x))
  {
    hide ObjectAt, ShownBelow, Removed, FieldsJson, ToJson, CanMarshal, Erase;
    var x := KeyOf(o, e.g[e.g[m.ty].fields[i].kind.ty].fields[h]);
    ShownUnlessRemoved(e, o, hit, m, i, x);
    ErasedHidden(e, hit, m.slots[i].items[0], h);
    FieldsJsonAt(e, o, Nothing, Erase(e, hit, m.slots[i].items[0]), h);
  }

  /** A visible field of the nested message, which the visible part has, is lost from the response
      exactly when a field that takes up the member deletes its key. */
  lemma LostExactly(e: Env, o: MarshalOptions, hit: Matcher, m: Msg, i: nat, n: nat)
    requires ValidEnv(e) && WellTyped(e.g, m) && NestedItem(e, o, hit, m, i)
    requires CanMarshal(e, o, hit, m) && CanMarshal(e, o, Nothing, Erase(e, hit, m))
    requires |m.slots[i].items| == 1 && WellTyped(e.g, m.slots[i].items[0])
    requires Shown(e, o, hit, m.slots[i].items[0], n)
    ensures var x, v := KeyOf(o, e.g[e.g[m.ty].fields[i].kind.ty].fields[n]), ToJson(e, o, hit, m);
      var k := KeyOf(o, e.g[m.ty].fields[i]);
      && v.JObj? && k in v.members && v.members[k].JObj? && x in v.members[k].members
      && ObjectAt(e, o, hit, m, i)
      && (ShownBelow(e, o, hit, m, i, x) <==> !Removed(e, o, hit, m, i, x))
  {
    hide ObjectAt, ShownBelow, Removed, FieldsJson, ToJson, CanMarshal, Erase;
    var item := m.slots[i].items[0];
    var x := KeyOf(o, e.g[e.g[m.ty].fields[i].kind.ty].fields[n]);
    ShownUnlessRemoved(e, o, hit, m, i, x);
    ErasedSlotIs(e, hit, item, n);
    FieldsJsonAt(e, o, Nothing, Erase(e, hit, item), n);
    VisibleItem(e, o, hit, m, i);
    FieldsJsonAt(e, o, hit, item, n);
    PlainRendered(e, o, hit, item);
  }

  /** How the visible part renders a nested message. */
  lemma VisibleItem(e: Env, o: MarshalOptions, hit: Matcher, m: Msg, i: nat)
    requires ValidEnv(e) && WellTyped(e.g, m) && CanMarshal(e, o, hit, m) && NestedItem(e, o, hit, m, i)
    requires |m.slots[i].items| == 1 && WellTyped(e.g, m.slots[i].items[0])
    ensures var item, v, k := m.slots[i].items[0], ToJson(e, o, hit, m), KeyOf(o, e.g[m.ty].fields[i]);
      && CanMarshal(e, o, hit, item) && v.JObj? && k in v.members && v.members[k] == ToJson(e, o, hit, item)
  {
    hide FieldsJson, Erase, Deleted;
    assert SlotTyped(e.g, e.g[m.ty].fields[i], m.slots[i]);
    assert SlotCanMarshal(e, o, hit, e.g[m.ty].fields[i], m.slots[i]);
    FieldsJsonAt(e, o, hit, m, i);
    PlainRendered(e, o, hit, m);
  }

  /** Under proto names, a rendered field `w` that is called what the JSON name of field `i` is keeps
      field `i` from its own member, which is then not stripped at all unless others take it up. */
  lemma ClashSkipsStrip(e: Env, o: MarshalOptions, hit: Matcher, m: Msg, i: nat, w: nat)
    requires ValidEnv(e) && WellTyped(e.g, m) && o.useProtoNames && NestedItem(e, o, hit, m, i)
    requires CanMarshal(e, o, Nothing, Erase(e, hit, m)) && Shown(e, o, Nothing, Erase(e, hit, m), w) && w != i
    requires var fields := e.g[m.ty].fields;
      && fields[i].jsonName == fields[w].name && fields[i].jsonName != fields[i].name
      && !Deleted(fields, hit, i, fields[i].jsonName)
    ensures |m.slots[i].items| == 1 && WellTyped(e.g, m.slots[i].items[0])
    ensures CanMarshal(e, o, Nothing, Erase(e, hit, m.slots[i].items[0]))
    ensures var fields, a := e.g[m.ty].fields, FieldsJson(e, o, Nothing, Erase(e, hit, m));
      var r, k := Strip(e, hit, m.ty, ToJson(e, o, Nothing, Erase(e, hit, m))), fields[i].name;
      && !TakesUp(fields, hit, i, k, a)
      && r.JObj? && k in r.members
      && (TakenAlone(e.g, hit, fields, a, k, i) ==>
           r.members[k] == ToJson(e, o, Nothing, Erase(e, hit, m.slots[i].items[0])))
  {
    hide StripObject, Passed, TakenAlone, FieldsJson, CanMarshal, Erase, Deleted;
    var fields, r := e.g[m.ty].fields, Erase(e, hit, m);
    ErasedItem(e, o, hit, m, i);
    FieldsJsonAt(e, o, Nothing, r, w);
    PlainRendered(e, o, Nothing, r);
    StrippedIfFound(e, o, hit, m.ty, JObj(FieldsJson(e, o, Nothing, r)), i);
    PlainStripped(e, hit, m.ty, FieldsJson(e, o, Nothing, r));
  }

  /** A field `w` whose proto name is the key of field `i`, and that has no member under its JSON name,
      strips the member of `i` as its own: what is hidden in the type of `w` is lost there, although
      it is visible in the type of `i`. */
  lemma ClashStripsOther(e: Env, o: MarshalOptions, hit: Matcher, m: Msg, i: nat, w: nat, n: nat)
    requires ValidEnv(e) && WellTyped(e.g, m) && NestedItem(e, o, hit, m, i)
    requires CanMarshal(e, o, hit, m) && CanMarshal(e, o, Nothing, Erase(e, hit, m))
    requires |m.slots[i].items| == 1 && WellTyped(e.g, m.slots[i].items[0])
    requires Shown(e, o, hit, m.slots[i].items[0], n)
    requires var fields := e.g[m.ty].fields;
      && w < |fields| && !hit(fields[w]) && fields[w].name == KeyOf(o, fields[i])
      && fields[w].jsonName !in FieldsJson(e, o, Nothing, Erase(e, hit, m))
      && fields[w].kind.MessageKind? && fields[w].card.Singular? && fields[w].kind.ty in e.g && fields[w].kind.ty != ANY
      && var other := e.g[fields[w].kind.ty].fields;
        Deleted(other, hit, |other|, KeyOf(o, e.g[fields[i].kind.ty].fields[n]))
    ensures var x, v := KeyOf(o, e.g[e.g[m.ty].fields[i].kind.ty].fields[n]), ToJson(e, o, hit, m);
      var k := KeyOf(o, e.g[m.ty].fields[i]);
      && v.JObj? && k in v.members && v.members[k].JObj? && x in v.members[k].members
      && ObjectAt(e, o, hit, m, i) && !ShownBelow(e, o, hit, m, i, x)
  {
    hide ObjectAt, ShownBelow, FieldsJson, ToJson, CanMarshal, Erase, Deleted;
    LostExactly(e, o, hit, m, i, n);
    ErasedItem(e, o, hit, m, i);
    PlainRendered(e, o, Nothing, Erase(e, hit, m.slots[i].items[0]));
    assert TakesUp(e.g[m.ty].fields, hit, w, KeyOf(o, e.g[m.ty].fields[i]),
      FieldsJson(e, o, Nothing, Erase(e, hit, m)));
  }
}
