/** What the strip pass makes of a rendered JSON tree, for any names whatsoever. */
module StripPass {
  import opened Descriptors
  import opened Reachability
  import opened Masking
  import opened JsonValue
  import opened ProtoJson

  function OnlyType(members: map<string, Json>): map<string, Json> {
    if "@type" in members then map["@type" := members["@type"]] else map[]
  }

  function TypeUrlOf(members: map<string, Json>): Bytes {
    if "@type" in members && members["@type"].JLeaf? then members["@type"].data else []
  }

  /** The member under which an object holds a visible field, if any. */
  function Lookup(fd: FieldDesc, members: map<string, Json>): Option<string> {
    if fd.jsonName in members then Some(fd.jsonName)
    else if fd.name in members then Some(fd.name)
    else None
  }

  /** The pass over the JSON of a message of type `t`. */
  ghost function Strip(e: Env, hit: Matcher, t: TypeName, j: Json): (r: Json)
    requires ValidEnv(e) && t in e.g
    ensures Height(r) <= Height(j) && (r.JObj? <==> j.JObj?)
    decreases Height(j), 2
  {
    if !j.JObj? then j
    else if t == ANY then
      var target := e.resolve(TypeUrlOf(j.members));
      if target.None? then
        ObjectHeight(OnlyType(j.members), Height(j));
        JObj(OnlyType(j.members))
      else if target.value == ANY then
        if "value" in j.members then
          var members := j.members["value" := Strip(e, hit, ANY, j.members["value"])];
          ObjectHeight(members, Height(j));
          JObj(members)
        else j
      else if target.value.WellKnownType? then j
      else StripObject(e, hit, target.value, |e.g[target.value].fields|, j)
    else StripObject(e, hit, t, |e.g[t].fields|, j)
  }

  /** The object after the first `n` fields were handled, in order. */
  ghost function StripObject(e: Env, hit: Matcher, t: TypeName, n: nat, j: Json): (r: Json)
    requires ValidEnv(e) && t in e.g && n <= |e.g[t].fields| && j.JObj?
    ensures r.JObj? && r.members.Keys <= j.members.Keys && Height(r) <= Height(j)
    decreases Height(j), 1, n
  {
    if n == 0 then j
    else JObj(StripMembers(e, hit, e.g[t].fields[n - 1], StripObject(e, hit, t, n - 1, j).members))
  }

  /** Handling one field: the names of a hidden one go, the member that a visible one is looked up
      under is stripped. */
  ghost function StripMembers(e: Env, hit: Matcher, fd: FieldDesc, now: map<string, Json>): (r: map<string, Json>)
    requires ValidEnv(e) && (fd.kind.MessageKind? ==> fd.kind.ty in e.g)
    ensures r.Keys <= now.Keys && Height(JObj(r)) <= Height(JObj(now))
    decreases Height(JObj(now)), 0
  {
    var r :=
      if hit(fd) then now - {fd.jsonName} - {fd.name}
      else
        match Lookup(fd, now)
        case None => now
        case Some(k) =>
          assert k in JObj(now).members;
          now[k := StripValue(e, hit, fd, now[k])];
    ObjectShrinks(now, r);
    r
  }

  lemma ObjectShrinks(now: map<string, Json>, r: map<string, Json>)
    requires r.Keys <= now.Keys && forall k :: k in r ==> Height(r[k]) <= Height(now[k])
    ensures Height(JObj(r)) <= Height(JObj(now))
  {
    assert forall k :: k in now ==> k in JObj(now).members;
    ObjectHeight(r, Height(JObj(now)));
  }

  /** The pass over the value of a visible field. */
  ghost function StripValue(e: Env, hit: Matcher, fd: FieldDesc, v: Json): (r: Json)
    requires ValidEnv(e) && (fd.kind.MessageKind? ==> fd.kind.ty in e.g)
    ensures Height(r) <= Height(v)
    decreases Height(v), 3
  {
    if fd.kind.ScalarKind? then v
    else
      match fd.card
      case Singular => Strip(e, hit, fd.kind.ty, v)
      case Repeated =>
        if v.JArr? then
          var items := seq(|v.items|, i requires 0 <= i < |v.items| => Strip(e, hit, fd.kind.ty, v.items[i]));
          ArrayHeight(items, Height(v));
          JArr(items)
        else v
      case MapField =>
        if v.JObj? then
          var members := map k: string | k in v.members :: Strip(e, hit, fd.kind.ty, v.members[k]);
          ObjectHeight(members, Height(v));
          JObj(members)
        else v
  }

  lemma FieldTypeKnown(e: Env, t: TypeName, i: nat)
    requires ValidEnv(e) && t in e.g && i < |e.g[t].fields|
    ensures e.g[t].fields[i].kind.MessageKind? ==> e.g[t].fields[i].kind.ty in e.g
  {
  }

  lemma ObjectStep(e: Env, hit: Matcher, t: TypeName, n: nat, j: Json)
    requires ValidEnv(e) && t in e.g && 0 < n <= |e.g[t].fields| && j.JObj?
    ensures StripObject(e, hit, t, n, j).members ==
      StripMembers(e, hit, e.g[t].fields[n - 1], StripObject(e, hit, t, n - 1, j).members)
  {
  }

  // ----- which keys are left -----

  /** One of the first `n` fields is hidden and has `k` as one of its two names. */
  ghost predicate Deleted(fields: seq<FieldDesc>, hit: Matcher, n: nat, k: string) {
    exists i :: 0 <= i < |fields| && i < n && hit(fields[i]) && HasName(fields[i], k)
  }

  lemma NothingDeleted(fields: seq<FieldDesc>, hit: Matcher, k: string)
    ensures !Deleted(fields, hit, 0, k)
  {
  }

  lemma DeletedStep(fields: seq<FieldDesc>, hit: Matcher, n: nat, k: string)
    requires 0 < n <= |fields|
    ensures Deleted(fields, hit, n, k) <==>
      Deleted(fields, hit, n - 1, k) || (hit(fields[n - 1]) && HasName(fields[n - 1], k))
  {
    if Deleted(fields, hit, n, k) {
      var i :| 0 <= i < |fields| && i < n && hit(fields[i]) && HasName(fields[i], k);
      assert i < n - 1 ==> Deleted(fields, hit, n - 1, k);
    }
    if Deleted(fields, hit, n - 1, k) {
      var i :| 0 <= i < |fields| && i < n - 1 && hit(fields[i]) && HasName(fields[i], k);
    }
  }

  /** After `n` fields the object has lost exactly the names of the hidden ones among them. */
  lemma {:induction false} KeysLeft(e: Env, hit: Matcher, t: TypeName, n: nat, j: Json, k: string)
    requires ValidEnv(e) && t in e.g && n <= |e.g[t].fields| && j.JObj?
    ensures k in StripObject(e, hit, t, n, j).members <==> k in j.members && !Deleted(e.g[t].fields, hit, n, k)
    decreases n
  {
    hide StripObject, StripValue, Deleted;
    if n == 0 {
      NothingStripped(e, hit, t, j);
      assert !Deleted(e.g[t].fields, hit, 0, k) by { NothingDeleted(e.g[t].fields, hit, k); }
    } else {
      ObjectStep(e, hit, t, n, j);
      KeysLeft(e, hit, t, n - 1, j, k);
      DeletedStep(e.g[t].fields, hit, n, k);
    }
  }

  // ----- below a cold type -----

  /** Below a cold type the pass leaves any JSON alone. */
  lemma {:induction false} ColdStrip(e: Env, hit: Matcher, t: TypeName, j: Json)
    requires ValidEnv(e) && t in e.g && !Reaches(e.g, hit, t)
    ensures Strip(e, hit, t, j) == j
    decreases Height(j), 1
  {
    Cold(e.g, hit, t);
    if j.JObj? { ColdObject(e, hit, t, |e.g[t].fields|, j); }
  }

  lemma {:induction false} ColdObject(e: Env, hit: Matcher, t: TypeName, n: nat, j: Json)
    requires ValidEnv(e) && t in e.g && n <= |e.g[t].fields| && j.JObj? && !Reaches(e.g, hit, t)
    ensures StripObject(e, hit, t, n, j) == j
    decreases Height(j), 0, n
  {
    hide StripObject, StripValue, Reaches;
    if n == 0 {
      NothingStripped(e, hit, t, j);
    } else {
      ObjectStep(e, hit, t, n, j);
      ColdObject(e, hit, t, n - 1, j);
      Cold(e.g, hit, t);
      var fd := e.g[t].fields[n - 1];
      var k := Lookup(fd, j.members);
      if k.Some? {
        ColdStripValue(e, hit, fd, j.members[k.value]);
        assert j.members[k.value := j.members[k.value]] == j.members;
      }
    }
  }

  lemma {:induction false} ColdStripValue(e: Env, hit: Matcher, fd: FieldDesc, v: Json)
    requires ValidEnv(e) && (fd.kind.MessageKind? ==> fd.kind.ty in e.g && !Reaches(e.g, hit, fd.kind.ty))
    ensures StripValue(e, hit, fd, v) == v
    decreases Height(v), 2
  {
    if fd.kind.MessageKind? {
      match fd.card
      case Singular => ColdStrip(e, hit, fd.kind.ty, v);
      case Repeated =>
        if v.JArr? {
          forall i | 0 <= i < |v.items| { ColdStrip(e, hit, fd.kind.ty, v.items[i]); }
          assert StripValue(e, hit, fd, v).items == v.items;
        }
      case MapField =>
        if v.JObj? {
          forall k | k in v.members { ColdStrip(e, hit, fd.kind.ty, v.members[k]); }
          assert StripValue(e, hit, fd, v).members == v.members;
        }
    }
  }

  // ----- what is left under a key -----

  /** Visible field `w` takes the member `k` of an object for its own: it is called so in JSON, or is
      called so in proto and no member is left under its JSON name when its turn comes. */
  ghost predicate TakesUp(
    fields: seq<FieldDesc>, hit: Matcher, w: int, k: string, members: map<string, Json>)
  {
    && 0 <= w < |fields| && !hit(fields[w])
    && (k == fields[w].jsonName ||
        (k == fields[w].name && (fields[w].jsonName !in members || Deleted(fields, hit, w, fields[w].jsonName))))
  }

  /** `v` after those of the first `n` fields that take up member `k` have stripped it, in order. */
  ghost function Passed(
    e: Env, hit: Matcher, t: TypeName, n: nat, members: map<string, Json>, k: string, v: Json): (r: Json)
    requires ValidEnv(e) && t in e.g && n <= |e.g[t].fields|
  {
    if n == 0 then v
    else
      FieldTypeKnown(e, t, n - 1);
      var before := Passed(e, hit, t, n - 1, members, k, v);
      if !TakesUp(e.g[t].fields, hit, n - 1, k, members) then before
      else StripValue(e, hit, e.g[t].fields[n - 1], before)
  }

  /** On the members that are left, the lookup of a visible field finds `k` exactly when it takes it up. */
  lemma LookedUp(e: Env, hit: Matcher, t: TypeName, n: nat, j: Json, k: string)
    requires ValidEnv(e) && t in e.g && n < |e.g[t].fields| && j.JObj? && !hit(e.g[t].fields[n])
    requires k in j.members && !Deleted(e.g[t].fields, hit, n, k)
    ensures Lookup(e.g[t].fields[n], StripObject(e, hit, t, n, j).members) == Some(k) <==>
      TakesUp(e.g[t].fields, hit, n, k, j.members)
  {
    hide StripObject, Deleted;
    KeysLeft(e, hit, t, n, j, k);
    KeysLeft(e, hit, t, n, j, e.g[t].fields[n].jsonName);
  }

  /** Whatever the names, a member that is left has been stripped by exactly the fields that take it
      up, in the order of their declaration. */
  lemma {:induction false} MemberExactly(e: Env, hit: Matcher, t: TypeName, n: nat, j: Json, k: string)
    requires ValidEnv(e) && t in e.g && n <= |e.g[t].fields| && j.JObj?
    requires k in j.members && !Deleted(e.g[t].fields, hit, n, k)
    ensures k in StripObject(e, hit, t, n, j).members
    ensures StripObject(e, hit, t, n, j).members[k] == Passed(e, hit, t, n, j.members, k, j.members[k])
    decreases n
  {
    hide StripObject, StripValue, Deleted;
    KeysLeft(e, hit, t, n, j, k);
    if n == 0 {
      NothingStripped(e, hit, t, j);
    } else {
      DeletedStep(e.g[t].fields, hit, n, k);
      MemberExactly(e, hit, t, n - 1, j, k);
      ObjectStep(e, hit, t, n, j);
      FieldTypeKnown(e, t, n - 1);
      if !hit(e.g[t].fields[n - 1]) { LookedUp(e, hit, t, n - 1, j, k); }
    }
  }

  /** A field that the pass treats in any way: it is hidden, or something below it may be. */
  ghost predicate Matters(g: Graph, hit: Matcher, fd: FieldDesc) {
    hit(fd) || (fd.kind.MessageKind? && Reaches(g, hit, fd.kind.ty))
  }

  /** Of the keys in use, a field that matters has its own as a name and no other; what two hidden
      fields share does not matter. */
  ghost predicate ClearKeys(g: Graph, o: MarshalOptions, hit: Matcher, fields: seq<FieldDesc>) {
    forall w, i :: 0 <= w < |fields| && 0 <= i < |fields| && Matters(g, hit, fields[w]) ==>
      && !HasName(fields[w], "@type")
      && (HasName(fields[w], KeyOf(o, fields[i])) ==> i == w || (hit(fields[w]) && hit(fields[i])))
  }

  /** The keys of rendered fields, and the type marker. */
  ghost predicate RenderedKeys(o: MarshalOptions, fields: seq<FieldDesc>, members: map<string, Json>) {
    forall k :: k in members && k != "@type" ==> exists n :: 0 <= n < |fields| && k == KeyOf(o, fields[n])
  }

  lemma Harmless(e: Env, hit: Matcher, fd: FieldDesc, v: Json)
    requires ValidEnv(e) && (fd.kind.MessageKind? ==> fd.kind.ty in e.g) && !Matters(e.g, hit, fd)
    ensures StripValue(e, hit, fd, v) == v
  {
    if fd.kind.MessageKind? { ColdStripValue(e, hit, fd, v); }
  }

  /** Of the fields that matter, none but perhaps `i` takes up `k`. */
  ghost predicate TakenAlone(
    g: Graph, hit: Matcher, fields: seq<FieldDesc>, members: map<string, Json>, k: string, i: int)
  {
    forall w :: 0 <= w < |fields| && w != i && Matters(g, hit, fields[w]) ==> !TakesUp(fields, hit, w, k, members)
  }

  /** Then nothing but the strip of field `i` has happened to it. */
  lemma {:induction false} PassedAlone(
    e: Env, hit: Matcher, t: TypeName, n: nat, members: map<string, Json>, k: string, v: Json, i: int)
    requires ValidEnv(e) && t in e.g && n <= |e.g[t].fields|
    requires TakenAlone(e.g, hit, e.g[t].fields, members, k, i)
    ensures Passed(e, hit, t, n, members, k, v) ==
      if i < n && TakesUp(e.g[t].fields, hit, i, k, members) then
        FieldTypeKnown(e, t, i);
        StripValue(e, hit, e.g[t].fields[i], v)
      else v
    decreases n
  {
    hide StripValue, Matters, Deleted;
    if n > 0 {
      FieldTypeKnown(e, t, n - 1);
      PassedAlone(e, hit, t, n - 1, members, k, v, i);
      if n - 1 != i && !Matters(e.g, hit, e.g[t].fields[n - 1]) {
        Harmless(e, hit, e.g[t].fields[n - 1], Passed(e, hit, t, n - 1, members, k, v));
      }
    }
  }

  /** Where the keys are clear, a visible field alone takes up its own member. */
  lemma ClearlyTaken(e: Env, o: MarshalOptions, hit: Matcher, t: TypeName, members: map<string, Json>, i: nat)
    requires ValidEnv(e) && t in e.g && ClearKeys(e.g, o, hit, e.g[t].fields)
    requires RenderedKeys(o, e.g[t].fields, members)
    requires i < |e.g[t].fields| && !hit(e.g[t].fields[i])
    ensures var fields, k := e.g[t].fields, KeyOf(o, e.g[t].fields[i]);
      && TakenAlone(e.g, hit, fields, members, k, i)
      && (Matters(e.g, hit, fields[i]) ==> TakesUp(fields, hit, i, k, members))
      && !Deleted(fields, hit, |fields|, k)
  {
    hide Reaches;
    var fields := e.g[t].fields;
    if Matters(e.g, hit, fields[i]) && o.useProtoNames && fields[i].jsonName in members {
      var n :| 0 <= n < |fields| && fields[i].jsonName == KeyOf(o, fields[n]);
      assert HasName(fields[i], KeyOf(o, fields[n]));
    }
  }

  /** Where the keys are clear, the member of a visible field is left, stripped as that field. */
  lemma OwnMember(e: Env, o: MarshalOptions, hit: Matcher, t: TypeName, j: Json, i: nat)
    requires ValidEnv(e) && t in e.g && j.JObj?
    requires ClearKeys(e.g, o, hit, e.g[t].fields) && RenderedKeys(o, e.g[t].fields, j.members)
    requires i < |e.g[t].fields| && !hit(e.g[t].fields[i]) && KeyOf(o, e.g[t].fields[i]) in j.members
    ensures var k, r := KeyOf(o, e.g[t].fields[i]), StripObject(e, hit, t, |e.g[t].fields|, j).members;
      k in r && r[k] == StripValue(e, hit, e.g[t].fields[i], j.members[k])
  {
    hide StripObject, StripValue, Passed, TakesUp, Matters, ClearKeys, TakenAlone, Deleted;
    var fields, k := e.g[t].fields, KeyOf(o, e.g[t].fields[i]);
    ClearlyTaken(e, o, hit, t, j.members, i);
    MemberExactly(e, hit, t, |fields|, j, k);
    PassedAlone(e, hit, t, |fields|, j.members, k, j.members[k], i);
    if !Matters(e.g, hit, fields[i]) { Harmless(e, hit, fields[i], j.members[k]); }
  }

  /** Where the keys are clear, so is the type marker, which stays as it is. */
  lemma MarkerLeft(e: Env, o: MarshalOptions, hit: Matcher, t: TypeName, j: Json)
    requires ValidEnv(e) && t in e.g && j.JObj?
    requires ClearKeys(e.g, o, hit, e.g[t].fields) && "@type" in j.members
    ensures var r := StripObject(e, hit, t, |e.g[t].fields|, j).members;
      "@type" in r && r["@type"] == j.members["@type"]
  {
    hide StripObject, StripValue, Passed, Reaches;
    var fields := e.g[t].fields;
    forall w | 0 <= w < |fields| && Matters(e.g, hit, fields[w]) ensures !HasName(fields[w], "@type") {
      assert HasName(fields[w], KeyOf(o, fields[w]));
    }
    MemberExactly(e, hit, t, |fields|, j, "@type");
    PassedAlone(e, hit, t, |fields|, j.members, "@type", j.members["@type"], -1);
  }

  lemma NothingStripped(e: Env, hit: Matcher, t: TypeName, j: Json)
    requires ValidEnv(e) && t in e.g && j.JObj?
    ensures StripObject(e, hit, t, 0, j) == j
  {
  }
}
