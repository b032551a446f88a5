/** What an emitted schema is, in terms of the descriptors alone: how deep it goes, and which
    objects each of its nodes accepts. */
module SchemaShape {
  import opened Descriptors
  import opened JsonValue
  import opened SchemaGen
  import opened SchemaLaws
  import opened Satisfiable
  import opened InputDemands

  // ----- depth -----

  /** A path of visible message fields down from `t`, none of a well-known type. */
  ghost predicate VisiblePath(o: Options, t: TypeName, path: seq<FieldDesc>)
    requires ClosedGraph(o.g) && t in o.g
    decreases |path|
  {
    path == [] ||
    (&& path[0] in o.g[t].fields && o.filter(path[0])
     && path[0].kind.MessageKind? && !path[0].kind.ty.WellKnownType?
     && VisiblePath(o, path[0].kind.ty, path[1..]))
  }

  /** The types along such a path, `t` first. */
  ghost function TypesOn(o: Options, t: TypeName, path: seq<FieldDesc>): (ts: seq<TypeName>)
    requires ClosedGraph(o.g) && t in o.g && VisiblePath(o, t, path)
    ensures |ts| == |path| + 1 && forall k :: 0 <= k < |ts| ==> ts[k] in o.g
    decreases |path|
  {
    if path == [] then [t] else [t] + TypesOn(o, path[0].kind.ty, path[1..])
  }

  function Occurrences(ts: seq<TypeName>, t: TypeName): nat {
    if ts == [] then 0 else (if ts[0] == t then 1 else 0) + Occurrences(ts[1..], t)
  }

  /** The node of a schema at the end of a path of JSON names. */
  function Follow(s: Schema, path: seq<FieldDesc>): Option<Schema>
    decreases |path|
  {
    if path == [] then Some(s)
    else if !s.Object? || path[0].jsonName !in s.props then None
    else Follow(ItemOf(s.props[path[0].jsonName]), path[1..])
  }

  /** No type on the path has been expanded too often before its turn. */
  ghost predicate WithinCap(o: Options, seen: Counts, ts: seq<TypeName>)
    requires forall k :: 0 <= k < |ts| ==> ts[k] in seen
  {
    forall k :: 0 <= k < |ts| ==> seen[ts[k]] + Occurrences(ts[..k], ts[k]) < o.maxDepth
  }

  lemma WithinCapStep(o: Options, seen: Counts, t: TypeName, ts: seq<TypeName>)
    requires t in seen && forall k :: 0 <= k < |ts| ==> ts[k] in seen
    requires forall k :: 0 <= k < |[t] + ts| ==> ([t] + ts)[k] in seen
    ensures WithinCap(o, seen, [t] + ts) <==> seen[t] < o.maxDepth && WithinCap(o, seen[t := seen[t] + 1], ts)
  {
    var all, seen' := [t] + ts, seen[t := seen[t] + 1];
    forall k | 0 <= k < |ts|
      ensures seen[all[k + 1]] + Occurrences(all[..k + 1], all[k + 1]) == seen'[ts[k]] + Occurrences(ts[..k], ts[k])
    {
      assert all[..k + 1][1..] == ts[..k];
    }
    if WithinCap(o, seen, all) {
      assert seen[all[0]] + Occurrences(all[..0], all[0]) < o.maxDepth;
      forall k | 0 <= k < |ts| ensures seen'[ts[k]] + Occurrences(ts[..k], ts[k]) < o.maxDepth {
        assert seen[all[k + 1]] + Occurrences(all[..k + 1], all[k + 1]) < o.maxDepth;
      }
    }
    if seen[t] < o.maxDepth && WithinCap(o, seen', ts) {
      forall k | 0 <= k < |all| ensures seen[all[k]] + Occurrences(all[..k], all[k]) < o.maxDepth {
        if k > 0 { assert seen'[ts[k - 1]] + Occurrences(ts[..k - 1], ts[k - 1]) < o.maxDepth; }
      }
    }
  }

  lemma ItemIsMessage(o: Options, seen: Counts, fd: FieldDesc)
    requires ValidOptions(o, seen) && fd.kind.MessageKind? && fd.kind.ty in o.g && !fd.kind.ty.WellKnownType?
    ensures ItemOf(FieldSchema(o, seen, fd)) == MessageSchema(o, seen, fd.kind.ty)
  {
    if fd.card.Singular? && seen[fd.kind.ty] < o.maxDepth { Expanded(o, seen, fd.kind.ty); }
  }

  lemma FollowProperty(s: Schema, path: seq<FieldDesc>)
    requires s.Object? && path != [] && path[0].jsonName in s.props
    ensures Follow(s, path) == Follow(ItemOf(s.props[path[0].jsonName]), path[1..])
  {
  }

  lemma FollowStep(o: Options, seen: Counts, t: TypeName, path: seq<FieldDesc>)
    requires ValidOptions(o, seen) && t in o.g && VisiblePath(o, t, path) && path != [] && seen[t] < o.maxDepth
    ensures Follow(MessageSchema(o, seen, t), path) ==
      Follow(MessageSchema(o, seen[t := seen[t] + 1], path[0].kind.ty), path[1..])
  {
    hide MessageSchema, FieldSchema, Properties, Follow, ItemOf;
    var seen', n := seen[t := seen[t] + 1], |o.g[t].fields|;
    var i :| 0 <= i < n && o.g[t].fields[i] == path[0];
    Expanded(o, seen, t);
    PropertyAt(o, seen', t, n, i);
    ItemIsMessage(o, seen', path[0]);
    FollowProperty(MessageSchema(o, seen, t), path);
  }

  lemma FollowTruncated(o: Options, seen: Counts, t: TypeName, path: seq<FieldDesc>)
    requires ValidOptions(o, seen) && t in o.g && path != [] && seen[t] >= o.maxDepth
    ensures Follow(MessageSchema(o, seen, t), path) == None
  {
  }

  lemma RootExpanded(o: Options, seen: Counts, t: TypeName)
    requires ValidOptions(o, seen) && t in o.g
    ensures var node := Follow(MessageSchema(o, seen, t), []);
      node.Some? && (node.value.Object? <==> WithinCap(o, seen, [t])) && (node.value.Object? ==> node.value.ty == t)
  {
    assert [t] + [] == [t];
    WithinCapStep(o, seen, t, []);
  }

  /** The schema spells out a message exactly as long as no type on the way to it, itself included,
      was met as often as the cap before: neither deeper nor shallower. */
  lemma {:induction false} ExpandedExactly(o: Options, seen: Counts, t: TypeName, path: seq<FieldDesc>)
    requires ValidOptions(o, seen) && t in o.g && VisiblePath(o, t, path)
    ensures var node, ts := Follow(MessageSchema(o, seen, t), path), TypesOn(o, t, path);
      && (node.Some? && node.value.Object? <==> WithinCap(o, seen, ts))
      && (node.Some? && node.value.Object? ==> node.value.ty == ts[|path|])
    decreases |path|
  {
    hide MessageSchema, WithinCap, Follow;
    if path == [] {
      RootExpanded(o, seen, t);
    } else {
      WithinCapStep(o, seen, t, TypesOn(o, path[0].kind.ty, path[1..]));
      if seen[t] < o.maxDepth {
        FollowStep(o, seen, t, path);
        ExpandedExactly(o, seen[t := seen[t] + 1], path[0].kind.ty, path[1..]);
      } else {
        FollowTruncated(o, seen, t, path);
      }
    }
  }

  // ----- acceptance -----

  /** The names of the visible members of oneof `k` that an object has. */
  ghost function ArmsSet(o: Options, d: MessageDesc, k: nat, keys: set<string>): set<string> {
    set i |
      && 0 <= i < |d.fields| && o.filter(d.fields[i])
      && d.fields[i].oneof == Some(k) && d.fields[i].jsonName in keys ::
      d.fields[i].jsonName
  }

  predicate Member(d: MessageDesc, k: nat, i: nat)
    requires i < |d.fields|
  {
    d.fields[i].oneof == Some(k)
  }

  /** Oneof `k` may be left out of an object: it is optional, it has no visible member, or, in
      output, the member that is set may be one that is hidden. */
  ghost predicate MayBeUnset(o: Options, d: MessageDesc, k: nat)
    requires k < |d.oneofs|
  {
    || !d.oneofs[k].required
    || (forall i :: 0 <= i < |d.fields| && Member(d, k, i) ==> !o.filter(d.fields[i]))
    || (!o.input && exists i :: 0 <= i < |d.fields| && Member(d, k, i) && !o.filter(d.fields[i]))
  }

  ghost predicate OneofMet(o: Options, d: MessageDesc, k: nat, keys: set<string>)
    requires k < |d.oneofs|
  {
    |ArmsSet(o, d, k, keys)| == 1 || (ArmsSet(o, d, k, keys) == {} && MayBeUnset(o, d, k))
  }

  lemma {:induction false} CountOneMore(fields: seq<FieldDesc>, fd: FieldDesc, k: nat)
    ensures MemberCount(fields + [fd], k) == MemberCount(fields, k) + if fd.oneof == Some(k) then 1 else 0
    decreases |fields|
  {
    if fields == [] {
      assert fields + [fd] == [fd];
      assert [fd][1..] == [];
    } else {
      assert (fields + [fd])[1..] == fields[1..] + [fd];
      CountOneMore(fields[1..], fd, k);
    }
  }

  /** Fewer arms than members means a hidden member. */
  lemma {:induction false} FewerArms(o: Options, fields: seq<FieldDesc>, k: nat, n: nat)
    requires n <= |fields|
    ensures |Arms(o, fields, k, n)| <= MemberCount(fields[..n], k)
    ensures |Arms(o, fields, k, n)| < MemberCount(fields[..n], k) <==>
      exists i :: 0 <= i < n && fields[i].oneof == Some(k) && !o.filter(fields[i])
  {
    if n > 0 {
      FewerArms(o, fields, k, n - 1);
      CountOneMore(fields[..n - 1], fields[n - 1], k);
      assert fields[..n] == fields[..n - 1] + [fields[n - 1]];
    }
  }

  lemma ArmsSetIsPresent(o: Options, d: MessageDesc, k: nat, keys: set<string>)
    requires UniqueNames(d.fields)
    ensures ArmsSet(o, d, k, keys) == Present(Arms(o, d.fields, k, |d.fields|), keys)
  {
    var arms := Arms(o, d.fields, k, |d.fields|);
    ArmsAre(o, d.fields, k, |d.fields|);
    forall a | a in ArmsSet(o, d, k, keys) ensures a in Present(arms, keys) {
      assert a in arms;
    }
    forall a | a in Present(arms, keys) ensures a in ArmsSet(o, d, k, keys) {
      assert a in arms;
    }
  }

  lemma NoArmsNoDemand(o: Options, d: MessageDesc, k: nat, keys: set<string>)
    requires UniqueNames(d.fields) && k < |d.oneofs| && Arms(o, d.fields, k, |d.fields|) == []
    ensures OneofMet(o, d, k, keys)
  {
    var arms := Arms(o, d.fields, k, |d.fields|);
    ArmsAre(o, d.fields, k, |d.fields|);
    ArmsSetIsPresent(o, d, k, keys);
    assert Present(arms, keys) == {};
    assert forall i :: 0 <= i < |d.fields| && o.filter(d.fields[i]) && Member(d, k, i) ==> d.fields[i].jsonName in arms;
  }

  /** The none-branch is emitted exactly where the oneof may be left out. */
  lemma OrNoneIsMayBeUnset(o: Options, d: MessageDesc, k: nat)
    requires UniqueNames(d.fields) && k < |d.oneofs| && Arms(o, d.fields, k, |d.fields|) != []
    ensures MayBeUnset(o, d, k) <==>
      !d.oneofs[k].required || (!o.input && |Arms(o, d.fields, k, |d.fields|)| < MemberCount(d.fields, k))
  {
    var arms, n := Arms(o, d.fields, k, |d.fields|), |d.fields|;
    ArmsAre(o, d.fields, k, n);
    FewerArms(o, d.fields, k, n);
    assert d.fields[..n] == d.fields;
    assert arms[0] in arms;
    var i :| 0 <= i < n && o.filter(d.fields[i]) && d.fields[i].oneof == Some(k) && d.fields[i].jsonName == arms[0];
    assert Member(d, k, i);
    if |arms| < MemberCount(d.fields, k) {
      var h :| 0 <= h < n && d.fields[h].oneof == Some(k) && !o.filter(d.fields[h]);
      assert Member(d, k, h);
    }
  }

  /** A oneof's group, when one is emitted, says exactly what the oneof allows. */
  lemma GroupIsOneof(o: Options, d: MessageDesc, k: nat, keys: set<string>)
    requires UniqueNames(d.fields) && k < |d.oneofs| && !d.oneofs[k].synthetic
    requires Arms(o, d.fields, k, |d.fields|) != []
    ensures |GroupOf(o, d, k)| == 1 && (AcceptsGroup(GroupOf(o, d, k)[0], keys) <==> OneofMet(o, d, k, keys))
  {
    hide AcceptsGroup, MayBeUnset, Present, ArmsSet;
    ArmsAre(o, d.fields, k, |d.fields|);
    ArmsSetIsPresent(o, d, k, keys);
    OrNoneIsMayBeUnset(o, d, k);
    GroupExact(GroupOf(o, d, k)[0], keys);
  }

  ghost predicate AllGroupsAccept(groups: seq<Group>, keys: set<string>) {
    forall i :: 0 <= i < |groups| ==> AcceptsGroup(groups[i], keys)
  }

  ghost predicate AllOneofsMet(o: Options, d: MessageDesc, keys: set<string>) {
    forall k :: 0 <= k < |d.oneofs| && !d.oneofs[k].synthetic ==> OneofMet(o, d, k, keys)
  }

  lemma AcceptedGroupsMeet(o: Options, d: MessageDesc, keys: set<string>)
    requires UniqueNames(d.fields) && AllGroupsAccept(Groups(o, d, |d.oneofs|), keys)
    ensures AllOneofsMet(o, d, keys)
  {
    hide AcceptsGroup, OneofMet, UniqueNames, GroupOf, Arms;
    forall k | 0 <= k < |d.oneofs| && !d.oneofs[k].synthetic ensures OneofMet(o, d, k, keys) {
      if Arms(o, d.fields, k, |d.fields|) == [] {
        NoArmsNoDemand(o, d, k, keys);
      } else {
        GroupIsOneof(o, d, k, keys);
        var i := GroupEmitted(o, d, |d.oneofs|, k);
        assert [Groups(o, d, |d.oneofs|)[i]][0] == GroupOf(o, d, k)[0];
      }
    }
  }

  lemma MetGroupsAccept(o: Options, d: MessageDesc, keys: set<string>)
    requires UniqueNames(d.fields) && AllOneofsMet(o, d, keys)
    ensures AllGroupsAccept(Groups(o, d, |d.oneofs|), keys)
  {
    hide AcceptsGroup, OneofMet, UniqueNames, GroupOf, Arms;
    forall i | 0 <= i < |Groups(o, d, |d.oneofs|)| ensures AcceptsGroup(Groups(o, d, |d.oneofs|)[i], keys) {
      var k := GroupOrigin(o, d, i);
      GroupIsOneof(o, d, k, keys);
    }
  }

  /** The oneof a group was emitted for. */
  lemma GroupOrigin(o: Options, d: MessageDesc, i: nat) returns (k: nat)
    requires i < |Groups(o, d, |d.oneofs|)|
    ensures k < |d.oneofs| && !d.oneofs[k].synthetic && Arms(o, d.fields, k, |d.fields|) != []
    ensures |GroupOf(o, d, k)| == 1 && GroupOf(o, d, k)[0] == Groups(o, d, |d.oneofs|)[i]
  {
    k := GroupFrom(o, d, |d.oneofs|, i);
  }

  /** What a field of an object must be. */
  ghost predicate FieldMet(o: Options, seen: Counts, fd: FieldDesc, members: map<string, Json>)
    requires ValidOptions(o, seen) && (fd.kind.MessageKind? ==> fd.kind.ty in o.g)
  {
    && (o.filter(fd) && IsRequired(fd) ==> fd.jsonName in members)
    && (o.filter(fd) && fd.jsonName in members ==> Accepts(FieldSchema(o, seen, fd), members[fd.jsonName]))
  }

  ghost predicate AllFieldsMet(o: Options, seen: Counts, t: TypeName, members: map<string, Json>)
    requires ValidOptions(o, seen) && t in o.g
  {
    forall i :: 0 <= i < |o.g[t].fields| ==> FieldMet(o, seen, o.g[t].fields[i], members)
  }

  ghost predicate MembersAccepted(required: seq<string>, props: map<string, Schema>, members: map<string, Json>) {
    && (forall i :: 0 <= i < |required| ==> required[i] in members)
    && (forall k :: k in props && k in members ==> Accepts(props[k], members[k]))
  }

  lemma AcceptedMembersMeet(o: Options, seen: Counts, t: TypeName, members: map<string, Json>)
    requires ValidOptions(o, seen) && t in o.g
    requires var n := |o.g[t].fields|;
      MembersAccepted(RequiredNames(o, o.g[t].fields, n), Properties(o, seen, t, n), members)
    ensures AllFieldsMet(o, seen, t, members)
  {
    hide Accepts, Properties, RequiredNames, FieldSchema, IsRequired, Left;
    var fields, n := o.g[t].fields, |o.g[t].fields|;
    RequiredAre(o, fields, n);
    forall i | 0 <= i < n ensures FieldMet(o, seen, fields[i], members) {
      if o.filter(fields[i]) {
        PropertyAt(o, seen, t, n, i);
        assert IsRequired(fields[i]) ==> fields[i].jsonName in RequiredNames(o, fields, n);
      }
    }
  }

  lemma MetMembersAccepted(o: Options, seen: Counts, t: TypeName, members: map<string, Json>)
    requires ValidOptions(o, seen) && t in o.g && AllFieldsMet(o, seen, t, members)
    ensures var n := |o.g[t].fields|;
      MembersAccepted(RequiredNames(o, o.g[t].fields, n), Properties(o, seen, t, n), members)
  {
    hide Accepts, Properties, RequiredNames, FieldSchema, IsRequired, Left;
    var fields, n := o.g[t].fields, |o.g[t].fields|;
    var props, required := Properties(o, seen, t, n), RequiredNames(o, fields, n);
    RequiredAre(o, fields, n);
    forall i | 0 <= i < |required| ensures required[i] in members {
      assert required[i] in required;
      var f :| 0 <= f < n && o.filter(fields[f]) && IsRequired(fields[f]) && fields[f].jsonName == required[i];
      assert FieldMet(o, seen, fields[f], members);
    }
    forall k | k in props && k in members ensures Accepts(props[k], members[k]) {
      var i := PropertyOf(o, seen, t, n, k);
      assert FieldMet(o, seen, fields[i], members);
    }
  }

  lemma ObjectAccepts(s: Schema, j: Json)
    requires s.Object?
    ensures Accepts(s, j) <==>
      && j.JObj? && MembersAccepted(s.required, s.props, j.members) && AllGroupsAccept(s.groups, j.members.Keys)
  {
  }

  /** A node accepts exactly the objects that have its required fields, valid values for its
      visible fields, and at most one member of each oneof, or exactly one where it cannot be
      left out. */
  lemma AcceptedExactly(o: Options, seen: Counts, t: TypeName, j: Json)
    requires ValidOptions(o, seen) && t in o.g && seen[t] < o.maxDepth
    ensures Accepts(MessageSchema(o, seen, t), j) <==>
      && j.JObj?
      && AllFieldsMet(o, seen[t := seen[t] + 1], t, j.members)
      && AllOneofsMet(o, o.g[t], j.members.Keys)
  {
    var seen', n := seen[t := seen[t] + 1], |o.g[t].fields|;
    Expanded(o, seen, t);
    assert ValidOptions(o, seen') && UniqueNames(o.g[t].fields);
    hide *;
    ObjectAccepts(MessageSchema(o, seen, t), j);
    if j.JObj? {
      if MembersAccepted(RequiredNames(o, o.g[t].fields, n), Properties(o, seen', t, n), j.members) {
        AcceptedMembersMeet(o, seen', t, j.members);
      }
      if AllFieldsMet(o, seen', t, j.members) { MetMembersAccepted(o, seen', t, j.members); }
      if AllGroupsAccept(Groups(o, o.g[t], |o.g[t].oneofs|), j.members.Keys) {
        AcceptedGroupsMeet(o, o.g[t], j.members.Keys);
      }
      if AllOneofsMet(o, o.g[t], j.members.Keys) { MetGroupsAccept(o, o.g[t], j.members.Keys); }
    }
  }
}
