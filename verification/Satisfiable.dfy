/** When a schema skeleton can be satisfied at all. */
module Satisfiable {
  import opened Descriptors
  import opened JsonValue
  import opened SchemaGen
  import opened SchemaLaws

  function Elements(s: seq<string>): set<string> { set x | x in s }

  ghost predicate RegularObject(props: map<string, Schema>, required: seq<string>, groups: seq<Group>) {
    && Elements(required) <= props.Keys
    && (forall i :: 0 <= i < |groups| ==>
         groups[i].arms != [] && DistinctArms(groups[i].arms) && Elements(groups[i].arms) <= props.Keys)
    && forall i, j :: 0 <= i < |groups| && 0 <= j < |groups| && i != j ==>
         Elements(groups[i].arms) !! Elements(groups[j].arms)
  }

  /** Required names and arms are properties; arms are distinct, and no two groups share one. */
  ghost predicate Regular(s: Schema)
    decreases s
  {
    match s
    case ArrayOf(x) => Regular(x)
    case MapOf(x) => Regular(x)
    case Object(_, props, required, groups) =>
      RegularObject(props, required, groups) && forall k :: k in props ==> Regular(props[k])
    case _ => true
  }

  /** A condition to check on the schema alone: what an object cannot leave out is feasible, no
      group has two required arms, and a group that asks for an arm has one to offer. */
  ghost predicate Feasible(s: Schema)
    requires Regular(s)
    decreases s
  {
    match s
    case Object(_, props, required, groups) =>
      && (forall i :: 0 <= i < |required| ==> required[i] in Elements(required) && Feasible(props[required[i]]))
      && (forall i :: 0 <= i < |groups| ==>
           var forced := Present(groups[i].arms, Elements(required));
           && |forced| <= 1
           && (|forced| == 1 || groups[i].orNone ||
               exists k :: 0 <= k < |groups[i].arms| && groups[i].arms[k] in Elements(groups[i].arms) &&
                 Feasible(props[groups[i].arms[k]])))
    case _ => true
  }

  // ----- feasible schemas are satisfiable -----

  /** Group `g` needs an arm beyond the required names. */
  predicate NeedsArm(g: Group, required: seq<string>) {
    !g.orNone && Present(g.arms, Elements(required)) == {}
  }

  ghost predicate FeasibleArm(props: map<string, Schema>, a: string)
    requires forall k :: k in props ==> Regular(props[k])
  {
    a in props && Feasible(props[a])
  }

  ghost function PickArm(props: map<string, Schema>, g: Group, required: seq<string>): (a: string)
    requires forall k :: k in props ==> Regular(props[k])
    requires NeedsArm(g, required) ==> exists k :: 0 <= k < |g.arms| && FeasibleArm(props, g.arms[k])
    requires g.arms != []
    ensures a in g.arms
    ensures NeedsArm(g, required) ==> FeasibleArm(props, a)
  {
    if NeedsArm(g, required) then
      var k :| 0 <= k < |g.arms| && FeasibleArm(props, g.arms[k]);
      g.arms[k]
    else g.arms[0]
  }

  ghost predicate CanPick(s: Schema)
    requires s.Object? && Regular(s)
  {
    forall i :: 0 <= i < |s.groups| && NeedsArm(s.groups[i], s.required) ==>
      exists k :: 0 <= k < |s.groups[i].arms| && FeasibleArm(s.props, s.groups[i].arms[k])
  }

  lemma FeasibleCanPick(s: Schema)
    requires s.Object? && Regular(s) && Feasible(s)
    ensures CanPick(s)
  {
    forall i | 0 <= i < |s.groups| && NeedsArm(s.groups[i], s.required)
      ensures exists k :: 0 <= k < |s.groups[i].arms| && FeasibleArm(s.props, s.groups[i].arms[k])
    {
      var k :| 0 <= k < |s.groups[i].arms| && s.groups[i].arms[k] in Elements(s.groups[i].arms) &&
        Feasible(s.props[s.groups[i].arms[k]]);
      assert FeasibleArm(s.props, s.groups[i].arms[k]);
    }
  }

  /** The keys of a smallest object: the required names, and one arm where one is needed. */
  ghost function Chosen(s: Schema): set<string>
    requires s.Object? && Regular(s) && CanPick(s)
  {
    Elements(s.required) +
    set i | 0 <= i < |s.groups| && NeedsArm(s.groups[i], s.required) :: PickArm(s.props, s.groups[i], s.required)
  }

  lemma ChosenFeasible(s: Schema)
    requires s.Object? && Regular(s) && Feasible(s) && CanPick(s)
    ensures forall k :: k in Chosen(s) ==> FeasibleArm(s.props, k)
  {
    forall k | k in Chosen(s) ensures FeasibleArm(s.props, k) {
      if k in s.required {
        var i :| 0 <= i < |s.required| && s.required[i] == k;
      }
    }
  }

  lemma ChosenPresent(s: Schema, i: nat)
    requires s.Object? && Regular(s) && CanPick(s) && i < |s.groups|
    ensures Present(s.groups[i].arms, Chosen(s)) ==
      Present(s.groups[i].arms, Elements(s.required)) +
      (if NeedsArm(s.groups[i], s.required) then {PickArm(s.props, s.groups[i], s.required)} else {})
  {
    var g := s.groups[i];
    forall k | k in Present(g.arms, Chosen(s)) && k !in s.required
      ensures NeedsArm(g, s.required) && k == PickArm(s.props, g, s.required)
    {
      var n :|
        0 <= n < |s.groups| && NeedsArm(s.groups[n], s.required) && k == PickArm(s.props, s.groups[n], s.required);
      assert k in Elements(s.groups[n].arms) && k in Elements(g.arms);
    }
    if NeedsArm(g, s.required) {
      var a := PickArm(s.props, g, s.required);
      var n :| 0 <= n < |g.arms| && g.arms[n] == a;
      assert a in Chosen(s);
    }
  }

  function CustomWitness(t: WellKnown): (j: Json)
    ensures CustomAccepts(t, j)
  {
    match t
    case Struct => JObj(map[])
    case Empty => JObj(map[])
    case ListValue => JArr([])
    case FieldMask => JLeaf([])
    case _ => JNull
  }

  /** A value a feasible schema accepts. */
  lemma {:induction false} Witness(s: Schema) returns (j: Json)
    requires Regular(s) && Feasible(s)
    ensures Accepts(s, j)
    decreases s
  {
    match s
    case ArrayOf(_) => j := JArr([]);
    case MapOf(_) => j := JObj(map[]);
    case Truncated => j := JObj(map[]);
    case Object(_, props, required, groups) =>
      FeasibleCanPick(s);
      ChosenFeasible(s);
      var members := WitnessMembers(s, Chosen(s));
      j := JObj(members);
      forall i | 0 <= i < |groups| ensures AcceptsGroup(groups[i], members.Keys) {
        ChosenPresent(s, i);
        GroupExact(groups[i], members.Keys);
      }
    case Custom(t) => j := if t.WellKnownType? then CustomWitness(t.wkt) else JNull;
    case Leaf => j := JNull;
  }

  lemma {:induction false} WitnessMembers(s: Schema, keys: set<string>) returns (members: map<string, Json>)
    requires s.Object? && Regular(s)
    requires forall k :: k in keys ==> FeasibleArm(s.props, k)
    ensures members.Keys == keys
    ensures forall k :: k in keys ==> k in s.props && Accepts(s.props[k], members[k])
    decreases s, |keys|
  {
    if keys == {} {
      members := map[];
    } else {
      var k :| k in keys;
      assert FeasibleArm(s.props, k);
      var rest := WitnessMembers(s, keys - {k});
      var j := Witness(s.props[k]);
      members := rest[k := j];
    }
  }

  // ----- satisfiable schemas are feasible -----

  lemma {:induction false} AcceptedIsFeasible(s: Schema, j: Json)
    requires Regular(s) && Accepts(s, j)
    ensures Feasible(s)
    decreases s
  {
    if s.Object? {
      forall i | 0 <= i < |s.required|
        ensures s.required[i] in Elements(s.required) && Feasible(s.props[s.required[i]])
      {
        assert s.required[i] in Elements(s.required);
        AcceptedIsFeasible(s.props[s.required[i]], j.members[s.required[i]]);
      }
      forall i | 0 <= i < |s.groups|
        ensures |Present(s.groups[i].arms, Elements(s.required))| <= 1
        ensures |Present(s.groups[i].arms, Elements(s.required))| == 1 || s.groups[i].orNone ||
                exists k :: 0 <= k < |s.groups[i].arms| && s.groups[i].arms[k] in Elements(s.groups[i].arms) &&
                  Feasible(s.props[s.groups[i].arms[k]])
      {
        AcceptedGroup(s, j, i);
        if a :| a in Present(s.groups[i].arms, j.members.Keys) {
          var k :| 0 <= k < |s.groups[i].arms| && s.groups[i].arms[k] == a;
          assert a in Elements(s.groups[i].arms);
          AcceptedIsFeasible(s.props[a], j.members[a]);
        }
      }
    }
  }

  lemma AcceptedGroup(s: Schema, j: Json, i: nat)
    requires s.Object? && Regular(s) && Accepts(s, j) && i < |s.groups|
    ensures Present(s.groups[i].arms, Elements(s.required)) <= Present(s.groups[i].arms, j.members.Keys)
    ensures |Present(s.groups[i].arms, Elements(s.required))| <= 1
    ensures s.groups[i].orNone || Present(s.groups[i].arms, j.members.Keys) != {}
  {
    var g := s.groups[i];
    GroupExact(g, j.members.Keys);
    assert Elements(s.required) <= j.members.Keys;
    var a, b := Present(g.arms, Elements(s.required)), Present(g.arms, j.members.Keys);
    forall x | x in a ensures x in b {
      var n :| 0 <= n < |g.arms| && g.arms[n] in Elements(s.required) && x == g.arms[n];
    }
    SubsetSize(a, b);
  }

  lemma SubsetSize(a: set<string>, b: set<string>)
    requires a <= b
    ensures |a| <= |b|
  {
    assert b == a + (b - a);
  }

  /** Satisfiability is decided by the condition on the schema, in both directions. */
  lemma SatisfiableIffFeasible(s: Schema)
    requires Regular(s)
    ensures (exists j :: Accepts(s, j)) <==> Feasible(s)
  {
    if j :| Accepts(s, j) { AcceptedIsFeasible(s, j); }
    if Feasible(s) {
      var j := Witness(s);
      assert Accepts(s, j);
    }
  }

  // ----- the generator emits regular schemas -----

  lemma {:induction false} ArmsAre(o: Options, fields: seq<FieldDesc>, k: nat, n: nat)
    requires n <= |fields| && UniqueNames(fields)
    ensures forall a :: a in Arms(o, fields, k, n) <==>
      exists i :: 0 <= i < n && o.filter(fields[i]) && fields[i].oneof == Some(k) && fields[i].jsonName == a
    ensures DistinctArms(Arms(o, fields, k, n))
  {
    if n > 0 {
      ArmsAre(o, fields, k, n - 1);
      assert fields[n - 1].jsonName !in Arms(o, fields, k, n - 1);
    }
  }

  lemma {:induction false} RequiredAre(o: Options, fields: seq<FieldDesc>, n: nat)
    requires n <= |fields|
    ensures forall a :: a in RequiredNames(o, fields, n) <==>
      exists i :: 0 <= i < n && o.filter(fields[i]) && IsRequired(fields[i]) && fields[i].jsonName == a
  {
    if n > 0 { RequiredAre(o, fields, n - 1); }
  }

  /** Which oneof a group of the list comes from. */
  lemma {:induction false} GroupFrom(o: Options, d: MessageDesc, n: nat, i: nat) returns (k: nat)
    requires n <= |d.oneofs| && i < |Groups(o, d, n)|
    ensures k < n && !d.oneofs[k].synthetic
    ensures Groups(o, d, n)[i].arms == Arms(o, d.fields, k, |d.fields|) && Groups(o, d, n)[i].arms != []
    ensures Groups(o, d, n)[i].orNone <==>
      !d.oneofs[k].required || (!o.input && |Groups(o, d, n)[i].arms| < MemberCount(d.fields, k))
    ensures i < |Groups(o, d, k + 1)| && Groups(o, d, k + 1)[i] == Groups(o, d, n)[i] && |Groups(o, d, k)| == i
  {
    if i < |Groups(o, d, n - 1)| {
      k := GroupFrom(o, d, n - 1, i);
    } else {
      k := n - 1;
    }
  }

  lemma GroupsDisjoint(o: Options, d: MessageDesc, i: nat, j: nat)
    requires UniqueNames(d.fields) && i < |Groups(o, d, |d.oneofs|)| && j < |Groups(o, d, |d.oneofs|)| && i != j
    ensures Elements(Groups(o, d, |d.oneofs|)[i].arms) !! Elements(Groups(o, d, |d.oneofs|)[j].arms)
  {
    var k := GroupFrom(o, d, |d.oneofs|, i);
    var l := GroupFrom(o, d, |d.oneofs|, j);
    ArmsAre(o, d.fields, k, |d.fields|);
    ArmsAre(o, d.fields, l, |d.fields|);
    assert k != l;
  }

  lemma ObjectRegular(o: Options, seen: Counts, t: TypeName)
    requires ValidOptions(o, seen) && t in o.g
    ensures RegularObject(Properties(o, seen, t, |o.g[t].fields|),
      RequiredNames(o, o.g[t].fields, |o.g[t].fields|), Groups(o, o.g[t], |o.g[t].oneofs|))
  {
    var d, n := o.g[t], |o.g[t].fields|;
    var props, groups := Properties(o, seen, t, n), Groups(o, d, |d.oneofs|);
    RequiredAre(o, d.fields, n);
    forall a | a in RequiredNames(o, d.fields, n) ensures a in props {
      var i :| 0 <= i < n && o.filter(d.fields[i]) && d.fields[i].jsonName == a;
      PropertyAt(o, seen, t, n, i);
    }
    forall i | 0 <= i < |groups|
      ensures groups[i].arms != [] && DistinctArms(groups[i].arms) && Elements(groups[i].arms) <= props.Keys
    {
      var k := GroupFrom(o, d, |d.oneofs|, i);
      ArmsAre(o, d.fields, k, n);
      forall a | a in groups[i].arms ensures a in props {
        var f :| 0 <= f < n && o.filter(d.fields[f]) && d.fields[f].jsonName == a;
        PropertyAt(o, seen, t, n, f);
      }
    }
    forall i, j | 0 <= i < |groups| && 0 <= j < |groups| && i != j
      ensures Elements(groups[i].arms) !! Elements(groups[j].arms)
    {
      GroupsDisjoint(o, d, i, j);
    }
  }

  lemma {:induction false} SchemaRegular(o: Options, seen: Counts, t: TypeName)
    requires ValidOptions(o, seen) && t in o.g
    ensures Regular(MessageSchema(o, seen, t))
    decreases Left(o, seen), 0
  {
    if seen[t] < o.maxDepth {
      Expanded(o, seen, t);
      ExpansionUsesUp(o, seen, t);
      ObjectRegular(o, seen[t := seen[t] + 1], t);
      var props := Properties(o, seen[t := seen[t] + 1], t, |o.g[t].fields|);
      forall k | k in props ensures Regular(props[k]) {
        var i := PropertyOf(o, seen[t := seen[t] + 1], t, |o.g[t].fields|, k);
        FieldRegular(o, seen[t := seen[t] + 1], o.g[t].fields[i]);
      }
    }
  }

  lemma {:induction false} FieldRegular(o: Options, seen: Counts, fd: FieldDesc)
    requires ValidOptions(o, seen) && (fd.kind.MessageKind? ==> fd.kind.ty in o.g)
    ensures Regular(FieldSchema(o, seen, fd))
    decreases Left(o, seen), 1
  {
    if fd.kind.MessageKind? && !fd.kind.ty.WellKnownType? { SchemaRegular(o, seen, fd.kind.ty); }
  }
}
