/** When an emitted schema can be satisfied at all, in terms of the descriptors. */
module Meetable {
  import opened Descriptors
  import opened Paths
  import opened JsonValue
  import opened SchemaGen
  import opened SchemaLaws
  import opened Satisfiable
  import opened InputDemands
  import opened SchemaShape

  /** A visible member of oneof `k`. */
  predicate VisibleMember(o: Options, d: MessageDesc, k: nat, i: nat)
    requires i < |d.fields|
  {
    o.filter(d.fields[i]) && Member(d, k, i)
  }

  /** Two visible members of oneof `k` are each required on their own. */
  ghost predicate Clash(o: Options, d: MessageDesc, k: nat) {
    exists i, j :: 0 <= i < j < |d.fields|
      && VisibleMember(o, d, k, i) && VisibleMember(o, d, k, j) && IsRequired(d.fields[i]) && IsRequired(d.fields[j])
  }

  predicate Real(d: MessageDesc, k: int) { 0 <= k < |d.oneofs| && !d.oneofs[k].synthetic }

  /** Some object can be accepted for a message of type `t`: it is at the cap, or its required fields
      can be met, and each of its oneofs, which has no two required members, may be left out or has a
      member that can be met. */
  ghost predicate Meetable(o: Options, seen: Counts, t: TypeName)
    requires ValidOptions(o, seen) && t in o.g
    decreases Left(o, seen), 0
  {
    seen[t] >= o.maxDepth ||
    (ExpansionUsesUp(o, seen, t);
     var d, seen' := o.g[t], seen[t := seen[t] + 1];
     && RequiredMeetable(o, seen', t)
     && (forall k :: Real(d, k) ==> OneofMeetable(o, seen', t, k)))
  }

  /** The required visible fields of `t` can be met. */
  ghost predicate RequiredMeetable(o: Options, seen: Counts, t: TypeName)
    requires ValidOptions(o, seen) && t in o.g
    decreases Left(o, seen), 2
  {
    forall i :: 0 <= i < |o.g[t].fields| && o.filter(o.g[t].fields[i]) && IsRequired(o.g[t].fields[i]) ==>
      FieldMeetable(o, seen, o.g[t].fields[i])
  }

  ghost predicate OneofMeetable(o: Options, seen: Counts, t: TypeName, k: nat)
    requires ValidOptions(o, seen) && t in o.g && k < |o.g[t].oneofs|
    decreases Left(o, seen), 2
  {
    var d := o.g[t];
    && !Clash(o, d, k)
    && (MayBeUnset(o, d, k) ||
        exists i :: 0 <= i < |d.fields| && VisibleMember(o, d, k, i) && FieldMeetable(o, seen, d.fields[i]))
  }

  ghost predicate FieldMeetable(o: Options, seen: Counts, fd: FieldDesc)
    requires ValidOptions(o, seen) && (fd.kind.MessageKind? ==> fd.kind.ty in o.g)
    decreases Left(o, seen), 1
  {
    fd.card.Singular? && fd.kind.MessageKind? && !fd.kind.ty.WellKnownType? ==> Meetable(o, seen, fd.kind.ty)
  }

  // ----- the same condition on the schema -----

  ghost predicate RequiredFeasible(props: map<string, Schema>, required: seq<string>)
    requires forall k :: k in props ==> Regular(props[k])
  {
    forall i :: 0 <= i < |required| ==> FeasibleArm(props, required[i])
  }

  /** What `Feasible` asks of one group. */
  ghost predicate GroupOk(props: map<string, Schema>, required: seq<string>, g: Group)
    requires forall k :: k in props ==> Regular(props[k])
  {
    var forced := Present(g.arms, Elements(required));
    |forced| <= 1 && (|forced| == 1 || g.orNone || exists k :: 0 <= k < |g.arms| && FeasibleArm(props, g.arms[k]))
  }

  lemma FeasibleObject(s: Schema)
    requires s.Object? && Regular(s)
    ensures Feasible(s) <==>
      && RequiredFeasible(s.props, s.required)
      && (forall i :: 0 <= i < |s.groups| ==> GroupOk(s.props, s.required, s.groups[i]))
  {
    assert forall i :: 0 <= i < |s.required| ==> s.required[i] in Elements(s.required);
    forall i, k | 0 <= i < |s.groups| && 0 <= k < |s.groups[i].arms|
      ensures s.groups[i].arms[k] in Elements(s.groups[i].arms) && s.groups[i].arms[k] in s.props
    {
    }
    if Feasible(s) {
      forall i | 0 <= i < |s.groups| ensures GroupOk(s.props, s.required, s.groups[i]) {
        if k :| 0 <= k < |s.groups[i].arms| && s.groups[i].arms[k] in Elements(s.groups[i].arms)
                && Feasible(s.props[s.groups[i].arms[k]]) {
          assert FeasibleArm(s.props, s.groups[i].arms[k]);
        }
      }
    }
  }

  lemma AtMostOne(s: set<string>)
    ensures |s| <= 1 <==> forall a, b :: a in s && b in s ==> a == b
  {
    if a :| a in s {
      assert s == {a} + (s - {a});
      assert |s| == 1 + |s - {a}|;
      if |s| > 1 {
        var b :| b in s - {a};
      } else {
        assert s - {a} == {};
      }
    }
  }

  /** The required members of a oneof, by name. */
  lemma ForcedAre(o: Options, d: MessageDesc, k: nat, a: string)
    requires UniqueNames(d.fields)
    ensures
      a in Present(Arms(o, d.fields, k, |d.fields|), Elements(RequiredNames(o, d.fields, |d.fields|))) <==>
      exists i ::
        0 <= i < |d.fields| && VisibleMember(o, d, k, i) && IsRequired(d.fields[i]) && d.fields[i].jsonName == a
  {
    var fields, n := d.fields, |d.fields|;
    var arms, required := Arms(o, fields, k, n), RequiredNames(o, fields, n);
    ArmsAre(o, fields, k, n);
    RequiredAre(o, fields, n);
    assert a in Present(arms, Elements(required)) <==> a in arms && a in required;
    if a in arms && a in required {
      var i :| 0 <= i < n && o.filter(fields[i]) && fields[i].oneof == Some(k) && fields[i].jsonName == a;
      var j :| 0 <= j < n && o.filter(fields[j]) && IsRequired(fields[j]) && fields[j].jsonName == a;
      assert i == j && VisibleMember(o, d, k, i);
    }
  }

  lemma ClashIsTwoForced(o: Options, d: MessageDesc, k: nat)
    requires UniqueNames(d.fields)
    ensures var forced := Present(Arms(o, d.fields, k, |d.fields|), Elements(RequiredNames(o, d.fields, |d.fields|)));
      Clash(o, d, k) <==> |forced| > 1
  {
    var forced := Present(Arms(o, d.fields, k, |d.fields|), Elements(RequiredNames(o, d.fields, |d.fields|)));
    AtMostOne(forced);
    if Clash(o, d, k) {
      var i, j :| 0 <= i < j < |d.fields|
        && VisibleMember(o, d, k, i) && VisibleMember(o, d, k, j) && IsRequired(d.fields[i]) && IsRequired(d.fields[j]);
      ForcedAre(o, d, k, d.fields[i].jsonName);
      ForcedAre(o, d, k, d.fields[j].jsonName);
    } else {
      forall a, b | a in forced && b in forced ensures a == b {
        ForcedAre(o, d, k, a);
        ForcedAre(o, d, k, b);
        var i :|
          0 <= i < |d.fields| && VisibleMember(o, d, k, i) && IsRequired(d.fields[i]) && d.fields[i].jsonName == a;
        var j :|
          0 <= j < |d.fields| && VisibleMember(o, d, k, j) && IsRequired(d.fields[j]) && d.fields[j].jsonName == b;
      }
    }
  }

  /** A visible field is feasible in the schema exactly when it can be met. */
  ghost predicate FieldsAgree(o: Options, seen: Counts, t: TypeName, props: map<string, Schema>)
    requires ValidOptions(o, seen) && t in o.g && forall k :: k in props ==> Regular(props[k])
  {
    forall i :: 0 <= i < |o.g[t].fields| && o.filter(o.g[t].fields[i]) ==>
      (FeasibleArm(props, o.g[t].fields[i].jsonName) <==> FieldMeetable(o, seen, o.g[t].fields[i]))
  }

  lemma FeasibleRequiredMeetable(o: Options, seen: Counts, t: TypeName, props: map<string, Schema>)
    requires ValidOptions(o, seen) && t in o.g && (forall k :: k in props ==> Regular(props[k]))
    requires FieldsAgree(o, seen, t, props)
    requires RequiredFeasible(props, RequiredNames(o, o.g[t].fields, |o.g[t].fields|))
    ensures RequiredMeetable(o, seen, t)
  {
    hide FieldMeetable, FeasibleArm, IsRequired, RequiredNames, Left;
    var fields, n := o.g[t].fields, |o.g[t].fields|;
    var required := RequiredNames(o, fields, n);
    RequiredAre(o, fields, n);
    forall i | 0 <= i < n && o.filter(fields[i]) && IsRequired(fields[i]) ensures FieldMeetable(o, seen, fields[i]) {
      assert fields[i].jsonName in required;
      var k :| 0 <= k < |required| && required[k] == fields[i].jsonName;
      assert FeasibleArm(props, required[k]);
    }
  }

  lemma MeetableRequiredFeasible(o: Options, seen: Counts, t: TypeName, props: map<string, Schema>)
    requires ValidOptions(o, seen) && t in o.g && (forall k :: k in props ==> Regular(props[k]))
    requires FieldsAgree(o, seen, t, props) && RequiredMeetable(o, seen, t)
    ensures RequiredFeasible(props, RequiredNames(o, o.g[t].fields, |o.g[t].fields|))
  {
    hide FieldMeetable, FeasibleArm, IsRequired, RequiredNames, Left;
    var fields, n := o.g[t].fields, |o.g[t].fields|;
    var required := RequiredNames(o, fields, n);
    RequiredAre(o, fields, n);
    forall i | 0 <= i < |required| ensures FeasibleArm(props, required[i]) {
      assert required[i] in required;
      var f :| 0 <= f < n && o.filter(fields[f]) && IsRequired(fields[f]) && fields[f].jsonName == required[i];
      assert FieldMeetable(o, seen, fields[f]);
    }
  }

  /** Given that the required fields can be met, a oneof can be exactly when its group is feasible. */
  lemma GroupAgrees(o: Options, seen: Counts, t: TypeName, k: nat, props: map<string, Schema>)
    requires ValidOptions(o, seen) && t in o.g && (forall k :: k in props ==> Regular(props[k]))
    requires FieldsAgree(o, seen, t, props) && Real(o.g[t], k)
    requires Arms(o, o.g[t].fields, k, |o.g[t].fields|) != []
    requires RequiredMeetable(o, seen, t)
    ensures |GroupOf(o, o.g[t], k)| == 1
    ensures GroupOk(props, RequiredNames(o, o.g[t].fields, |o.g[t].fields|), GroupOf(o, o.g[t], k)[0]) <==>
      OneofMeetable(o, seen, t, k)
  {
    hide FieldMeetable, FeasibleArm, IsRequired, MayBeUnset, Clash, Present;
    var d, n := o.g[t], |o.g[t].fields|;
    var arms, required := Arms(o, d.fields, k, n), RequiredNames(o, d.fields, n);
    var forced := Present(arms, Elements(required));
    ArmsAre(o, d.fields, k, n);
    ClashIsTwoForced(o, d, k);
    OrNoneIsMayBeUnset(o, d, k);
    if |forced| == 1 { OneForced(o, d, k); }
    if a :| 0 <= a < |arms| && FeasibleArm(props, arms[a]) {
      assert arms[a] in arms;
      var i :| 0 <= i < n && o.filter(d.fields[i]) && d.fields[i].oneof == Some(k) && d.fields[i].jsonName == arms[a];
      assert VisibleMember(o, d, k, i);
    }
    if i :| 0 <= i < n && VisibleMember(o, d, k, i) && FieldMeetable(o, seen, d.fields[i]) {
      assert d.fields[i].jsonName in arms;
    }
  }

  lemma OneForced(o: Options, d: MessageDesc, k: nat)
    requires UniqueNames(d.fields)
    requires |Present(Arms(o, d.fields, k, |d.fields|), Elements(RequiredNames(o, d.fields, |d.fields|)))| == 1
    ensures exists i ::
      0 <= i < |d.fields| && VisibleMember(o, d, k, i) && o.filter(d.fields[i]) && IsRequired(d.fields[i])
  {
    var forced := Present(Arms(o, d.fields, k, |d.fields|), Elements(RequiredNames(o, d.fields, |d.fields|)));
    var a :| a in forced;
    ForcedAre(o, d, k, a);
  }

  lemma NoArmsMeetable(o: Options, seen: Counts, t: TypeName, k: nat)
    requires ValidOptions(o, seen) && t in o.g && Real(o.g[t], k)
    requires Arms(o, o.g[t].fields, k, |o.g[t].fields|) == []
    ensures OneofMeetable(o, seen, t, k)
  {
    var d, n := o.g[t], |o.g[t].fields|;
    ArmsAre(o, d.fields, k, n);
    assert forall i :: 0 <= i < n && VisibleMember(o, d, k, i) ==> d.fields[i].jsonName in Arms(o, d.fields, k, n);
  }

  lemma GroupsAgree(o: Options, seen: Counts, t: TypeName, props: map<string, Schema>)
    requires ValidOptions(o, seen) && t in o.g && (forall k :: k in props ==> Regular(props[k]))
    requires FieldsAgree(o, seen, t, props)
    requires RequiredMeetable(o, seen, t)
    ensures var groups := Groups(o, o.g[t], |o.g[t].oneofs|);
      var required := RequiredNames(o, o.g[t].fields, |o.g[t].fields|);
      (forall i :: 0 <= i < |groups| ==> GroupOk(props, required, groups[i])) <==>
      (forall k :: Real(o.g[t], k) ==> OneofMeetable(o, seen, t, k))
  {
    hide FieldMeetable, FieldsAgree, IsRequired, OneofMeetable, GroupOk, GroupOf;
    var d := o.g[t];
    var groups, required := Groups(o, d, |d.oneofs|), RequiredNames(o, d.fields, |d.fields|);
    if forall i :: 0 <= i < |groups| ==> GroupOk(props, required, groups[i]) {
      forall k | Real(d, k) ensures OneofMeetable(o, seen, t, k) {
        if Arms(o, d.fields, k, |d.fields|) == [] {
          NoArmsMeetable(o, seen, t, k);
        } else {
          GroupAgrees(o, seen, t, k, props);
          var i := GroupEmitted(o, d, |d.oneofs|, k);
          assert GroupOf(o, d, k)[0] == groups[i];
        }
      }
    }
    if forall k :: Real(d, k) ==> OneofMeetable(o, seen, t, k) {
      forall i | 0 <= i < |groups| ensures GroupOk(props, required, groups[i]) {
        var k := GroupOrigin(o, d, i);
        assert Real(d, k);
        GroupAgrees(o, seen, t, k, props);
      }
    }
  }

  lemma {:induction false} FieldAgrees(o: Options, seen: Counts, fd: FieldDesc)
    requires ValidOptions(o, seen) && (fd.kind.MessageKind? ==> fd.kind.ty in o.g)
    ensures Regular(FieldSchema(o, seen, fd))
    ensures Feasible(FieldSchema(o, seen, fd)) <==> FieldMeetable(o, seen, fd)
    decreases Left(o, seen), 1
  {
    FieldRegular(o, seen, fd);
    if fd.card.Singular? && fd.kind.MessageKind? && !fd.kind.ty.WellKnownType? {
      MeetableIsFeasible(o, seen, fd.kind.ty);
    }
  }

  lemma {:induction false} AllFieldsAgree(o: Options, seen: Counts, t: TypeName, s: Schema)
    requires ValidOptions(o, seen) && t in o.g && seen[t] < o.maxDepth && s.Object?
    requires s.props == Properties(o, seen[t := seen[t] + 1], t, |o.g[t].fields|)
    requires forall k :: k in s.props ==> Regular(s.props[k])
    requires Left(o, seen[t := seen[t] + 1]) < Left(o, seen)
    ensures FieldsAgree(o, seen[t := seen[t] + 1], t, s.props)
    decreases Left(o, seen[t := seen[t] + 1]), 2
  {
    hide Properties, FieldMeetable, Feasible, Left;
    var seen' := seen[t := seen[t] + 1];
    forall i | 0 <= i < |o.g[t].fields| && o.filter(o.g[t].fields[i])
      ensures FeasibleArm(s.props, o.g[t].fields[i].jsonName) <==> FieldMeetable(o, seen', o.g[t].fields[i])
    {
      PropertyAt(o, seen', t, |o.g[t].fields|, i);
      FieldAgrees(o, seen', o.g[t].fields[i]);
    }
  }

  lemma ObjectAgrees(o: Options, seen: Counts, t: TypeName, s: Schema)
    requires ValidOptions(o, seen) && t in o.g && seen[t] < o.maxDepth && s.Object? && Regular(s)
    requires s.required == RequiredNames(o, o.g[t].fields, |o.g[t].fields|)
    requires s.groups == Groups(o, o.g[t], |o.g[t].oneofs|)
    requires FieldsAgree(o, seen[t := seen[t] + 1], t, s.props)
    ensures Feasible(s) <==> Meetable(o, seen, t)
  {
    hide Feasible, FieldsAgree, RequiredNames, Groups, GroupOk, OneofMeetable, RequiredMeetable, RequiredFeasible, Real;
    var seen' := seen[t := seen[t] + 1];
    FeasibleObject(s);
    if RequiredFeasible(s.props, s.required) {
      FeasibleRequiredMeetable(o, seen', t, s.props);
      GroupsAgree(o, seen', t, s.props);
    }
    if RequiredMeetable(o, seen', t) { MeetableRequiredFeasible(o, seen', t, s.props); }
  }

  /** The schema is feasible exactly when its descriptor can be met. */
  lemma {:induction false} MeetableIsFeasible(o: Options, seen: Counts, t: TypeName)
    requires ValidOptions(o, seen) && t in o.g
    ensures Regular(MessageSchema(o, seen, t))
    ensures Feasible(MessageSchema(o, seen, t)) <==> Meetable(o, seen, t)
    decreases Left(o, seen), 0
  {
    SchemaRegular(o, seen, t);
    if seen[t] >= o.maxDepth {
      AtCap(o, seen, t);
    } else {
      ExpansionUsesUp(o, seen, t);
      Expanded(o, seen, t);
      AllFieldsAgree(o, seen, t, MessageSchema(o, seen, t));
      ObjectAgrees(o, seen, t, MessageSchema(o, seen, t));
    }
  }

  /** An emitted schema accepts some value exactly when its descriptor can be met. */
  lemma SatisfiableExactly(o: Options, seen: Counts, t: TypeName)
    requires ValidOptions(o, seen) && t in o.g
    ensures (exists j :: Accepts(MessageSchema(o, seen, t), j)) <==> Meetable(o, seen, t)
  {
    MeetableIsFeasible(o, seen, t);
    SatisfiableIffFeasible(MessageSchema(o, seen, t));
  }

  /** So two members of one oneof that are each required, below the cap, leave no value at all. */
  lemma ClashUnsatisfiable(o: Options, seen: Counts, t: TypeName, k: nat, j: Json)
    requires ValidOptions(o, seen) && t in o.g && seen[t] < o.maxDepth && Real(o.g[t], k) && Clash(o, o.g[t], k)
    ensures !Accepts(MessageSchema(o, seen, t), j)
  {
    SatisfiableExactly(o, seen, t);
    assert !OneofMeetable(o, seen[t := seen[t] + 1], t, k);
  }

  // ----- a clash that the validator lets through -----

  function Text(name: string, oneof: Option<nat>, required: bool): FieldDesc {
    FieldDesc(name, name, Singular, ScalarKind, oneof.Some?, oneof, false, required, false, [], false, false,
      Unspecified, false)
  }

  /** Clashing { oneof choice { string a [required]; string b [required]; } } */
  const CLASHING := Named("Clashing")
  const CLASHING_DESC :=
    MessageDesc([Text("a", Some(0), true), Text("b", Some(0), true)], [OneofDesc("choice", false, false)])

  const CLASH_GRAPH: Graph :=
    map[ANY := MessageDesc([Text("type_url", None, false), Text("value", None, false)], []), CLASHING := CLASHING_DESC]

  /** The validator accepts this input, whose schema accepts nothing, whatever the cap. */
  lemma ClashExample(configured: int, j: Json)
    ensures ValidGraph(CLASH_GRAPH) && CLASHING in CLASH_GRAPH && !Impossible(CLASH_GRAPH, CLASHING)
    ensures !Accepts(InputSchema(CLASH_GRAPH, configured, CLASHING), j)
  {
    var g := CLASH_GRAPH;
    assert Explored(InputSteps(g), BadInputs(g), CLASHING, {CLASHING});
    ExploredSetIsClosed(InputSteps(g), BadInputs(g), {CLASHING}, CLASHING);
    var o, seen := InputOptions(g, configured), NoCounts(g);
    assert VisibleMember(o, CLASHING_DESC, 0, 0) && VisibleMember(o, CLASHING_DESC, 0, 1);
    assert Clash(o, o.g[CLASHING], 0);
    ClashUnsatisfiable(o, seen, CLASHING, 0, j);
  }

  // ----- descriptors without a clash -----

  ghost predicate VisibleStep(o: Options, a: TypeName, b: TypeName) {
    && a in o.g
    && exists i ::
      0 <= i < |o.g[a].fields| && o.filter(o.g[a].fields[i]) && o.g[a].fields[i].kind == MessageKind(b)
  }

  ghost function VisibleSteps(o: Options): Edges { (a, b) => VisibleStep(o, a, b) }

  ghost predicate HasClash(o: Options, t: TypeName) {
    t in o.g && exists k :: Real(o.g[t], k) && Clash(o, o.g[t], k)
  }

  ghost function Clashes(o: Options): Goal { t => HasClash(o, t) }

  /** Where no clash is reachable through visible fields, every schema can be satisfied. */
  lemma {:induction false} UnclashedIsMeetable(o: Options, seen: Counts, t: TypeName)
    requires ValidOptions(o, seen) && t in o.g && !Reach(VisibleSteps(o), Clashes(o), t)
    ensures Meetable(o, seen, t)
    decreases Left(o, seen), 0
  {
    if seen[t] < o.maxDepth {
      ExpansionUsesUp(o, seen, t);
      var d, seen' := o.g[t], seen[t := seen[t] + 1];
      if HasClash(o, t) { GoalReaches(VisibleSteps(o), Clashes(o), t); }
      forall i | 0 <= i < |d.fields| && o.filter(d.fields[i]) ensures FieldMeetable(o, seen', d.fields[i]) {
        UnclashedField(o, seen', t, i);
      }
      forall k | Real(d, k) ensures OneofMeetable(o, seen', t, k) {
        if !MayBeUnset(o, d, k) {
          var i :| 0 <= i < |d.fields| && Member(d, k, i) && o.filter(d.fields[i]);
          assert VisibleMember(o, d, k, i);
        }
      }
    }
  }

  lemma {:induction false} UnclashedField(o: Options, seen: Counts, t: TypeName, i: nat)
    requires ValidOptions(o, seen) && t in o.g && !Reach(VisibleSteps(o), Clashes(o), t)
    requires i < |o.g[t].fields| && o.filter(o.g[t].fields[i])
    ensures FieldMeetable(o, seen, o.g[t].fields[i])
    decreases Left(o, seen), 1
  {
    var fd := o.g[t].fields[i];
    if fd.card.Singular? && fd.kind.MessageKind? && !fd.kind.ty.WellKnownType? {
      assert VisibleStep(o, t, fd.kind.ty);
      if Reach(VisibleSteps(o), Clashes(o), fd.kind.ty) { StepBack(VisibleSteps(o), Clashes(o), t, fd.kind.ty); }
      UnclashedIsMeetable(o, seen, fd.kind.ty);
    }
  }

  // ----- validated inputs -----

  /** Where the validator succeeds, an input that is accepted and meets the upstream call's demands
      throughout exists exactly when the descriptor can be met. */
  lemma ValidatedInputIsMeetable(g: Graph, configured: int, t: TypeName)
    requires ValidGraph(g) && t in g && !Impossible(g, t)
    ensures (exists j :: Accepts(InputSchema(g, configured, t), j) && Upstream(g, InputSchema(g, configured, t), j))
      <==> Meetable(InputOptions(g, configured), NoCounts(g), t)
  {
    var o, seen := InputOptions(g, configured), NoCounts(g);
    assert ValidOptions(o, seen) && InputSchema(g, configured, t) == MessageSchema(o, seen, t);
    hide *;
    SatisfiableExactly(o, seen, t);
    if Meetable(o, seen, t) {
      var j :| Accepts(MessageSchema(o, seen, t), j);
      AcceptedInputMeetsDemands(g, configured, seen, t, j);
      assert Accepts(InputSchema(g, configured, t), j) && Upstream(g, InputSchema(g, configured, t), j);
    }
  }
}
