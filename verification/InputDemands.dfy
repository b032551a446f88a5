/** Masking must not make an input's demands impossible: the generator's validator, and what an
    accepted input gives the upstream call. */
module InputDemands {
  import opened Descriptors
  import opened Paths
  import opened JsonValue
  import opened SchemaGen
  import opened SchemaLaws
  import opened Satisfiable

  /** An excluded input field the upstream call could never do without. */
  predicate MaskedDemand(fd: FieldDesc) {
    IsInputField(fd) && fd.exclude && (IsRequired(fd) || ZeroValueViolation(fd))
  }

  /** The cleared field is sure to violate a rule: it has no presence, and zero is not ignored. */
  predicate ZeroValueViolation(fd: FieldDesc) {
    !fd.presence && fd.ignore.Unspecified? && fd.zeroViolates
  }

  /** A required oneof without a visible member. */
  predicate MaskedOneof(d: MessageDesc, k: nat)
    requires k < |d.oneofs|
  {
    !d.oneofs[k].synthetic && d.oneofs[k].required &&
    forall i :: 0 <= i < |d.fields| && d.fields[i].oneof == Some(k) ==> InputMask(d.fields[i])
  }

  ghost predicate BadInput(g: Graph, t: TypeName) {
    && t in g
    && ((exists k :: 0 <= k < |g[t].oneofs| && MaskedOneof(g[t], k))
        || (exists i :: 0 <= i < |g[t].fields| && MaskedDemand(g[t].fields[i])))
  }

  ghost predicate InputStep(g: Graph, a: TypeName, b: TypeName) {
    a in g && exists i :: 0 <= i < |g[a].fields| && !InputMask(g[a].fields[i]) && g[a].fields[i].kind == MessageKind(b)
  }

  ghost function InputSteps(g: Graph): Edges { (a, b) => InputStep(g, a, b) }

  ghost function BadInputs(g: Graph): Goal { t => BadInput(g, t) }

  /** Input clients can reach from `t` makes demands that masking has made impossible. */
  ghost predicate Impossible(g: Graph, t: TypeName) { Reach(InputSteps(g), BadInputs(g), t) }

  method CountVisible(d: MessageDesc, k: nat) returns (visible: nat)
    requires k < |d.oneofs|
    ensures visible == 0 <==> forall i :: 0 <= i < |d.fields| && d.fields[i].oneof == Some(k) ==> InputMask(d.fields[i])
  {
    visible := 0;
    for j := 0 to |d.fields|
      invariant visible == 0 <==> forall i :: 0 <= i < j && d.fields[i].oneof == Some(k) ==> InputMask(d.fields[i])
    {
      if d.fields[j].oneof == Some(k) && IsInputField(d.fields[j]) && !d.fields[j].exclude {
        visible := visible + 1;
      }
    }
  }

  /** The recursive validator; `ok` is false where the generator reports an error. */
  method ValidateInputExclusions(g: Graph, md: TypeName, seen: SeenSet) returns (ok: bool)
    requires ClosedGraph(g) && md in g && seen.names <= g.Keys
    modifies seen
    ensures old(seen.names) <= seen.names <= g.Keys
    ensures !ok ==> Impossible(g, md)
    ensures ok ==> md in seen.names
    ensures ok ==> forall t :: t in seen.names - old(seen.names) ==>
      Explored(InputSteps(g), BadInputs(g), t, seen.names)
    decreases g.Keys - seen.names
  {
    if md in seen.names {
      return true;
    }
    seen.names := seen.names + {md};
    var d := g[md];
    for k := 0 to |d.oneofs|
      invariant seen.names == old(seen.names) + {md}
      invariant forall n :: 0 <= n < k ==> !MaskedOneof(d, n)
    {
      if !d.oneofs[k].synthetic && d.oneofs[k].required {
        var visible := CountVisible(d, k);
        if visible == 0 {
          assert MaskedOneof(g[md], k);
          GoalReaches(InputSteps(g), BadInputs(g), md);
          return false;
        }
      }
    }
    for i := 0 to |d.fields|
      invariant old(seen.names) + {md} <= seen.names <= g.Keys
      invariant forall n :: 0 <= n < i ==> !MaskedDemand(d.fields[n])
      invariant forall n :: 0 <= n < i && !InputMask(d.fields[n]) && d.fields[n].kind.MessageKind? ==>
        d.fields[n].kind.ty in seen.names
      invariant forall t :: t in seen.names - old(seen.names) - {md} ==>
        Explored(InputSteps(g), BadInputs(g), t, seen.names)
    {
      var fd := d.fields[i];
      if IsInputField(fd) {
        if fd.exclude {
          if IsRequired(fd) || ZeroValueViolation(fd) {
            assert MaskedDemand(g[md].fields[i]);
            GoalReaches(InputSteps(g), BadInputs(g), md);
            return false;
          }
        } else if fd.kind.MessageKind? {
          ghost var before := seen.names;
          ok := ValidateInputExclusions(g, fd.kind.ty, seen);
          if !ok {
            assert InputStep(g, md, fd.kind.ty);
            StepBack(InputSteps(g), BadInputs(g), md, fd.kind.ty);
            return false;
          }
          forall t | t in seen.names - old(seen.names) - {md}
            ensures Explored(InputSteps(g), BadInputs(g), t, seen.names)
          {
            assert t in before ==> Explored(InputSteps(g), BadInputs(g), t, before);
          }
        }
      }
    }
    assert Explored(InputSteps(g), BadInputs(g), md, seen.names);
    return true;
  }

  /** The validator errs exactly on types whose input makes an impossible demand. */
  method ValidateInput(g: Graph, md: TypeName) returns (ok: bool)
    requires ClosedGraph(g) && md in g
    ensures ok <==> !Impossible(g, md)
  {
    var seen := new SeenSet();
    ok := ValidateInputExclusions(g, md, seen);
    if ok { ExploredSetIsClosed(InputSteps(g), BadInputs(g), seen.names, md); }
  }

  /** Member `i` of oneof `k` is one clients can set, and the object sets it. */
  predicate SetMember(d: MessageDesc, k: nat, members: map<string, Json>, i: nat)
    requires i < |d.fields|
  {
    d.fields[i].oneof == Some(k) && !InputMask(d.fields[i]) && d.fields[i].jsonName in members
  }

  /** What the upstream call demands of one message: its required input fields are set, exactly one
      member of each required oneof is, and no excluded field breaks a rule by being zero. */
  ghost predicate DemandsMet(d: MessageDesc, members: map<string, Json>) {
    && (forall i :: 0 <= i < |d.fields| && IsInputField(d.fields[i]) && IsRequired(d.fields[i]) ==>
      d.fields[i].jsonName in members)
    && (forall i :: 0 <= i < |d.fields| && IsInputField(d.fields[i]) && d.fields[i].exclude ==>
      !ZeroValueViolation(d.fields[i]))
    && (forall k :: 0 <= k < |d.oneofs| && !d.oneofs[k].synthetic && d.oneofs[k].required ==> OneSet(d, k, members))
  }

  ghost predicate OneSet(d: MessageDesc, k: nat, members: map<string, Json>) {
    exists i :: 0 <= i < |d.fields| && SetMember(d, k, members, i) &&
      forall j :: 0 <= j < |d.fields| && SetMember(d, k, members, j) ==> j == i
  }

  ghost predicate Upstream(g: Graph, s: Schema, j: Json)
    decreases s
  {
    match s
    case ArrayOf(x) => j.JArr? ==> forall i :: 0 <= i < |j.items| ==> Upstream(g, x, j.items[i])
    case MapOf(x) => j.JObj? ==> forall k :: k in j.members ==> Upstream(g, x, j.members[k])
    case Object(t, props, _, _) =>
      && t in g && j.JObj? && DemandsMet(g[t], j.members)
      && forall k :: k in props && k in j.members ==> Upstream(g, props[k], j.members[k])
    case _ => true
  }

  lemma {:induction false} GroupEmitted(o: Options, d: MessageDesc, n: nat, k: nat) returns (i: nat)
    requires k < n <= |d.oneofs| && !d.oneofs[k].synthetic && Arms(o, d.fields, k, |d.fields|) != []
    ensures i < |Groups(o, d, n)| && [Groups(o, d, n)[i]] == GroupOf(o, d, k)
  {
    hide Arms, MemberCount;
    if k == n - 1 {
      i := |Groups(o, d, n - 1)|;
    } else {
      i := GroupEmitted(o, d, n - 1, k);
    }
  }

  lemma OneofDemand(g: Graph, configured: int, t: TypeName, k: nat, members: map<string, Json>)
    requires t in g && UniqueNames(g[t].fields) && k < |g[t].oneofs|
    requires !g[t].oneofs[k].synthetic && g[t].oneofs[k].required && !MaskedOneof(g[t], k)
    requires var o := InputOptions(g, configured);
      forall i :: 0 <= i < |Groups(o, g[t], |g[t].oneofs|)| ==>
        AcceptsGroup(Groups(o, g[t], |g[t].oneofs|)[i], members.Keys)
    ensures OneSet(g[t], k, members)
  {
    var o, d := InputOptions(g, configured), g[t];
    var arms := Arms(o, d.fields, k, |d.fields|);
    ArmsAre(o, d.fields, k, |d.fields|);
    var v :| 0 <= v < |d.fields| && d.fields[v].oneof == Some(k) && !InputMask(d.fields[v]);
    assert d.fields[v].jsonName in arms;
    var i := GroupEmitted(o, d, |d.oneofs|, k);
    GroupExact(Group(arms, false), members.Keys);
    OneArmOneMember(o, d, k, members);
  }

  lemma OneArmOneMember(o: Options, d: MessageDesc, k: nat, members: map<string, Json>)
    requires UniqueNames(d.fields) && forall fd :: o.filter(fd) <==> !InputMask(fd)
    requires |Present(Arms(o, d.fields, k, |d.fields|), members.Keys)| == 1
    ensures OneSet(d, k, members)
  {
    var arms, n := Arms(o, d.fields, k, |d.fields|), |d.fields|;
    ArmsAre(o, d.fields, k, n);
    OneElement(Present(arms, members.Keys));
    var a :| a in Present(arms, members.Keys);
    assert a in arms;
    var f :| 0 <= f < n && o.filter(d.fields[f]) && d.fields[f].oneof == Some(k) && d.fields[f].jsonName == a;
    forall j | 0 <= j < n && SetMember(d, k, members, j) ensures j == f {
      assert d.fields[j].jsonName in arms;
      assert d.fields[j].jsonName in Present(arms, members.Keys);
    }
    assert SetMember(d, k, members, f);
  }

  lemma OneElement(s: set<string>)
    requires |s| == 1
    ensures s != {} && forall a, b :: a in s && b in s ==> a == b
  {
    var x :| x in s;
    assert |s - {x}| == 0;
    assert s == {x} + (s - {x}) == {x};
  }

  /** What a validated input schema accepts meets the demands of the upstream call at every
      expanded message: hiding fields has not hidden anything the call requires. */
  lemma {:induction false} AcceptedInputMeetsDemands(g: Graph, configured: int, seen: Counts, t: TypeName, j: Json)
    requires ValidOptions(InputOptions(g, configured), seen) && t in g && !Impossible(g, t)
    requires Accepts(MessageSchema(InputOptions(g, configured), seen, t), j)
    ensures Upstream(g, MessageSchema(InputOptions(g, configured), seen, t), j)
    decreases Left(InputOptions(g, configured), seen), 0
  {
    var o := InputOptions(g, configured);
    if seen[t] < o.maxDepth {
      Expanded(o, seen, t);
      ExpansionUsesUp(o, seen, t);
      var s, d := MessageSchema(o, seen, t), g[t];
      if BadInput(g, t) { GoalReaches(InputSteps(g), BadInputs(g), t); }
      RequiredAre(o, d.fields, |d.fields|);
      forall i | 0 <= i < |d.fields| && IsInputField(d.fields[i]) && IsRequired(d.fields[i])
        ensures d.fields[i].jsonName in j.members
      {
        assert !MaskedDemand(d.fields[i]);
        assert d.fields[i].jsonName in s.required;
      }
      forall k | 0 <= k < |d.oneofs| && !d.oneofs[k].synthetic && d.oneofs[k].required ensures OneSet(d, k, j.members) {
        OneofDemand(g, configured, t, k, j.members);
      }
      forall k | k in s.props && k in j.members ensures Upstream(g, s.props[k], j.members[k]) {
        var i := PropertyOf(o, seen[t := seen[t] + 1], t, |d.fields|, k);
        FieldMeetsDemands(g, configured, seen[t := seen[t] + 1], t, d.fields[i], j.members[k]);
      }
    }
  }

  lemma {:induction false} FieldMeetsDemands(
    g: Graph, configured: int, seen: Counts, t: TypeName, fd: FieldDesc, j: Json)
    requires ValidOptions(InputOptions(g, configured), seen) && t in g && !Impossible(g, t)
    requires fd in g[t].fields && !InputMask(fd)
    requires Accepts(FieldSchema(InputOptions(g, configured), seen, fd), j)
    ensures Upstream(g, FieldSchema(InputOptions(g, configured), seen, fd), j)
    decreases Left(InputOptions(g, configured), seen), 1
  {
    if fd.kind.MessageKind? && !fd.kind.ty.WellKnownType? {
      assert InputStep(g, t, fd.kind.ty);
      if Impossible(g, fd.kind.ty) { StepBack(InputSteps(g), BadInputs(g), t, fd.kind.ty); }
      match fd.card
      case Singular => AcceptedInputMeetsDemands(g, configured, seen, fd.kind.ty, j);
      case Repeated =>
        forall i | 0 <= i < |j.items| { AcceptedInputMeetsDemands(g, configured, seen, fd.kind.ty, j.items[i]); }
      case MapField =>
        forall k | k in j.members { AcceptedInputMeetsDemands(g, configured, seen, fd.kind.ty, j.members[k]); }
    }
  }

  /** The validator is not too strict: where it objects to a message, no object without hidden
      fields meets the demands. */
  lemma BadInputIsUnmeetable(g: Graph, t: TypeName, members: map<string, Json>)
    requires t in g && BadInput(g, t)
    requires forall i :: 0 <= i < |g[t].fields| && InputMask(g[t].fields[i]) ==> g[t].fields[i].jsonName !in members
    ensures !DemandsMet(g[t], members)
  {
    var d := g[t];
    if k :| 0 <= k < |d.oneofs| && MaskedOneof(d, k) {
      assert !OneSet(d, k, members);
    } else {
      var i :| 0 <= i < |d.fields| && MaskedDemand(d.fields[i]);
      assert InputMask(d.fields[i]);
    }
  }
}
