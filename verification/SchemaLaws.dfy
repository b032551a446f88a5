/** What the emitted schemas accept, under JSON Schema 2020-12. */
module SchemaLaws {
  import opened Descriptors
  import opened JsonValue
  import opened SchemaGen

  // ----- oneof groups -----

  /** The branches of a group's `oneOf`. */
  datatype Branch = Requires(arm: string) | NotAnyOf(arms: seq<string>)

  predicate BranchValid(b: Branch, keys: set<string>) {
    match b
    case Requires(arm) => arm in keys
    case NotAnyOf(arms) => !exists i :: 0 <= i < |arms| && arms[i] in keys
  }

  function BranchesOf(arms: seq<string>): seq<Branch> {
    seq(|arms|, i requires 0 <= i < |arms| => Requires(arms[i]))
  }

  function Branches(g: Group): seq<Branch> {
    BranchesOf(g.arms) + if g.orNone then [NotAnyOf(g.arms)] else []
  }

  function CountValid(bs: seq<Branch>, keys: set<string>): nat {
    if bs == [] then 0
    else CountValid(bs[..|bs| - 1], keys) + if BranchValid(bs[|bs| - 1], keys) then 1 else 0
  }

  /** `oneOf`: exactly one branch is valid. */
  predicate AcceptsGroup(g: Group, keys: set<string>) {
    CountValid(Branches(g), keys) == 1
  }

  ghost predicate DistinctArms(arms: seq<string>) {
    forall i, j :: 0 <= i < j < |arms| ==> arms[i] != arms[j]
  }

  /** The arms among `arms` that an object has. */
  function Present(arms: seq<string>, keys: set<string>): set<string> {
    set i | 0 <= i < |arms| && arms[i] in keys :: arms[i]
  }

  lemma {:induction false} CountIsPresent(arms: seq<string>, keys: set<string>)
    requires DistinctArms(arms)
    ensures CountValid(BranchesOf(arms), keys) == |Present(arms, keys)|
    decreases |arms|
  {
    if arms != [] {
      var n := |arms| - 1;
      var bs, last := BranchesOf(arms), arms[n];
      assert bs[..n] == BranchesOf(arms[..n]) && bs[n] == Requires(last);
      CountIsPresent(arms[..n], keys);
      OneMorePresent(arms, keys);
      hide Present, BranchesOf;
    }
  }

  lemma OneMorePresent(arms: seq<string>, keys: set<string>)
    requires DistinctArms(arms) && arms != []
    ensures var init, last := arms[..|arms| - 1], arms[|arms| - 1];
      |Present(arms, keys)| == |Present(init, keys)| + if last in keys then 1 else 0
  {
    var init, last := arms[..|arms| - 1], arms[|arms| - 1];
    OneMoreSplit(arms, keys);
    hide Present;
    var here := if last in keys then {last} else {};
    assert Present(init, keys) !! here;
  }

  lemma PresentIs(arms: seq<string>, keys: set<string>, a: string)
    ensures a in Present(arms, keys) <==> a in arms && a in keys
  {
  }

  lemma OneMoreSplit(arms: seq<string>, keys: set<string>)
    requires DistinctArms(arms) && arms != []
    ensures var init, last := arms[..|arms| - 1], arms[|arms| - 1];
      && last !in Present(init, keys)
      && Present(arms, keys) == Present(init, keys) + if last in keys then {last} else {}
  {
    hide Present;
    var init, last := arms[..|arms| - 1], arms[|arms| - 1];
    assert arms == init + [last];
    PresentIs(init, keys, last);
    forall a ensures a in Present(arms, keys) <==> a in Present(init, keys) + if last in keys then {last} else {} {
      PresentIs(arms, keys, a);
      PresentIs(init, keys, a);
    }
  }

  /** The group accepts an object exactly when it has one arm, or none where that is allowed. */
  lemma GroupExact(g: Group, keys: set<string>)
    requires DistinctArms(g.arms)
    ensures AcceptsGroup(g, keys) <==>
      |Present(g.arms, keys)| == 1 || (g.orNone && Present(g.arms, keys) == {})
  {
    var arms := BranchesOf(g.arms);
    CountIsPresent(g.arms, keys);
    if g.orNone {
      var bs := Branches(g);
      assert bs[..|bs| - 1] == arms;
      assert BranchValid(bs[|bs| - 1], keys) <==> Present(g.arms, keys) == {} by {
        if exists i :: 0 <= i < |g.arms| && g.arms[i] in keys {
          var i :| 0 <= i < |g.arms| && g.arms[i] in keys;
          assert g.arms[i] in Present(g.arms, keys);
        }
      }
    } else {
      assert Branches(g) == arms;
    }
  }

  // ----- acceptance -----

  /** The JSON type that the schema of a type with a shape of its own asks for. */
  predicate CustomAccepts(t: WellKnown, j: Json) {
    match t
    case Any => j.JNull? || (j.JObj? && "@type" in j.members && j.members["@type"].JLeaf?)
    case Struct => j.JObj?
    case Empty => j.JObj?
    case Value => true
    case ListValue => j.JArr?
    case FieldMask => j.JLeaf?
    case _ => j.JNull? || j.JLeaf?
  }

  ghost predicate Accepts(s: Schema, j: Json)
    decreases s
  {
    match s
    case Truncated => j.JObj?
    case Leaf => true
    case Custom(t) => t.WellKnownType? ==> CustomAccepts(t.wkt, j)
    case ArrayOf(items) => j.JArr? && forall i :: 0 <= i < |j.items| ==> Accepts(items, j.items[i])
    case MapOf(values) => j.JObj? && forall k :: k in j.members ==> Accepts(values, j.members[k])
    case Object(_, props, required, groups) =>
      && j.JObj?
      && (forall i :: 0 <= i < |required| ==> required[i] in j.members)
      && (forall k :: k in props && k in j.members ==> Accepts(props[k], j.members[k]))
      && (forall i :: 0 <= i < |groups| ==> AcceptsGroup(groups[i], j.members.Keys))
  }

  function Deeper(o: Options): Options { o.(maxDepth := o.maxDepth + 1) }

  lemma SameParts(o: Options, t: TypeName)
    requires t in o.g
    ensures RequiredNames(Deeper(o), o.g[t].fields, |o.g[t].fields|) == RequiredNames(o, o.g[t].fields, |o.g[t].fields|)
    ensures Groups(Deeper(o), o.g[t], |o.g[t].oneofs|) == Groups(o, o.g[t], |o.g[t].oneofs|)
  {
    SameRequired(o, o.g[t].fields, |o.g[t].fields|);
    SameGroups(o, o.g[t], |o.g[t].oneofs|);
  }

  lemma {:induction false} SameRequired(o: Options, fields: seq<FieldDesc>, n: nat)
    requires n <= |fields|
    ensures RequiredNames(Deeper(o), fields, n) == RequiredNames(o, fields, n)
  {
    if n > 0 { SameRequired(o, fields, n - 1); }
  }

  lemma {:induction false} SameArms(o: Options, fields: seq<FieldDesc>, k: nat, n: nat)
    requires n <= |fields|
    ensures Arms(Deeper(o), fields, k, n) == Arms(o, fields, k, n)
  {
    if n > 0 { SameArms(o, fields, k, n - 1); }
  }

  lemma SameGroup(o: Options, d: MessageDesc, k: nat)
    requires k < |d.oneofs|
    ensures GroupOf(Deeper(o), d, k) == GroupOf(o, d, k)
  {
    SameArms(o, d.fields, k, |d.fields|);
  }

  lemma {:induction false} SameGroups(o: Options, d: MessageDesc, n: nat)
    requires n <= |d.oneofs|
    ensures Groups(Deeper(o), d, n) == Groups(o, d, n)
  {
    if n > 0 {
      SameGroups(o, d, n - 1);
      SameGroup(o, d, n - 1);
    }
  }

  /** Raising the cap only tightens: what the deeper schema accepts, the shallower accepts. */
  lemma {:induction false} CapTightens(o: Options, seen: Counts, t: TypeName, j: Json)
    requires ValidOptions(o, seen) && t in o.g
    requires Accepts(MessageSchema(Deeper(o), seen, t), j)
    ensures Accepts(MessageSchema(o, seen, t), j)
    decreases Left(o, seen), 0
  {
    if seen[t] < o.maxDepth {
      Expanded(o, seen, t);
      Expanded(Deeper(o), seen, t);
      ExpansionUsesUp(o, seen, t);
      SameParts(o, t);
      var n := |o.g[t].fields|;
      forall k | k in Properties(o, seen[t := seen[t] + 1], t, n) && k in j.members
        ensures Accepts(Properties(o, seen[t := seen[t] + 1], t, n)[k], j.members[k])
      {
        var i := PropertyOf(o, seen[t := seen[t] + 1], t, n, k);
        PropertyAt(Deeper(o), seen[t := seen[t] + 1], t, n, i);
        FieldTightens(o, seen[t := seen[t] + 1], o.g[t].fields[i], j.members[k]);
      }
    }
  }

  lemma {:induction false} ItemTightens(o: Options, seen: Counts, t: TypeName, j: Json)
    requires ValidOptions(o, seen) && t in o.g
    requires Accepts(if t.WellKnownType? then Custom(t) else MessageSchema(Deeper(o), seen, t), j)
    ensures Accepts(if t.WellKnownType? then Custom(t) else MessageSchema(o, seen, t), j)
    decreases Left(o, seen), 1
  {
    if !t.WellKnownType? { CapTightens(o, seen, t, j); }
  }

  lemma {:induction false} FieldTightens(o: Options, seen: Counts, fd: FieldDesc, j: Json)
    requires ValidOptions(o, seen) && (fd.kind.MessageKind? ==> fd.kind.ty in o.g)
    requires Accepts(FieldSchema(Deeper(o), seen, fd), j)
    ensures Accepts(FieldSchema(o, seen, fd), j)
    decreases Left(o, seen), 2
  {
    if fd.kind.MessageKind? {
      match fd.card
      case Singular => ItemTightens(o, seen, fd.kind.ty, j);
      case Repeated => forall i | 0 <= i < |j.items| { ItemTightens(o, seen, fd.kind.ty, j.items[i]); }
      case MapField => forall k | k in j.members { ItemTightens(o, seen, fd.kind.ty, j.members[k]); }
    }
  }
}
