/** The schema generator: which JSON Schema skeleton it emits for a message type. */
module SchemaGen {
  import opened Descriptors

  /** A group encodes a oneof: one of the arms, or none of them where `orNone`. */
  datatype Group = Group(arms: seq<string>, orNone: bool)

  /** The parts of a schema this model keeps: the shape, not the value constraints. */
  datatype Schema =
    | Truncated
    | Leaf
    | Custom(ty: TypeName)
    | ArrayOf(items: Schema)
    | MapOf(values: Schema)
    | Object(ty: TypeName, props: map<string, Schema>, required: seq<string>, groups: seq<Group>)

  type Counts = map<TypeName, nat>

  /** What the walk does not change as it recurses. */
  datatype Options = Options(g: Graph, maxDepth: nat, filter: Matcher, input: bool)

  const DEFAULT_MAX_RECURSION_DEPTH: nat := 3

  function MaxDepth(configured: int): nat {
    if configured <= 0 then DEFAULT_MAX_RECURSION_DEPTH else configured
  }

  predicate IsRequired(fd: FieldDesc) {
    fd.schemaRequired || fd.behaviorRequired ||
    (fd.ruleRequired && match fd.ignore
                        case Always => false
                        case IfZeroValue => fd.presence
                        case Unspecified => true)
  }

  predicate IsInputField(fd: FieldDesc) { !fd.outputOnly }

  ghost predicate ValidOptions(o: Options, seen: Counts) {
    && ClosedGraph(o.g)
    && (forall t :: t in o.g ==> UniqueNames(o.g[t].fields))
    && forall t :: t in o.g <==> t in seen
  }

  /** The expansions left on the current path: what every expansion uses up. */
  ghost function Left(o: Options, seen: Counts): set<(TypeName, nat)>
    requires ValidOptions(o, seen)
  {
    set t, k: nat | t in o.g && 0 <= k < o.maxDepth && seen[t] <= k :: (t, k)
  }

  lemma ExpansionUsesUp(o: Options, seen: Counts, t: TypeName)
    requires ValidOptions(o, seen) && t in o.g && seen[t] < o.maxDepth
    ensures Left(o, seen[t := seen[t] + 1]) < Left(o, seen)
  {
    assert (t, seen[t]) in Left(o, seen) && (t, seen[t]) !in Left(o, seen[t := seen[t] + 1]);
  }

  /** The names of the visible fields among the first `n` that are required, in order. */
  function RequiredNames(o: Options, fields: seq<FieldDesc>, n: nat): seq<string>
    requires n <= |fields|
  {
    if n == 0 then []
    else
      var last := fields[n - 1];
      RequiredNames(o, fields, n - 1) + (if o.filter(last) && IsRequired(last) then [last.jsonName] else [])
  }

  /** The names of the visible members of oneof `k` among the first `n` fields, in order. */
  function Arms(o: Options, fields: seq<FieldDesc>, k: nat, n: nat): seq<string>
    requires n <= |fields|
  {
    if n == 0 then []
    else
      var last := fields[n - 1];
      Arms(o, fields, k, n - 1) + (if o.filter(last) && last.oneof == Some(k) then [last.jsonName] else [])
  }

  function MemberCount(fields: seq<FieldDesc>, k: nat): nat {
    if fields == [] then 0
    else (if fields[0].oneof == Some(k) then 1 else 0) + MemberCount(fields[1..], k)
  }

  /** The groups of the first `n` oneofs: none for a synthetic one or one without visible arms. */
  function Groups(o: Options, d: MessageDesc, n: nat): seq<Group>
    requires n <= |d.oneofs|
  {
    if n == 0 then []
    else Groups(o, d, n - 1) + GroupOf(o, d, n - 1)
  }

  function GroupOf(o: Options, d: MessageDesc, k: nat): seq<Group>
    requires k < |d.oneofs|
  {
    var arms := Arms(o, d.fields, k, |d.fields|);
    if d.oneofs[k].synthetic || arms == [] then []
    else [Group(arms, !d.oneofs[k].required || (!o.input && |arms| < MemberCount(d.fields, k)))]
  }

  /** messageSchema, as a function of the counts on the path. */
  function MessageSchema(o: Options, seen: Counts, t: TypeName): (s: Schema)
    requires ValidOptions(o, seen) && t in o.g
    decreases Left(o, seen), 0
  {
    if seen[t] >= o.maxDepth then Truncated
    else
      var d := o.g[t];
      ExpansionUsesUp(o, seen, t);
      Object(t,
        Properties(o, seen[t := seen[t] + 1], t, |d.fields|),
        RequiredNames(o, d.fields, |d.fields|),
        Groups(o, d, |d.oneofs|))
  }

  /** The properties of the visible fields among the first `n` of `t`. */
  function Properties(o: Options, seen: Counts, t: TypeName, n: nat): map<string, Schema>
    requires ValidOptions(o, seen) && t in o.g && n <= |o.g[t].fields|
    decreases Left(o, seen), 2
  {
    map i | 0 <= i < n && o.filter(o.g[t].fields[i]) ::
      o.g[t].fields[i].jsonName := FieldSchema(o, seen, o.g[t].fields[i])
  }

  lemma PropertyOf(o: Options, seen: Counts, t: TypeName, n: nat, k: string) returns (i: nat)
    requires ValidOptions(o, seen) && t in o.g && n <= |o.g[t].fields|
    requires k in Properties(o, seen, t, n)
    ensures i < n && o.filter(o.g[t].fields[i]) && k == o.g[t].fields[i].jsonName
    ensures Properties(o, seen, t, n)[k] == FieldSchema(o, seen, o.g[t].fields[i])
  {
    i :| 0 <= i < n && o.filter(o.g[t].fields[i]) && k == o.g[t].fields[i].jsonName;
  }

  lemma PropertyAt(o: Options, seen: Counts, t: TypeName, n: nat, i: nat)
    requires ValidOptions(o, seen) && t in o.g && i < n <= |o.g[t].fields| && o.filter(o.g[t].fields[i])
    ensures o.g[t].fields[i].jsonName in Properties(o, seen, t, n)
    ensures Properties(o, seen, t, n)[o.g[t].fields[i].jsonName] == FieldSchema(o, seen, o.g[t].fields[i])
  {
  }

  lemma PropertyStep(o: Options, seen: Counts, t: TypeName, n: nat, k: string)
    requires ValidOptions(o, seen) && t in o.g && n < |o.g[t].fields|
    ensures var fd, now, next := o.g[t].fields[n], Properties(o, seen, t, n), Properties(o, seen, t, n + 1);
      && (k in next <==> (o.filter(fd) && k == fd.jsonName) || k in now)
      && (k in now ==> k != fd.jsonName && next[k] == now[k])
  {
    if k in Properties(o, seen, t, n + 1) {
      var i := PropertyOf(o, seen, t, n + 1, k);
      if i < n { PropertyAt(o, seen, t, n, i); }
    }
    if k in Properties(o, seen, t, n) {
      var i := PropertyOf(o, seen, t, n, k);
      PropertyAt(o, seen, t, n + 1, i);
    }
    if o.filter(o.g[t].fields[n]) { PropertyAt(o, seen, t, n + 1, n); }
  }

  lemma PropertiesStep(o: Options, seen: Counts, t: TypeName, n: nat)
    requires ValidOptions(o, seen) && t in o.g && n < |o.g[t].fields|
    ensures var fd, now := o.g[t].fields[n], Properties(o, seen, t, n);
      Properties(o, seen, t, n + 1) == if o.filter(fd) then now[fd.jsonName := FieldSchema(o, seen, fd)] else now
  {
    var fd, now := o.g[t].fields[n], Properties(o, seen, t, n);
    var r := if o.filter(fd) then now[fd.jsonName := FieldSchema(o, seen, fd)] else now;
    if o.filter(fd) { PropertyAt(o, seen, t, n + 1, n); }
    forall k: string
      ensures k in Properties(o, seen, t, n + 1) <==> k in r
      ensures k in r ==> Properties(o, seen, t, n + 1)[k] == r[k]
    {
      PropertyStep(o, seen, t, n, k);
    }
    SameProperties(Properties(o, seen, t, n + 1), r);
  }

  lemma SameProperties(a: map<string, Schema>, b: map<string, Schema>)
    requires forall k :: k in a <==> k in b
    requires forall k :: k in b ==> a[k] == b[k]
    ensures a == b
  {
  }

  function FieldSchema(o: Options, seen: Counts, fd: FieldDesc): Schema
    requires ValidOptions(o, seen) && (fd.kind.MessageKind? ==> fd.kind.ty in o.g)
    decreases Left(o, seen), 1
  {
    var item := if fd.kind.ScalarKind? then Leaf
                else if fd.kind.ty.WellKnownType? then Custom(fd.kind.ty)
                else MessageSchema(o, seen, fd.kind.ty);
    match fd.card
    case Singular => item
    case Repeated => ArrayOf(item)
    case MapField => MapOf(item)
  }

  /** The schema of the items of a field. */
  function ItemOf(s: Schema): Schema {
    match s case ArrayOf(x) => x case MapOf(x) => x case _ => s
  }

  /** The expansion of a type that is not yet at the cap. */
  lemma Expanded(o: Options, seen: Counts, t: TypeName)
    requires ValidOptions(o, seen) && t in o.g && seen[t] < o.maxDepth
    ensures MessageSchema(o, seen, t) ==
      Object(t, Properties(o, seen[t := seen[t] + 1], t, |o.g[t].fields|),
        RequiredNames(o, o.g[t].fields, |o.g[t].fields|), Groups(o, o.g[t], |o.g[t].oneofs|))
  {
  }

  lemma AtCap(o: Options, seen: Counts, t: TypeName)
    requires ValidOptions(o, seen) && t in o.g && seen[t] >= o.maxDepth
    ensures MessageSchema(o, seen, t) == Truncated
  {
  }

  function NoCounts(g: Graph): Counts { map t | t in g :: 0 }

  /** The counts of the path, shared and updated by the recursive walk. */
  class SeenCounts {
    var count: Counts

    constructor (g: Graph)
      ensures count == NoCounts(g)
    {
      count := NoCounts(g);
    }

    method Increment(t: TypeName)
      requires t in count
      modifies this
      ensures count == old(count)[t := old(count)[t] + 1]
    {
      count := count[t := count[t] + 1];
    }

    method Decrement(t: TypeName)
      requires t in count && count[t] > 0
      modifies this
      ensures count == old(count)[t := old(count)[t] - 1]
    {
      count := count[t := count[t] - 1];
    }
  }

  /** The recursive walker: it computes the schema and puts the shared counts back. */
  method WalkMessage(o: Options, seen: SeenCounts, md: TypeName) returns (s: Schema)
    requires ValidOptions(o, seen.count) && md in o.g
    modifies seen
    ensures s == MessageSchema(o, old(seen.count), md)
    ensures seen.count == old(seen.count)
    decreases Left(o, seen.count), 0
  {
    hide MessageSchema, Properties, Groups, RequiredNames, Left;
    if seen.count[md] >= o.maxDepth {
      AtCap(o, seen.count, md);
      return Truncated;
    }
    ExpansionUsesUp(o, seen.count, md);
    Expanded(o, seen.count, md);
    seen.Increment(md);
    var properties, required, oneOfGroups := WalkFields(o, seen, md);
    var allOf := CollectGroups(o, o.g[md], oneOfGroups);
    s := Object(md, properties, required, allOf);
    seen.Decrement(md);
    assert seen.count == old(seen.count);
  }

  /** The arms the walk has collected for a oneof. */
  function Collected(oneOfGroups: map<nat, seq<string>>, k: nat): seq<string> {
    if k in oneOfGroups then oneOfGroups[k] else []
  }

  /** The collection holds the visible members of every real oneof among the first `n` fields. */
  ghost predicate HoldsArms(o: Options, d: MessageDesc, n: nat, oneOfGroups: map<nat, seq<string>>)
    requires n <= |d.fields|
  {
    && (forall k :: k in oneOfGroups ==> oneOfGroups[k] != [])
    && forall k :: 0 <= k < |d.oneofs| && !d.oneofs[k].synthetic ==>
      Collected(oneOfGroups, k) == Arms(o, d.fields, k, n)
  }

  /** The walker's loop over the oneofs, in declaration order. */
  method CollectGroups(o: Options, d: MessageDesc, oneOfGroups: map<nat, seq<string>>) returns (allOf: seq<Group>)
    requires HoldsArms(o, d, |d.fields|, oneOfGroups)
    ensures allOf == Groups(o, d, |d.oneofs|)
  {
    hide Arms, RequiredNames;
    allOf := [];
    for k := 0 to |d.oneofs|
      invariant allOf == Groups(o, d, k)
    {
      if !d.oneofs[k].synthetic {
        assert Collected(oneOfGroups, k) == Arms(o, d.fields, k, |d.fields|);
        if k in oneOfGroups {
          var arms := oneOfGroups[k];
          var orNone := !d.oneofs[k].required || (!o.input && |arms| < MemberCount(d.fields, k));
          allOf := allOf + [Group(arms, orNone)];
        }
      }
    }
  }

  /** Handling a visible field: a member of a real oneof joins its arms. */
  method AddArm(o: Options, d: MessageDesc, i: nat, groups: map<nat, seq<string>>)
    returns (oneOfGroups: map<nat, seq<string>>)
    requires i < |d.fields| && o.filter(d.fields[i]) && HoldsArms(o, d, i, groups)
    ensures HoldsArms(o, d, i + 1, oneOfGroups)
  {
    oneOfGroups := groups;
    var fd := d.fields[i];
    if fd.oneof.Some? && fd.oneof.value < |d.oneofs| && !d.oneofs[fd.oneof.value].synthetic {
      oneOfGroups := groups[fd.oneof.value := Collected(groups, fd.oneof.value) + [fd.jsonName]];
    }
  }

  /** The walker's loop over the fields. */
  method WalkFields(o: Options, seen: SeenCounts, md: TypeName)
    returns (properties: map<string, Schema>, required: seq<string>, oneOfGroups: map<nat, seq<string>>)
    requires ValidOptions(o, seen.count) && md in o.g
    modifies seen
    ensures properties == Properties(o, old(seen.count), md, |o.g[md].fields|)
    ensures required == RequiredNames(o, o.g[md].fields, |o.g[md].fields|)
    ensures HoldsArms(o, o.g[md], |o.g[md].fields|, oneOfGroups)
    ensures seen.count == old(seen.count)
    decreases Left(o, seen.count), 2
  {
    hide Properties, Left, HoldsArms;
    properties, required, oneOfGroups := map[], [], map[];
    NothingWalked(o, seen.count, md);
    for i := 0 to |o.g[md].fields|
      invariant seen.count == old(seen.count)
      invariant properties == Properties(o, old(seen.count), md, i)
      invariant required == RequiredNames(o, o.g[md].fields, i)
      invariant HoldsArms(o, o.g[md], i, oneOfGroups)
    {
      var fd := o.g[md].fields[i];
      PropertiesStep(o, seen.count, md, i);
      if o.filter(fd) {
        var field := WalkField(o, seen, fd);
        properties := properties[fd.jsonName := field];
        if IsRequired(fd) {
          required := required + [fd.jsonName];
        }
        oneOfGroups := AddArm(o, o.g[md], i, oneOfGroups);
      } else {
        HiddenArm(o, o.g[md], i, oneOfGroups);
      }
    }
  }

  lemma NothingWalked(o: Options, seen: Counts, t: TypeName)
    requires ValidOptions(o, seen) && t in o.g
    ensures Properties(o, seen, t, 0) == map[] && HoldsArms(o, o.g[t], 0, map[])
  {
  }

  lemma HiddenArm(o: Options, d: MessageDesc, i: nat, groups: map<nat, seq<string>>)
    requires i < |d.fields| && !o.filter(d.fields[i]) && HoldsArms(o, d, i, groups)
    ensures HoldsArms(o, d, i + 1, groups)
  {
  }

  method WalkField(o: Options, seen: SeenCounts, fd: FieldDesc) returns (s: Schema)
    requires ValidOptions(o, seen.count) && (fd.kind.MessageKind? ==> fd.kind.ty in o.g)
    modifies seen
    ensures s == FieldSchema(o, old(seen.count), fd)
    ensures seen.count == old(seen.count)
    decreases Left(o, seen.count), 1
  {
    if fd.kind.ScalarKind? {
      s := Leaf;
    } else if fd.kind.ty.WellKnownType? {
      s := Custom(fd.kind.ty);
    } else {
      s := WalkMessage(o, seen, fd.kind.ty);
    }
    match fd.card
    case Singular =>
    case Repeated => s := ArrayOf(s);
    case MapField => s := MapOf(s);
  }

  function InputOptions(g: Graph, configured: int): Options {
    Options(g, MaxDepth(configured), (fd: FieldDesc) => !InputMask(fd), true)
  }

  function OutputOptions(g: Graph, configured: int, rpc: string): Options {
    Options(g, MaxDepth(configured), (fd: FieldDesc) => !IsSchemaExcluded(fd) && !IsExcludedFromOutput(fd, rpc), false)
  }

  function InputSchema(g: Graph, configured: int, t: TypeName): Schema
    requires ValidGraph(g) && t in g
  {
    MessageSchema(InputOptions(g, configured), NoCounts(g), t)
  }

  function OutputSchema(g: Graph, configured: int, rpc: string, t: TypeName): Schema
    requires ValidGraph(g) && t in g
  {
    MessageSchema(OutputOptions(g, configured, rpc), NoCounts(g), t)
  }

  /** On every path through `s`, at most `n` objects of type `t`. */
  ghost predicate AtMost(s: Schema, t: TypeName, n: nat)
    decreases s
  {
    match s
    case ArrayOf(x) => AtMost(x, t, n)
    case MapOf(x) => AtMost(x, t, n)
    case Object(u, props, _, _) =>
      && (u == t ==> n > 0)
      && forall k :: k in props ==> AtMost(props[k], t, if u == t then n - 1 else n)
    case _ => true
  }

  lemma ObjectAtMost(s: Schema, t: TypeName, n: nat)
    requires s.Object? && (s.ty == t ==> n > 0)
    requires AllAtMost(s.props, t, if s.ty == t then n - 1 else n)
    ensures AtMost(s, t, n)
  {
  }

  ghost predicate AllAtMost(props: map<string, Schema>, t: TypeName, n: nat) {
    forall k :: k in props ==> AtMost(props[k], t, n)
  }

  lemma TruncatedAtMost(t: TypeName, n: nat)
    ensures AtMost(Truncated, t, n)
  {
  }

  /** Each type is expanded at most `maxDepth` times on any path, whatever its cycles. */
  lemma {:induction false} ExpansionsBounded(o: Options, seen: Counts, u: TypeName, t: TypeName)
    requires ValidOptions(o, seen) && u in o.g && t in o.g && seen[t] <= o.maxDepth
    ensures AtMost(MessageSchema(o, seen, u), t, o.maxDepth - seen[t])
    decreases Left(o, seen), 0
  {
    hide MessageSchema, Properties, Groups, RequiredNames, Left, AtMost, AllAtMost;
    if seen[u] >= o.maxDepth {
      AtCap(o, seen, u);
      assert AtMost(Truncated, t, o.maxDepth - seen[t]) by { TruncatedAtMost(t, o.maxDepth - seen[t]); }
    } else {
      ExpansionUsesUp(o, seen, u);
      Expanded(o, seen, u);
      PropertiesBounded(o, seen[u := seen[u] + 1], u, t);
      ObjectAtMost(MessageSchema(o, seen, u), t, o.maxDepth - seen[t]);
    }
  }

  lemma {:induction false} PropertiesBounded(o: Options, seen: Counts, u: TypeName, t: TypeName)
    requires ValidOptions(o, seen) && u in o.g && t in o.g && seen[t] <= o.maxDepth
    ensures AllAtMost(Properties(o, seen, u, |o.g[u].fields|), t, o.maxDepth - seen[t])
    decreases Left(o, seen), 2
  {
    forall k | k in Properties(o, seen, u, |o.g[u].fields|)
      ensures AtMost(Properties(o, seen, u, |o.g[u].fields|)[k], t, o.maxDepth - seen[t])
    {
      var i := PropertyOf(o, seen, u, |o.g[u].fields|, k);
      FieldBounded(o, seen, o.g[u].fields[i], t);
    }
  }

  lemma {:induction false} FieldBounded(o: Options, seen: Counts, fd: FieldDesc, t: TypeName)
    requires ValidOptions(o, seen) && (fd.kind.MessageKind? ==> fd.kind.ty in o.g)
    requires t in o.g && seen[t] <= o.maxDepth
    ensures AtMost(FieldSchema(o, seen, fd), t, o.maxDepth - seen[t])
    decreases Left(o, seen), 1
  {
    if fd.kind.MessageKind? && !fd.kind.ty.WellKnownType? { ExpansionsBounded(o, seen, fd.kind.ty, t); }
  }
}
