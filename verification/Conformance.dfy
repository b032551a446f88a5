/** Which JSON values an emitted schema accepts, said of the descriptors alone. */
module Conformance {
  import opened Descriptors
  import opened JsonValue
  import opened SchemaGen
  import opened SchemaLaws
  import opened SchemaShape

  /** A visible field has to be there: by the schema option, by its field behaviour, or by a rule
      that an unset field fails. With IGNORE_IF_ZERO_VALUE that is so only where unset differs from zero. */
  predicate Demanded(fd: FieldDesc) {
    || fd.schemaRequired
    || fd.behaviorRequired
    || (fd.ruleRequired && fd.ignore != Always && (fd.ignore == IfZeroValue ==> fd.presence))
  }

  lemma RequiredIsDemanded(fd: FieldDesc)
    ensures IsRequired(fd) <==> Demanded(fd)
  {
  }

  /** `j` is an object and, unless its type was met as often as the cap on the way here, has every
      visible field that is demanded, a value that conforms under the JSON name of every visible
      field it has, and what every oneof allows. */
  ghost predicate Conforms(o: Options, seen: Counts, t: TypeName, j: Json)
    requires ValidOptions(o, seen) && t in o.g
    decreases Left(o, seen), 0
  {
    && j.JObj?
    && (seen[t] >= o.maxDepth ||
        (ExpansionUsesUp(o, seen, t);
         && FieldsConform(o, seen[t := seen[t] + 1], t, j.members)
         && AllOneofsMet(o, o.g[t], j.members.Keys)))
  }

  ghost predicate FieldsConform(o: Options, seen: Counts, t: TypeName, members: map<string, Json>)
    requires ValidOptions(o, seen) && t in o.g
    decreases Left(o, seen), 3
  {
    forall i :: 0 <= i < |o.g[t].fields| && o.filter(o.g[t].fields[i]) ==>
      var fd := o.g[t].fields[i];
      && (Demanded(fd) ==> fd.jsonName in members)
      && (fd.jsonName in members ==> FieldConforms(o, seen, fd, members[fd.jsonName]))
  }

  /** A repeated field is an array and a map an object, of conforming items. */
  ghost predicate FieldConforms(o: Options, seen: Counts, fd: FieldDesc, j: Json)
    requires ValidOptions(o, seen) && (fd.kind.MessageKind? ==> fd.kind.ty in o.g)
    decreases Left(o, seen), 2
  {
    match fd.card
    case Singular => ItemConforms(o, seen, fd.kind, j)
    case Repeated => j.JArr? && forall i :: 0 <= i < |j.items| ==> ItemConforms(o, seen, fd.kind, j.items[i])
    case MapField => j.JObj? && forall k :: k in j.members ==> ItemConforms(o, seen, fd.kind, j.members[k])
  }

  ghost predicate ItemConforms(o: Options, seen: Counts, kind: Kind, j: Json)
    requires ValidOptions(o, seen) && (kind.MessageKind? ==> kind.ty in o.g)
    decreases Left(o, seen), 1
  {
    match kind
    case ScalarKind => true
    case MessageKind(t) => if t.WellKnownType? then CustomAccepts(t.wkt, j) else Conforms(o, seen, t, j)
  }

  /** The emitted schema of a message accepts exactly the values that conform to its descriptor. */
  lemma {:induction false} AcceptedConforms(o: Options, seen: Counts, t: TypeName, j: Json)
    requires ValidOptions(o, seen) && t in o.g
    ensures Accepts(MessageSchema(o, seen, t), j) <==> Conforms(o, seen, t, j)
    decreases Left(o, seen), 0
  {
    if seen[t] >= o.maxDepth {
      AtCap(o, seen, t);
    } else {
      hide Accepts, MessageSchema, FieldSchema, AllOneofsMet, FieldConforms, IsRequired, Demanded, Left;
      ExpansionUsesUp(o, seen, t);
      AcceptedExactly(o, seen, t, j);
      if j.JObj? { FieldsAccepted(o, seen[t := seen[t] + 1], t, j.members); }
    }
  }

  lemma {:induction false} FieldsAccepted(o: Options, seen: Counts, t: TypeName, members: map<string, Json>)
    requires ValidOptions(o, seen) && t in o.g
    ensures AllFieldsMet(o, seen, t, members) <==> FieldsConform(o, seen, t, members)
    decreases Left(o, seen), 3
  {
    hide Accepts, FieldSchema, FieldConforms, IsRequired, Demanded, Left;
    forall i | 0 <= i < |o.g[t].fields|
      ensures var fd := o.g[t].fields[i];
        FieldMet(o, seen, fd, members) <==>
          (o.filter(fd) ==>
            && (Demanded(fd) ==> fd.jsonName in members)
            && (fd.jsonName in members ==> FieldConforms(o, seen, fd, members[fd.jsonName])))
    {
      var fd := o.g[t].fields[i];
      RequiredIsDemanded(fd);
      if fd.jsonName in members { FieldAccepted(o, seen, fd, members[fd.jsonName]); }
    }
  }

  /** So does the schema of a field, whatever its cardinality and kind. */
  lemma {:induction false} FieldAccepted(o: Options, seen: Counts, fd: FieldDesc, j: Json)
    requires ValidOptions(o, seen) && (fd.kind.MessageKind? ==> fd.kind.ty in o.g)
    ensures Accepts(FieldSchema(o, seen, fd), j) <==> FieldConforms(o, seen, fd, j)
    decreases Left(o, seen), 2
  {
    hide MessageSchema, Conforms, Left;
    match fd.card
    case Singular => ItemAccepted(o, seen, fd.kind, j);
    case Repeated => if j.JArr? { forall i | 0 <= i < |j.items| { ItemAccepted(o, seen, fd.kind, j.items[i]); } }
    case MapField => if j.JObj? { forall k | k in j.members { ItemAccepted(o, seen, fd.kind, j.members[k]); } }
  }

  lemma {:induction false} ItemAccepted(o: Options, seen: Counts, kind: Kind, j: Json)
    requires ValidOptions(o, seen) && (kind.MessageKind? ==> kind.ty in o.g)
    ensures ItemConforms(o, seen, kind, j) <==>
      Accepts(if kind.ScalarKind? then Leaf
              else if kind.ty.WellKnownType? then Custom(kind.ty)
              else MessageSchema(o, seen, kind.ty), j)
    decreases Left(o, seen), 1
  {
    hide MessageSchema, Conforms, Left;
    if kind.MessageKind? && !kind.ty.WellKnownType? { AcceptedConforms(o, seen, kind.ty, j); }
  }

  // ----- the cap -----

  /** A path that goes round and round through one field of `t`. */
  function Round(fd: FieldDesc, n: nat): seq<FieldDesc> { seq(n, _ => fd) }

  lemma {:induction false} RoundIsVisible(o: Options, t: TypeName, fd: FieldDesc, n: nat)
    requires ClosedGraph(o.g) && t in o.g && fd in o.g[t].fields && o.filter(fd)
    requires fd.kind == MessageKind(t) && !t.WellKnownType?
    ensures VisiblePath(o, t, Round(fd, n))
    ensures forall k :: 0 <= k <= n ==> TypesOn(o, t, Round(fd, n))[k] == t
    decreases n
  {
    if n > 0 {
      assert Round(fd, n)[1..] == Round(fd, n - 1);
      RoundIsVisible(o, t, fd, n - 1);
    }
  }

  lemma {:induction false} AllOccur(ts: seq<TypeName>, t: TypeName)
    requires forall k :: 0 <= k < |ts| ==> ts[k] == t
    ensures Occurrences(ts, t) == |ts|
  {
    if ts != [] { AllOccur(ts[1..], t); }
  }

  /** The cap that a configuration asks for, in the input and in the output schema: a message that
      contains itself is spelled out that many times, 3 where no positive number is configured. */
  lemma SpelledOut(g: Graph, configured: int, input: bool, rpc: string, t: TypeName, fd: FieldDesc, n: nat)
    requires ValidGraph(g) && t in g && fd in g[t].fields && fd.kind == MessageKind(t) && !t.WellKnownType?
    requires !fd.exclude && !fd.outputOnly && rpc !in fd.excludeFromOutputs
    ensures var s := if input then InputSchema(g, configured, t) else OutputSchema(g, configured, rpc, t);
      var node := Follow(s, Round(fd, n));
      node.Some? && node.value.Object? <==> n < if configured > 0 then configured else 3
  {
    var o := if input then InputOptions(g, configured) else OutputOptions(g, configured, rpc);
    RoundIsVisible(o, t, fd, n);
    ExpandedExactly(o, NoCounts(g), t, Round(fd, n));
    var ts := TypesOn(o, t, Round(fd, n));
    forall k | 0 <= k <= n ensures NoCounts(g)[ts[k]] + Occurrences(ts[..k], ts[k]) == k { AllOccur(ts[..k], t); }
    if WithinCap(o, NoCounts(g), ts) { assert NoCounts(g)[ts[n]] + Occurrences(ts[..n], ts[n]) < o.maxDepth; }
  }

  // ----- the fields on offer -----

  /** A client may neither see nor set an excluded field; in inputs it may not set one that only the
      server sets, and in the outputs of an RPC it does not see one that names the RPC. */
  predicate OnOffer(fd: FieldDesc, input: bool, rpc: string) {
    !fd.exclude && if input then !fd.outputOnly else rpc == "" || rpc !in fd.excludeFromOutputs
  }

  lemma PropertiesOffer(o: Options, seen: Counts, t: TypeName, keep: Matcher, k: string)
    requires ValidOptions(o, seen) && t in o.g
    requires forall i :: 0 <= i < |o.g[t].fields| ==> (o.filter(o.g[t].fields[i]) <==> keep(o.g[t].fields[i]))
    ensures k in Properties(o, seen, t, |o.g[t].fields|) <==>
      exists fd :: fd in o.g[t].fields && keep(fd) && fd.jsonName == k
  {
    hide Properties, Left;
    var n := |o.g[t].fields|;
    if k in Properties(o, seen, t, n) {
      var i := PropertyOf(o, seen, t, n, k);
      assert o.g[t].fields[i] in o.g[t].fields;
    }
    if fd :| fd in o.g[t].fields && keep(fd) && fd.jsonName == k {
      var i :| 0 <= i < n && o.g[t].fields[i] == fd;
      PropertyAt(o, seen, t, n, i);
    }
  }

  /** The properties of a schema are the JSON names of the fields on offer. */
  lemma OffersExactly(g: Graph, configured: int, input: bool, rpc: string, t: TypeName, k: string)
    requires ValidGraph(g) && t in g
    ensures var s := if input then InputSchema(g, configured, t) else OutputSchema(g, configured, rpc, t);
      s.Object? && (k in s.props <==> exists fd :: fd in g[t].fields && OnOffer(fd, input, rpc) && fd.jsonName == k)
  {
    hide MessageSchema, Properties, RequiredNames, Groups, Left;
    var o := if input then InputOptions(g, configured) else OutputOptions(g, configured, rpc);
    var seen := NoCounts(g);
    Expanded(o, seen, t);
    PropertiesOffer(o, seen[t := seen[t] + 1], t, fd => OnOffer(fd, input, rpc), k);
  }
}
