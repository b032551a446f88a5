/** Protobuf descriptors: a finite, possibly cyclic graph of message types. */
module Descriptors {
  datatype Option<+T> = None | Some(value: T)

  type Bytes = seq<nat>

  /** The types of package google.protobuf that protojson renders with a shape of their own. */
  datatype WellKnown =
    | Any | Timestamp | Duration | Struct | Value | ListValue | FieldMask | Empty
    | BoolValue | BytesValue | DoubleValue | FloatValue | Int32Value | Int64Value
    | StringValue | UInt32Value | UInt64Value

  /** The full name of a message type: one of those, or any other. */
  datatype TypeName = WellKnownType(wkt: WellKnown) | Named(fullName: string)

  const ANY: TypeName := WellKnownType(Any)

  datatype Card = Singular | Repeated | MapField

  /** The kind of a field; for a map field, the kind of its values. */
  datatype Kind = ScalarKind | MessageKind(ty: TypeName)

  datatype Ignore = Unspecified | IfZeroValue | Always

  datatype FieldDesc = FieldDesc(
    name: string, jsonName: string, card: Card, kind: Kind, presence: bool, oneof: Option<nat>,
    outputOnly: bool, behaviorRequired: bool,
    exclude: bool, excludeFromOutputs: seq<string>, schemaRequired: bool,
    ruleRequired: bool, ignore: Ignore, zeroViolates: bool)

  datatype OneofDesc = OneofDesc(name: string, synthetic: bool, required: bool)

  datatype MessageDesc = MessageDesc(fields: seq<FieldDesc>, oneofs: seq<OneofDesc>)

  type Graph = map<TypeName, MessageDesc>

  /** A policy: which fields are hidden. */
  type Matcher = FieldDesc -> bool

  /** Every message-typed field refers to a type of the graph. */
  ghost predicate ClosedGraph(g: Graph) {
    forall t, i :: t in g && 0 <= i < |g[t].fields| && g[t].fields[i].kind.MessageKind?
      ==> g[t].fields[i].kind.ty in g
  }

  /** JSON names and proto names are each unique in a message, as protoc enforces. */
  ghost predicate UniqueNames(fields: seq<FieldDesc>) {
    forall i, j :: 0 <= i < j < |fields| ==>
      fields[i].name != fields[j].name && fields[i].jsonName != fields[j].jsonName
  }

  /** No field's proto name is another field's JSON name. */
  ghost predicate NoNameClash(fields: seq<FieldDesc>) {
    forall i, j :: 0 <= i < |fields| && 0 <= j < |fields| && i != j ==> fields[i].name != fields[j].jsonName
  }

  /** `k` is one of the two names of a field. */
  predicate HasName(fd: FieldDesc, k: string) { k == fd.name || k == fd.jsonName }

  /** The premise on names under which a JSON key names one field only. */
  ghost predicate ClearNames(g: Graph) {
    forall t :: t in g ==>
      && NoNameClash(g[t].fields)
      && forall i :: 0 <= i < |g[t].fields| ==> g[t].fields[i].name != "@type" && g[t].fields[i].jsonName != "@type"
  }

  /** Any has two fields: its type_url and its value. */
  ghost predicate AnyShape(d: MessageDesc) {
    && |d.fields| == 2
    && d.fields[0].kind.ScalarKind? && d.fields[1].kind.ScalarKind?
  }

  /** The fields of Any are the ones of google.protobuf: neither hidden nor called after the marker. */
  ghost predicate StandardAny(g: Graph) {
    ANY in g && forall fd :: fd in g[ANY].fields ==> !InputMask(fd) && fd.jsonName != "@type"
  }

  ghost predicate ValidGraph(g: Graph) {
    && ClosedGraph(g)
    && ANY in g && AnyShape(g[ANY])
    && forall t :: t in g ==> UniqueNames(g[t].fields)
  }

  predicate HasOutputOnly(fd: FieldDesc) { fd.outputOnly }

  predicate IsSchemaExcluded(fd: FieldDesc) { fd.exclude }

  predicate IsExcludedFromOutput(fd: FieldDesc, rpc: string) {
    rpc != "" && rpc in fd.excludeFromOutputs
  }

  /** What clients may neither see nor set in an input. */
  predicate InputMask(fd: FieldDesc) { fd.outputOnly || fd.exclude }

  function OutputExclusionMatcher(rpc: string): Matcher {
    if rpc == "" then IsSchemaExcluded else (fd: FieldDesc) => IsSchemaExcluded(fd) || rpc in fd.excludeFromOutputs
  }

  /** `both` hides exactly what `p` or `q` hides. */
  ghost predicate IsUnion(p: Matcher, q: Matcher, both: Matcher) {
    forall fd: FieldDesc :: both(fd) <==> p(fd) || q(fd)
  }
}
