/** Messages as finite trees with explicit presence: one slot per field of the descriptor. */
module Messages {
  import opened Descriptors

  /** A set message-valued field holds `items`: one for a singular field, the elements of a
      list, or the values of a map whose keys are `keys`. */
  datatype Val = Unset | VScalar(data: Bytes) | VMsgs(keys: seq<string>, items: seq<Msg>)

  datatype Msg = Msg(ty: TypeName, slots: seq<Val>)

  predicate Distinct<T(==)>(s: seq<T>) {
    forall i, j :: 0 <= i < j < |s| ==> s[i] != s[j]
  }

  ghost predicate WellTyped(g: Graph, m: Msg)
    decreases m, 1
  {
    && m.ty in g
    && |m.slots| == |g[m.ty].fields|
    && forall i :: 0 <= i < |m.slots| ==> SlotTyped(g, g[m.ty].fields[i], m.slots[i])
  }

  /** The shape a field's card allows: non-empty, one item when singular, distinct map keys. */
  predicate ShapeOk(card: Card, keys: seq<string>, n: nat) {
    && n > 0
    && (card.Singular? ==> n == 1)
    && (if card.MapField? then |keys| == n && Distinct(keys) else keys == [])
  }

  ghost predicate SlotTyped(g: Graph, fd: FieldDesc, v: Val)
    decreases v, 0
  {
    match v
    case Unset => true
    case VScalar(_) => fd.kind.ScalarKind?
    case VMsgs(keys, items) =>
      && fd.kind.MessageKind?
      && ShapeOk(fd.card, keys, |items|)
      && forall j :: 0 <= j < |items| ==> items[j].ty == fd.kind.ty && WellTyped(g, items[j])
  }

  /** The message of type `t` with nothing set. */
  function Blank(g: Graph, t: TypeName): (m: Msg)
    requires t in g
    ensures m.ty == t && WellTyped(g, m) && Budget(m) == 0
  {
    var m := Msg(t, seq(|g[t].fields|, _ => Unset));
    SlotsBudgetBound(m.slots, 0);
    m
  }

  /** Message positions of `m` stay above `levels` levels of nesting, Any payloads not counted. */
  ghost predicate NestsWithin(m: Msg, levels: nat)
    decreases m
  {
    levels > 0 && forall i :: 0 <= i < |m.slots| ==> SlotNestsWithin(m.slots[i], levels - 1)
  }

  ghost predicate SlotNestsWithin(v: Val, levels: nat)
    decreases v
  {
    v.VMsgs? ==> forall j :: 0 <= j < |v.items| ==> NestsWithin(v.items[j], levels)
  }

  function Max(a: nat, b: nat): nat { if a < b then b else a }

  /** One more than the longest scalar stored in `m`. A payload packed in `m` has a smaller
      budget than `m`, so recursion through Any payloads is well-founded. */
  function Budget(m: Msg): (n: nat)
    ensures forall i :: 0 <= i < |m.slots| ==> SlotBudget(m.slots[i]) <= n
    decreases m, 0
  {
    SlotsBudget(m.slots)
  }

  function SlotsBudget(vs: seq<Val>): (n: nat)
    ensures forall i :: 0 <= i < |vs| ==> SlotBudget(vs[i]) <= n
    decreases vs, 0
  {
    if vs == [] then 0 else Max(SlotBudget(vs[0]), SlotsBudget(vs[1..]))
  }

  function SlotBudget(v: Val): (n: nat)
    ensures v.VMsgs? ==> forall j :: 0 <= j < |v.items| ==> Budget(v.items[j]) <= n
    decreases v, 0
  {
    match v
    case Unset => 0
    case VScalar(d) => |d| + 1
    case VMsgs(_, items) => MsgsBudget(items)
  }

  function MsgsBudget(ms: seq<Msg>): (n: nat)
    ensures forall j :: 0 <= j < |ms| ==> Budget(ms[j]) <= n
    decreases ms, 0
  {
    if ms == [] then 0 else Max(Budget(ms[0]), MsgsBudget(ms[1..]))
  }

  lemma {:induction false} SlotsBudgetBound(vs: seq<Val>, n: nat)
    requires forall i :: 0 <= i < |vs| ==> SlotBudget(vs[i]) <= n
    ensures SlotsBudget(vs) <= n
    decreases |vs|
  {
    if vs != [] { SlotsBudgetBound(vs[1..], n); }
  }

  /** The scalar bytes of a slot; an unset slot reads as empty. */
  function Data(v: Val): Bytes {
    if v.VScalar? then v.data else []
  }
}
