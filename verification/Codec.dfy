/** A small wire codec for Any payloads. Set fields are tagged with their position plus one; a
    nested message ends with a zero, a top-level one with the input. As in protobuf, the empty
    input is the empty message, tags may come in any order, and the last value of a tag wins. */
module Codec {
  import opened Descriptors
  import opened Messages

  function EncodeString(s: string): Bytes {
    seq(|s|, i requires 0 <= i < |s| => s[i] as nat)
  }

  function EncodeKeys(keys: seq<string>): Bytes {
    if keys == [] then [] else [|keys[0]|] + EncodeString(keys[0]) + EncodeKeys(keys[1..])
  }

  function EncodeVal(v: Val): Bytes
    decreases v, 0
  {
    match v
    case Unset => []
    case VScalar(d) => [|d|] + d
    case VMsgs(keys, items) => [|keys|] + EncodeKeys(keys) + [|items|] + EncodeMsgs(items)
  }

  function EncodeMsgs(ms: seq<Msg>): Bytes
    decreases ms, 0
  {
    if ms == [] then [] else EncodeSlots(ms[0].slots, 0) + [0] + EncodeMsgs(ms[1..])
  }

  function EncodeSlots(vs: seq<Val>, i: nat): Bytes
    requires i <= |vs|
    decreases vs, |vs| - i
  {
    if i == |vs| then []
    else (if vs[i].Unset? then [] else [i + 1] + EncodeVal(vs[i])) + EncodeSlots(vs, i + 1)
  }

  /** proto.Marshal */
  function Encode(m: Msg): Bytes { EncodeSlots(m.slots, 0) }

  predicate IsChar(n: nat) { n < 0xD800 || 0xE000 <= n < 0x11_0000 }

  function DecodeString(b: Bytes): Option<string> {
    if exists i :: 0 <= i < |b| && !IsChar(b[i]) then None
    else Some(seq(|b|, i requires 0 <= i < |b| && IsChar(b[i]) => b[i] as char))
  }

  function DecodeKeys(n: nat, b: Bytes): (r: Option<(seq<string>, Bytes)>)
    ensures r.Some? ==> |r.value.0| == n && |r.value.1| <= |b|
  {
    if n == 0 then Some(([], b))
    else if b == [] || |b| - 1 < b[0] then None
    else
      var key := DecodeString(b[1..][..b[0]]);
      var rest := DecodeKeys(n - 1, b[1..][b[0]..]);
      if key.None? || rest.None? then None else Some(([key.value] + rest.value.0, rest.value.1))
  }

  function DecodeVal(g: Graph, fd: FieldDesc, b: Bytes): (r: Option<(Val, Bytes)>)
    requires ClosedGraph(g) && (fd.kind.MessageKind? ==> fd.kind.ty in g)
    ensures r.Some? ==> SlotTyped(g, fd, r.value.0) && |r.value.1| + SlotBudget(r.value.0) <= |b|
    decreases |b|, 2, 0
  {
    if b == [] then None
    else if fd.kind.ScalarKind? then
      if |b| - 1 < b[0] then None else Some((VScalar(b[1..][..b[0]]), b[1..][b[0]..]))
    else
      var keys := DecodeKeys(b[0], b[1..]);
      if keys.None? || keys.value.1 == [] then None
      else
        var tail := keys.value.1;
        var items := DecodeMsgs(g, fd.kind.ty, tail[0], tail[1..]);
        if items.None? || !ShapeOk(fd.card, keys.value.0, |items.value.0|) then None
        else Some((VMsgs(keys.value.0, items.value.0), items.value.1))
  }

  function DecodeMsgs(g: Graph, t: TypeName, n: nat, b: Bytes): (r: Option<(seq<Msg>, Bytes)>)
    requires ClosedGraph(g) && t in g
    ensures r.Some? ==>
      && |r.value.0| == n
      && |r.value.1| + MsgsBudget(r.value.0) <= |b|
      && forall j :: 0 <= j < n ==> r.value.0[j].ty == t && WellTyped(g, r.value.0[j])
    decreases |b|, 1, 0
  {
    if n == 0 then Some(([], b))
    else
      var head := DecodeSlots(g, Blank(g, t), b);
      if head.None? then None
      else
        var tail := DecodeMsgs(g, t, n - 1, head.value.1);
        if tail.None? then None
        else
          var ms := [head.value.0] + tail.value.0;
          assert ms[1..] == tail.value.0;
          Some((ms, tail.value.1))
  }

  /** Merge the fields encoded in `b`, up to the terminator, into `acc`. */
  function DecodeSlots(g: Graph, acc: Msg, b: Bytes): (r: Option<(Msg, Bytes)>)
    requires ClosedGraph(g) && WellTyped(g, acc)
    ensures r.Some? ==>
      && WellTyped(g, r.value.0) && r.value.0.ty == acc.ty
      && |r.value.1| < |b|
      && Budget(r.value.0) <= Max(Budget(acc), |b| - |r.value.1| - 1)
    decreases |b|, 0, 0
  {
    if b == [] then None
    else if b[0] == 0 then Some((acc, b[1..]))
    else if b[0] > |acc.slots| then None
    else
      var k := b[0] - 1;
      var v := DecodeVal(g, g[acc.ty].fields[k], b[1..]);
      if v.None? then None
      else
        var acc' := acc.(slots := acc.slots[k := v.value.0]);
        SlotsBudgetBound(acc'.slots, Max(Budget(acc), SlotBudget(v.value.0)));
        DecodeSlots(g, acc', v.value.1)
  }

  /** proto.Unmarshal into a new message of type `t`. */
  function Decode(g: Graph, t: TypeName, b: Bytes): (r: Option<Msg>)
    requires ClosedGraph(g) && t in g
    ensures r.Some? ==> r.value.ty == t && WellTyped(g, r.value) && Budget(r.value) <= |b|
  {
    var parsed := DecodeSlots(g, Blank(g, t), b + [0]);
    if parsed.Some? && parsed.value.1 == [] then Some(parsed.value.0) else None
  }

  lemma StringRoundTrip(s: string)
    ensures |EncodeString(s)| == |s| && DecodeString(EncodeString(s)) == Some(s)
  {
    var b := EncodeString(s);
    assert forall i :: 0 <= i < |b| ==> IsChar(b[i]);
    assert DecodeString(b).value == s;
  }

  lemma KeyReads(key: string, n: nat, more: Bytes, keys: seq<string>, rest: Bytes)
    requires DecodeKeys(n, more) == Some((keys, rest))
    ensures DecodeKeys(n + 1, [|key|] + (EncodeString(key) + more)) == Some(([key] + keys, rest))
  {
    StringRoundTrip(key);
    var body := EncodeString(key);
    assert ([|key|] + (body + more))[1..] == body + more;
    assert (body + more)[..|body|] == body && (body + more)[|body|..] == more;
    hide EncodeString, DecodeString;
  }

  lemma {:induction false} KeysRoundTrip(keys: seq<string>, rest: Bytes)
    ensures DecodeKeys(|keys|, EncodeKeys(keys) + rest) == Some((keys, rest))
    decreases |keys|
  {
    hide EncodeString, DecodeString;
    if keys == [] {
      assert EncodeKeys(keys) + rest == rest;
    } else {
      var more := EncodeKeys(keys[1..]) + rest;
      assert EncodeKeys(keys) + rest == [|keys[0]|] + (EncodeString(keys[0]) + more);
      KeysRoundTrip(keys[1..], rest);
      KeyReads(keys[0], |keys| - 1, more, keys[1..], rest);
      assert [keys[0]] + keys[1..] == keys;
    }
  }

  lemma Regroup(n: nat, ks: Bytes, k: nat, ms: Bytes, rest: Bytes)
    ensures [n] + ks + [k] + ms + rest == [n] + (ks + ([k] + (ms + rest)))
  {
  }

  lemma ItemsDecode(g: Graph, fd: FieldDesc, v: Val, b: Bytes, tail: Bytes, more: Bytes, rest: Bytes)
    requires ClosedGraph(g) && fd.kind.MessageKind? && fd.kind.ty in g
    requires v.VMsgs? && ShapeOk(fd.card, v.keys, |v.items|)
    requires b != [] && DecodeKeys(b[0], b[1..]) == Some((v.keys, tail))
    requires tail != [] && tail[1..] == more
    requires DecodeMsgs(g, fd.kind.ty, tail[0], more) == Some((v.items, rest))
    ensures DecodeVal(g, fd, b) == Some((v, rest))
  {
  }

  lemma {:induction false} ValRoundTrip(g: Graph, fd: FieldDesc, v: Val, rest: Bytes)
    requires ClosedGraph(g) && (fd.kind.MessageKind? ==> fd.kind.ty in g)
    requires SlotTyped(g, fd, v) && !v.Unset?
    ensures DecodeVal(g, fd, EncodeVal(v) + rest) == Some((v, rest))
    decreases v, 1, 0
  {
    var b := EncodeVal(v) + rest;
    match v {
      case VScalar(d) =>
        assert b[1..] == d + rest;
        assert (d + rest)[..|d|] == d && (d + rest)[|d|..] == rest;
      case VMsgs(keys, items) =>
        var more := EncodeMsgs(items) + rest;
        var tail := [|items|] + more;
        Regroup(|keys|, EncodeKeys(keys), |items|, EncodeMsgs(items), rest);
        assert b[1..] == EncodeKeys(keys) + tail;
        KeysRoundTrip(keys, tail);
        MsgsRoundTrip(g, fd.kind.ty, items, rest);
        ItemsDecode(g, fd, v, b, tail, more, rest);
    }
  }

  lemma {:induction false} MsgsRoundTrip(g: Graph, t: TypeName, ms: seq<Msg>, rest: Bytes)
    requires ClosedGraph(g) && t in g
    requires forall j :: 0 <= j < |ms| ==> ms[j].ty == t && WellTyped(g, ms[j])
    ensures DecodeMsgs(g, t, |ms|, EncodeMsgs(ms) + rest) == Some((ms, rest))
    decreases ms, 1, 0
  {
    if ms == [] {
      assert EncodeMsgs(ms) + rest == rest;
    } else {
      var more := EncodeMsgs(ms[1..]) + rest;
      assert EncodeMsgs(ms) + rest == EncodeSlots(ms[0].slots, 0) + [0] + more;
      SlotsRoundTrip(g, ms[0], 0, Blank(g, t), more);
      MsgsRoundTrip(g, t, ms[1..], rest);
      assert [ms[0]] + ms[1..] == ms;
    }
  }

  lemma RegroupSlot(n: nat, v: Bytes, slots: Bytes, rest: Bytes)
    ensures [n] + v + slots + [0] + rest == [n] + (v + (slots + [0] + rest))
  {
  }

  /** The slots from `i` on, terminated, as one slot and those after it. */
  lemma SlotsStep(vs: seq<Val>, i: nat, rest: Bytes)
    requires i < |vs|
    ensures var more := EncodeSlots(vs, i + 1) + [0] + rest;
      EncodeSlots(vs, i) + [0] + rest == if vs[i].Unset? then more else [i + 1] + (EncodeVal(vs[i]) + more)
  {
    hide EncodeVal;
    if vs[i].Unset? {
      assert [] + EncodeSlots(vs, i + 1) == EncodeSlots(vs, i + 1);
    } else {
      RegroupSlot(i + 1, EncodeVal(vs[i]), EncodeSlots(vs, i + 1), rest);
    }
  }

  lemma SlotsEnd(g: Graph, acc: Msg, rest: Bytes)
    requires ClosedGraph(g) && WellTyped(g, acc)
    ensures DecodeSlots(g, acc, EncodeSlots(acc.slots, |acc.slots|) + [0] + rest) == Some((acc, rest))
  {
    assert EncodeSlots(acc.slots, |acc.slots|) + [0] + rest == [0] + rest;
  }

  /** One tagged slot is read, then the rest. */
  lemma SlotReads(g: Graph, acc: Msg, i: nat, v: Val, b: Bytes, more: Bytes)
    requires ClosedGraph(g) && WellTyped(g, acc) && i < |acc.slots|
    requires DecodeVal(g, g[acc.ty].fields[i], b) == Some((v, more))
    ensures SlotTyped(g, g[acc.ty].fields[i], v)
    ensures DecodeSlots(g, acc, [i + 1] + b) == DecodeSlots(g, acc.(slots := acc.slots[i := v]), more)
  {
    hide DecodeVal;
    assert ([i + 1] + b)[1..] == b;
  }

  lemma {:induction false} SlotsRoundTrip(g: Graph, m: Msg, i: nat, acc: Msg, rest: Bytes)
    requires ClosedGraph(g) && WellTyped(g, m) && WellTyped(g, acc) && acc.ty == m.ty
    requires i <= |m.slots|
    requires forall k :: 0 <= k < |m.slots| ==> acc.slots[k] == if k < i then m.slots[k] else Unset
    ensures DecodeSlots(g, acc, EncodeSlots(m.slots, i) + [0] + rest) == Some((m, rest))
    decreases m.slots, |m.slots| - i, 0
  {
    hide EncodeSlots, DecodeSlots, DecodeVal, EncodeVal, Budget;
    if i == |m.slots| {
      assert acc.slots == m.slots;
      SlotsEnd(g, m, rest);
    } else {
      var more, acc' := EncodeSlots(m.slots, i + 1) + [0] + rest, acc.(slots := acc.slots[i := m.slots[i]]);
      SlotsStep(m.slots, i, rest);
      SlotsRoundTrip(g, m, i + 1, acc', rest);
      if m.slots[i].Unset? {
        assert acc'.slots == acc.slots;
      } else {
        assert SlotTyped(g, g[m.ty].fields[i], m.slots[i]);
        ValRoundTrip(g, g[m.ty].fields[i], m.slots[i], more);
        SlotReads(g, acc, i, m.slots[i], EncodeVal(m.slots[i]) + more, more);
      }
    }
  }

  /** Unmarshal undoes Marshal. */
  lemma RoundTrip(g: Graph, m: Msg)
    requires ClosedGraph(g) && WellTyped(g, m)
    ensures Decode(g, m.ty, Encode(m)) == Some(m)
  {
    SlotsRoundTrip(g, m, 0, Blank(g, m.ty), []);
    assert Encode(m) + [0] + [] == Encode(m) + [0];
  }

  lemma {:induction false} EmptyEncoding(vs: seq<Val>, i: nat)
    requires i <= |vs|
    ensures EncodeSlots(vs, i) == [] <==> forall k :: i <= k < |vs| ==> vs[k].Unset?
    decreases |vs| - i
  {
    if i < |vs| { EmptyEncoding(vs, i + 1); }
  }

  /** Exactly the message with nothing set has the empty encoding. */
  lemma EmptyIsBlank(g: Graph, m: Msg)
    requires ClosedGraph(g) && WellTyped(g, m)
    ensures Encode(m) == [] <==> m == Blank(g, m.ty)
    ensures Decode(g, m.ty, []) == Some(Blank(g, m.ty))
  {
    EmptyEncoding(m.slots, 0);
    EmptyEncoding(Blank(g, m.ty).slots, 0);
    assert Encode(m) == [] ==> m.slots == Blank(g, m.ty).slots;
    RoundTrip(g, Blank(g, m.ty));
  }
}
