/** The clearing walk itself, which updates messages in place. */
module ClearWalk {
  import opened Descriptors
  import opened Messages
  import opened Codec
  import opened Reachability
  import opened Masking

  /** How the walk treats content it cannot verify: wipe it, or give up. */
  datatype ClearMode = FailClosed | FailLoud

  datatype MaskError = TooDeep(ty: TypeName) | Unresolvable(url: Bytes) | Corrupt(url: Bytes)

  /** A mutable message. */
  class Message {
    const ty: TypeName
    var slots: seq<Val>

    constructor (m: Msg)
      ensures Value() == m
    {
      ty := m.ty;
      slots := m.slots;
    }

    function Value(): Msg
      reads this
    {
      Msg(ty, slots)
    }

    predicate Has(i: nat)
      requires i < |slots|
      reads this
    {
      !slots[i].Unset?
    }

    method Set(i: nat, v: Val)
      requires i < |slots|
      modifies this
      ensures slots == old(slots)[i := v]
    {
      slots := slots[i := v];
    }

    method Clear(i: nat)
      requires i < |slots|
      modifies this
      ensures slots == old(slots)[i := Unset]
    {
      slots := slots[i := Unset];
    }
  }

  method ClearAllFields(e: Env, r: Message) returns (changed: bool)
    requires WellTyped(e.g, r.Value())
    modifies r
    ensures r.Value() == Blank(e.g, r.ty)
    ensures changed <==> r.Value() != old(r.Value())
  {
    changed := false;
    for i := 0 to |r.slots|
      invariant |r.slots| == old(|r.slots|)
      invariant forall k :: 0 <= k < |r.slots| ==> r.slots[k] == if k < i then Unset else old(r.slots[k])
      invariant changed <==> r.slots != old(r.slots)
    {
      if r.Has(i) {
        r.Clear(i);
        changed := true;
        assert r.slots[i] != old(r.slots)[i];
      } else {
        assert r.slots[i] == old(r.slots)[i];
      }
    }
  }

  /** The recursive worker. Without an error the result is the fail-closed one in either mode;
      the fail-loud mode errs exactly on messages it cannot verify. */
  method ClearFieldsMatchingReflect(e: Env, hit: Matcher, mode: ClearMode, depth: nat, r: Message)
    returns (changed: bool, err: Option<MaskError>)
    requires ValidEnv(e) && WellTyped(e.g, r.Value()) && depth <= e.maxDepth
    modifies r
    ensures WellTyped(e.g, r.Value())
    ensures err.Some? <==> mode.FailLoud? && !Verifiable(e, hit, e.maxDepth - depth, old(r.Value()))
    ensures err.None? ==> r.Value() == Closed(e, hit, e.maxDepth - depth, old(r.Value()))
    ensures err.None? ==> (changed <==> r.Value() != old(r.Value()))
    decreases e.maxDepth - depth, 2
  {
    if depth >= e.maxDepth {
      if mode.FailLoud? {
        return false, Some(TooDeep(r.ty));
      }
      changed := ClearAllFields(e, r);
      return changed, None;
    }
    if r.ty == ANY {
      changed, err := ClearMatchingInAnyPayload(e, hit, mode, depth, r);
      return;
    }
    changed, err := false, None;
    ghost var was := r.Value();
    ghost var fuel := e.maxDepth - depth - 1;
    for i := 0 to |e.g[r.ty].fields|
      invariant err == None && |r.slots| == |was.slots| && WellTyped(e.g, r.Value())
      invariant forall k :: i <= k < |r.slots| ==> r.slots[k] == was.slots[k]
      invariant forall k :: 0 <= k < i ==> r.slots[k] == ClosedSlot(e, hit, fuel, e.g[r.ty].fields[k], was.slots[k])
      invariant mode.FailLoud? ==>
        forall k :: 0 <= k < i ==> SlotVerifiable(e, hit, fuel, e.g[r.ty].fields[k], was.slots[k])
      invariant changed <==> r.slots != was.slots
    {
      ghost var before := r.slots;
      var fieldChanged;
      fieldChanged, err := ClearField(e, hit, mode, depth, r, i);
      if err.Some? {
        return false, err;
      }
      changed := changed || fieldChanged;
      assert r.slots != was.slots <==> before != was.slots || r.slots[i] != was.slots[i];
    }
    assert r.slots == Closed(e, hit, fuel + 1, was).slots;
  }

  /** One round of the worker's loop: clear a hidden field, walk into a set message field. */
  method ClearField(e: Env, hit: Matcher, mode: ClearMode, depth: nat, r: Message, i: nat)
    returns (changed: bool, err: Option<MaskError>)
    requires ValidEnv(e) && WellTyped(e.g, r.Value()) && depth < e.maxDepth && i < |r.slots|
    modifies r
    ensures WellTyped(e.g, r.Value()) && |r.slots| == old(|r.slots|)
    ensures forall k :: 0 <= k < |r.slots| && k != i ==> r.slots[k] == old(r.slots[k])
    ensures err.Some? <==> (mode.FailLoud? &&
      !SlotVerifiable(e, hit, e.maxDepth - depth - 1, e.g[r.ty].fields[i], old(r.slots[i])))
    ensures err.None? ==>
      r.slots[i] == ClosedSlot(e, hit, e.maxDepth - depth - 1, e.g[r.ty].fields[i], old(r.slots[i]))
    ensures err.None? ==> (changed <==> r.slots[i] != old(r.slots[i]))
    decreases e.maxDepth - depth, 1
  {
    changed, err := false, None;
    var fd := e.g[r.ty].fields[i];
    if hit(fd) {
      if r.Has(i) {
        r.Clear(i);
        changed := true;
      }
      return;
    }
    if !fd.kind.MessageKind? || !r.Has(i) {
      return;
    }
    changed, err := ClearFieldChildren(e, hit, mode, depth, r, i);
  }

  /** Walk the items of one set message-valued field: the singular message, the elements of a
      list, or the values of a map. */
  method ClearFieldChildren(e: Env, hit: Matcher, mode: ClearMode, depth: nat, r: Message, i: nat)
    returns (changed: bool, err: Option<MaskError>)
    requires ValidEnv(e) && WellTyped(e.g, r.Value()) && depth < e.maxDepth
    requires i < |r.slots| && r.slots[i].VMsgs? && !hit(e.g[r.ty].fields[i])
    modifies r
    ensures WellTyped(e.g, r.Value()) && |r.slots| == old(|r.slots|)
    ensures forall k :: 0 <= k < |r.slots| && k != i ==> r.slots[k] == old(r.slots[k])
    ensures err.Some? <==> (mode.FailLoud? &&
      !SlotVerifiable(e, hit, e.maxDepth - depth - 1, e.g[r.ty].fields[i], old(r.slots[i])))
    ensures err.None? ==>
      r.slots[i] == ClosedSlot(e, hit, e.maxDepth - depth - 1, e.g[r.ty].fields[i], old(r.slots[i]))
    ensures err.None? ==> (changed <==> r.slots[i] != old(r.slots[i]))
    decreases e.maxDepth - depth, 0
  {
    hide Closed, Verifiable, Reaches, Payload;
    changed, err := false, None;
    var v := r.slots[i];
    ghost var fuel := e.maxDepth - depth - 1;
    assert SlotTyped(e.g, e.g[r.ty].fields[i], v);
    var items := v.items;
    for j := 0 to |items|
      invariant err == None && |items| == |v.items|
      invariant r.slots == old(r.slots)
      invariant forall k :: 0 <= k < |items| ==>
        items[k] == if k < j then Closed(e, hit, fuel, v.items[k]) else v.items[k]
      invariant forall k :: 0 <= k < j && mode.FailLoud? ==> Verifiable(e, hit, fuel, v.items[k])
      invariant changed <==> items != v.items
    {
      var child := new Message(items[j]);
      var childChanged;
      childChanged, err := ClearFieldsMatchingReflect(e, hit, mode, depth + 1, child);
      if err.Some? {
        return false, err;
      }
      ghost var before := items;
      items := items[j := child.Value()];
      assert items != v.items <==> before != v.items || items[j] != v.items[j];
      changed := changed || childChanged;
    }
    r.Set(i, v.(items := items));
    assert r.slots[i] == ClosedSlot(e, hit, fuel, e.g[r.ty].fields[i], v);
  }

  /** Open an Any payload when something hidden may be inside, walk it and pack it again. */
  method ClearMatchingInAnyPayload(e: Env, hit: Matcher, mode: ClearMode, depth: nat, r: Message)
    returns (changed: bool, err: Option<MaskError>)
    requires ValidEnv(e) && WellTyped(e.g, r.Value()) && r.ty == ANY && depth < e.maxDepth
    modifies r
    ensures WellTyped(e.g, r.Value())
    ensures err.Some? <==> mode.FailLoud? && !Verifiable(e, hit, e.maxDepth - depth, old(r.Value()))
    ensures err.None? ==> r.Value() == Closed(e, hit, e.maxDepth - depth, old(r.Value()))
    ensures err.None? ==> (changed <==> r.Value() != old(r.Value()))
    decreases e.maxDepth - depth, 1
  {
    hide Closed, Verifiable, Payload, Reaches, Repack, Decode;
    ghost var was, fuel := r.Value(), e.maxDepth - depth;
    ClosedAny(e, hit, fuel, was);
    VerifiableAny(e, hit, fuel, was);
    PayloadIs(e, was);
    var raw := Data(r.slots[1]);
    if |raw| == 0 {
      return false, None;
    }
    var url := Data(r.slots[0]);
    var mt := e.resolve(url);
    if mt.None? {
      if mode.FailLoud? {
        return false, Some(Unresolvable(url));
      }
      changed := ClearAllFields(e, r);
      return changed, None;
    }
    var mayMatch := HasMatching(e.g, mt.value, hit);
    if !mayMatch {
      return false, None;
    }
    var parsed := Decode(e.g, mt.value, raw);
    if parsed.None? {
      if mode.FailLoud? {
        return false, Some(Corrupt(url));
      }
      changed := ClearAllFields(e, r);
      return changed, None;
    }
    ClosedOpened(e, hit, fuel, was);
    var payload := new Message(parsed.value);
    changed, err := ClearFieldsMatchingReflect(e, hit, mode, depth + 1, payload);
    if err.Some? {
      return false, err;
    }
    RepackPayload(e, was, payload.Value());
    RepackIs(was, parsed.value, payload.Value());
    if !changed {
      return false, None;
    }
    var repacked := Encode(payload.Value());
    r.Set(1, if repacked == [] then Unset else VScalar(repacked));
    assert r.slots == WithRaw(was, repacked).slots;
  }

  /** The input helpers: they never fail, and afterwards nothing hidden is set anywhere. */
  method ClearFieldsMatching(e: Env, hit: Matcher, m: Message)
    requires ValidEnv(e) && WellTyped(e.g, m.Value())
    modifies m
    ensures WellTyped(e.g, m.Value())
    ensures m.Value() == Closed(e, hit, e.maxDepth, old(m.Value()))
    ensures Clean(e, hit, m.Value())
  {
    ClosedIsClean(e, hit, e.maxDepth, m.Value());
    var _, err := ClearFieldsMatchingReflect(e, hit, FailClosed, 0, m);
  }

  /** The clearing a generated tool handler runs on its input; the generator leaves the second
      pass out when its gate finds no exclusion, which does not change the outcome. */
  method ClearInput(e: Env, m: Message)
    requires ValidEnv(e) && WellTyped(e.g, m.Value())
    modifies m
    ensures WellTyped(e.g, m.Value())
    ensures m.Value() == Closed(e, InputMask, e.maxDepth, old(m.Value()))
    ensures Clean(e, InputMask, m.Value())
  {
    ghost var was := m.Value();
    Compose(e, HasOutputOnly, IsSchemaExcluded, InputMask, e.maxDepth, was);
    ClosedIsClean(e, InputMask, e.maxDepth, was);
    ClearFieldsMatching(e, HasOutputOnly, m);
    var inputHasExcluded := HasExclusions(e.g, m.ty);
    if inputHasExcluded {
      ClearFieldsMatching(e, IsSchemaExcluded, m);
    } else {
      ColdAfter(e, HasOutputOnly, IsSchemaExcluded, e.maxDepth, was);
    }
  }
}
