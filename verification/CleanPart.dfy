/** The erasure is the greatest clean part of a message: nothing but the hidden fields goes. The
    fail-closed walk leaves a part of it. */
module CleanPart {
  import opened Descriptors
  import opened Messages
  import opened Codec
  import opened Reachability
  import opened Masking

  /** `a` is `b` with some fields unset, at any depth, Any payloads compared by content. */
  ghost predicate PartOf(e: Env, a: Msg, b: Msg)
    requires ValidEnv(e) && WellTyped(e.g, a) && WellTyped(e.g, b)
    decreases Budget(b), b, 1
  {
    && a.ty == b.ty
    && if b.ty == ANY then a == b || a == Blank(e.g, ANY) || PayloadPartOf(e, a, b)
       else forall i :: 0 <= i < |b.slots| ==> SlotPartOf(e, e.g[b.ty].fields[i], a.slots[i], b.slots[i])
  }

  ghost predicate PayloadPartOf(e: Env, a: Msg, b: Msg)
    requires ValidEnv(e) && WellTyped(e.g, a) && WellTyped(e.g, b) && a.ty == b.ty == ANY
    decreases Budget(b), b, 0
  {
    && AnyUrl(a) == AnyUrl(b) && Payload(e, a).Some? && Payload(e, b).Some?
    && PartOf(e, Payload(e, a).value, Payload(e, b).value)
  }

  ghost predicate SlotPartOf(e: Env, fd: FieldDesc, a: Val, b: Val)
    requires ValidEnv(e) && SlotTyped(e.g, fd, a) && SlotTyped(e.g, fd, b)
    decreases SlotBudget(b), b, 0
  {
    a.Unset? || a == b ||
    (a.VMsgs? && b.VMsgs? && a.keys == b.keys && |a.items| == |b.items|
      && forall j :: 0 <= j < |b.items| ==> PartOf(e, a.items[j], b.items[j]))
  }

  lemma {:induction false} Reflexive(e: Env, m: Msg)
    requires ValidEnv(e) && WellTyped(e.g, m)
    ensures PartOf(e, m, m)
  {
  }

  lemma RepackedIsPart(e: Env, m: Msg, p': Msg)
    requires ValidEnv(e) && WellTyped(e.g, m) && m.ty == ANY && AnyRaw(m) != [] && Payload(e, m).Some?
    requires WellTyped(e.g, p') && PartOf(e, p', Payload(e, m).value)
    ensures WellTyped(e.g, Repack(m, Payload(e, m).value, p')) && PartOf(e, Repack(m, Payload(e, m).value, p'), m)
  {
    RepackPayload(e, m, p');
    assert PayloadPartOf(e, Repack(m, Payload(e, m).value, p'), m);
  }

  /** The erasure is clean, and part of the message. */
  lemma {:induction false} ErasedIsCleanPart(e: Env, hit: Matcher, m: Msg)
    requires ValidEnv(e) && WellTyped(e.g, m)
    ensures Clean(e, hit, Erase(e, hit, m)) && PartOf(e, Erase(e, hit, m), m)
    decreases Budget(m), m, 1
  {
    var r := Erase(e, hit, m);
    if m.ty == ANY {
      if AnyRaw(m) != [] && Payload(e, m).Some? {
        var p := Payload(e, m).value;
        ErasedIsCleanPart(e, hit, p);
        RepackPayload(e, m, Erase(e, hit, p));
        RepackedIsPart(e, m, Erase(e, hit, p));
      }
    } else {
      forall i | 0 <= i < |m.slots|
        ensures SlotClean(e, hit, e.g[m.ty].fields[i], r.slots[i])
        ensures SlotPartOf(e, e.g[m.ty].fields[i], r.slots[i], m.slots[i])
      {
        assert r.slots[i] == EraseSlot(e, hit, e.g[m.ty].fields[i], m.slots[i]);
        ErasedSlotIsCleanPart(e, hit, e.g[m.ty].fields[i], m.slots[i]);
      }
    }
  }

  lemma {:induction false} ErasedSlotIsCleanPart(e: Env, hit: Matcher, fd: FieldDesc, v: Val)
    requires ValidEnv(e) && SlotTyped(e.g, fd, v)
    ensures SlotClean(e, hit, fd, EraseSlot(e, hit, fd, v)) && SlotPartOf(e, fd, EraseSlot(e, hit, fd, v), v)
    decreases SlotBudget(v), v, 0
  {
    hide Clean, PartOf, Erase;
    if v.VMsgs? && !hit(fd) {
      forall j | 0 <= j < |v.items|
        ensures Clean(e, hit, Erase(e, hit, v.items[j])) && PartOf(e, Erase(e, hit, v.items[j]), v.items[j])
      {
        ErasedIsCleanPart(e, hit, v.items[j]);
      }
    }
  }

  lemma {:induction false} CleanAnyIsKept(e: Env, hit: Matcher, a: Msg, m: Msg)
    requires ValidEnv(e) && WellTyped(e.g, a) && WellTyped(e.g, m) && m.ty == ANY
    requires PartOf(e, a, m) && Clean(e, hit, a)
    ensures PartOf(e, a, Erase(e, hit, m))
    decreases Budget(m), m, 0
  {
    hide Payload, Repack, Reaches, Clean;
    if a == m {
      EraseFixesClean(e, hit, m);
      Reflexive(e, m);
    } else if AnyRaw(m) != [] && a != Blank(e.g, ANY) {
      var pa, p := Payload(e, a).value, Payload(e, m).value;
      PayloadIsClean(e, hit, a);
      CleanPartIsKept(e, hit, pa, p);
      ErasedOpened(e, hit, m);
      RepackPayload(e, m, Erase(e, hit, p));
    }
  }

  lemma PayloadIsClean(e: Env, hit: Matcher, a: Msg)
    requires ValidEnv(e) && WellTyped(e.g, a) && a.ty == ANY && Payload(e, a).Some? && Clean(e, hit, a)
    ensures Clean(e, hit, Payload(e, a).value)
  {
    if AnyRaw(a) == [] {
      PayloadIs(e, a);
      EmptyIsBlank(e.g, Payload(e, a).value);
      BlankIsClean(e, hit, Payload(e, a).value.ty);
    }
  }

  lemma ErasedOpened(e: Env, hit: Matcher, m: Msg)
    requires ValidEnv(e) && WellTyped(e.g, m) && m.ty == ANY && AnyRaw(m) != [] && Payload(e, m).Some?
    ensures Erase(e, hit, m) == Repack(m, Payload(e, m).value, Erase(e, hit, Payload(e, m).value))
  {
    hide Payload, Repack;
  }

  /** Every clean part of the message is part of its erasure. */
  lemma {:induction false} CleanPartIsKept(e: Env, hit: Matcher, a: Msg, m: Msg)
    requires ValidEnv(e) && WellTyped(e.g, a) && WellTyped(e.g, m) && PartOf(e, a, m) && Clean(e, hit, a)
    ensures PartOf(e, a, Erase(e, hit, m))
    decreases Budget(m), m, 1
  {
    if m.ty == ANY {
      CleanAnyIsKept(e, hit, a, m);
    } else {
      var r := Erase(e, hit, m);
      forall i | 0 <= i < |m.slots| ensures SlotPartOf(e, e.g[m.ty].fields[i], a.slots[i], r.slots[i]) {
        assert r.slots[i] == EraseSlot(e, hit, e.g[m.ty].fields[i], m.slots[i]);
        assert SlotClean(e, hit, e.g[m.ty].fields[i], a.slots[i]);
        CleanSlotIsKept(e, hit, e.g[m.ty].fields[i], a.slots[i], m.slots[i]);
      }
    }
  }

  lemma {:induction false} CleanSlotIsKept(e: Env, hit: Matcher, fd: FieldDesc, a: Val, v: Val)
    requires ValidEnv(e) && SlotTyped(e.g, fd, a) && SlotTyped(e.g, fd, v)
    requires SlotPartOf(e, fd, a, v) && SlotClean(e, hit, fd, a)
    ensures SlotPartOf(e, fd, a, EraseSlot(e, hit, fd, v))
    decreases SlotBudget(v), v, 0
  {
    hide Clean, PartOf, Erase;
    if v.VMsgs? && !hit(fd) && !a.Unset? {
      forall j | 0 <= j < |v.items| ensures PartOf(e, a.items[j], Erase(e, hit, v.items[j])) {
        if a == v { Reflexive(e, v.items[j]); }
        CleanPartIsKept(e, hit, a.items[j], v.items[j]);
      }
    }
  }

  lemma {:induction false} OpenedIsPart(e: Env, hit: Matcher, fuel: nat, m: Msg)
    requires ValidEnv(e) && WellTyped(e.g, m) && m.ty == ANY && fuel > 0 && AnyRaw(m) != [] && Payload(e, m).Some?
    ensures PartOf(e, Closed(e, hit, fuel, m), m)
    decreases fuel, 0
  {
    hide PartOf, Closed, Payload, Reaches, Repack;
    var p := Payload(e, m).value;
    ClosedIsPart(e, hit, fuel - 1, p);
    ClosedOpened(e, hit, fuel, m);
    RepackedIsPart(e, m, Closed(e, hit, fuel - 1, p));
    Reflexive(e, m);
  }

  lemma UnopenedIsPart(e: Env, hit: Matcher, fuel: nat, m: Msg)
    requires ValidEnv(e) && WellTyped(e.g, m) && m.ty == ANY && (fuel == 0 || AnyRaw(m) == [] || Payload(e, m).None?)
    ensures PartOf(e, Closed(e, hit, fuel, m), m)
  {
    hide Payload, Reaches, Repack;
  }

  lemma {:induction false} WalkedIsPart(e: Env, hit: Matcher, fuel: nat, m: Msg)
    requires ValidEnv(e) && WellTyped(e.g, m) && m.ty != ANY && fuel > 0
    ensures PartOf(e, Closed(e, hit, fuel, m), m)
    decreases fuel, 0
  {
    hide SlotPartOf, ClosedSlot;
    var r := Closed(e, hit, fuel, m);
    forall i | 0 <= i < |m.slots| ensures SlotPartOf(e, e.g[m.ty].fields[i], r.slots[i], m.slots[i]) {
      ClosedSlotIsPart(e, hit, fuel - 1, e.g[m.ty].fields[i], m.slots[i]);
    }
  }

  /** The fail-closed walk adds nothing: what it leaves is part of the message, whatever it wiped. */
  lemma {:induction false} ClosedIsPart(e: Env, hit: Matcher, fuel: nat, m: Msg)
    requires ValidEnv(e) && WellTyped(e.g, m)
    ensures PartOf(e, Closed(e, hit, fuel, m), m)
    decreases fuel, 1
  {
    hide SlotTyped, Payload;
    if m.ty == ANY {
      if fuel > 0 && AnyRaw(m) != [] && Payload(e, m).Some? {
        OpenedIsPart(e, hit, fuel, m);
      } else {
        UnopenedIsPart(e, hit, fuel, m);
      }
    } else if fuel > 0 {
      WalkedIsPart(e, hit, fuel, m);
    }
  }

  lemma {:induction false} ClosedSlotIsPart(e: Env, hit: Matcher, fuel: nat, fd: FieldDesc, v: Val)
    requires ValidEnv(e) && SlotTyped(e.g, fd, v)
    ensures SlotPartOf(e, fd, ClosedSlot(e, hit, fuel, fd, v), v)
    decreases fuel, 2
  {
    hide PartOf, Closed;
    if v.VMsgs? && !hit(fd) {
      forall j | 0 <= j < |v.items| ensures PartOf(e, Closed(e, hit, fuel, v.items[j]), v.items[j]) {
        ClosedIsPart(e, hit, fuel, v.items[j]);
      }
    }
  }

  /** So both modes stay within the erasure, and the fail-loud one reaches it. */
  lemma WalkStaysWithinErasure(e: Env, hit: Matcher, m: Msg)
    requires ValidEnv(e) && WellTyped(e.g, m)
    ensures PartOf(e, Closed(e, hit, e.maxDepth, m), Erase(e, hit, m))
    ensures Verifiable(e, hit, e.maxDepth, m) ==> Closed(e, hit, e.maxDepth, m) == Erase(e, hit, m)
  {
    ClosedIsClean(e, hit, e.maxDepth, m);
    ClosedIsPart(e, hit, e.maxDepth, m);
    CleanPartIsKept(e, hit, Closed(e, hit, e.maxDepth, m), m);
    if Verifiable(e, hit, e.maxDepth, m) { VerifiableIsErased(e, hit, e.maxDepth, m); }
  }
}
