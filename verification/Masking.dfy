/** What the clearing walk must compute, on values, and the laws it must obey. */
module Masking {
  import opened Descriptors
  import opened Messages
  import opened Codec
  import opened Reachability

  /** The resolver of Any type URLs, and the depth bound of the walk. */
  datatype Env = Env(g: Graph, resolve: Bytes -> Option<TypeName>, maxDepth: nat)

  ghost predicate ValidEnv(e: Env) {
    && ValidGraph(e.g)
    && e.maxDepth > 0
    && e.resolve([]).None?
    && forall url :: e.resolve(url).Some? ==> e.resolve(url).value in e.g
  }

  function AnyUrl(m: Msg): Bytes requires |m.slots| == 2 { Data(m.slots[0]) }

  function AnyRaw(m: Msg): Bytes requires |m.slots| == 2 { Data(m.slots[1]) }

  /** Setting a bytes field without presence to the empty string leaves it unset. */
  function WithRaw(m: Msg, raw: Bytes): Msg
    requires |m.slots| == 2
  {
    m.(slots := [m.slots[0], if raw == [] then Unset else VScalar(raw)])
  }

  /** The Any `m` holding `p`, after its payload became `p'`. */
  function Repack(m: Msg, p: Msg, p': Msg): Msg
    requires |m.slots| == 2
  {
    if p' == p then m else WithRaw(m, Encode(p'))
  }

  /** The payload of `m`, when its URL resolves and its bytes parse. */
  function Payload(e: Env, m: Msg): (r: Option<Msg>)
    requires ValidEnv(e) && WellTyped(e.g, m) && m.ty == ANY
    ensures r.Some? ==> WellTyped(e.g, r.value) && r.value.ty in e.g
    ensures r.Some? ==> e.resolve(AnyUrl(m)) == Some(r.value.ty) && AnyUrl(m) != [] && Budget(r.value) < Budget(m)
  {
    var t := e.resolve(AnyUrl(m));
    if t.None? then None
    else
      assert SlotBudget(m.slots[0]) == |AnyUrl(m)| + 1;
      assert AnyRaw(m) != [] ==> SlotBudget(m.slots[1]) == |AnyRaw(m)| + 1;
      Decode(e.g, t.value, AnyRaw(m))
  }

  /** The fail-closed result with `fuel` levels left: hidden fields are cleared, content below
      the bound and Any payloads that cannot be checked are wiped. */
  ghost function Closed(e: Env, hit: Matcher, fuel: nat, m: Msg): (r: Msg)
    requires ValidEnv(e) && WellTyped(e.g, m)
    ensures WellTyped(e.g, r) && r.ty == m.ty
    decreases fuel, 0
  {
    if fuel == 0 then Blank(e.g, m.ty)
    else if m.ty == ANY then
      var t := e.resolve(AnyUrl(m));
      if AnyRaw(m) == [] then m
      else if t.None? then Blank(e.g, ANY)
      else if !Reaches(e.g, hit, t.value) then m
      else if Payload(e, m).None? then Blank(e.g, ANY)
      else Repack(m, Payload(e, m).value, Closed(e, hit, fuel - 1, Payload(e, m).value))
    else
      Msg(m.ty, seq(|m.slots|, i requires 0 <= i < |m.slots| =>
        ClosedSlot(e, hit, fuel - 1, e.g[m.ty].fields[i], m.slots[i])))
  }

  ghost function ClosedSlot(e: Env, hit: Matcher, fuel: nat, fd: FieldDesc, v: Val): (r: Val)
    requires ValidEnv(e) && SlotTyped(e.g, fd, v)
    ensures SlotTyped(e.g, fd, r)
    decreases fuel, 1
  {
    if hit(fd) then Unset
    else if v.VMsgs? then
      VMsgs(v.keys, seq(|v.items|, j requires 0 <= j < |v.items| => Closed(e, hit, fuel, v.items[j])))
    else v
  }

  /** What the fail-loud walk insists on: it stays above the bound, and every Any it has to open
      resolves and parses. */
  ghost predicate Verifiable(e: Env, hit: Matcher, fuel: nat, m: Msg)
    requires ValidEnv(e) && WellTyped(e.g, m)
    decreases fuel, 0
  {
    && fuel > 0
    && if m.ty == ANY then
         var t := e.resolve(AnyUrl(m));
         AnyRaw(m) == [] ||
         (t.Some? && (Reaches(e.g, hit, t.value) ==>
           Payload(e, m).Some? && Verifiable(e, hit, fuel - 1, Payload(e, m).value)))
       else
         forall i :: 0 <= i < |m.slots| ==>
           SlotVerifiable(e, hit, fuel - 1, e.g[m.ty].fields[i], m.slots[i])
  }

  ghost predicate SlotVerifiable(e: Env, hit: Matcher, fuel: nat, fd: FieldDesc, v: Val)
    requires ValidEnv(e) && SlotTyped(e.g, fd, v)
    decreases fuel, 1
  {
    !hit(fd) && v.VMsgs? ==> forall j :: 0 <= j < |v.items| ==> Verifiable(e, hit, fuel, v.items[j])
  }

  /** The pure erasure: exactly the hidden fields go, at any depth, through Any payloads. */
  ghost function Erase(e: Env, hit: Matcher, m: Msg): (r: Msg)
    requires ValidEnv(e) && WellTyped(e.g, m)
    ensures WellTyped(e.g, r) && r.ty == m.ty
    decreases Budget(m), m, 0
  {
    if m.ty == ANY then
      if AnyRaw(m) == [] || Payload(e, m).None? then m
      else Repack(m, Payload(e, m).value, Erase(e, hit, Payload(e, m).value))
    else
      Msg(m.ty, seq(|m.slots|, i requires 0 <= i < |m.slots| =>
        EraseSlot(e, hit, e.g[m.ty].fields[i], m.slots[i])))
  }

  ghost function EraseSlot(e: Env, hit: Matcher, fd: FieldDesc, v: Val): (r: Val)
    requires ValidEnv(e) && SlotTyped(e.g, fd, v)
    ensures SlotTyped(e.g, fd, r)
    decreases SlotBudget(v), v, 0
  {
    if hit(fd) then Unset
    else if v.VMsgs? then
      VMsgs(v.keys, seq(|v.items|, j requires 0 <= j < |v.items| => Erase(e, hit, v.items[j])))
    else v
  }

  /** No hidden field is set anywhere in `m`, nor in any payload that can still be decoded. */
  ghost predicate Clean(e: Env, hit: Matcher, m: Msg)
    requires ValidEnv(e) && WellTyped(e.g, m)
    decreases Budget(m), m, 0
  {
    if m.ty == ANY then
      AnyRaw(m) == [] || Payload(e, m).None? || Clean(e, hit, Payload(e, m).value)
    else
      forall i :: 0 <= i < |m.slots| ==> SlotClean(e, hit, e.g[m.ty].fields[i], m.slots[i])
  }

  ghost predicate SlotClean(e: Env, hit: Matcher, fd: FieldDesc, v: Val)
    requires ValidEnv(e) && SlotTyped(e.g, fd, v)
    decreases SlotBudget(v), v, 0
  {
    && (hit(fd) ==> v.Unset?)
    && (v.VMsgs? ==> forall j :: 0 <= j < |v.items| ==> Clean(e, hit, v.items[j]))
  }

  /** Repacking stores exactly the new payload, and leaves the Any alone only if nothing changed. */
  lemma RepackPayload(e: Env, m: Msg, p': Msg)
    requires ValidEnv(e) && WellTyped(e.g, m) && m.ty == ANY && AnyRaw(m) != []
    requires Payload(e, m).Some? && WellTyped(e.g, p') && p'.ty == Payload(e, m).value.ty
    ensures var r := Repack(m, Payload(e, m).value, p');
      && WellTyped(e.g, r) && AnyUrl(r) == AnyUrl(m)
      && Payload(e, r) == Some(p')
      && (r == m <==> p' == Payload(e, m).value)
      && (AnyRaw(r) == [] ==> p' == Blank(e.g, p'.ty))
  {
    RoundTrip(e.g, p');
    EmptyIsBlank(e.g, p');
  }

  /** Nothing below a cold type can be hidden: the erasure has nothing to do there, and the walk
      only enforces its bound. This is what makes skipping a payload sound. */
  lemma {:induction false} ColdMessage(e: Env, hit: Matcher, m: Msg)
    requires ValidEnv(e) && WellTyped(e.g, m) && !Reaches(e.g, hit, m.ty)
    ensures Clean(e, hit, m) && Erase(e, hit, m) == m
    decreases m
  {
    Cold(e.g, hit, m.ty);
    forall i | 0 <= i < |m.slots|
      ensures SlotClean(e, hit, e.g[m.ty].fields[i], m.slots[i])
      ensures EraseSlot(e, hit, e.g[m.ty].fields[i], m.slots[i]) == m.slots[i]
    {
      var v := m.slots[i];
      if v.VMsgs? {
        forall j | 0 <= j < |v.items| ensures Clean(e, hit, v.items[j]) && Erase(e, hit, v.items[j]) == v.items[j] {
          ColdMessage(e, hit, v.items[j]);
        }
      }
    }
  }

  /** On a cold type the walk succeeds, and changes nothing, exactly above the depth bound. */
  lemma {:induction false} ColdWalk(e: Env, hit: Matcher, fuel: nat, m: Msg)
    requires ValidEnv(e) && WellTyped(e.g, m) && !Reaches(e.g, hit, m.ty)
    ensures Verifiable(e, hit, fuel, m) <==> NestsWithin(m, fuel)
    ensures NestsWithin(m, fuel) ==> Closed(e, hit, fuel, m) == m
    decreases m
  {
    if fuel > 0 {
      Cold(e.g, hit, m.ty);
      forall i | 0 <= i < |m.slots|
        ensures SlotVerifiable(e, hit, fuel - 1, e.g[m.ty].fields[i], m.slots[i]) <==>
          SlotNestsWithin(m.slots[i], fuel - 1)
        ensures SlotNestsWithin(m.slots[i], fuel - 1) ==>
          ClosedSlot(e, hit, fuel - 1, e.g[m.ty].fields[i], m.slots[i]) == m.slots[i]
      {
        var v := m.slots[i];
        if v.VMsgs? {
          forall j | 0 <= j < |v.items|
            ensures Verifiable(e, hit, fuel - 1, v.items[j]) <==> NestsWithin(v.items[j], fuel - 1)
            ensures NestsWithin(v.items[j], fuel - 1) ==> Closed(e, hit, fuel - 1, v.items[j]) == v.items[j]
          {
            ColdWalk(e, hit, fuel - 1, v.items[j]);
          }
        }
      }
    }
  }

  /** One pass over an Any, by cases. */
  lemma ClosedAny(e: Env, hit: Matcher, fuel: nat, m: Msg)
    requires ValidEnv(e) && WellTyped(e.g, m) && m.ty == ANY && fuel > 0
    ensures AnyRaw(m) == [] ==> Closed(e, hit, fuel, m) == m
    ensures AnyRaw(m) != [] && e.resolve(AnyUrl(m)).None? ==> Closed(e, hit, fuel, m) == Blank(e.g, ANY)
    ensures AnyRaw(m) != [] && e.resolve(AnyUrl(m)).Some? && !Reaches(e.g, hit, e.resolve(AnyUrl(m)).value) ==>
      Closed(e, hit, fuel, m) == m
    ensures Payload(e, m).None? && AnyRaw(m) != [] && e.resolve(AnyUrl(m)).Some?
      ==> (Reaches(e.g, hit, e.resolve(AnyUrl(m)).value) ==> Closed(e, hit, fuel, m) == Blank(e.g, ANY))
  {
    hide Reaches, Repack, Payload;
  }

  /** What the fail-loud walk insists on for an Any, by cases. */
  lemma VerifiableAny(e: Env, hit: Matcher, fuel: nat, m: Msg)
    requires ValidEnv(e) && WellTyped(e.g, m) && m.ty == ANY && fuel > 0
    ensures Verifiable(e, hit, fuel, m) <==>
      AnyRaw(m) == [] ||
      (e.resolve(AnyUrl(m)).Some? && (Reaches(e.g, hit, e.resolve(AnyUrl(m)).value) ==>
        Payload(e, m).Some? && Verifiable(e, hit, fuel - 1, Payload(e, m).value)))
  {
    hide Reaches, Payload;
  }

  lemma RepackIs(m: Msg, p: Msg, p': Msg)
    requires |m.slots| == 2
    ensures Repack(m, p, p') == if p' == p then m else WithRaw(m, Encode(p'))
  {
  }

  lemma PayloadIs(e: Env, m: Msg)
    requires ValidEnv(e) && WellTyped(e.g, m) && m.ty == ANY
    ensures Payload(e, m) ==
      match e.resolve(AnyUrl(m)) case None => None case Some(t) => Decode(e.g, t, AnyRaw(m))
  {
    hide Decode;
  }

  /** One pass over an Any whose payload it opens. */
  lemma ClosedOpened(e: Env, hit: Matcher, fuel: nat, m: Msg)
    requires ValidEnv(e) && WellTyped(e.g, m) && m.ty == ANY && fuel > 0 && AnyRaw(m) != []
    requires Payload(e, m).Some?
    ensures Closed(e, hit, fuel, m) ==
      if Reaches(e.g, hit, e.resolve(AnyUrl(m)).value)
      then Repack(m, Payload(e, m).value, Closed(e, hit, fuel - 1, Payload(e, m).value)) else m
  {
  }

  lemma BlankIsClean(e: Env, hit: Matcher, t: TypeName)
    requires ValidEnv(e) && t in e.g
    ensures Clean(e, hit, Blank(e.g, t))
  {
  }

  lemma RepackedIsClean(e: Env, hit: Matcher, m: Msg, pay': Msg)
    requires ValidEnv(e) && WellTyped(e.g, m) && m.ty == ANY && AnyRaw(m) != []
    requires Payload(e, m).Some? && WellTyped(e.g, pay') && pay'.ty == Payload(e, m).value.ty
    requires Clean(e, hit, pay')
    ensures WellTyped(e.g, Repack(m, Payload(e, m).value, pay'))
    ensures Clean(e, hit, Repack(m, Payload(e, m).value, pay'))
  {
    RepackPayload(e, m, pay');
  }

  lemma {:induction false} ClosedAnyIsClean(e: Env, hit: Matcher, fuel: nat, m: Msg)
    requires ValidEnv(e) && WellTyped(e.g, m) && m.ty == ANY && fuel > 0
    ensures Clean(e, hit, Closed(e, hit, fuel, m))
    decreases fuel, 0
  {
    hide Closed, Clean, Reaches, Repack, Payload;
    ClosedAny(e, hit, fuel, m);
    if AnyRaw(m) == [] || Payload(e, m).None? {
      UnreadableIsClean(e, hit, m);
      BlankIsClean(e, hit, ANY);
    } else {
      var pay := Payload(e, m).value;
      ClosedOpened(e, hit, fuel, m);
      if Reaches(e.g, hit, pay.ty) {
        ClosedIsClean(e, hit, fuel - 1, pay);
        RepackedIsClean(e, hit, m, Closed(e, hit, fuel - 1, pay));
      } else {
        ColdMessage(e, hit, pay);
        CleanPayload(e, hit, m);
      }
    }
  }

  lemma UnreadableIsClean(e: Env, hit: Matcher, m: Msg)
    requires ValidEnv(e) && WellTyped(e.g, m) && m.ty == ANY && (AnyRaw(m) == [] || Payload(e, m).None?)
    ensures Clean(e, hit, m)
  {
  }

  lemma CleanPayload(e: Env, hit: Matcher, m: Msg)
    requires ValidEnv(e) && WellTyped(e.g, m) && m.ty == ANY && Payload(e, m).Some?
    requires Clean(e, hit, Payload(e, m).value)
    ensures Clean(e, hit, m)
  {
  }

  lemma {:induction false} ClosedSlotIsClean(e: Env, hit: Matcher, fuel: nat, fd: FieldDesc, v: Val)
    requires ValidEnv(e) && SlotTyped(e.g, fd, v)
    ensures SlotClean(e, hit, fd, ClosedSlot(e, hit, fuel, fd, v))
    decreases fuel, 2
  {
    hide Clean, Closed;
    if v.VMsgs? && !hit(fd) {
      forall j | 0 <= j < |v.items| ensures Clean(e, hit, Closed(e, hit, fuel, v.items[j])) {
        ClosedIsClean(e, hit, fuel, v.items[j]);
      }
    }
  }

  /** After the fail-closed walk nothing hidden is set anywhere. */
  lemma {:induction false} ClosedIsClean(e: Env, hit: Matcher, fuel: nat, m: Msg)
    requires ValidEnv(e) && WellTyped(e.g, m)
    ensures Clean(e, hit, Closed(e, hit, fuel, m))
    decreases fuel, 1
  {
    if fuel == 0 {
      BlankIsClean(e, hit, m.ty);
    } else if m.ty == ANY {
      ClosedAnyIsClean(e, hit, fuel, m);
    } else {
      hide SlotClean, ClosedSlot;
      var r := Closed(e, hit, fuel, m);
      forall i | 0 <= i < |m.slots| ensures SlotClean(e, hit, e.g[m.ty].fields[i], r.slots[i]) {
        ClosedSlotIsClean(e, hit, fuel - 1, e.g[m.ty].fields[i], m.slots[i]);
      }
    }
  }

  /** When the fail-loud walk succeeds, fail-closed and pure erasure agree: a success is never
      truncated. */
  lemma {:induction false} VerifiableIsErased(e: Env, hit: Matcher, fuel: nat, m: Msg)
    requires ValidEnv(e) && WellTyped(e.g, m) && Verifiable(e, hit, fuel, m)
    ensures Closed(e, hit, fuel, m) == Erase(e, hit, m)
    decreases fuel
  {
    if m.ty == ANY {
      if AnyRaw(m) != [] && Payload(e, m).Some? {
        if Reaches(e.g, hit, e.resolve(AnyUrl(m)).value) {
          VerifiableIsErased(e, hit, fuel - 1, Payload(e, m).value);
        } else {
          ColdMessage(e, hit, Payload(e, m).value);
        }
      }
    } else {
      forall i | 0 <= i < |m.slots|
        ensures ClosedSlot(e, hit, fuel - 1, e.g[m.ty].fields[i], m.slots[i]) ==
          EraseSlot(e, hit, e.g[m.ty].fields[i], m.slots[i])
      {
        var fd, v := e.g[m.ty].fields[i], m.slots[i];
        assert SlotVerifiable(e, hit, fuel - 1, fd, v);
        if v.VMsgs? && !hit(fd) {
          forall j | 0 <= j < |v.items| ensures Closed(e, hit, fuel - 1, v.items[j]) == Erase(e, hit, v.items[j]) {
            VerifiableIsErased(e, hit, fuel - 1, v.items[j]);
          }
        }
      }
    }
  }

  /** The erasure leaves a message alone exactly when nothing hidden is set in it. */
  lemma {:induction false} EraseFixesClean(e: Env, hit: Matcher, m: Msg)
    requires ValidEnv(e) && WellTyped(e.g, m)
    ensures Erase(e, hit, m) == m <==> Clean(e, hit, m)
    decreases Budget(m), m
  {
    var r := Erase(e, hit, m);
    if m.ty == ANY {
      if AnyRaw(m) != [] && Payload(e, m).Some? {
        EraseFixesClean(e, hit, Payload(e, m).value);
        RepackPayload(e, m, Erase(e, hit, Payload(e, m).value));
      }
    } else {
      forall i | 0 <= i < |m.slots|
        ensures r.slots[i] == m.slots[i] <==> SlotClean(e, hit, e.g[m.ty].fields[i], m.slots[i])
      {
        var fd, v := e.g[m.ty].fields[i], m.slots[i];
        assert r.slots[i] == EraseSlot(e, hit, fd, v);
        if v.VMsgs? && !hit(fd) {
          forall j | 0 <= j < |v.items| ensures Erase(e, hit, v.items[j]) == v.items[j] <==> Clean(e, hit, v.items[j]) {
            EraseFixesClean(e, hit, v.items[j]);
          }
          assert r.slots[i].items == v.items <==> forall j :: 0 <= j < |v.items| ==> r.slots[i].items[j] == v.items[j];
        }
      }
      assert r.slots == m.slots <==> forall i :: 0 <= i < |m.slots| ==> r.slots[i] == m.slots[i];
    }
  }

  lemma BlankIsFixed(e: Env, hit: Matcher, fuel: nat, t: TypeName)
    requires ValidEnv(e) && t in e.g
    ensures Closed(e, hit, fuel, Blank(e.g, t)) == Blank(e.g, t)
  {
    var m := Blank(e.g, t);
    if fuel > 0 && t != ANY {
      assert forall i :: 0 <= i < |m.slots| ==> ClosedSlot(e, hit, fuel - 1, e.g[t].fields[i], m.slots[i]) == Unset;
    }
  }

  /** Clearing for `q` after clearing for `p` changes nothing when `q` hides nothing below this
      type: the generator may leave the second call out. */
  lemma {:induction false} ColdAfter(e: Env, p: Matcher, q: Matcher, fuel: nat, m: Msg)
    requires ValidEnv(e) && WellTyped(e.g, m) && !Reaches(e.g, q, m.ty)
    ensures Closed(e, q, fuel, Closed(e, p, fuel, m)) == Closed(e, p, fuel, m)
    decreases fuel
  {
    Cold(e.g, q, m.ty);
    var r := Closed(e, p, fuel, m);
    if fuel > 0 {
      forall i | 0 <= i < |m.slots| ensures ClosedSlot(e, q, fuel - 1, e.g[m.ty].fields[i], r.slots[i]) == r.slots[i] {
        var fd, v := e.g[m.ty].fields[i], m.slots[i];
        assert r.slots[i] == ClosedSlot(e, p, fuel - 1, fd, v);
        if v.VMsgs? && !p(fd) {
          forall j | 0 <= j < |v.items|
            ensures Closed(e, q, fuel - 1, r.slots[i].items[j]) == r.slots[i].items[j]
          {
            ColdAfter(e, p, q, fuel - 1, v.items[j]);
          }
        }
      }
    }
  }

  /** What a weaker policy would clear is already gone when a stronger one clears nothing. */
  lemma {:induction false} FixedForPart(e: Env, p: Matcher, q: Matcher, both: Matcher, fuel: nat, m: Msg)
    requires ValidEnv(e) && WellTyped(e.g, m) && IsUnion(p, q, both)
    requires Closed(e, both, fuel, m) == m
    ensures Closed(e, p, fuel, m) == m
    decreases fuel, 2
  {
    if fuel > 0 {
      if m.ty == ANY {
        AnyFixedForPart(e, p, q, both, fuel, m);
      } else {
        var r := Closed(e, both, fuel, m);
        forall i | 0 <= i < |m.slots|
          ensures ClosedSlot(e, p, fuel - 1, e.g[m.ty].fields[i], m.slots[i]) == m.slots[i]
        {
          var v := m.slots[i];
          assert r.slots[i] == v;
          if v.VMsgs? {
            forall j | 0 <= j < |v.items| ensures Closed(e, p, fuel - 1, v.items[j]) == v.items[j] {
              assert r.slots[i].items[j] == v.items[j];
              FixedForPart(e, p, q, both, fuel - 1, v.items[j]);
            }
          }
        }
      }
    }
  }

  lemma {:induction false} OpenedFixedForPart(e: Env, p: Matcher, q: Matcher, both: Matcher, fuel: nat, m: Msg)
    requires ValidEnv(e) && WellTyped(e.g, m) && IsUnion(p, q, both) && m.ty == ANY && fuel > 0
    requires AnyRaw(m) != [] && Payload(e, m).Some? && Reaches(e.g, both, Payload(e, m).value.ty)
    requires Closed(e, both, fuel, m) == m
    ensures Closed(e, p, fuel, m) == m
    decreases fuel, 0
  {
    hide Closed, Reaches, Payload;
    var pay := Payload(e, m).value;
    ClosedOpened(e, both, fuel, m);
    ClosedOpened(e, p, fuel, m);
    RepackPayload(e, m, Closed(e, both, fuel - 1, pay));
    FixedForPart(e, p, q, both, fuel - 1, pay);
  }

  lemma {:induction false} AnyFixedForPart(e: Env, p: Matcher, q: Matcher, both: Matcher, fuel: nat, m: Msg)
    requires ValidEnv(e) && WellTyped(e.g, m) && IsUnion(p, q, both) && m.ty == ANY && fuel > 0
    requires Closed(e, both, fuel, m) == m
    ensures Closed(e, p, fuel, m) == m
    decreases fuel, 1
  {
    hide Closed, Reaches, Payload, Repack;
    ClosedAny(e, p, fuel, m);
    ClosedAny(e, both, fuel, m);
    if AnyRaw(m) != [] && e.resolve(AnyUrl(m)).Some? {
      var t := e.resolve(AnyUrl(m)).value;
      ReachesUnion(e.g, p, q, both, t);
      if Reaches(e.g, both, t) && Payload(e, m).Some? { OpenedFixedForPart(e, p, q, both, fuel, m); }
    }
  }

  lemma RepackTwice(e: Env, m: Msg, pay: Msg, pay1: Msg, pay2: Msg)
    requires ValidEnv(e) && WellTyped(e.g, m) && m.ty == ANY && AnyRaw(m) != []
    requires Payload(e, m) == Some(pay) && WellTyped(e.g, pay1) && pay1.ty == pay.ty
    requires pay2 == pay ==> pay1 == pay
    ensures Repack(Repack(m, pay, pay1), pay1, pay2) == Repack(m, pay, pay2)
  {
  }

  /** The second pass over an Any the first pass repacked. */
  lemma ComposeRepacked(e: Env, q: Matcher, fuel: nat, m: Msg, pay1: Msg)
    requires ValidEnv(e) && WellTyped(e.g, m) && m.ty == ANY && fuel > 0 && AnyRaw(m) != []
    requires Payload(e, m).Some? && WellTyped(e.g, pay1) && pay1.ty == Payload(e, m).value.ty
    requires var pay, pay2 := Payload(e, m).value, Closed(e, q, fuel - 1, pay1);
      && (pay2 == pay ==> pay1 == pay)
      && (!Reaches(e.g, q, e.resolve(AnyUrl(m)).value) ==> pay2 == pay1)
    ensures Closed(e, q, fuel, Repack(m, Payload(e, m).value, pay1)) ==
      Repack(m, Payload(e, m).value, Closed(e, q, fuel - 1, pay1))
  {
    hide Closed, Reaches, Payload;
    var pay, pay2 := Payload(e, m).value, Closed(e, q, fuel - 1, pay1);
    var m1 := Repack(m, pay, pay1);
    RepackPayload(e, m, pay1);
    ClosedAny(e, q, fuel, m1);
    RepackTwice(e, m, pay, pay1, pay2);
    if AnyRaw(m1) == [] {
      BlankIsFixed(e, q, fuel - 1, pay1.ty);
    } else {
      ClosedOpened(e, q, fuel, m1);
    }
  }

  /** Both passes leave alone, or wipe, an Any that neither can open. */
  lemma ComposeShut(e: Env, p: Matcher, q: Matcher, both: Matcher, fuel: nat, m: Msg)
    requires ValidEnv(e) && WellTyped(e.g, m) && IsUnion(p, q, both)
    requires m.ty == ANY && fuel > 0
    requires AnyRaw(m) == [] || Payload(e, m).None?
    ensures Closed(e, q, fuel, Closed(e, p, fuel, m)) == Closed(e, both, fuel, m)
  {
    var url := e.resolve(AnyUrl(m));
    if url.Some? { ReachesUnion(e.g, p, q, both, url.value); }
  }

  /** How the two passes relate on the payload of an Any. */
  lemma {:induction false} ComposePayload(e: Env, p: Matcher, q: Matcher, both: Matcher, fuel: nat, m: Msg)
    requires ValidEnv(e) && WellTyped(e.g, m) && IsUnion(p, q, both)
    ensures var m1, m2 := Closed(e, p, fuel, m), Closed(e, both, fuel, m);
      && Closed(e, q, fuel, m1) == m2
      && (m2 == m ==> m1 == m)
      && (!Reaches(e.g, q, m.ty) ==> m2 == m1)
      && (!Reaches(e.g, p, m.ty) ==> Closed(e, q, fuel, m) == m2)
    decreases fuel, 2
  {
    Compose(e, p, q, both, fuel, m);
    if Closed(e, both, fuel, m) == m { FixedForPart(e, p, q, both, fuel, m); }
    if !Reaches(e.g, q, m.ty) { ColdAfter(e, p, q, fuel, m); }
    if !Reaches(e.g, p, m.ty) {
      Compose(e, q, p, both, fuel, m);
      ColdAfter(e, q, p, fuel, m);
    }
  }

  /** Both passes over an Any with a payload, given how they relate on the payload. */
  lemma ComposeOpened(e: Env, p: Matcher, q: Matcher, both: Matcher, fuel: nat, m: Msg, pay: Msg)
    requires ValidEnv(e) && WellTyped(e.g, m) && m.ty == ANY && fuel > 0
    requires AnyRaw(m) != [] && Payload(e, m) == Some(pay)
    requires Reaches(e.g, both, pay.ty) <==> Reaches(e.g, p, pay.ty) || Reaches(e.g, q, pay.ty)
    requires var m1, m2 := Closed(e, p, fuel - 1, pay), Closed(e, both, fuel - 1, pay);
      && Closed(e, q, fuel - 1, m1) == m2
      && (m2 == pay ==> m1 == pay)
      && (!Reaches(e.g, q, pay.ty) ==> m2 == m1)
      && (!Reaches(e.g, p, pay.ty) ==> Closed(e, q, fuel - 1, pay) == m2)
    ensures Closed(e, q, fuel, Closed(e, p, fuel, m)) == Closed(e, both, fuel, m)
  {
    ClosedOpened(e, p, fuel, m);
    ClosedOpened(e, both, fuel, m);
    if Reaches(e.g, p, pay.ty) {
      ComposeRepacked(e, q, fuel, m, Closed(e, p, fuel - 1, pay));
    } else {
      ClosedOpened(e, q, fuel, m);
    }
  }

  lemma {:induction false} ComposeAny(e: Env, p: Matcher, q: Matcher, both: Matcher, fuel: nat, m: Msg)
    requires ValidEnv(e) && WellTyped(e.g, m) && IsUnion(p, q, both)
    requires m.ty == ANY && fuel > 0
    requires AnyRaw(m) != [] && Payload(e, m).Some?
    ensures Closed(e, q, fuel, Closed(e, p, fuel, m)) == Closed(e, both, fuel, m)
    decreases fuel, 0
  {
    hide Closed, Payload, Reaches;
    var pay := Payload(e, m).value;
    ReachesUnion(e.g, p, q, both, pay.ty);
    ComposePayload(e, p, q, both, fuel - 1, pay);
    ComposeOpened(e, p, q, both, fuel, m, pay);
  }

  lemma {:induction false} ComposeSlot(
    e: Env, p: Matcher, q: Matcher, both: Matcher, fuel: nat, fd: FieldDesc, v: Val)
    requires ValidEnv(e) && SlotTyped(e.g, fd, v) && IsUnion(p, q, both)
    ensures ClosedSlot(e, q, fuel, fd, ClosedSlot(e, p, fuel, fd, v)) == ClosedSlot(e, both, fuel, fd, v)
    decreases fuel, 3
  {
    hide Closed;
    if v.VMsgs? && !both(fd) {
      forall j | 0 <= j < |v.items|
        ensures Closed(e, q, fuel, Closed(e, p, fuel, v.items[j])) == Closed(e, both, fuel, v.items[j])
      {
        Compose(e, p, q, both, fuel, v.items[j]);
      }
    }
  }

  /** Two clearing passes are one pass for the union of their policies. */
  lemma {:induction false} Compose(e: Env, p: Matcher, q: Matcher, both: Matcher, fuel: nat, m: Msg)
    requires ValidEnv(e) && WellTyped(e.g, m) && IsUnion(p, q, both)
    ensures Closed(e, q, fuel, Closed(e, p, fuel, m)) == Closed(e, both, fuel, m)
    decreases fuel, 1
  {
    var m1, m2 := Closed(e, p, fuel, m), Closed(e, both, fuel, m);
    if fuel > 0 {
      if m.ty == ANY {
        if AnyRaw(m) == [] || Payload(e, m).None? {
          ComposeShut(e, p, q, both, fuel, m);
        } else {
          ComposeAny(e, p, q, both, fuel, m);
        }
      } else {
        hide ClosedSlot;
        forall i | 0 <= i < |m.slots|
          ensures ClosedSlot(e, q, fuel - 1, e.g[m.ty].fields[i], m1.slots[i]) == m2.slots[i]
        {
          ComposeSlot(e, p, q, both, fuel - 1, e.g[m.ty].fields[i], m.slots[i]);
        }
      }
    }
  }

  /** Two passes commute. */
  lemma PassesCommute(e: Env, p: Matcher, q: Matcher, m: Msg)
    requires ValidEnv(e) && WellTyped(e.g, m)
    ensures Closed(e, q, e.maxDepth, Closed(e, p, e.maxDepth, m)) ==
      Closed(e, p, e.maxDepth, Closed(e, q, e.maxDepth, m))
  {
    var both := (fd: FieldDesc) => p(fd) || q(fd);
    Compose(e, p, q, both, e.maxDepth, m);
    Compose(e, q, p, both, e.maxDepth, m);
  }

  /** A second run of the walk changes nothing. */
  lemma SecondPassIsIdentity(e: Env, hit: Matcher, m: Msg)
    requires ValidEnv(e) && WellTyped(e.g, m)
    ensures Closed(e, hit, e.maxDepth, Closed(e, hit, e.maxDepth, m)) == Closed(e, hit, e.maxDepth, m)
  {
    Compose(e, hit, hit, hit, e.maxDepth, m);
  }
}
