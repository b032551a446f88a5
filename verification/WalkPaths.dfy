/** What the clearing walk meets, position by position: when the fail-loud walk gives up, and what
    the fail-closed walk leaves at each position. */
module WalkPaths {
  import opened Descriptors
  import opened Messages
  import opened Reachability
  import opened Masking

  /** One hop down a message: to an item of a field, or into the payload of an Any. */
  datatype Hop = Item(i: nat, j: nat) | Open

  predicate HasItem(m: Msg, i: nat, j: nat) {
    i < |m.slots| && m.slots[i].VMsgs? && j < |m.slots[i].items|
  }

  /** The message at the end of a path, if there is one. */
  ghost function At(e: Env, m: Msg, path: seq<Hop>): (r: Option<Msg>)
    requires ValidEnv(e) && WellTyped(e.g, m)
    ensures r.Some? ==> WellTyped(e.g, r.value)
    decreases |path|
  {
    if path == [] then Some(m)
    else
      match path[0]
      case Item(i, j) =>
        if HasItem(m, i, j) then ItemTyped(e, m, i, j); At(e, m.slots[i].items[j], path[1..]) else None
      case Open =>
        if m.ty == ANY && Payload(e, m).Some? then At(e, Payload(e, m).value, path[1..]) else None
  }

  lemma ItemTyped(e: Env, m: Msg, i: nat, j: nat)
    requires ValidEnv(e) && WellTyped(e.g, m) && HasItem(m, i, j)
    ensures WellTyped(e.g, m.slots[i].items[j]) && SlotTyped(e.g, e.g[m.ty].fields[i], m.slots[i])
    ensures m.ty != ANY
  {
    assert SlotTyped(e.g, e.g[m.ty].fields[i], m.slots[i]);
  }

  /** An Any with bytes whose type resolves, and may hide something. */
  ghost predicate MustOpen(e: Env, hit: Matcher, m: Msg)
    requires ValidEnv(e) && WellTyped(e.g, m)
  {
    && m.ty == ANY && AnyRaw(m) != [] && e.resolve(AnyUrl(m)).Some?
    && Reaches(e.g, hit, e.resolve(AnyUrl(m)).value)
  }

  /** An Any with bytes that has to be judged and cannot be: its type does not resolve, or its bytes
      do not parse although something may be hidden there. */
  ghost predicate Stuck(e: Env, hit: Matcher, m: Msg)
    requires ValidEnv(e) && WellTyped(e.g, m)
  {
    && m.ty == ANY && AnyRaw(m) != []
    && (e.resolve(AnyUrl(m)).None? || (MustOpen(e, hit, m) && Payload(e, m).None?))
  }

  /** The path passes no hidden field, and no Any that need not be opened. */
  ghost predicate Met(e: Env, hit: Matcher, m: Msg, path: seq<Hop>)
    requires ValidEnv(e) && WellTyped(e.g, m)
    decreases |path|
  {
    path == [] ||
    match path[0]
    case Item(i, j) =>
      && HasItem(m, i, j) && !hit(e.g[m.ty].fields[i])
      && (ItemTyped(e, m, i, j); Met(e, hit, m.slots[i].items[j], path[1..]))
    case Open =>
      MustOpen(e, hit, m) && Payload(e, m).Some? && Met(e, hit, Payload(e, m).value, path[1..])
  }

  lemma {:induction false} MetIsThere(e: Env, hit: Matcher, m: Msg, path: seq<Hop>)
    requires ValidEnv(e) && WellTyped(e.g, m) && Met(e, hit, m, path)
    ensures At(e, m, path).Some?
    decreases |path|
  {
    hide Payload, Reaches;
    if path != [] {
      match path[0]
      case Item(i, j) =>
        ItemTyped(e, m, i, j);
        MetIsThere(e, hit, m.slots[i].items[j], path[1..]);
      case Open => MetIsThere(e, hit, Payload(e, m).value, path[1..]);
    }
  }

  // ----- when the fail-loud walk succeeds -----

  /** What may stop a fail-loud walk at a position it meets. */
  ghost predicate PassableAt(e: Env, hit: Matcher, fuel: nat, m: Msg, path: seq<Hop>)
    requires ValidEnv(e) && WellTyped(e.g, m) && Met(e, hit, m, path)
  {
    MetIsThere(e, hit, m, path);
    |path| < fuel && !Stuck(e, hit, At(e, m, path).value)
  }

  ghost predicate AllPassable(e: Env, hit: Matcher, fuel: nat, m: Msg)
    requires ValidEnv(e) && WellTyped(e.g, m)
  {
    forall path :: Met(e, hit, m, path) ==> PassableAt(e, hit, fuel, m, path)
  }

  lemma AtItem(e: Env, hit: Matcher, m: Msg, i: nat, j: nat, path: seq<Hop>)
    requires ValidEnv(e) && WellTyped(e.g, m) && HasItem(m, i, j) && !hit(e.g[m.ty].fields[i])
    requires WellTyped(e.g, m.slots[i].items[j])
    ensures Met(e, hit, m, [Item(i, j)] + path) <==> Met(e, hit, m.slots[i].items[j], path)
    ensures At(e, m, [Item(i, j)] + path) == At(e, m.slots[i].items[j], path)
  {
    assert ([Item(i, j)] + path)[1..] == path;
  }

  lemma AtOpen(e: Env, hit: Matcher, m: Msg, path: seq<Hop>)
    requires ValidEnv(e) && WellTyped(e.g, m) && MustOpen(e, hit, m) && Payload(e, m).Some?
    ensures Met(e, hit, m, [Open] + path) <==> Met(e, hit, Payload(e, m).value, path)
    ensures At(e, m, [Open] + path) == At(e, Payload(e, m).value, path)
  {
    hide Payload, Reaches;
    assert ([Open] + path)[1..] == path;
  }

  /** If nothing stops the walk of the whole, nothing stops that of an item. */
  lemma ItemPassable(e: Env, hit: Matcher, fuel: nat, m: Msg, i: nat, j: nat)
    requires ValidEnv(e) && WellTyped(e.g, m) && HasItem(m, i, j) && !hit(e.g[m.ty].fields[i])
    requires fuel > 0 && AllPassable(e, hit, fuel, m)
    ensures WellTyped(e.g, m.slots[i].items[j]) && AllPassable(e, hit, fuel - 1, m.slots[i].items[j])
  {
    hide Stuck, Met, At;
    ItemTyped(e, m, i, j);
    var child := m.slots[i].items[j];
    forall path | Met(e, hit, child, path) ensures PassableAt(e, hit, fuel - 1, child, path) {
      AtItem(e, hit, m, i, j, path);
      assert PassableAt(e, hit, fuel, m, [Item(i, j)] + path);
    }
  }

  lemma PayloadPassable(e: Env, hit: Matcher, fuel: nat, m: Msg)
    requires ValidEnv(e) && WellTyped(e.g, m) && MustOpen(e, hit, m) && Payload(e, m).Some?
    requires fuel > 0 && AllPassable(e, hit, fuel, m)
    ensures AllPassable(e, hit, fuel - 1, Payload(e, m).value)
  {
    hide Stuck, Met, At, Payload, Reaches;
    var child := Payload(e, m).value;
    forall path | Met(e, hit, child, path) ensures PassableAt(e, hit, fuel - 1, child, path) {
      AtOpen(e, hit, m, path);
      assert PassableAt(e, hit, fuel, m, [Open] + path);
    }
  }

  /** The fail-loud walk succeeds exactly when every position outside hidden fields stays above the
      bound, and no Any there has a type that does not resolve or, where it must be opened, bytes
      that do not parse. What hidden fields hold plays no part. */
  lemma {:induction false} VerifiableExactly(e: Env, hit: Matcher, fuel: nat, m: Msg)
    requires ValidEnv(e) && WellTyped(e.g, m)
    ensures Verifiable(e, hit, fuel, m) <==> AllPassable(e, hit, fuel, m)
    decreases fuel
  {
    hide AllPassable;
    if Verifiable(e, hit, fuel, m) {
      forall path | Met(e, hit, m, path) ensures PassableAt(e, hit, fuel, m, path) {
        VerifiedPasses(e, hit, fuel, m, path);
      }
      PassedAll(e, hit, fuel, m);
    }
    if AllPassable(e, hit, fuel, m) { PassableVerifies(e, hit, fuel, m); }
  }

  lemma PassedAll(e: Env, hit: Matcher, fuel: nat, m: Msg)
    requires ValidEnv(e) && WellTyped(e.g, m)
    requires forall path :: Met(e, hit, m, path) ==> PassableAt(e, hit, fuel, m, path)
    ensures AllPassable(e, hit, fuel, m)
  {
  }

  lemma {:induction false} VerifiedPasses(e: Env, hit: Matcher, fuel: nat, m: Msg, path: seq<Hop>)
    requires ValidEnv(e) && WellTyped(e.g, m) && Verifiable(e, hit, fuel, m) && Met(e, hit, m, path)
    ensures PassableAt(e, hit, fuel, m, path)
    decreases |path|
  {
    hide Payload, Reaches;
    if path != [] {
      match path[0]
      case Item(i, j) =>
        ItemTyped(e, m, i, j);
        assert SlotVerifiable(e, hit, fuel - 1, e.g[m.ty].fields[i], m.slots[i]);
        VerifiedPasses(e, hit, fuel - 1, m.slots[i].items[j], path[1..]);
      case Open => VerifiedPasses(e, hit, fuel - 1, Payload(e, m).value, path[1..]);
    }
  }

  lemma RootPasses(e: Env, hit: Matcher, fuel: nat, m: Msg)
    requires ValidEnv(e) && WellTyped(e.g, m) && AllPassable(e, hit, fuel, m)
    ensures fuel > 0 && !Stuck(e, hit, m)
  {
    hide Stuck;
    assert PassableAt(e, hit, fuel, m, []);
  }

  lemma {:induction false} PassableVerifies(e: Env, hit: Matcher, fuel: nat, m: Msg)
    requires ValidEnv(e) && WellTyped(e.g, m) && AllPassable(e, hit, fuel, m)
    ensures Verifiable(e, hit, fuel, m)
    decreases fuel
  {
    hide AllPassable, Payload, Reaches;
    RootPasses(e, hit, fuel, m);
    if m.ty == ANY {
      VerifiableAny(e, hit, fuel, m);
      if MustOpen(e, hit, m) {
        PayloadPassable(e, hit, fuel, m);
        PassableVerifies(e, hit, fuel - 1, Payload(e, m).value);
      }
    } else {
      forall i | 0 <= i < |m.slots| ensures SlotVerifiable(e, hit, fuel - 1, e.g[m.ty].fields[i], m.slots[i]) {
        if m.slots[i].VMsgs? && !hit(e.g[m.ty].fields[i]) {
          forall j | 0 <= j < |m.slots[i].items| ensures Verifiable(e, hit, fuel - 1, m.slots[i].items[j]) {
            ItemPassable(e, hit, fuel, m, i, j);
            PassableVerifies(e, hit, fuel - 1, m.slots[i].items[j]);
          }
        }
      }
    }
  }

  /** Two messages that differ in hidden fields only are both verified or both refused. */
  lemma HiddenSlotsDoNotMatter(e: Env, hit: Matcher, fuel: nat, a: Msg, b: Msg)
    requires ValidEnv(e) && WellTyped(e.g, a) && WellTyped(e.g, b) && a.ty == b.ty && a.ty != ANY
    requires forall i :: 0 <= i < |a.slots| && !hit(e.g[a.ty].fields[i]) ==> a.slots[i] == b.slots[i]
    ensures Verifiable(e, hit, fuel, a) <==> Verifiable(e, hit, fuel, b)
  {
    hide SlotVerifiable;
    if fuel > 0 {
      forall i | 0 <= i < |a.slots|
        ensures SlotVerifiable(e, hit, fuel - 1, e.g[a.ty].fields[i], a.slots[i]) <==>
          SlotVerifiable(e, hit, fuel - 1, e.g[a.ty].fields[i], b.slots[i])
      {
        if hit(e.g[a.ty].fields[i]) {
          HiddenSlotPasses(e, hit, fuel - 1, e.g[a.ty].fields[i], a.slots[i]);
          HiddenSlotPasses(e, hit, fuel - 1, e.g[a.ty].fields[i], b.slots[i]);
        }
      }
    }
  }

  lemma HiddenSlotPasses(e: Env, hit: Matcher, fuel: nat, fd: FieldDesc, v: Val)
    requires ValidEnv(e) && SlotTyped(e.g, fd, v) && hit(fd)
    ensures SlotVerifiable(e, hit, fuel, fd, v)
  {
  }

  /** A message with only scalars outside its hidden fields is always verified. */
  lemma ScalarsAreVerified(e: Env, hit: Matcher, fuel: nat, m: Msg)
    requires ValidEnv(e) && WellTyped(e.g, m) && m.ty != ANY && fuel > 0
    requires forall i :: 0 <= i < |m.slots| && m.slots[i].VMsgs? ==> hit(e.g[m.ty].fields[i])
    ensures Verifiable(e, hit, fuel, m)
  {
  }

  // ----- what the fail-closed walk leaves -----

  /** What is left of `x`, a position the walk meets, in terms of `x` alone: nothing at the bound or
      of an Any it is stuck at; an Any it need not open as it was, and of one it opens the URL; of
      any other message no hidden field, every other scalar, and every item of the other fields in
      its place. */
  ghost predicate LeftOf(e: Env, hit: Matcher, atBound: bool, x: Msg, y: Msg)
    requires ValidEnv(e) && WellTyped(e.g, x) && WellTyped(e.g, y)
  {
    && y.ty == x.ty
    && if atBound || Stuck(e, hit, x) then forall i :: 0 <= i < |y.slots| ==> y.slots[i].Unset?
       else if x.ty == ANY then (MustOpen(e, hit, x) && AnyUrl(y) == AnyUrl(x)) || y == x
       else
         forall i :: 0 <= i < |x.slots| ==>
           if hit(e.g[x.ty].fields[i]) then y.slots[i].Unset?
           else if x.slots[i].VMsgs? then
             y.slots[i].VMsgs? && y.slots[i].keys == x.slots[i].keys && |y.slots[i].items| == |x.slots[i].items|
           else y.slots[i] == x.slots[i]
  }

  lemma ClosedItem(e: Env, hit: Matcher, fuel: nat, m: Msg, i: nat, j: nat)
    requires ValidEnv(e) && WellTyped(e.g, m) && HasItem(m, i, j) && !hit(e.g[m.ty].fields[i]) && fuel > 0
    ensures WellTyped(e.g, m.slots[i].items[j])
    ensures var r := Closed(e, hit, fuel, m);
      HasItem(r, i, j) && r.slots[i].items[j] == Closed(e, hit, fuel - 1, m.slots[i].items[j])
  {
    hide Payload, Reaches, Repack;
    ItemTyped(e, m, i, j);
    assert Closed(e, hit, fuel, m).slots[i] == ClosedSlot(e, hit, fuel - 1, e.g[m.ty].fields[i], m.slots[i]);
  }

  lemma ClosedPayload(e: Env, hit: Matcher, fuel: nat, m: Msg)
    requires ValidEnv(e) && WellTyped(e.g, m) && MustOpen(e, hit, m) && Payload(e, m).Some? && fuel > 0
    ensures var r, p := Closed(e, hit, fuel, m), Payload(e, m).value;
      Payload(e, r) == Some(Closed(e, hit, fuel - 1, p)) && AnyUrl(r) == AnyUrl(m)
  {
    hide Payload, Reaches, Repack, Closed;
    ClosedOpened(e, hit, fuel, m);
    RepackPayload(e, m, Closed(e, hit, fuel - 1, Payload(e, m).value));
  }

  lemma ThroughItem(e: Env, m: Msg, path: seq<Hop>)
    requires ValidEnv(e) && WellTyped(e.g, m) && path != [] && path[0].Item? && HasItem(m, path[0].i, path[0].j)
    ensures WellTyped(e.g, m.slots[path[0].i].items[path[0].j])
    ensures At(e, m, path) == At(e, m.slots[path[0].i].items[path[0].j], path[1..])
  {
    ItemTyped(e, m, path[0].i, path[0].j);
  }

  lemma ThroughPayload(e: Env, m: Msg, path: seq<Hop>)
    requires ValidEnv(e) && WellTyped(e.g, m) && path != [] && path[0].Open? && m.ty == ANY && Payload(e, m).Some?
    ensures At(e, m, path) == At(e, Payload(e, m).value, path[1..])
  {
    hide Payload;
  }

  /** At the end of `path` the walk leaves what it makes of the message there. */
  ghost predicate LeavesAt(e: Env, hit: Matcher, fuel: nat, m: Msg, path: seq<Hop>)
    requires ValidEnv(e) && WellTyped(e.g, m) && |path| <= fuel
  {
    && At(e, m, path).Some?
    && At(e, Closed(e, hit, fuel, m), path) == Some(Closed(e, hit, fuel - |path|, At(e, m, path).value))
  }

  lemma ClosedAtItem(e: Env, hit: Matcher, fuel: nat, m: Msg, path: seq<Hop>)
    requires ValidEnv(e) && WellTyped(e.g, m) && path != [] && path[0].Item? && |path| <= fuel
    requires HasItem(m, path[0].i, path[0].j) && !hit(e.g[m.ty].fields[path[0].i])
    requires WellTyped(e.g, m.slots[path[0].i].items[path[0].j])
    requires LeavesAt(e, hit, fuel - 1, m.slots[path[0].i].items[path[0].j], path[1..])
    ensures LeavesAt(e, hit, fuel, m, path)
  {
    hide At, Closed, WellTyped, ValidEnv;
    ClosedItem(e, hit, fuel, m, path[0].i, path[0].j);
    ThroughItem(e, m, path);
    ThroughItem(e, Closed(e, hit, fuel, m), path);
  }

  lemma ClosedAtOpen(e: Env, hit: Matcher, fuel: nat, m: Msg, path: seq<Hop>)
    requires ValidEnv(e) && WellTyped(e.g, m) && path != [] && path[0].Open? && |path| <= fuel
    requires MustOpen(e, hit, m) && Payload(e, m).Some?
    requires LeavesAt(e, hit, fuel - 1, Payload(e, m).value, path[1..])
    ensures LeavesAt(e, hit, fuel, m, path)
  {
    hide At, Closed, Payload, Reaches, WellTyped, ValidEnv;
    ClosedPayload(e, hit, fuel, m);
    ThroughPayload(e, m, path);
    ThroughPayload(e, Closed(e, hit, fuel, m), path);
  }

  lemma {:induction false} ClosedAt(e: Env, hit: Matcher, fuel: nat, m: Msg, path: seq<Hop>)
    requires ValidEnv(e) && WellTyped(e.g, m) && Met(e, hit, m, path) && |path| <= fuel
    ensures LeavesAt(e, hit, fuel, m, path)
    decreases |path|
  {
    hide Payload, Reaches, Closed;
    if path != [] {
      hide LeavesAt;
      match path[0]
      case Item(i, j) =>
        ItemTyped(e, m, i, j);
        ClosedAt(e, hit, fuel - 1, m.slots[i].items[j], path[1..]);
        ClosedAtItem(e, hit, fuel, m, path);
      case Open =>
        ClosedAt(e, hit, fuel - 1, Payload(e, m).value, path[1..]);
        ClosedAtOpen(e, hit, fuel, m, path);
    }
  }

  lemma LocallyLeft(e: Env, hit: Matcher, fuel: nat, x: Msg)
    requires ValidEnv(e) && WellTyped(e.g, x)
    ensures LeftOf(e, hit, fuel == 0, x, Closed(e, hit, fuel, x))
  {
    if fuel > 0 && x.ty == ANY {
      hide Payload, Reaches, Repack;
      ClosedAny(e, hit, fuel, x);
      if MustOpen(e, hit, x) && Payload(e, x).Some? {
        ClosedOpened(e, hit, fuel, x);
        RepackPayload(e, x, Closed(e, hit, fuel - 1, Payload(e, x).value));
      }
    } else if fuel > 0 {
      var y := Closed(e, hit, fuel, x);
      forall i | 0 <= i < |x.slots|
        ensures y.slots[i] == ClosedSlot(e, hit, fuel - 1, e.g[x.ty].fields[i], x.slots[i])
      {
      }
    }
  }

  /** The fail-closed walk keeps every position it meets down to the bound, and there leaves exactly
      what it should. */
  lemma ClosedLeaves(e: Env, hit: Matcher, fuel: nat, m: Msg, path: seq<Hop>)
    requires ValidEnv(e) && WellTyped(e.g, m) && Met(e, hit, m, path) && |path| <= fuel
    ensures var x, y := At(e, m, path), At(e, Closed(e, hit, fuel, m), path);
      x.Some? && y.Some? && LeftOf(e, hit, |path| == fuel, x.value, y.value)
  {
    hide LeftOf, Closed, At, Met;
    ClosedAt(e, hit, fuel, m, path);
    LocallyLeft(e, hit, fuel - |path|, At(e, m, path).value);
  }

  /** What the clears of a handler leave of the fields of its input: none that only the server sets and
      none that is excluded, every other scalar as it was, and every other message in its place. */
  lemma InputLeft(e: Env, m: Msg, i: nat)
    requires ValidEnv(e) && WellTyped(e.g, m) && m.ty != ANY && i < |m.slots|
    ensures var fd, v, r := e.g[m.ty].fields[i], m.slots[i], Closed(e, InputMask, e.maxDepth, m).slots[i];
      if fd.outputOnly || fd.exclude then r.Unset?
      else if v.VMsgs? then r.VMsgs? && r.keys == v.keys && |r.items| == |v.items|
      else r == v
  {
    hide Closed;
    LocallyLeft(e, InputMask, e.maxDepth, m);
  }
}
