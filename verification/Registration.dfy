/** The registries of a server: claimed keys, and the handlers the SDK binds to them. */
module Registration {
  import opened Descriptors
  import opened SortedKeys

  datatype Kind = Tool | Resource | ResourceTemplate | Prompt

  /** What identifies a primitive: its kind, and its name, URI or URI template. */
  datatype Key = Key(kind: Kind, name: string)

  /** A handler: one a caller passed, told apart by a number, or the notification's own. */
  datatype Handler = Caller(id: int) | NotReadable

  /** The primitive a caller registers; None is nil. */
  datatype Item = Item(name: string, handler: Handler)

  const SENTINEL := Key(ResourceTemplate, "protomcp-internal-list-changed-trigger://{_}")

  datatype Outcome = Added | NilItem | EmptyKey | Duplicate | SdkPanic

  // ----- the machine -----

  datatype Registry = Registry(claims: set<Key>, sdk: map<Key, Handler>)

  const START := Registry({}, map[])

  /** One critical section: a MustAdd call, whose SDK call panics if `rejects`; either half of a
      list-changed notification; or a registration made straight on the SDK. */
  datatype Event =
    | MustAdd(kind: Kind, item: Option<Item>, rejects: bool)
    | AddSentinel
    | RemoveSentinel
    | Direct(key: Key, handler: Handler)

  /** How a call ends, and the registry it leaves. */
  function Step(r: Registry, e: Event): (Registry, Outcome) {
    match e
    case MustAdd(kind, item, rejects) =>
      if item.None? then (r, NilItem)
      else if item.value.name == "" then (r, EmptyKey)
      else
        var key := Key(kind, item.value.name);
        if key in r.claims then (r, Duplicate)
        else if rejects then (r, SdkPanic)
        else (Registry(r.claims + {key}, r.sdk[key := item.value.handler]), Added)
    case AddSentinel => (r.(sdk := r.sdk[SENTINEL := NotReadable]), Added)
    case RemoveSentinel => (r.(sdk := r.sdk - {SENTINEL}), Added)
    case Direct(key, handler) => (r.(sdk := r.sdk[key := handler]), Added)
  }

  /** The registry after a run, oldest event first. */
  function After(run: seq<Event>): Registry {
    if run == [] then START else Step(After(run[..|run| - 1]), run[|run| - 1]).0
  }

  /** Event `i` of the run is a MustAdd call that succeeds in registering `key`. */
  predicate Registers(run: seq<Event>, i: nat, key: Key)
    requires i < |run|
  {
    && run[i].MustAdd? && run[i].item.Some?
    && key == Key(run[i].kind, run[i].item.value.name)
    && Step(After(run[..i]), run[i]).1 == Added
  }

  /** An event that changes the SDK's entry for `key` without MustAdd. */
  predicate Touches(e: Event, key: Key) {
    match e
    case MustAdd(_, _, _) => false
    case AddSentinel => key == SENTINEL
    case RemoveSentinel => key == SENTINEL
    case Direct(k, _) => key == k
  }

  // ----- what every run keeps -----

  lemma PrefixOf(run: seq<Event>, n: nat, i: nat)
    requires i <= n <= |run|
    ensures run[..n][..i] == run[..i]
  {
  }

  lemma RegistersInPrefix(run: seq<Event>, n: nat, i: nat, key: Key)
    requires i < n <= |run|
    ensures Registers(run[..n], i, key) == Registers(run, i, key)
  {
    PrefixOf(run, n, i);
  }

  /** A key is claimed exactly when some call registered it. */
  lemma {:induction false} ClaimedIsRegistered(run: seq<Event>, key: Key)
    ensures key in After(run).claims <==> exists i :: 0 <= i < |run| && Registers(run, i, key)
    decreases |run|
  {
    if run != [] {
      var n := |run| - 1;
      ClaimedIsRegistered(run[..n], key);
      if key in After(run[..n]).claims {
        var i :| 0 <= i < n && Registers(run[..n], i, key);
        RegistersInPrefix(run, n, i, key);
      } else if key in After(run).claims {
        assert Registers(run, n, key);
      } else {
        forall i | 0 <= i < |run| ensures !Registers(run, i, key) {
          if i < n { RegistersInPrefix(run, n, i, key); }
        }
      }
    }
  }

  /** No key is registered twice. */
  lemma RegisteredOnce(run: seq<Event>, i: nat, j: nat, key: Key)
    requires i < |run| && j < |run| && Registers(run, i, key) && Registers(run, j, key)
    ensures i == j
  {
    if i < j {
      RegistersInPrefix(run, j, i, key);
      ClaimedIsRegistered(run[..j], key);
    } else if j < i {
      RegistersInPrefix(run, i, j, key);
      ClaimedIsRegistered(run[..i], key);
    }
  }

  /** A call that panics leaves claims and SDK as they were; one that succeeds adds its key and
      handler and nothing else. */
  lemma AllOrNothing(r: Registry, e: Event)
    requires e.MustAdd?
    ensures Step(r, e).1 != Added ==> Step(r, e).0 == r
    ensures Step(r, e).1 == Added ==>
      && e.item.Some? && e.item.value.name != ""
      && var key := Key(e.kind, e.item.value.name);
        && key !in r.claims && Step(r, e).0.claims - r.claims == {key} && r.claims <= Step(r, e).0.claims
        && key in Step(r, e).0.sdk && Step(r, e).0.sdk[key] == e.item.value.handler
        && Step(r, e).0.sdk - {key} == r.sdk - {key}
    ensures Step(r, e).1 == Added <==>
      e.item.Some? && e.item.value.name != "" && Key(e.kind, e.item.value.name) !in r.claims && !e.rejects
  {
    if Step(r, e).1 == Added {
      var key := Key(e.kind, e.item.value.name);
      assert Step(r, e).0.claims - r.claims == {key};
      assert Step(r, e).0.sdk - {key} == r.sdk - {key};
    }
  }

  /** How a call ends, the first reason that applies: no item, no name, a key some call has
      claimed, a panic in the SDK. */
  lemma RefusedFor(run: seq<Event>, e: Event)
    requires e.MustAdd?
    ensures var outcome := Step(After(run), e).1;
      if e.item.None? then outcome == NilItem
      else if |e.item.value.name| == 0 then outcome == EmptyKey
      else if exists i :: 0 <= i < |run| && Registers(run, i, Key(e.kind, e.item.value.name)) then outcome == Duplicate
      else if e.rejects then outcome == SdkPanic
      else outcome == Added
  {
    if e.item.Some? { ClaimedIsRegistered(run, Key(e.kind, e.item.value.name)); }
  }

  /** The one key that notifications touch. */
  lemma SentinelIs(key: Key)
    ensures Touches(AddSentinel, key) <==>
      key == Key(ResourceTemplate, "protomcp-internal-list-changed-trigger://{_}")
    ensures Touches(RemoveSentinel, key) <==> Touches(AddSentinel, key)
  {
  }

  /** The SDK binds `key` to the handler that event `i` registered it with. */
  predicate BoundBy(run: seq<Event>, i: nat, key: Key)
    requires i < |run| && Registers(run, i, key)
  {
    key in After(run).sdk && After(run).sdk[key] == run[i].item.value.handler
  }

  /** A registered key stays bound to its handler, whatever else is registered or refused, as long
      as nothing reaches the SDK's entry another way. */
  lemma {:induction false} StaysBound(run: seq<Event>, i: nat, key: Key)
    requires i < |run| && Registers(run, i, key)
    requires forall j :: i < j < |run| ==> !Touches(run[j], key)
    ensures BoundBy(run, i, key)
    decreases |run|
  {
    var n := |run| - 1;
    if i < n {
      RegistersInPrefix(run, n, i, key);
      StaysBound(run[..n], i, key);
      ClaimedIsRegistered(run[..n], key);
    }
  }

  /** Without direct registrations every claimed key stays bound to the handler of its one
      registration, in every run with any notifications, exactly when no notification follows a
      registration of the sentinel template. */
  lemma {:induction false} BoundUnlessSentinelClaimed(run: seq<Event>)
    requires forall e :: e in run ==> !e.Direct? && (e.MustAdd? && e.item.Some? ==> e.item.value.handler.Caller?)
    ensures (forall i, key :: 0 <= i < |run| && Registers(run, i, key) ==> BoundBy(run, i, key))
      <==> (forall i, j :: 0 <= i < j < |run| && Registers(run, i, SENTINEL) ==> run[j].MustAdd?)
  {
    if forall i, j :: 0 <= i < j < |run| && Registers(run, i, SENTINEL) ==> run[j].MustAdd? {
      forall i, key | 0 <= i < |run| && Registers(run, i, key) ensures BoundBy(run, i, key) {
        StaysBound(run, i, key);
      }
    } else {
      var i, j :| 0 <= i < j < |run| && Registers(run, i, SENTINEL) && !run[j].MustAdd?;
      NeverRebound(run, i, j);
      assert !BoundBy(run, i, SENTINEL);
    }
  }

  /** Once a notification hits a claimed sentinel, no later call can restore its handler: the key
      counts as taken. */
  lemma {:induction false} NeverRebound(run: seq<Event>, i: nat, j: nat)
    requires i < j < |run| && Registers(run, i, SENTINEL)
    requires run[j].AddSentinel? || run[j].RemoveSentinel?
    requires forall e :: e in run ==> !e.Direct?
    ensures SENTINEL in After(run).sdk ==> After(run).sdk[SENTINEL] == NotReadable
    decreases |run|
  {
    var n := |run| - 1;
    RegistersInPrefix(run, n, i, SENTINEL);
    ClaimedIsRegistered(run[..n], SENTINEL);
    if j < n {
      NeverRebound(run[..n], i, j);
    }
  }

  // ----- snapshots -----

  /** The names claimed for one kind, in ascending order. */
  ghost function Snapshot(r: Registry, kind: Kind): seq<string> {
    Sorted(Names(r.claims, kind))
  }

  ghost function Names(claims: set<Key>, kind: Kind): set<string> {
    set k | k in claims && k.kind == kind :: k.name
  }

  lemma InSnapshot(r: Registry, kind: Kind, name: string)
    ensures name in Snapshot(r, kind) <==> Key(kind, name) in r.claims
  {
    SortedIsSorted(Names(r.claims, kind));
    if Key(kind, name) in r.claims { assert Key(kind, name).name == name; }
  }

  /** What a later snapshot has and an earlier one has not is exactly what was registered between
      them; and nothing is ever dropped. */
  lemma SnapshotDifference(run: seq<Event>, m: nat, kind: Kind, name: string)
    requires m <= |run|
    ensures (name in Snapshot(After(run), kind) && name !in Snapshot(After(run[..m]), kind)) <==>
      exists i :: m <= i < |run| && Registers(run, i, Key(kind, name))
    ensures name in Snapshot(After(run[..m]), kind) ==> name in Snapshot(After(run), kind)
  {
    var key := Key(kind, name);
    InSnapshot(After(run), kind, name);
    InSnapshot(After(run[..m]), kind, name);
    ClaimedIsRegistered(run, key);
    ClaimedIsRegistered(run[..m], key);
    if key in After(run[..m]).claims {
      var i :| 0 <= i < m && Registers(run[..m], i, key);
      RegistersInPrefix(run, m, i, key);
      forall j | m <= j < |run| ensures !Registers(run, j, key) {
        if Registers(run, j, key) { RegisteredOnce(run, i, j, key); }
      }
    } else if exists i :: 0 <= i < |run| && Registers(run, i, key) {
      var i :| 0 <= i < |run| && Registers(run, i, key);
      if i < m { RegistersInPrefix(run, m, i, key); }
    }
  }

  // ----- the server -----

  /** The keys of all the registries. */
  ghost function Claims(registries: map<Kind, map<string, bool>>): set<Key> {
    set kind, name | kind in registries && name in registries[kind] :: Key(kind, name)
  }

  lemma EmptyRegistryClaimsNothing(registries: map<Kind, map<string, bool>>, kind: Kind)
    requires kind !in registries
    ensures Claims(registries[kind := map[]]) == Claims(registries)
  {
  }

  lemma ClaimsInRegistry(registries: map<Kind, map<string, bool>>, kind: Kind, name: string)
    requires kind in registries
    ensures Key(kind, name) in Claims(registries) <==> name in registries[kind]
    ensures Claims(registries[kind := registries[kind][name := true]]) == Claims(registries) + {Key(kind, name)}
  {
  }

  class Server {
    /** The registries by kind, each made on first use. */
    var registries: map<Kind, map<string, bool>>
    /** The SDK's own registry. */
    var sdk: map<Key, Handler>

    ghost predicate Valid()
      reads this
    {
      forall kind, name :: kind in registries && name in registries[kind] ==> registries[kind][name]
    }

    ghost function Contents(): Registry
      reads this
    {
      Registry(Claims(registries), sdk)
    }

    constructor ()
      ensures Valid() && Contents() == START
    {
      registries := map[];
      sdk := map[];
    }

    /** The SDK's add: it may panic, and then has changed nothing; it replaces silently. */
    method SdkAdd(key: Key, handler: Handler, rejects: bool) returns (ok: bool)
      modifies this`sdk
      ensures ok == !rejects
      ensures sdk == if rejects then old(sdk) else old(sdk)[key := handler]
    {
      if rejects {
        return false;
      }
      sdk := sdk[key := handler];
      return true;
    }

    method ClaimAndRegister(kind: Kind, item: Item, rejects: bool) returns (outcome: Outcome)
      requires Valid()
      modifies this
      ensures Valid()
      ensures (Contents(), outcome) == Step(old(Contents()), Event.MustAdd(kind, Some(item), rejects))
    {
      hide Claims;
      if item.name == "" {
        return EmptyKey;
      }
      if kind !in registries {
        EmptyRegistryClaimsNothing(registries, kind);
        registries := registries[kind := map[]];
      }
      ClaimsInRegistry(registries, kind, item.name);
      if item.name in registries[kind] && registries[kind][item.name] {
        return Duplicate;
      }
      var ok := SdkAdd(Key(kind, item.name), item.handler, rejects);
      if !ok {
        return SdkPanic;
      }
      registries := registries[kind := registries[kind][item.name := true]];
      return Added;
    }

    method MustAdd(kind: Kind, item: Option<Item>, rejects: bool) returns (outcome: Outcome)
      requires Valid()
      modifies this
      ensures Valid()
      ensures (Contents(), outcome) == Step(old(Contents()), Event.MustAdd(kind, item, rejects))
    {
      if item.None? {
        return NilItem;
      }
      outcome := ClaimAndRegister(kind, item.value, rejects);
    }

    /** The notification: the sentinel added, then removed. */
    method NotifyResourceListChanged()
      requires Valid()
      modifies this
      ensures Valid()
      ensures Contents() == Step(Step(old(Contents()), AddSentinel).0, RemoveSentinel).0
    {
      sdk := sdk[SENTINEL := NotReadable];
      sdk := sdk - {SENTINEL};
    }

    method Registered(kind: Kind) returns (names: seq<string>)
      requires Valid()
      ensures names == Snapshot(Contents(), kind)
    {
      var keys := if kind in registries then registries[kind].Keys else {};
      names := SortKeys(keys);
      assert keys == Names(Contents().claims, kind) by {
        forall name ensures name in keys <==> name in Names(Contents().claims, kind) {
          if name in keys { assert Key(kind, name) in Contents().claims; }
        }
      }
    }
  }

  /** A notification whose halves nothing comes between is invisible unless the sentinel was
      there before. */
  lemma NotificationIsInvisible(r: Registry)
    ensures Step(Step(r, AddSentinel).0, RemoveSentinel).0 == r <==> SENTINEL !in r.sdk
  {
    var after := Step(Step(r, AddSentinel).0, RemoveSentinel).0;
    assert after.sdk == r.sdk - {SENTINEL};
  }
}
