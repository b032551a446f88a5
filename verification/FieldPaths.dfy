/** Dotted field paths: the resolver that approves them and the walkers that compile them. */
module FieldPaths {
  import opened Descriptors

  /** The first field, in declaration order, that `test` picks. */
  function First(fields: seq<FieldDesc>, test: FieldDesc -> bool): Option<FieldDesc> {
    if fields == [] then None
    else if test(fields[0]) then Some(fields[0])
    else First(fields[1..], test)
  }

  function ByName(fields: seq<FieldDesc>, name: string): Option<FieldDesc> {
    First(fields, (fd: FieldDesc) => fd.name == name)
  }

  function ByJsonName(fields: seq<FieldDesc>, name: string): Option<FieldDesc> {
    First(fields, (fd: FieldDesc) => fd.jsonName == name)
  }

  function Or(a: Option<FieldDesc>, b: Option<FieldDesc>): Option<FieldDesc> { if a.Some? then a else b }

  /** How a segment is looked up: JSON name first (the resolver and the resource getters), proto
      name first (the Mustache getters), either in declaration order (the assignments). */
  datatype Lookup = JsonFirst | NameFirst | Declared

  function Find(how: Lookup, fields: seq<FieldDesc>, name: string): Option<FieldDesc> {
    match how
    case JsonFirst => Or(ByJsonName(fields, name), ByName(fields, name))
    case NameFirst => Or(ByName(fields, name), ByJsonName(fields, name))
    case Declared => First(fields, (fd: FieldDesc) => HasName(fd, name))
  }

  lemma {:induction false} FirstAt(fields: seq<FieldDesc>, test: FieldDesc -> bool) returns (i: nat)
    ensures i <= |fields| && forall k :: 0 <= k < i ==> !test(fields[k])
    ensures First(fields, test) == if i < |fields| then Some(fields[i]) else None
    ensures i < |fields| ==> test(fields[i])
    decreases |fields|
  {
    if fields == [] || test(fields[0]) {
      i := 0;
    } else {
      var below := FirstAt(fields[1..], test);
      i := below + 1;
      assert forall k :: 1 <= k < |fields| ==> fields[k] == fields[1..][k - 1];
    }
  }

  lemma FoundIsNamed(how: Lookup, fields: seq<FieldDesc>, name: string)
    requires Find(how, fields, name).Some?
    ensures Find(how, fields, name).value in fields && HasName(Find(how, fields, name).value, name)
  {
    var i := FirstAt(fields, (fd: FieldDesc) => fd.name == name);
    var j := FirstAt(fields, (fd: FieldDesc) => fd.jsonName == name);
    var k := FirstAt(fields, (fd: FieldDesc) => HasName(fd, name));
  }

  /** What the resolver means by a name: a JSON name, or else a proto name. */
  ghost predicate MeantBy(fields: seq<FieldDesc>, fd: FieldDesc, name: string) {
    && fd in fields
    && (fd.jsonName == name || (fd.name == name && forall other :: other in fields ==> other.jsonName != name))
  }

  /** It finds exactly that field. */
  lemma ResolverFinds(fields: seq<FieldDesc>, fd: FieldDesc, name: string)
    requires UniqueNames(fields)
    ensures Find(JsonFirst, fields, name) == Some(fd) <==> MeantBy(fields, fd, name)
  {
    var i := FirstAt(fields, (fd: FieldDesc) => fd.name == name);
    var j := FirstAt(fields, (fd: FieldDesc) => fd.jsonName == name);
    if MeantBy(fields, fd, name) {
      var n :| 0 <= n < |fields| && fields[n] == fd;
      assert fd.jsonName == name ==> j == n;
      assert fd.jsonName != name ==> j == |fields| && i == n;
    }
    if j < |fields| { assert fields[j] in fields; }
  }

  /** When another lookup finds the field `fd` that the resolver means by `name`: no other field has
      it as its proto name; or, in declaration order, none that comes earlier. */
  ghost predicate Finds(how: Lookup, fields: seq<FieldDesc>, name: string, fd: FieldDesc) {
    match how
    case JsonFirst => true
    case NameFirst => forall i :: 0 <= i < |fields| && fields[i].name == name ==> fields[i] == fd
    case Declared =>
      forall i, j :: 0 <= i < |fields| && 0 <= j < |fields| && fields[i].name == name && fields[j] == fd ==> j <= i
  }

  lemma FindsExactly(how: Lookup, fields: seq<FieldDesc>, name: string, fd: FieldDesc)
    requires UniqueNames(fields) && Find(JsonFirst, fields, name) == Some(fd)
    ensures Find(how, fields, name) == Some(fd) <==> Finds(how, fields, name, fd)
  {
    var i := FirstAt(fields, (fd: FieldDesc) => fd.name == name);
    var j := FirstAt(fields, (fd: FieldDesc) => fd.jsonName == name);
    var k := FirstAt(fields, (fd: FieldDesc) => HasName(fd, name));
    if how.Declared? && i < |fields| { DeclaredFinds(fields, name, fd, i, j, k); }
  }

  lemma DeclaredFinds(fields: seq<FieldDesc>, name: string, fd: FieldDesc, i: nat, j: nat, k: nat)
    requires UniqueNames(fields) && i < |fields| && fields[i].name == name && j <= |fields| && k < |fields|
    requires (j < |fields| ==> fields[j].jsonName == name) && fd == fields[if j < |fields| then j else i]
    requires forall n :: 0 <= n < j ==> fields[n].jsonName != name
    requires HasName(fields[k], name) && forall n :: 0 <= n < k ==> !HasName(fields[n], name)
    ensures fields[k] == fd <==> Finds(Declared, fields, name, fd)
  {
    assert k == i || k == j;
    if Finds(Declared, fields, name, fd) && j < |fields| { assert j <= i; }
  }

  /** strings.Split on ".". */
  function SplitDots(s: string): (segs: seq<string>)
    ensures segs != []
  {
    if s == "" then [""]
    else
      var rest := SplitDots(s[1..]);
      if s[0] == '.' then [""] + rest else [[s[0]] + rest[0]] + rest[1..]
  }

  /** The segments with dots between them. */
  function JoinDots(segs: seq<string>): string
    requires segs != []
  {
    if |segs| == 1 then segs[0] else segs[0] + "." + JoinDots(segs[1..])
  }

  ghost predicate NoDots(segs: seq<string>) { forall k :: 0 <= k < |segs| ==> '.' !in segs[k] }

  lemma {:induction false} SplitParts(s: string)
    ensures NoDots(SplitDots(s)) && JoinDots(SplitDots(s)) == s
    decreases |s|
  {
    if s != "" {
      var segs, rest := SplitDots(s), SplitDots(s[1..]);
      SplitParts(s[1..]);
      if s[0] == '.' {
        assert segs[1..] == rest;
        assert "" + "." + s[1..] == s;
      } else {
        assert segs[1..] == rest[1..];
        forall k | 0 <= k < |segs| ensures '.' !in segs[k] { assert '.' !in rest[k]; }
        if |rest| == 1 {
          assert [s[0]] + rest[0] == s;
        } else {
          assert [s[0]] + rest[0] + "." + JoinDots(rest[1..]) == [s[0]] + (rest[0] + "." + JoinDots(rest[1..]));
        }
      }
    }
  }

  lemma {:induction false} SplitHead(head: string, tail: string)
    requires '.' !in head
    ensures SplitDots(head + "." + tail) == [head] + SplitDots(tail)
    ensures SplitDots(head) == [head]
    decreases |head|
  {
    var s := head + "." + tail;
    if head == "" {
      assert s == "." + tail;
      assert s[1..] == tail;
    } else {
      assert s[1..] == head[1..] + "." + tail;
      SplitHead(head[1..], tail);
      assert ([head[1..]] + SplitDots(tail))[1..] == SplitDots(tail);
      assert [head[0]] + head[1..] == head;
    }
  }

  lemma {:induction false} SplitJoined(segs: seq<string>)
    requires segs != [] && NoDots(segs)
    ensures SplitDots(JoinDots(segs)) == segs
    decreases |segs|
  {
    assert '.' !in segs[0];
    if |segs| == 1 {
      SplitHead(segs[0], "");
    } else {
      SplitHead(segs[0], JoinDots(segs[1..]));
      forall k | 0 <= k < |segs[1..]| ensures '.' !in segs[1..][k] { assert '.' !in segs[k + 1]; }
      SplitJoined(segs[1..]);
      assert [segs[0]] + segs[1..] == segs;
    }
  }

  /** The segments of a path are the one list of dotless texts that joined by dots give the path. */
  lemma SplitExactly(s: string, segs: seq<string>)
    ensures SplitDots(s) == segs <==> segs != [] && NoDots(segs) && JoinDots(segs) == s
  {
    SplitParts(s);
    if segs != [] && NoDots(segs) && JoinDots(segs) == s { SplitJoined(segs); }
  }

  // ----- walking a path -----

  const ENTRY_KEY :=
    FieldDesc("key", "key", Singular, ScalarKind, false, None, false, false, false, [], false, false, Unspecified,
      false)

  /** The fields of the entry message of a map field. */
  function EntryFields(fd: FieldDesc): seq<FieldDesc> {
    [ENTRY_KEY, ENTRY_KEY.(name := "value", jsonName := "value", kind := fd.kind)]
  }

  ghost predicate Known(g: Graph, fields: seq<FieldDesc>) {
    forall i :: 0 <= i < |fields| && fields[i].kind.MessageKind? ==> fields[i].kind.ty in g
  }

  /** The fields of the message that a field's descriptor leads to, if any. */
  function Below(g: Graph, fd: FieldDesc): (r: Option<seq<FieldDesc>>)
    requires fd.kind.MessageKind? ==> fd.kind.ty in g
    ensures ClosedGraph(g) && r.Some? ==> Known(g, r.value)
  {
    if fd.card.MapField? then Some(EntryFields(fd))
    else if fd.kind.MessageKind? then Some(g[fd.kind.ty].fields)
    else None
  }

  /** The four walkers of a dotted path: what each looks up, and what stops it. */
  datatype Walker = Walker(how: Lookup, refusesExcluded: bool, refusesRepeated: bool)

  const RESOLVER := Walker(JsonFirst, true, true)
  const MUSTACHE_GETTER := Walker(NameFirst, false, false)
  const FIELD_GETTER := Walker(JsonFirst, false, true)
  const ASSIGNER := Walker(Declared, false, true)

  /** The fields a walker visits, one per segment, from a message with the given fields. */
  function Walk(w: Walker, g: Graph, fields: seq<FieldDesc>, segs: seq<string>): Option<seq<FieldDesc>>
    requires ClosedGraph(g) && Known(g, fields)
    decreases |segs|
  {
    if segs == [] then Some([])
    else
      var fd := Find(w.how, fields, segs[0]);
      if fd.None? || (w.refusesExcluded && fd.value.exclude) then None
      else if |segs| == 1 then Some([fd.value])
      else
        assert fd.value in fields by { FoundIsNamed(w.how, fields, segs[0]); }
        if (w.refusesRepeated && !fd.value.card.Singular?) || Below(g, fd.value).None? then None
        else AfterSteps([fd.value], Walk(w, g, Below(g, fd.value).value, segs[1..]))
  }

  function AfterSteps(walked: seq<FieldDesc>, rest: Option<seq<FieldDesc>>): Option<seq<FieldDesc>> {
    if rest.None? then None else Some(walked + rest.value)
  }

  lemma NothingWalked(rest: Option<seq<FieldDesc>>)
    ensures AfterSteps([], rest) == rest
  {
    if rest.Some? { assert [] + rest.value == rest.value; }
  }

  lemma AfterOneMore(walked: seq<FieldDesc>, fd: FieldDesc, rest: Option<seq<FieldDesc>>)
    ensures AfterSteps(walked, AfterSteps([fd], rest)) == AfterSteps(walked + [fd], rest)
  {
    if rest.Some? { assert walked + ([fd] + rest.value) == walked + [fd] + rest.value; }
  }

  /** A path of fields, one per segment: each the field of its message that the resolver means by
      the segment, none excluded, and all but the last singular messages. */
  ghost predicate Chain(g: Graph, fields: seq<FieldDesc>, segs: seq<string>, path: seq<FieldDesc>)
    requires ClosedGraph(g) && Known(g, fields)
    decreases |path|
  {
    && |path| == |segs|
    && (path == [] ||
        (&& MeantBy(fields, path[0], segs[0]) && !path[0].exclude
         && (|path| > 1 ==>
              && path[0].card.Singular? && path[0].kind.MessageKind?
              && Chain(g, g[path[0].kind.ty].fields, segs[1..], path[1..]))))
  }

  lemma ConsIs(fd: FieldDesc, rest: Option<seq<FieldDesc>>, path: seq<FieldDesc>)
    requires path != []
    ensures AfterSteps([fd], rest) == Some(path) <==> fd == path[0] && rest == Some(path[1..])
  {
    assert path == [path[0]] + path[1..];
    if rest.Some? { assert ([fd] + rest.value)[1..] == rest.value; }
  }

  lemma {:induction false} WalkLength(w: Walker, g: Graph, fields: seq<FieldDesc>, segs: seq<string>)
    requires ClosedGraph(g) && Known(g, fields) && Walk(w, g, fields, segs).Some?
    ensures |Walk(w, g, fields, segs).value| == |segs|
    decreases |segs|
  {
    if |segs| > 1 {
      FoundIsNamed(w.how, fields, segs[0]);
      WalkLength(w, g, Below(g, Find(w.how, fields, segs[0]).value).value, segs[1..]);
    }
  }

  /** The resolver approves exactly the chains, whatever the names. */
  lemma {:induction false} ApprovedIsChain(g: Graph, fields: seq<FieldDesc>, segs: seq<string>, path: seq<FieldDesc>)
    requires ValidGraph(g) && Known(g, fields) && UniqueNames(fields)
    ensures Walk(RESOLVER, g, fields, segs) == Some(path) <==> Chain(g, fields, segs, path)
    decreases |segs|
  {
    if Walk(RESOLVER, g, fields, segs).Some? { WalkLength(RESOLVER, g, fields, segs); }
    if segs != [] && |path| == |segs| {
      ResolverFinds(fields, path[0], segs[0]);
      assert |path| == 1 ==> path == [path[0]];
      if |segs| > 1 && Find(JsonFirst, fields, segs[0]) == Some(path[0]) {
        FoundIsNamed(JsonFirst, fields, segs[0]);
        if path[0].card.Singular? && path[0].kind.MessageKind? {
          var below := g[path[0].kind.ty].fields;
          ApprovedIsChain(g, below, segs[1..], path[1..]);
          ConsIs(path[0], Walk(RESOLVER, g, below, segs[1..]), path);
        }
      }
    }
  }

  /** At every step of an approved path the walker's lookup finds the field of the path. */
  ghost predicate Undistracted(
    w: Walker, g: Graph, fields: seq<FieldDesc>, segs: seq<string>, path: seq<FieldDesc>)
    decreases |segs|
  {
    segs == [] ||
    (&& path != [] && Finds(w.how, fields, segs[0], path[0])
     && (|segs| > 1 ==>
          && path[0].kind.MessageKind? && path[0].kind.ty in g
          && Undistracted(w, g, g[path[0].kind.ty].fields, segs[1..], path[1..])))
  }

  /** A walker visits the fields that the resolver approved exactly when no lookup on the way is
      distracted by another field's name. */
  lemma {:induction false} WalksTheApproved(
    w: Walker, g: Graph, fields: seq<FieldDesc>, segs: seq<string>, path: seq<FieldDesc>)
    requires ValidGraph(g) && Known(g, fields) && UniqueNames(fields)
    requires Walk(RESOLVER, g, fields, segs) == Some(path)
    ensures Walk(w, g, fields, segs) == Some(path) <==> Undistracted(w, g, fields, segs, path)
    decreases |segs|
  {
    if segs != [] {
      WalkLength(RESOLVER, g, fields, segs);
      FoundIsNamed(JsonFirst, fields, segs[0]);
      FindsExactly(w.how, fields, segs[0], path[0]);
      if |segs| == 1 {
        assert path == [path[0]];
      } else {
        var below := Below(g, path[0]).value;
        ConsIs(path[0], Walk(RESOLVER, g, below, segs[1..]), path);
        WalksTheApproved(w, g, below, segs[1..], path[1..]);
        WalkStep(w, g, fields, segs, path);
      }
    }
  }

  lemma WalkStep(w: Walker, g: Graph, fields: seq<FieldDesc>, segs: seq<string>, path: seq<FieldDesc>)
    requires ClosedGraph(g) && Known(g, fields) && |segs| > 1 && path != [] && path[0] in fields
    requires path[0].card.Singular? && path[0].kind.MessageKind? && !path[0].exclude
    ensures Walk(w, g, fields, segs) == Some(path) <==>
      && Find(w.how, fields, segs[0]) == Some(path[0])
      && Walk(w, g, g[path[0].kind.ty].fields, segs[1..]) == Some(path[1..])
  {
    var fd := Find(w.how, fields, segs[0]);
    if fd.Some? {
      FoundIsNamed(w.how, fields, segs[0]);
      if Below(g, fd.value).Some? { ConsIs(fd.value, Walk(w, g, Below(g, fd.value).value, segs[1..]), path); }
    }
  }

  // ----- what each getter and assignment does, whether approved or not -----

  /** The field a lookup finds, said of the list: in JSON-first order the one with that JSON name, or
      else with that proto name; in proto-first order the other way round; in declaration order the
      first with either. */
  ghost predicate FoundBy(how: Lookup, fields: seq<FieldDesc>, fd: FieldDesc, name: string) {
    match how
    case JsonFirst => MeantBy(fields, fd, name)
    case NameFirst =>
      fd in fields && (fd.name == name || (fd.jsonName == name && forall x :: x in fields ==> x.name != name))
    case Declared =>
      exists n :: 0 <= n < |fields| && fields[n] == fd && HasName(fd, name)
        && forall k :: 0 <= k < n ==> fields[k].name != name && fields[k].jsonName != name
  }

  lemma FoundExactly(how: Lookup, fields: seq<FieldDesc>, fd: FieldDesc, name: string)
    requires UniqueNames(fields)
    ensures Find(how, fields, name) == Some(fd) <==> FoundBy(how, fields, fd, name)
  {
    match how
    case JsonFirst => ResolverFinds(fields, fd, name);
    case NameFirst =>
      var i := FirstAt(fields, (fd: FieldDesc) => fd.name == name);
      var j := FirstAt(fields, (fd: FieldDesc) => fd.jsonName == name);
      if FoundBy(how, fields, fd, name) {
        var n :| 0 <= n < |fields| && fields[n] == fd;
        assert fd.name == name ==> i == n;
        assert fd.name != name ==> i == |fields| && j == n;
      }
      if i < |fields| { assert fields[i] in fields; }
    case Declared =>
      var k := FirstAt(fields, (fd: FieldDesc) => HasName(fd, name));
      if FoundBy(how, fields, fd, name) {
        var n :| 0 <= n < |fields| && fields[n] == fd && HasName(fd, name)
          && forall k :: 0 <= k < n ==> fields[k].name != name && fields[k].jsonName != name;
        assert k == n;
      }
  }

  /** A map leads to its entry: a scalar called `key`, and a `value` of the map's kind. */
  lemma EntryIs(fd: FieldDesc)
    ensures var entry := EntryFields(fd);
      && |entry| == 2 && UniqueNames(entry)
      && entry[0].name == entry[0].jsonName == "key" && entry[0].kind.ScalarKind? && entry[0].card.Singular?
      && entry[1].name == entry[1].jsonName == "value" && entry[1].kind == fd.kind && entry[1].card.Singular?
      && !entry[0].exclude && !entry[1].exclude
  {
  }

  /** One field per segment, each found in the message or map entry that the one before leads to; if
      `singular`, all but the last are singular messages. */
  ghost predicate Visits(
    how: Lookup, singular: bool, g: Graph, fields: seq<FieldDesc>, segs: seq<string>, path: seq<FieldDesc>)
    decreases |segs|
  {
    && |path| == |segs|
    && (segs == [] ||
        (&& FoundBy(how, fields, path[0], segs[0])
         && (|segs| > 1 ==>
              if path[0].card.MapField? then
                !singular && Visits(how, singular, g, EntryFields(path[0]), segs[1..], path[1..])
              else
                && (singular ==> path[0].card.Singular?) && path[0].kind.MessageKind? && path[0].kind.ty in g
                && Visits(how, singular, g, g[path[0].kind.ty].fields, segs[1..], path[1..]))))
  }

  lemma {:induction false} WalkVisits(
    w: Walker, g: Graph, fields: seq<FieldDesc>, segs: seq<string>, path: seq<FieldDesc>)
    requires ValidGraph(g) && Known(g, fields) && UniqueNames(fields) && !w.refusesExcluded
    ensures Walk(w, g, fields, segs) == Some(path) <==> Visits(w.how, w.refusesRepeated, g, fields, segs, path)
    decreases |segs|
  {
    if Walk(w, g, fields, segs).Some? { WalkLength(w, g, fields, segs); }
    if segs != [] && |path| == |segs| {
      FoundExactly(w.how, fields, path[0], segs[0]);
      if Find(w.how, fields, segs[0]).Some? { FoundIsNamed(w.how, fields, segs[0]); }
      if |segs| == 1 {
        assert path == [path[0]];
      } else if Find(w.how, fields, segs[0]) == Some(path[0]) && Below(g, path[0]).Some? {
        var below := Below(g, path[0]).value;
        EntryIs(path[0]);
        ConsIs(path[0], Walk(w, g, below, segs[1..]), path);
        WalkVisits(w, g, below, segs[1..], path[1..]);
      } else if Find(w.how, fields, segs[0]).Some? && Below(g, Find(w.how, fields, segs[0]).value).Some? {
        var fd := Find(w.how, fields, segs[0]).value;
        ConsIs(fd, Walk(w, g, Below(g, fd).value, segs[1..]), path);
      }
    }
  }

  /** What each of the three does, approved or not: a Mustache getter looks up proto names first and
      goes through lists and maps, a resource getter JSON names first, an assignment in declaration
      order, both through singular messages alone; excluded fields stop none of them. */
  lemma WalkersVisit(g: Graph, fields: seq<FieldDesc>, segs: seq<string>, path: seq<FieldDesc>)
    requires ValidGraph(g) && Known(g, fields) && UniqueNames(fields)
    ensures Walk(MUSTACHE_GETTER, g, fields, segs) == Some(path) <==> Visits(NameFirst, false, g, fields, segs, path)
    ensures Walk(FIELD_GETTER, g, fields, segs) == Some(path) <==> Visits(JsonFirst, true, g, fields, segs, path)
    ensures Walk(ASSIGNER, g, fields, segs) == Some(path) <==> Visits(Declared, true, g, fields, segs, path)
  {
    WalkVisits(MUSTACHE_GETTER, g, fields, segs, path);
    WalkVisits(FIELD_GETTER, g, fields, segs, path);
    WalkVisits(ASSIGNER, g, fields, segs, path);
  }

  /** Under a clash they can part: where field `j` is called what the JSON name of field `i` is, the
      Mustache getter reads `j` though `i` was approved, and so does an assignment if `j` is declared
      first. */
  lemma ClashMisleads(g: Graph, fields: seq<FieldDesc>, i: nat, j: nat)
    requires ValidGraph(g) && Known(g, fields) && UniqueNames(fields) && i < |fields| && j < |fields| && i != j
    requires fields[i].jsonName == fields[j].name && !fields[i].exclude
    ensures Walk(RESOLVER, g, fields, [fields[j].name]) == Some([fields[i]])
    ensures Walk(MUSTACHE_GETTER, g, fields, [fields[j].name]) == Some([fields[j]])
    ensures Walk(ASSIGNER, g, fields, [fields[j].name]) == Some([fields[if i < j then i else j]])
  {
    var name := fields[j].name;
    var a := FirstAt(fields, (fd: FieldDesc) => fd.name == name);
    var b := FirstAt(fields, (fd: FieldDesc) => fd.jsonName == name);
    var c := FirstAt(fields, (fd: FieldDesc) => HasName(fd, name));
    assert a == j && b == i;
    assert c == if i < j then i else j;
  }

  // ----- the loops -----

  datatype PathError = EmptyPath | NotFound | MaskedField | RepeatedField | NotMessage
  datatype Resolved = Field(fd: FieldDesc) | Failed(error: PathError)

  /** The fields `path` names, if the resolver approves it. */
  function Approve(g: Graph, md: TypeName, path: string): Option<seq<FieldDesc>>
    requires ClosedGraph(g) && md in g
  {
    if path == "" then None else Walk(RESOLVER, g, g[md].fields, SplitDots(path))
  }

  /** The fields the resolver looks in after the fields of `walked`. */
  function FieldsAfter(g: Graph, md: TypeName, walked: seq<FieldDesc>): seq<FieldDesc>
    requires md in g
  {
    if walked == [] then g[md].fields
    else
      var last := walked[|walked| - 1];
      if last.kind.MessageKind? && last.kind.ty in g then g[last.kind.ty].fields else []
  }

  /** Why the resolver stops after the fields of `walked`. */
  ghost predicate Blocked(
    g: Graph, md: TypeName, segs: seq<string>, walked: seq<FieldDesc>, error: PathError)
    requires md in g
  {
    && |walked| < |segs|
    && var fields, seg := FieldsAfter(g, md, walked), segs[|walked|];
      match error
      case EmptyPath => false
      case NotFound => forall fd :: fd in fields ==> fd.jsonName != seg && fd.name != seg
      case MaskedField => exists fd :: fd in fields && HasName(fd, seg) && fd.exclude
      case RepeatedField => walked != [] && !walked[|walked| - 1].card.Singular?
      case NotMessage =>
        walked != [] && walked[|walked| - 1].card.Singular? && walked[|walked| - 1].kind.ScalarKind?
  }

  lemma NoSuchField(fields: seq<FieldDesc>, name: string)
    requires Find(JsonFirst, fields, name).None?
    ensures forall fd :: fd in fields ==> fd.jsonName != name && fd.name != name
  {
    var i := FirstAt(fields, (fd: FieldDesc) => fd.name == name);
    var j := FirstAt(fields, (fd: FieldDesc) => fd.jsonName == name);
  }

  /** The resolver has gone through the first `i` segments and visited `walked`. */
  ghost predicate Resolving(
    g: Graph, md: TypeName, segs: seq<string>, i: nat, walked: seq<FieldDesc>, cur: seq<FieldDesc>)
    requires ClosedGraph(g) && md in g && i <= |segs|
  {
    && Known(g, cur) && |walked| == i && cur == FieldsAfter(g, md, walked)
    && Walk(RESOLVER, g, g[md].fields, segs) == AfterSteps(walked, Walk(RESOLVER, g, cur, segs[i..]))
  }

  lemma ResolveStart(g: Graph, md: TypeName, segs: seq<string>)
    requires ClosedGraph(g) && md in g
    ensures Resolving(g, md, segs, 0, [], g[md].fields)
  {
    assert segs[0..] == segs;
    NothingWalked(Walk(RESOLVER, g, g[md].fields, segs));
  }

  /** What the resolver makes of one segment. */
  lemma ResolveStep(g: Graph, md: TypeName, segs: seq<string>, i: nat, walked: seq<FieldDesc>, cur: seq<FieldDesc>)
    requires ClosedGraph(g) && md in g && i < |segs| && Resolving(g, md, segs, i, walked, cur)
    ensures var fd, whole := Find(JsonFirst, cur, segs[i]), Walk(RESOLVER, g, g[md].fields, segs);
      if fd.None? then whole == None && Blocked(g, md, segs, walked, NotFound)
      else if fd.value.exclude then whole == None && Blocked(g, md, segs, walked, MaskedField)
      else if i == |segs| - 1 then whole == Some(walked + [fd.value])
      else if !fd.value.card.Singular? then whole == None && Blocked(g, md, segs, walked + [fd.value], RepeatedField)
      else if !fd.value.kind.MessageKind? then whole == None && Blocked(g, md, segs, walked + [fd.value], NotMessage)
      else fd.value.kind.ty in g && Resolving(g, md, segs, i + 1, walked + [fd.value], g[fd.value.kind.ty].fields)
  {
    var fd := Find(JsonFirst, cur, segs[i]);
    hide Find, EntryFields;
    if fd.None? {
      NoSuchField(cur, segs[i]);
    } else {
      FoundIsNamed(JsonFirst, cur, segs[i]);
      assert segs[i..][1..] == segs[i + 1..];
      if !fd.value.exclude && i < |segs| - 1 && fd.value.card.Singular? && fd.value.kind.MessageKind? {
        AfterOneMore(walked, fd.value, Walk(RESOLVER, g, g[fd.value.kind.ty].fields, segs[i + 1..]));
      }
    }
  }

  /** The resolver's loop; `walked` is what it has visited when it returns. */
  method ResolveFieldPath(g: Graph, md: TypeName, path: string) returns (r: Resolved, ghost walked: seq<FieldDesc>)
    requires ClosedGraph(g) && md in g
    ensures r.Field? <==> Approve(g, md, path).Some?
    ensures r.Field? ==> walked == Approve(g, md, path).value && walked != [] && r.fd == walked[|walked| - 1]
    ensures r.Failed? ==> if path == "" then r.error == EmptyPath else Blocked(g, md, SplitDots(path), walked, r.error)
  {
    if path == "" {
      return Failed(EmptyPath), [];
    }
    hide Find, SplitDots, Walk, Resolving, Blocked;
    var segs := SplitDots(path);
    var cur := g[md].fields;
    walked := [];
    var last: Option<FieldDesc> := None;
    ResolveStart(g, md, segs);
    for i := 0 to |segs|
      invariant Resolving(g, md, segs, i, walked, cur)
      invariant i == |segs| ==> last.Some? && Approve(g, md, path) == Some(walked) && walked != []
      invariant i == |segs| ==> last == Some(walked[|walked| - 1])
    {
      ResolveStep(g, md, segs, i, walked, cur);
      var fd := Find(JsonFirst, cur, segs[i]);
      if fd.None? {
        return Failed(NotFound), walked;
      }
      if fd.value.exclude {
        return Failed(MaskedField), walked;
      }
      last := fd;
      walked := walked + [fd.value];
      if i == |segs| - 1 {
        break;
      }
      if !fd.value.card.Singular? {
        return Failed(RepeatedField), walked;
      }
      if !fd.value.kind.MessageKind? {
        return Failed(NotMessage), walked;
      }
      cur := g[fd.value.kind.ty].fields;
    }
    r := Field(last.value);
  }

  /** The walker that compiles a Mustache tag to a chain of getters. */
  method MustacheGoGetter(g: Graph, md: TypeName, path: string) returns (r: Option<seq<FieldDesc>>)
    requires ClosedGraph(g) && md in g
    ensures r == Walk(MUSTACHE_GETTER, g, g[md].fields, SplitDots(path))
  {
    var segs := SplitDots(path);
    var cur := g[md].fields;
    var expr: seq<FieldDesc> := [];
    assert segs[0..] == segs;
    NothingWalked(Walk(MUSTACHE_GETTER, g, g[md].fields, segs));
    for i := 0 to |segs|
      invariant Known(g, cur) && |expr| == i
      invariant Walk(MUSTACHE_GETTER, g, g[md].fields, segs) ==
        AfterSteps(expr, Walk(MUSTACHE_GETTER, g, cur, segs[i..]))
    {
      var fd := ByName(cur, segs[i]);
      if fd.None? {
        fd := ByJsonName(cur, segs[i]);
      }
      assert segs[i..][1..] == segs[i + 1..];
      if fd.None? {
        return None;
      }
      expr := expr + [fd.value];
      if i == |segs| - 1 {
        return Some(expr);
      }
      FoundIsNamed(NameFirst, cur, segs[i]);
      var below := Below(g, fd.value);
      if below.None? {
        return None;
      }
      AfterOneMore(expr[..i], fd.value, Walk(MUSTACHE_GETTER, g, below.value, segs[i + 1..]));
      cur := below.value;
    }
    assert expr + [] == expr;
    return Some(expr);
  }

  /** The walker that compiles a resource binding to a chain of getters. */
  method MessageFieldGetter(g: Graph, md: TypeName, path: string) returns (r: Option<seq<FieldDesc>>)
    requires ClosedGraph(g) && md in g
    ensures r == if path == "" then None else Walk(FIELD_GETTER, g, g[md].fields, SplitDots(path))
  {
    if path == "" {
      return None;
    }
    var segs := SplitDots(path);
    var cur := g[md].fields;
    var expr: seq<FieldDesc> := [];
    assert segs[0..] == segs;
    NothingWalked(Walk(FIELD_GETTER, g, g[md].fields, segs));
    for i := 0 to |segs|
      invariant Known(g, cur) && |expr| == i
      invariant Walk(FIELD_GETTER, g, g[md].fields, segs) == AfterSteps(expr, Walk(FIELD_GETTER, g, cur, segs[i..]))
    {
      var fd := Find(JsonFirst, cur, segs[i]);
      assert segs[i..][1..] == segs[i + 1..];
      if fd.None? {
        return None;
      }
      expr := expr + [fd.value];
      if i == |segs| - 1 {
        return Some(expr);
      }
      if !fd.value.kind.MessageKind? || !fd.value.card.Singular? {
        return None;
      }
      FoundIsNamed(JsonFirst, cur, segs[i]);
      AfterOneMore(expr[..i], fd.value, Walk(FIELD_GETTER, g, Below(g, fd.value).value, segs[i + 1..]));
      cur := Below(g, fd.value).value;
    }
    assert expr + [] == expr;
    return Some(expr);
  }

  /** `visited`, if the last field passes `isString`. */
  function StringEnded(visited: Option<seq<FieldDesc>>, isString: FieldDesc -> bool): Option<seq<FieldDesc>> {
    if visited.Some? && visited.value != [] && isString(visited.value[|visited.value| - 1]) then visited else None
  }

  /** An assignment sets the last field, and exists only if that is a string. */
  lemma AssignsExactly(
    g: Graph, fields: seq<FieldDesc>, segs: seq<string>, isString: FieldDesc -> bool, path: seq<FieldDesc>)
    requires ValidGraph(g) && Known(g, fields) && UniqueNames(fields) && segs != []
    ensures StringEnded(Walk(ASSIGNER, g, fields, segs), isString) == Some(path) <==>
      Visits(Declared, true, g, fields, segs, path) && isString(path[|segs| - 1])
  {
    WalkersVisit(g, fields, segs, path);
  }

  /** The walker that compiles a binding to an assignment: the messages it allocates and descends
      through, then the string field it sets. */
  method MessageFieldAssignStringPath(g: Graph, start: TypeName, path: string, isString: FieldDesc -> bool)
    returns (r: Option<seq<FieldDesc>>)
    requires ClosedGraph(g) && start in g
    ensures r == if path == "" then None else StringEnded(Walk(ASSIGNER, g, g[start].fields, SplitDots(path)), isString)
  {
    if path == "" {
      return None;
    }
    var segs := SplitDots(path);
    var cur := g[start].fields;
    var through: seq<FieldDesc> := [];
    assert segs[0..] == segs;
    NothingWalked(Walk(ASSIGNER, g, g[start].fields, segs));
    for i := 0 to |segs|
      invariant Known(g, cur) && |through| == i
      invariant Walk(ASSIGNER, g, g[start].fields, segs) == AfterSteps(through, Walk(ASSIGNER, g, cur, segs[i..]))
    {
      var fd := Find(Declared, cur, segs[i]);
      assert segs[i..][1..] == segs[i + 1..];
      if fd.None? {
        return None;
      }
      through := through + [fd.value];
      if i == |segs| - 1 {
        return StringEnded(Some(through), isString);
      }
      if !fd.value.kind.MessageKind? || !fd.value.card.Singular? {
        return None;
      }
      FoundIsNamed(Declared, cur, segs[i]);
      AfterOneMore(through[..i], fd.value, Walk(ASSIGNER, g, Below(g, fd.value).value, segs[i + 1..]));
      cur := Below(g, fd.value).value;
    }
    assert through + [] == through;
    return StringEnded(Some(through), isString);
  }
}
