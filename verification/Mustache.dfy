/** Mustache messages compiled to a Go expression. */
module Mustache {
  import opened Descriptors
  import opened FieldPaths
  import opened GoLiteral

  // ----- locating tags -----

  /** A tag: its trimmed name, and where it starts and ends, braces included. */
  datatype Tag = Tag(path: string, start: nat, end: nat)

  predicate PairAt(src: string, k: nat, c: char) { k + 1 < |src| && src[k] == src[k + 1] == c }

  /** The first position from `from` where `src` has `c` twice. */
  function IndexPair(src: string, from: nat, c: char): (r: Option<nat>)
    ensures r.Some? ==> from <= r.value && PairAt(src, r.value, c)
    ensures r.Some? ==> forall k: nat :: from <= k < r.value ==> !PairAt(src, k, c)
    ensures r.None? ==> forall k: nat :: from <= k ==> !PairAt(src, k, c)
    decreases |src| - from
  {
    if from + 1 >= |src| then None
    else if PairAt(src, from, c) then Some(from)
    else IndexPair(src, from + 1, c)
  }

  predicate IsSpace(c: char) {
    var n := c as int;
    9 <= n <= 13 || n == 0x20 || n == 0x85 || n == 0xA0 || n == 0x1680 || 0x2000 <= n <= 0x200A
    || n == 0x2028 || n == 0x2029 || n == 0x202F || n == 0x205F || n == 0x3000
  }

  function TrimLeft(s: string): string { if s != "" && IsSpace(s[0]) then TrimLeft(s[1..]) else s }

  function TrimRight(s: string): string { if s != "" && IsSpace(s[|s| - 1]) then TrimRight(s[..|s| - 1]) else s }

  function TrimSpace(s: string): string { TrimRight(TrimLeft(s)) }

  /** The characters with the Unicode property White_Space. */
  const SPACES :=
    "\t\n\U{B}\U{C}\r \U{85}\U{A0}\U{1680}\U{2000}\U{2001}\U{2002}\U{2003}\U{2004}\U{2005}\U{2006}" +
    "\U{2007}\U{2008}\U{2009}\U{200A}\U{2028}\U{2029}\U{202F}\U{205F}\U{3000}"

  lemma SpaceExactly(c: char)
    ensures IsSpace(c) <==> c in SPACES
  {
  }

  /** `t` is what is left of `s` without spaces at either end. */
  ghost predicate Trimmed(s: string, t: string, i: nat, j: nat) {
    && i <= j <= |s| && t == s[i..j]
    && (forall k :: 0 <= k < i || j <= k < |s| ==> IsSpace(s[k]))
    && (i < j ==> !IsSpace(s[i]) && !IsSpace(s[j - 1]))
  }

  lemma {:induction false} TrimLeftAt(s: string) returns (i: nat)
    ensures i <= |s| && TrimLeft(s) == s[i..]
    ensures (forall k :: 0 <= k < i ==> IsSpace(s[k])) && (i < |s| ==> !IsSpace(s[i]))
    decreases |s|
  {
    if s != "" && IsSpace(s[0]) {
      var below := TrimLeftAt(s[1..]);
      i := below + 1;
      assert forall k :: 1 <= k < |s| ==> s[k] == s[1..][k - 1];
    } else {
      i := 0;
    }
  }

  lemma {:induction false} TrimRightAt(s: string) returns (j: nat)
    ensures j <= |s| && TrimRight(s) == s[..j]
    ensures (forall k :: j <= k < |s| ==> IsSpace(s[k])) && (j > 0 ==> !IsSpace(s[j - 1]))
    decreases |s|
  {
    if s != "" && IsSpace(s[|s| - 1]) {
      j := TrimRightAt(s[..|s| - 1]);
      assert forall k :: 0 <= k < |s| - 1 ==> s[k] == s[..|s| - 1][k];
    } else {
      j := |s|;
      assert s[..j] == s;
    }
  }

  /** Trimming leaves exactly that. */
  lemma TrimExactly(s: string, t: string)
    ensures TrimSpace(s) == t <==> exists i: nat, j: nat :: Trimmed(s, t, i, j)
  {
    var a := TrimLeftAt(s);
    var n := TrimRightAt(s[a..]);
    var b := a + n;
    assert s[a..][..n] == s[a..b];
    hide IsSpace;
    forall k | b <= k < |s| ensures IsSpace(s[k]) { assert s[k] == s[a..][k - a]; }
    assert Trimmed(s, TrimSpace(s), a, b) by {
      if a < b { assert s[b - 1] == s[a..][n - 1]; }
    }
    if i: nat, j: nat :| Trimmed(s, t, i, j) { TrimmedOnce(s, t, i, j, TrimSpace(s), a, b); }
  }

  lemma TrimmedOnce(s: string, t: string, i: nat, j: nat, u: string, a: nat, b: nat)
    requires Trimmed(s, t, i, j) && Trimmed(s, u, a, b)
    ensures t == u
  {
    hide IsSpace;
    if i < j {
      assert a <= i && j <= b;
      assert a < b;
      assert a == i && b == j;
    } else {
      assert a >= b;
    }
  }

  /** The tag kinds that are not plain variables. */
  predicate IsSigil(c: char) { c == '#' || c == '^' || c == '/' || c == '>' || c == '!' || c == '=' || c == '&' }

  lemma SigilExactly(c: char)
    ensures IsSigil(c) <==> c in "#^/>!=&"
  {
  }

  /** A tag is `{{` body `}}`, the body without `}}` and starting no triple brace. */
  predicate TagAt(src: string, v: Tag) {
    && v.start + 4 <= v.end <= |src|
    && PairAt(src, v.start, '{') && src[v.start + 2] != '{' && PairAt(src, v.end - 2, '}')
    && v.path == TrimSpace(src[v.start + 2..v.end - 2]) && v.path != "" && !IsSigil(v.path[0])
    && forall k: nat :: v.start + 2 <= k < v.end - 2 ==> !PairAt(src, k, '}')
  }

  datatype Scan = Done | Skip(next: nat) | Found(tag: Tag)

  /** One turn of the scan from position `i`. */
  function ScanOnce(src: string, i: nat): (r: Scan)
    requires i < |src|
    ensures r.Skip? ==> i < r.next
    ensures r.Found? ==> i <= r.tag.start && TagAt(src, r.tag)
  {
    var open := IndexPair(src, i, '{');
    if open.None? then Done
    else if open.value + 2 < |src| && src[open.value + 2] == '{' then Skip(open.value + 3)
    else
      var close := IndexPair(src, open.value + 2, '}');
      if close.None? then Done
      else
        var body := TrimSpace(src[open.value + 2..close.value]);
        if body == "" || IsSigil(body[0]) then Skip(close.value + 2)
        else Found(Tag(body, open.value, close.value + 2))
  }

  /** The plain variable tags from position `i` on. */
  function TagsFrom(src: string, i: nat): seq<Tag>
    decreases |src| - i
  {
    if i >= |src| then []
    else
      match ScanOnce(src, i)
      case Done => []
      case Skip(next) => TagsFrom(src, next)
      case Found(tag) => [tag] + TagsFrom(src, tag.end)
  }

  /** What one turn leaves to find after `out`. */
  lemma TurnLeaves(src: string, i: nat, out: seq<Tag>)
    ensures i >= |src| || ScanOnce(src, i).Done? ==> out + TagsFrom(src, i) == out
    ensures i < |src| && ScanOnce(src, i).Skip? ==> TagsFrom(src, i) == TagsFrom(src, ScanOnce(src, i).next)
    ensures i < |src| && ScanOnce(src, i).Found? ==>
      out + TagsFrom(src, i) == (out + [ScanOnce(src, i).tag]) + TagsFrom(src, ScanOnce(src, i).tag.end)
  {
  }

  method LocateMustacheVars(src: string) returns (out: seq<Tag>)
    ensures out == TagsFrom(src, 0)
    ensures Tiles(src, out, 0)
  {
    hide TrimSpace, IsSigil, Tiles, TagAt, TagsFrom;
    out := [];
    var i: nat := 0;
    TagsTile(src, 0);
    while i < |src|
      invariant out + TagsFrom(src, i) == TagsFrom(src, 0)
      decreases |src| - i
    {
      ghost var turn := ScanOnce(src, i);
      TurnLeaves(src, i, out);
      var open := IndexPair(src, i, '{');
      if open.None? {
        break;
      }
      if open.value + 2 < |src| && src[open.value + 2] == '{' {
        assert turn == Skip(open.value + 3);
        i := open.value + 3;
        continue;
      }
      var close := IndexPair(src, open.value + 2, '}');
      if close.None? {
        break;
      }
      var body := TrimSpace(src[open.value + 2..close.value]);
      if body == "" || IsSigil(body[0]) {
        assert turn == Skip(close.value + 2);
        i := close.value + 2;
        continue;
      }
      assert turn == Found(Tag(body, open.value, close.value + 2));
      out := out + [Tag(body, open.value, close.value + 2)];
      i := close.value + 2;
    }
    TurnLeaves(src, i, out);
  }

  /** The tags are ordered and disjoint from `from` on. */
  predicate Tiles(src: string, tags: seq<Tag>, from: nat)
    decreases |tags|
  {
    tags == [] || (from <= tags[0].start && TagAt(src, tags[0]) && Tiles(src, tags[1..], tags[0].end))
  }

  lemma {:induction false} TilesFromEarlier(src: string, tags: seq<Tag>, from: nat, earlier: nat)
    requires Tiles(src, tags, from) && earlier <= from
    ensures Tiles(src, tags, earlier)
  {
  }

  lemma {:induction false} TagsTile(src: string, i: nat)
    ensures Tiles(src, TagsFrom(src, i), i)
    decreases |src| - i
  {
    if i < |src| {
      match ScanOnce(src, i)
      case Done =>
      case Skip(next) =>
        TagsTile(src, next);
        TilesFromEarlier(src, TagsFrom(src, next), next, i);
      case Found(tag) =>
        TagsTile(src, tag.end);
        assert TagsFrom(src, i)[1..] == TagsFrom(src, tag.end);
    }
  }

  // ----- rendering -----

  /** `src` from `from` on, with each tag replaced by `value` of it. */
  function Substitute(src: string, tags: seq<Tag>, from: nat, value: Tag -> string): string
    requires Tiles(src, tags, from) && from <= |src|
    decreases |tags|
  {
    if tags == [] then src[from..]
    else src[from..tags[0].start] + value(tags[0]) + Substitute(src, tags[1..], tags[0].end, value)
  }

  /** The literal pieces and the tags together are the whole text. */
  lemma {:induction false} TagsAndTextTile(src: string, tags: seq<Tag>, from: nat, value: Tag -> string)
    requires Tiles(src, tags, from) && from <= |src|
    requires forall v :: v in tags ==> v.start <= v.end <= |src| && value(v) == src[v.start..v.end]
    ensures Substitute(src, tags, from, value) == src[from..]
    decreases |tags|
  {
    if tags != [] {
      TagsAndTextTile(src, tags[1..], tags[0].end, value);
      assert src[from..] == src[from..tags[0].start] + src[tags[0].start..tags[0].end] + src[tags[0].end..];
    }
  }

  /** One summand of the compiled expression: a string literal, or fmt.Sprintf over a chain of
      getters. */
  datatype Part = Literal(source: string) | Sprintf(getters: seq<FieldDesc>)

  /** What the compiled expression evaluates to, given what "%v" prints for each chain. */
  function EvalParts(parts: seq<Part>, show: seq<FieldDesc> -> string): Option<string> {
    if parts == [] then Some("")
    else
      var init := EvalParts(parts[..|parts| - 1], show);
      var last := EvalPart(parts[|parts| - 1], show);
      if init.None? || last.None? then None else Some(init.value + last.value)
  }

  function EvalPart(p: Part, show: seq<FieldDesc> -> string): Option<string> {
    match p
    case Literal(source) => Eval(source)
    case Sprintf(getters) => Some(show(getters))
  }

  /** Every tag names a path the resolver approved. */
  ghost predicate Approved(g: Graph, md: TypeName, tags: seq<Tag>)
    requires ClosedGraph(g) && md in g
  {
    forall v :: v in tags ==> Approve(g, md, v.path).Some?
  }

  /** The value a tag stands for: what "%v" prints of the approved fields. */
  function TagValue(g: Graph, md: TypeName, show: seq<FieldDesc> -> string): Tag -> string
    requires ClosedGraph(g) && md in g
  {
    (v: Tag) => PathValue(g, md, show, v.path)
  }

  function PathValue(g: Graph, md: TypeName, show: seq<FieldDesc> -> string, path: string): string
    requires ClosedGraph(g) && md in g
  {
    var r := Approve(g, md, path); if r.None? then "" else show(r.value)
  }

  /** The fields the compiled getter of a tag visits. */
  function GetterPath(g: Graph, md: TypeName, v: Tag): Option<seq<FieldDesc>>
    requires ClosedGraph(g) && md in g
  {
    Walk(MUSTACHE_GETTER, g, g[md].fields, SplitDots(v.path))
  }

  /** No getter of the tags is distracted by another field's name. */
  ghost predicate Unmisled(g: Graph, md: TypeName, tags: seq<Tag>)
    requires ClosedGraph(g) && md in g && Approved(g, md, tags)
  {
    forall v :: v in tags ==>
      Undistracted(MUSTACHE_GETTER, g, g[md].fields, SplitDots(v.path), Approve(g, md, v.path).value)
  }

  /** The value the compiled getter of a tag reads. */
  function GetterValue(g: Graph, md: TypeName, show: seq<FieldDesc> -> string): Tag -> string
    requires ClosedGraph(g) && md in g
  {
    (v: Tag) => var r := GetterPath(g, md, v); if r.None? then "" else show(r.value)
  }

  lemma PartAppended(parts: seq<Part>, p: Part, show: seq<FieldDesc> -> string)
    requires EvalParts(parts, show).Some? && EvalPart(p, show).Some?
    ensures EvalParts(parts + [p], show) == Some(EvalParts(parts, show).value + EvalPart(p, show).value)
  {
    assert (parts + [p])[..|parts|] == parts;
  }

  /** The source text already compiled: up to `from`, with its tags replaced. */
  lemma {:induction false} SubstituteStep(src: string, tags: seq<Tag>, k: nat, from: nat, value: Tag -> string)
    requires k < |tags| && from <= |src| && Tiles(src, tags[k..], from)
    ensures from <= tags[k].start && TagAt(src, tags[k]) && Tiles(src, tags[k + 1..], tags[k].end)
    ensures Substitute(src, tags[k..], from, value) ==
      src[from..tags[k].start] + value(tags[k]) + Substitute(src, tags[k + 1..], tags[k].end, value)
  {
    assert tags[k..][1..] == tags[k + 1..];
  }

  /** Compile a message at its tags. Evaluating the expression gives the source text with every
      tag replaced by what its getter chain reads. */
  method RenderMustacheGoExpr(src: string, tags: seq<Tag>, g: Graph, md: TypeName, ghost show: seq<FieldDesc> -> string)
    returns (r: Option<seq<Part>>)
    requires ClosedGraph(g) && md in g && Tiles(src, tags, 0)
    ensures r.Some? <==> forall v :: v in tags ==> GetterPath(g, md, v).Some?
    ensures r.Some? && BOM !in src ==>
      EvalParts(r.value, show) == Some(Substitute(src, tags, 0, GetterValue(g, md, show)))
  {
    hide Eval, EvalParts, Substitute, Tiles;
    ghost var value := GetterValue(g, md, show);
    ghost var whole := Substitute(src, tags, 0, value);
    var parts: seq<Part> := [];
    NothingCompiled(show);
    if |tags| == 0 {
      var all := GoStringLiteral(src);
      if BOM !in src { OnePart(Literal(all), show); }
      NoTags(src, tags, 0, value);
      return Some([Literal(all)]);
    }
    var cursor: nat := 0;
    assert tags[0..] == tags;
    for k := 0 to |tags|
      invariant cursor <= |src| && Tiles(src, tags[k..], cursor)
      invariant forall j :: 0 <= j < k ==> GetterPath(g, md, tags[j]).Some?
      invariant BOM !in src ==> EvalParts(parts, show).Some?
      invariant BOM !in src ==> EvalParts(parts, show).value + Substitute(src, tags[k..], cursor, value) == whole
    {
      var v := tags[k];
      SubstituteStep(src, tags, k, cursor, value);
      ghost var rest := Substitute(src, tags[k + 1..], v.end, value);
      ghost var before := parts;
      parts := AddLiteral(src, cursor, v.start, parts, show);
      var getter := MustacheGoGetter(g, md, v.path);
      if getter.None? {
        return None;
      }
      if BOM !in src {
        PartAppended(parts, Sprintf(getter.value), show);
        Reassociate(EvalParts(before, show).value, src[cursor..v.start], value(v), rest);
      }
      parts := parts + [Sprintf(getter.value)];
      cursor := v.end;
    }
    NoTags(src, tags[|tags|..], cursor, value);
    assert src[cursor..|src|] == src[cursor..];
    parts := AddLiteral(src, cursor, |src|, parts, show);
    r := Some(parts);
  }

  lemma OnePart(p: Part, show: seq<FieldDesc> -> string)
    requires EvalPart(p, show).Some?
    ensures EvalParts([p], show) == EvalPart(p, show)
  {
    assert [p][..0] == [];
    if EvalPart(p, show).Some? { assert "" + EvalPart(p, show).value == EvalPart(p, show).value; }
  }

  lemma NothingCompiled(show: seq<FieldDesc> -> string)
    ensures EvalParts([], show) == Some("")
  {
  }

  lemma NoTags(src: string, tags: seq<Tag>, from: nat, value: Tag -> string)
    requires tags == [] && from <= |src|
    ensures Tiles(src, tags, from) && Substitute(src, tags, from, value) == src[from..]
  {
  }

  lemma Reassociate(a: string, b: string, c: string, d: string)
    ensures a + (b + c + d) == a + b + c + d
  {
  }

  /** Emit the text between two tags, if there is any. */
  method AddLiteral(src: string, from: nat, to: nat, parts: seq<Part>, ghost show: seq<FieldDesc> -> string)
    returns (r: seq<Part>)
    requires from <= to <= |src|
    ensures BOM !in src && EvalParts(parts, show).Some? ==>
      EvalParts(r, show) == Some(EvalParts(parts, show).value + src[from..to])
  {
    if to > from {
      var lit := GoStringLiteral(src[from..to]);
      if BOM !in src && EvalParts(parts, show).Some? {
        PartAppended(parts, Literal(lit), show);
      }
      r := parts + [Literal(lit)];
    } else {
      assert EvalParts(parts, show).Some? ==>
        EvalParts(parts, show).value + src[from..to] == EvalParts(parts, show).value;
      r := parts;
    }
  }

  /** A getter visits the approved fields exactly when it is not distracted. */
  lemma ApprovedIsRead(g: Graph, md: TypeName, v: Tag)
    requires ValidGraph(g) && md in g && v.path != "" && Approve(g, md, v.path).Some?
    ensures GetterPath(g, md, v) == Approve(g, md, v.path) <==>
      Undistracted(MUSTACHE_GETTER, g, g[md].fields, SplitDots(v.path), Approve(g, md, v.path).value)
  {
    WalksTheApproved(MUSTACHE_GETTER, g, g[md].fields, SplitDots(v.path), Approve(g, md, v.path).value);
  }

  /** So on approved tags that are not, the getters exist and read the approved fields. */
  lemma {:induction false} ApprovedIsFilled(
    src: string, tags: seq<Tag>, from: nat, g: Graph, md: TypeName, show: seq<FieldDesc> -> string)
    requires ValidGraph(g) && md in g && Tiles(src, tags, from) && from <= |src|
    requires Approved(g, md, tags) && Unmisled(g, md, tags)
    ensures forall v :: v in tags ==> GetterPath(g, md, v).Some?
    ensures Substitute(src, tags, from, GetterValue(g, md, show)) == Substitute(src, tags, from, TagValue(g, md, show))
    decreases |tags|
  {
    if tags != [] {
      ApprovedIsRead(g, md, tags[0]);
      ApprovedIsFilled(src, tags[1..], tags[0].end, g, md, show);
    }
  }

  /** The prompt's compilation: locate, check every path, render. It succeeds exactly when the
      message is not empty, every path is approved and every getter exists. The expression then
      evaluates to the message with each tag replaced by what its getter reads; unless a getter is
      distracted, that is the value of the field its path was approved for. */
  method CompileMessage(msg: string, g: Graph, md: TypeName, ghost show: seq<FieldDesc> -> string)
    returns (r: Option<seq<Part>>)
    requires ValidGraph(g) && md in g
    ensures var tags := TagsFrom(msg, 0);
      && Tiles(msg, tags, 0)
      && (r.Some? <==>
           msg != "" && Approved(g, md, tags) && forall v :: v in tags ==> GetterPath(g, md, v).Some?)
      && (r.Some? && BOM !in msg ==>
           EvalParts(r.value, show) == Some(Substitute(msg, tags, 0, GetterValue(g, md, show))))
      && (msg != "" && Approved(g, md, tags) && Unmisled(g, md, tags) ==>
           r.Some? &&
           Substitute(msg, tags, 0, GetterValue(g, md, show)) == Substitute(msg, tags, 0, TagValue(g, md, show)))
  {
    hide Eval, EvalParts, Substitute, Tiles, Unmisled, Approve, GetterPath;
    TagsTile(msg, 0);
    if msg == "" {
      return None;
    }
    var tags := LocateMustacheVars(msg);
    if Approved(g, md, tags) {
      if Unmisled(g, md, tags) { ApprovedIsFilled(msg, tags, 0, g, md, show); }
    }
    for k := 0 to |tags|
      invariant forall j :: 0 <= j < k ==> Approve(g, md, tags[j].path).Some?
    {
      var resolved, _ := ResolveFieldPath(g, md, tags[k].path);
      if resolved.Failed? {
        return None;
      }
    }
    r := RenderMustacheGoExpr(msg, tags, g, md, show);
  }
}
