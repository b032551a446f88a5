/** What a Mustache message means to its author, and that exactly that is located and filled in. */
module MustacheText {
  import opened Descriptors
  import opened Mustache

  // ----- what a message means -----

  /** A message as its author wrote it: text; `{{` body `}}` for a variable or for any other tag; a
      triple brace; and at the end, `{{` without its `}}`. */
  datatype Chunk = Text(text: string) | Var(body: string) | Other(body: string) | Triple | Unclosed(rest: string)

  function Source(chunks: seq<Chunk>): string {
    if chunks == [] then "" else ChunkSource(chunks[0]) + Source(chunks[1..])
  }

  function ChunkSource(c: Chunk): string {
    match c
    case Text(text) => text
    case Var(body) => "{{" + body + "}}"
    case Other(body) => "{{" + body + "}}"
    case Triple => "{{{"
    case Unclosed(rest) => "{{" + rest
  }

  /** What stands between the braces: it starts no triple brace and holds no closing pair. */
  ghost predicate Body(body: string) {
    && (forall k: nat :: !PairAt(body, k, '}'))
    && (body != "" ==> body[|body| - 1] != '}' && body[0] != '{')
  }

  /** The name in a tag, which decides what kind it is. */
  ghost predicate NamesVariable(body: string) {
    TrimSpace(body) != "" && TrimSpace(body)[0] !in "#^/>!=&"
  }

  ghost predicate Plain(c: Chunk) {
    match c
    case Text(text) => forall k: nat :: !PairAt(text, k, '{')
    case Var(body) => Body(body) && NamesVariable(body)
    case Other(body) => Body(body) && !NamesVariable(body)
    case Triple => true
    case Unclosed(rest) => (forall k: nat :: !PairAt(rest, k, '}')) && (rest != "" ==> rest[0] != '{')
  }

  /** Chunks one after the other: an unclosed tag, or text that ends in a brace, comes last. */
  ghost predicate WellWritten(chunks: seq<Chunk>) {
    && (forall i :: 0 <= i < |chunks| ==> Plain(chunks[i]))
    && (forall i :: 0 <= i < |chunks| - 1 ==>
         && !chunks[i].Unclosed?
         && (chunks[i].Text? && chunks[i].text != "" ==> chunks[i].text[|chunks[i].text| - 1] != '{'))
  }

  lemma WellWrittenTail(chunks: seq<Chunk>)
    requires chunks != []
    ensures WellWritten(chunks) ==> Plain(chunks[0]) && WellWritten(chunks[1..])
    ensures Plain(chunks[0]) && WellWritten(chunks[1..]) && !chunks[0].Unclosed?
      && (chunks[0].Text? && chunks[0].text != "" ==> chunks[0].text[|chunks[0].text| - 1] != '{')
      ==> WellWritten(chunks)
  {
    hide Plain;
    assert forall i :: 0 <= i < |chunks[1..]| ==> chunks[1..][i] == chunks[i + 1];
    if WellWritten(chunks) {
      forall i | 0 <= i < |chunks[1..]| ensures Plain(chunks[1..][i]) { assert Plain(chunks[i + 1]); }
    }
    if Plain(chunks[0]) && WellWritten(chunks[1..]) {
      forall i | 0 <= i < |chunks| ensures Plain(chunks[i]) { if i > 0 { assert Plain(chunks[1..][i - 1]); } }
    }
  }

  /** What the author meant: variables are filled in, everything else stays as it is written. */
  function Filled(chunks: seq<Chunk>, value: string -> string): string {
    if chunks == [] then ""
    else
      (match chunks[0] case Var(body) => value(TrimSpace(body)) case other => ChunkSource(other))
      + Filled(chunks[1..], value)
  }

  /** A tag is filled in with the value of its name. */
  function ByPath(value: string -> string): Tag -> string { (v: Tag) => value(v.path) }

  lemma {:induction false} NoPairTo(src: string, a: nat, b: nat, c: char)
    requires a <= b <= |src| && forall k: nat :: a <= k < b ==> !PairAt(src, k, c)
    ensures IndexPair(src, a, c) == IndexPair(src, b, c)
    decreases b - a
  {
    if a < b { NoPairTo(src, a + 1, b, c); }
  }

  /** Text is passed over. */
  lemma TextHasNoTags(src: string, a: nat, b: nat)
    requires a <= b <= |src| && forall k: nat :: a <= k < b ==> !PairAt(src, k, '{')
    ensures TagsFrom(src, a) == TagsFrom(src, b)
  {
    NoPairTo(src, a, b, '{');
    hide PairAt, ScanOnce;
    if a < |src| {
      if b < |src| {
        SameScan(src, a, b);
      } else {
        EndOfScan(src, a);
      }
    }
  }

  lemma SameScan(src: string, a: nat, b: nat)
    requires a < |src| && b < |src| && IndexPair(src, a, '{') == IndexPair(src, b, '{')
    ensures ScanOnce(src, a) == ScanOnce(src, b)
  {
    hide PairAt, TrimSpace, IsSigil, IndexPair;
  }

  lemma EndOfScan(src: string, a: nat)
    requires a < |src| && IndexPair(src, a, '{') == IndexPair(src, |src|, '{')
    ensures ScanOnce(src, a) == Done
  {
    hide TrimSpace, IsSigil;
  }

  lemma TextPairs(prefix: string, text: string, rest: string)
    requires Plain(Text(text)) && (rest != "" && text != "" ==> text[|text| - 1] != '{')
    ensures forall k: nat :: |prefix| <= k < |prefix| + |text| ==> !PairAt(prefix + (text + rest), k, '{')
  {
    var src := prefix + (text + rest);
    forall k: nat | |prefix| <= k < |prefix| + |text| ensures !PairAt(src, k, '{') {
      assert !PairAt(text, k - |prefix|, '{');
      assert src[k] == text[k - |prefix|];
    }
  }

  /** The scan at a tag: its braces, and its body up to the first closing pair. */
  lemma TagIsClosed(prefix: string, body: string, rest: string)
    requires Body(body)
    ensures var src, at := prefix + (("{{" + body + "}}") + rest), |prefix|;
      && at < |src| && IndexPair(src, at, '{') == Some(at)
      && at + 2 < |src| && src[at + 2] != '{'
      && IndexPair(src, at + 2, '}') == Some(at + 2 + |body|) && src[at + 2..at + 2 + |body|] == body
  {
    var src := prefix + (("{{" + body + "}}") + rest);
    var a, b := |prefix| + 2, |prefix| + 2 + |body|;
    assert src[a..b] == body;
    assert PairAt(src, |prefix|, '{') && (body != "" ==> src[a] == body[0]);
    forall k: nat | a <= k < b ensures !PairAt(src, k, '}') {
      assert src[k] == body[k - a] && !PairAt(body, k - a, '}');
    }
    NoPairTo(src, a, b, '}');
    assert PairAt(src, b, '}');
  }

  lemma TagIsScanned(prefix: string, body: string, rest: string)
    requires Body(body)
    ensures var src, end := prefix + (("{{" + body + "}}") + rest), |prefix| + |body| + 4;
      ScanOnce(src, |prefix|) ==
        if NamesVariable(body) then Scan.Found(Tag(TrimSpace(body), |prefix|, end)) else Scan.Skip(end)
  {
    TagIsClosed(prefix, body, rest);
    hide TrimSpace, IndexPair;
    if TrimSpace(body) != "" { SigilExactly(TrimSpace(body)[0]); }
    hide IsSigil;
  }

  lemma TripleIsSkipped(prefix: string, rest: string)
    ensures ScanOnce(prefix + ("{{{" + rest), |prefix|) == Scan.Skip(|prefix| + 3)
  {
    var src := prefix + ("{{{" + rest);
    assert PairAt(src, |prefix|, '{') && src[|prefix| + 2] == '{';
  }

  lemma UnclosedIsDone(prefix: string, rest: string)
    requires Plain(Unclosed(rest))
    ensures ScanOnce(prefix + ("{{" + rest), |prefix|) == Scan.Done
  {
    var src := prefix + ("{{" + rest);
    var a := |prefix| + 2;
    assert PairAt(src, |prefix|, '{') && (rest != "" ==> src[a] == rest[0]);
    forall k: nat | a <= k < |src| ensures !PairAt(src, k, '}') {
      assert !PairAt(rest, k - a, '}');
    }
    NoPairTo(src, a, |src|, '}');
  }

  lemma SkippedTurn(src: string, at: nat, next: nat, value: Tag -> string)
    requires at < |src| && ScanOnce(src, at) == Scan.Skip(next) && next <= |src|
    ensures Tiles(src, TagsFrom(src, at), at) && Tiles(src, TagsFrom(src, next), next)
    ensures Substitute(src, TagsFrom(src, at), at, value) ==
      src[at..next] + Substitute(src, TagsFrom(src, next), next, value)
  {
    TagsTile(src, next);
    assert TagsFrom(src, at) == TagsFrom(src, next);
    EarlierStart(src, TagsFrom(src, next), at, next, value);
  }

  lemma LastTurn(src: string, at: nat, value: Tag -> string)
    requires at < |src| && ScanOnce(src, at) == Scan.Done
    ensures Tiles(src, TagsFrom(src, at), at) && Substitute(src, TagsFrom(src, at), at, value) == src[at..]
  {
  }

  /** What the first chunk is filled in with. */
  function FilledFirst(c: Chunk, value: string -> string): string {
    match c case Var(body) => value(TrimSpace(body)) case other => ChunkSource(other)
  }

  /** The first chunk is located, and filled in, as it is meant. */
  lemma FirstChunkFills(prefix: string, chunks: seq<Chunk>, value: string -> string)
    requires chunks != [] && WellWritten(chunks)
    ensures var src, after := prefix + Source(chunks), |prefix + ChunkSource(chunks[0])|;
      && after <= |src|
      && Tiles(src, TagsFrom(src, |prefix|), |prefix|) && Tiles(src, TagsFrom(src, after), after)
      && Substitute(src, TagsFrom(src, |prefix|), |prefix|, ByPath(value)) ==
        FilledFirst(chunks[0], value) + Substitute(src, TagsFrom(src, after), after, ByPath(value))
  {
    hide TrimSpace, Tiles, Substitute, TagsFrom, ScanOnce, PairAt, NamesVariable;
    hide IndexPair, IsSigil;
    var rest := Source(chunks[1..]);
    var src, first := prefix + (ChunkSource(chunks[0]) + rest), ChunkSource(chunks[0]);
    var after := |prefix + first|;
    assert src == prefix + Source(chunks);
    assert src[|prefix|..after] == first;
    TagsTile(src, |prefix|);
    TagsTile(src, after);
    match chunks[0]
    case Text(text) =>
      LastChunk(chunks);
      TextPairs(prefix, text, rest);
      TextHasNoTags(src, |prefix|, after);
      EarlierStart(src, TagsFrom(src, after), |prefix|, after, ByPath(value));
    case Var(body) =>
      TagIsScanned(prefix, body, rest);
      FirstTagFills(src, |prefix|, Tag(TrimSpace(body), |prefix|, after), ByPath(value));
    case Other(body) =>
      TagIsScanned(prefix, body, rest);
      SkippedTurn(src, |prefix|, after, ByPath(value));
    case Triple =>
      TripleIsSkipped(prefix, rest);
      SkippedTurn(src, |prefix|, after, ByPath(value));
    case Unclosed(r) =>
      LastChunk(chunks);
      assert src == prefix + ("{{" + r);
      UnclosedIsDone(prefix, r);
      LastTurn(src, |prefix|, ByPath(value));
      NothingWritten(src, ByPath(value));
  }

  /** What must come last has nothing after it. */
  lemma LastChunk(chunks: seq<Chunk>)
    requires chunks != [] && WellWritten(chunks)
    ensures chunks[0].Unclosed? ==> Source(chunks[1..]) == ""
    ensures chunks[0].Text? && chunks[0].text != "" && Source(chunks[1..]) != "" ==>
      chunks[0].text[|chunks[0].text| - 1] != '{'
  {
  }

  /** The located tags are the author's, and filling them in gives the text the author meant. */
  lemma {:induction false} FillsAsWritten(prefix: string, chunks: seq<Chunk>, value: string -> string)
    requires WellWritten(chunks)
    ensures var src := prefix + Source(chunks);
      && Tiles(src, TagsFrom(src, |prefix|), |prefix|)
      && Substitute(src, TagsFrom(src, |prefix|), |prefix|, ByPath(value)) == Filled(chunks, value)
    decreases |chunks|
  {
    hide TrimSpace, Tiles, Substitute, TagsFrom, ByPath, ChunkSource, WellWritten;
    var src := prefix + Source(chunks);
    TagsTile(src, |prefix|);
    if chunks == [] {
      NothingWritten(src, ByPath(value));
    } else {
      var after := prefix + ChunkSource(chunks[0]);
      assert after + Source(chunks[1..]) == src;
      WellWrittenTail(chunks);
      FillsAsWritten(after, chunks[1..], value);
      FirstChunkFills(prefix, chunks, value);
    }
  }

  lemma OneMoreChunk(c: Chunk, later: seq<Chunk>, src: string, n: nat)
    requires Plain(c) && !c.Unclosed? && (c.Text? && c.text != "" ==> c.text[|c.text| - 1] != '{')
    requires n <= |src| && ChunkSource(c) == src[..n] && WellWritten(later) && Source(later) == src[n..]
    ensures WellWritten([c] + later) && Source([c] + later) == src
  {
    hide Plain;
    assert ([c] + later)[1..] == later;
    WellWrittenTail([c] + later);
    assert src[..n] + src[n..] == src;
  }

  lemma OneChunk(c: Chunk, src: string)
    requires Plain(c) && ChunkSource(c) == src
    ensures WellWritten([c]) && Source([c]) == src
  {
    hide Plain;
    assert src + "" == src;
  }

  /** Every message can be read that way. */
  lemma {:induction false} EveryMessageIsWritten(src: string) returns (chunks: seq<Chunk>)
    ensures WellWritten(chunks) && Source(chunks) == src
    decreases |src|
  {
    hide WellWritten, Source;
    var open := IndexPair(src, 0, '{');
    if open.None? {
      chunks := [Text(src)];
      OneChunk(Text(src), src);
    } else if open.value > 0 {
      var later := EveryMessageIsWritten(src[open.value..]);
      TextIsPlain(src, open.value);
      chunks := [Text(src[..open.value])] + later;
      OneMoreChunk(Text(src[..open.value]), later, src, open.value);
    } else if |src| > 2 && src[2] == '{' {
      var later := EveryMessageIsWritten(src[3..]);
      chunks := [Triple] + later;
      OneMoreChunk(Triple, later, src, 3);
    } else {
      var close := IndexPair(src, 2, '}');
      if close.None? {
        UnclosedIsPlain(src);
        chunks := [Unclosed(src[2..])];
        OneChunk(Unclosed(src[2..]), src);
      } else {
        var c := TagIsPlain(src, close.value);
        var later := EveryMessageIsWritten(src[close.value + 2..]);
        chunks := [c] + later;
        OneMoreChunk(c, later, src, close.value + 2);
      }
    }
  }

  lemma TextIsPlain(src: string, at: nat)
    requires 0 < at < |src| && forall k: nat :: k < at ==> !PairAt(src, k, '{')
    requires PairAt(src, at, '{')
    ensures Plain(Text(src[..at])) && src[..at][at - 1] != '{'
  {
    assert !PairAt(src, at - 1, '{');
    forall k: nat ensures !PairAt(src[..at], k, '{') {
      if k < at { assert !PairAt(src, k, '{'); }
    }
  }

  lemma UnclosedIsPlain(src: string)
    requires PairAt(src, 0, '{') && !(|src| > 2 && src[2] == '{') && IndexPair(src, 2, '}').None?
    ensures Plain(Unclosed(src[2..])) && ChunkSource(Unclosed(src[2..])) == src
  {
    forall k: nat ensures !PairAt(src[2..], k, '}') { assert !PairAt(src, k + 2, '}'); }
  }

  lemma TagIsPlain(src: string, close: nat) returns (c: Chunk)
    requires PairAt(src, 0, '{') && !(|src| > 2 && src[2] == '{') && IndexPair(src, 2, '}') == Some(close)
    ensures close + 2 <= |src| && Plain(c) && ChunkSource(c) == src[..close + 2] && (c.Var? || c.Other?)
  {
    hide NamesVariable;
    var body := src[2..close];
    forall k: nat ensures !PairAt(body, k, '}') {
      if k + 2 < close { assert !PairAt(src, k + 2, '}'); }
    }
    if body != "" { assert !PairAt(src, close - 1, '}') && body[|body| - 1] == src[close - 1]; }
    assert PairAt(src, close, '}');
    c := if NamesVariable(body) then Var(body) else Other(body);
    assert "{{" + body + "}}" == src[..close + 2];
  }

  lemma NothingWritten(src: string, value: Tag -> string)
    ensures TagsFrom(src, |src|) == [] && Substitute(src, [], |src|, value) == ""
  {
  }

  lemma FirstTagFills(src: string, at: nat, tag: Tag, value: Tag -> string)
    requires at < |src| && ScanOnce(src, at) == Found(tag) && tag.start == at
    ensures Tiles(src, TagsFrom(src, at), at) && Tiles(src, TagsFrom(src, tag.end), tag.end)
    ensures Substitute(src, TagsFrom(src, at), at, value) ==
      value(tag) + Substitute(src, TagsFrom(src, tag.end), tag.end, value)
  {
    hide TrimSpace, IsSigil, ScanOnce, TagAt, PairAt;
    TagsTile(src, at);
    TagsTile(src, tag.end);
    var rest := TagsFrom(src, tag.end);
    assert TagsFrom(src, at) == [tag] + rest;
    assert ([tag] + rest)[1..] == rest;
    assert src[at..at] == "";
  }

  lemma Regroup(a: string, b: string, c: string, d: string)
    ensures (a + b) + c + d == a + (b + c + d)
  {
  }

  lemma EarlierStart(src: string, tags: seq<Tag>, from: nat, mid: nat, value: Tag -> string)
    requires from <= mid <= |src| && Tiles(src, tags, mid)
    ensures Tiles(src, tags, from)
    ensures Substitute(src, tags, from, value) == src[from..mid] + Substitute(src, tags, mid, value)
  {
    if tags == [] {
      assert src[from..] == src[from..mid] + src[mid..];
    } else {
      assert src[from..tags[0].start] == src[from..mid] + src[mid..tags[0].start];
      Regroup(src[from..mid], src[mid..tags[0].start], value(tags[0]), Substitute(src, tags[1..], tags[0].end, value));
    }
  }
}
