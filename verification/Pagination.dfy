/** Offset pagination: the middleware, the backend it drives, and a client following cursors. */
module Pagination {
  import opened Descriptors
  import opened Cursor
  import opened SortedKeys

  const MAX_INT32: int := 0x7FFF_FFFF
  const MIN_INT32: int := -0x8000_0000
  const MAX_UINT32: int := 0xFFFF_FFFF

  // ----- writing an integer field of the request -----

  datatype IntKind = Int32 | Int64 | Uint32 | Uint64

  /** The value SetProtoIntField stores in a field of the given kind. */
  function Stored(kind: IntKind, v: int): int {
    match kind
    case Int32 => if v > MAX_INT32 then MAX_INT32 else if v < MIN_INT32 then MIN_INT32 else v
    case Int64 => v
    case Uint32 => if v < 0 then 0 else if v > MAX_UINT32 then MAX_UINT32 else v
    case Uint64 => if v < 0 then 0 else v
  }

  predicate Holds(kind: IntKind, v: int) {
    match kind
    case Int32 => MIN_INT32 <= v <= MAX_INT32
    case Int64 => MIN_INT64 <= v <= MAX_INT64
    case Uint32 => 0 <= v <= MAX_UINT32
    case Uint64 => 0 <= v
  }

  /** It stores the nearest value the kind can hold. */
  lemma StoredIsNearest(kind: IntKind, v: int, w: int)
    requires MIN_INT64 <= v <= MAX_INT64 && Holds(kind, w)
    ensures Holds(kind, Stored(kind, v))
    ensures if Stored(kind, v) >= v then Stored(kind, v) - v <= (if w >= v then w - v else v - w)
            else v - Stored(kind, v) <= (if w >= v then w - v else v - w)
  {
  }

  // ----- the backend -----

  datatype Task = Task(id: string, title: string, description: string)
  datatype Tag = Tag(id: string, name: string)
  datatype Kind = Tasks | Tags
  datatype Item = Item(kind: Kind, id: string, name: string, description: string)

  function TaskItem(t: Task): Item { Item(Tasks, t.id, t.title, t.description) }
  function TagItem(t: Tag): Item { Item(Tags, t.id, t.name, "") }

  function TaskItems(tasks: map<string, Task>, ids: seq<string>): seq<Item>
    requires forall id :: id in ids ==> id in tasks
  {
    seq(|ids|, i requires 0 <= i < |ids| => assert ids[i] in tasks; TaskItem(tasks[ids[i]]))
  }

  function TagItems(tags: map<string, Tag>, ids: seq<string>): seq<Item>
    requires forall id :: id in ids ==> id in tags
  {
    seq(|ids|, i requires 0 <= i < |ids| => assert ids[i] in tags; TagItem(tags[ids[i]]))
  }

  /** The union a listing walks: tasks by id, then tags by id. */
  ghost function AllItems(tasks: map<string, Task>, tags: map<string, Tag>): seq<Item> {
    SortedIsSorted(tasks.Keys);
    SortedIsSorted(tags.Keys);
    TaskItems(tasks, Sorted(tasks.Keys)) + TagItems(tags, Sorted(tags.Keys))
  }

  function Min(a: int, b: int): int { if a < b then a else b }

  /** The window [offset, offset + limit) of the items; no limit without a positive one. */
  function Window(items: seq<Item>, limit: int, offset: nat): seq<Item> {
    var from := Min(offset, |items|);
    items[from..if limit > 0 then Min(from + limit, |items|) else |items|]
  }

  /** Item by item: the window starts at the offset, and ends at the limit, if that is positive, or with
      the items. */
  lemma WindowExactly(items: seq<Item>, limit: int, offset: nat, k: nat)
    ensures k < |Window(items, limit, offset)| <==> offset + k < |items| && (limit <= 0 || k < limit)
    ensures k < |Window(items, limit, offset)| ==> Window(items, limit, offset)[k] == items[offset + k]
  {
  }

  class Server {
    var tasks: map<string, Task>
    var tags: map<string, Tag>

    constructor ()
    {
      tasks, tags := map[], map[];
    }

    ghost function Items(): seq<Item>
      reads this
    {
      AllItems(tasks, tags)
    }

    method SortedTasks() returns (items: seq<Item>)
      ensures forall id :: id in Sorted(tasks.Keys) ==> id in tasks
      ensures items == TaskItems(tasks, Sorted(tasks.Keys))
    {
      var ids := SortKeys(tasks.Keys);
      SortedIsSorted(tasks.Keys);
      items := [];
      for i := 0 to |ids|
        invariant |items| == i && forall k :: 0 <= k < i ==> ids[k] in tasks && items[k] == TaskItem(tasks[ids[k]])
      {
        items := items + [TaskItem(tasks[ids[i]])];
      }
    }

    method SortedTags() returns (items: seq<Item>)
      ensures forall id :: id in Sorted(tags.Keys) ==> id in tags
      ensures items == TagItems(tags, Sorted(tags.Keys))
    {
      var ids := SortKeys(tags.Keys);
      SortedIsSorted(tags.Keys);
      items := [];
      for i := 0 to |ids|
        invariant |items| == i && forall k :: 0 <= k < i ==> ids[k] in tags && items[k] == TagItem(tags[ids[k]])
      {
        items := items + [TagItem(tags[ids[i]])];
      }
    }

    /** The resources/list endpoint. It panics, slicing out of bounds, exactly on a negative offset,
        which the middleware never sends. */
    method ListAllResources(limit: int, offset: int) returns (r: Option<seq<Item>>)
      ensures r.None? <==> offset < 0
      ensures r.Some? ==> r.value == Window(Items(), limit, offset)
    {
      var taskItems := SortedTasks();
      var tagItems := SortedTags();
      var all := taskItems + tagItems;
      var from := offset;
      if from > |all| {
        from := |all|;
      }
      var end := |all|;
      if limit > 0 && from + limit < end {
        end := from + limit;
      }
      if from < 0 || end < from {
        return None;
      }
      r := Some(all[from..end]);
    }
  }

  // ----- one page -----

  datatype Resource = Resource(uri: string, name: string, description: string)

  function Render(item: Item): Resource {
    Resource((if item.kind.Tasks? then "tasks" else "tags") + "://" + item.id, item.name, item.description)
  }

  function RenderAll(items: seq<Item>): seq<Resource> {
    seq(|items|, i requires 0 <= i < |items| => Render(items[i]))
  }

  datatype Page = Page(resources: seq<Resource>, nextCursor: string)

  /** The items a page at offset `off` shows: limit and offset are stored in int32 fields. */
  function PageItems(items: seq<Item>, pageSize: nat, off: nat): seq<Item>
    requires off <= MAX_INT64
  {
    Window(items, Stored(Int32, pageSize), Stored(Int32, off))
  }

  /** The sum of two non-negative int64 numbers, which wraps around. */
  function AddInt64(a: int, b: int): int { if a + b > MAX_INT64 then a + b - 0x1_0000_0000_0000_0000 else a + b }

  /** Middleware, handler and processor together, for page sizes the constructor accepts. */
  method ListResources(s: Server, pageSize: int, cursor: string) returns (r: Result<Page>)
    requires 0 < pageSize <= MAX_INT64
    ensures r.Err? <==> DecodeOffsetCursor(cursor).Err?
    ensures r.Err? ==> r.error == DecodeOffsetCursor(cursor).error
    ensures r.Ok? ==> var off := DecodeOffsetCursor(cursor).value;
      && 0 <= off <= MAX_INT64
      && r.value.resources == RenderAll(PageItems(s.Items(), pageSize, off))
      && r.value.nextCursor ==
           if |r.value.resources| < pageSize then "" else EncodeOffsetCursor(AddInt64(off, |r.value.resources|))
  {
    hide DecodeOffsetCursor, EncodeOffsetCursor;
    var off := DecodeOffsetCursor(cursor);
    if off.Err? {
      return Err(off.error);
    }
    DecodedInRange(cursor);
    var items := s.ListAllResources(Stored(Int32, pageSize), Stored(Int32, off.value));
    var resources := Handler(items.value);
    if |resources| < pageSize {
      return Ok(Page(resources, ""));
    }
    r := Ok(Page(resources, EncodeOffsetCursor(AddInt64(off.value, |resources|))));
  }

  /** The generated handler's loop over the items of the response. */
  method Handler(items: seq<Item>) returns (resources: seq<Resource>)
    ensures resources == RenderAll(items)
  {
    resources := [];
    for i := 0 to |items|
      invariant |resources| == i && forall k :: 0 <= k < i ==> resources[k] == Render(items[k])
    {
      resources := resources + [Render(items[i])];
    }
  }

  lemma DecodedInRange(cursor: string)
    requires DecodeOffsetCursor(cursor).Ok?
    ensures 0 <= DecodeOffsetCursor(cursor).value <= MAX_INT64
  {
  }

  /** A page shows exactly its part of the listing when its offset fits the int32 field, and so
      does its limit or what is left. */
  lemma PageIsWindow(items: seq<Item>, pageSize: nat, off: nat)
    requires 0 < pageSize && off <= MAX_INT32 && (pageSize <= MAX_INT32 || |items| - off <= MAX_INT32)
    ensures PageItems(items, pageSize, off) == items[Min(off, |items|)..Min(off + pageSize, |items|)]
  {
  }

  /** And otherwise not, unless the whole listing fits: when the offset does not fit, the page starts
      too early; when the limit does not, it ends too early. */
  lemma PageIsWindowOnlyIf(items: seq<Item>, pageSize: nat, off: nat)
    requires 0 < pageSize <= MAX_INT64 && off <= MAX_INT64
    requires forall i, j :: 0 <= i < j < |items| ==> items[i] != items[j]
    ensures PageItems(items, pageSize, off) == items[Min(off, |items|)..Min(off + pageSize, |items|)] <==>
      |items| <= MAX_INT32 || (off <= MAX_INT32 && (pageSize <= MAX_INT32 || |items| - off <= MAX_INT32))
  {
    var page, want := PageItems(items, pageSize, off), items[Min(off, |items|)..Min(off + pageSize, |items|)];
    if |items| <= MAX_INT32 && off > MAX_INT32 {
      assert page == [] == want;
    } else if off > MAX_INT32 {
      assert page[0] == items[MAX_INT32];
      if off < |items| { assert want[0] == items[off]; }
    } else if pageSize > MAX_INT32 && |items| - off > MAX_INT32 {
      assert |page| == MAX_INT32 < |want|;
    } else {
      PageIsWindow(items, pageSize, off);
    }
  }

  /** Two's complement: the sum, up to a multiple of 2 to the 64th. */
  lemma AddsModulo(a: int, b: int)
    requires 0 <= a <= MAX_INT64 && 0 <= b <= MAX_INT64
    ensures MIN_INT64 <= AddInt64(a, b) <= MAX_INT64
    ensures (a + b - AddInt64(a, b)) % 0x1_0000_0000_0000_0000 == 0
  {
  }

  // ----- what is listed -----

  /** The resource of a task, and of a tag. */
  lemma RenderedTask(t: Task)
    ensures Render(TaskItem(t)) == Resource("tasks://" + t.id, t.title, t.description)
  {
  }

  lemma RenderedTag(t: Tag)
    ensures Render(TagItem(t)) == Resource("tags://" + t.id, t.name, "")
  {
  }

  /** The resource that a listing shows for the task under `id`, and for the tag. */
  predicate ShowsTask(r: Resource, tasks: map<string, Task>, id: string) {
    id in tasks && r == Resource("tasks://" + tasks[id].id, tasks[id].title, tasks[id].description)
  }

  predicate ShowsTag(r: Resource, tags: map<string, Tag>, id: string) {
    id in tags && r == Resource("tags://" + tags[id].id, tags[id].name, "")
  }

  /** The whole listing: every task, in ascending order of the keys, and then every tag. */
  lemma ListedExactly(tasks: map<string, Task>, tags: map<string, Tag>, ids: seq<string>, tagIds: seq<string>)
    requires Ascending(ids) && (forall id :: id in ids <==> id in tasks)
    requires Ascending(tagIds) && (forall id :: id in tagIds <==> id in tags)
    ensures var r := RenderAll(AllItems(tasks, tags));
      && |r| == |ids| + |tagIds|
      && (forall i :: 0 <= i < |ids| ==> ShowsTask(r[i], tasks, ids[i]))
      && (forall i :: 0 <= i < |tagIds| ==> ShowsTag(r[|ids| + i], tags, tagIds[i]))
  {
    SortedUnique(ids, tasks.Keys);
    SortedUnique(tagIds, tags.Keys);
    assert AllItems(tasks, tags) == TaskItems(tasks, ids) + TagItems(tags, tagIds);
    hide Sorted, AllItems, Ascending, Render;
    forall i | 0 <= i < |ids| ensures ShowsTask(RenderAll(AllItems(tasks, tags))[i], tasks, ids[i]) {
      assert ids[i] in ids;
      RenderedTask(tasks[ids[i]]);
    }
    forall i | 0 <= i < |tagIds| ensures ShowsTag(RenderAll(AllItems(tasks, tags))[|ids| + i], tags, tagIds[i]) {
      assert tagIds[i] in tagIds;
      RenderedTag(tags[tagIds[i]]);
    }
  }

  // ----- following cursors -----

  function Flatten(pages: seq<seq<Resource>>): seq<Resource> {
    if pages == [] then [] else pages[0] + Flatten(pages[1..])
  }

  lemma {:induction false} FlattenAppend(pages: seq<seq<Resource>>, page: seq<Resource>)
    ensures Flatten(pages + [page]) == Flatten(pages) + page
    decreases |pages|
  {
    if pages == [] {
      assert pages + [page] == [page];
      assert Flatten([page]) == page + Flatten([]);
    } else {
      assert (pages + [page])[1..] == pages[1..] + [page];
      FlattenAppend(pages[1..], page);
    }
  }

  lemma PageCount(left: nat, pageSize: nat)
    requires 0 < pageSize <= left
    ensures left / pageSize == 1 + (left - pageSize) / pageSize
  {
    var q, r := (left - pageSize) / pageSize, (left - pageSize) % pageSize;
    assert (q + 1) * pageSize == q * pageSize + pageSize;
    DivUnique(left, pageSize, q + 1, r);
  }

  /** One page more, when all offsets fit the int32 field. */
  lemma OneMorePage(items: seq<Item>, pageSize: nat, start: nat, off: nat, pages: seq<seq<Resource>>)
    requires 0 < pageSize && |items| <= MAX_INT32 && off <= MAX_INT64 && start <= Min(off, |items|)
    requires Flatten(pages) == RenderAll(items[start..Min(off, |items|)])
    ensures var page, to := RenderAll(PageItems(items, pageSize, off)), Min(off + pageSize, |items|);
      && |page| == to - Min(off, |items|)
      && Flatten(pages + [page]) == RenderAll(items[start..to])
  {
    var from, to := Min(off, |items|), Min(off + pageSize, |items|);
    assert PageItems(items, pageSize, off) == items[from..to];
    FlattenAppend(pages, RenderAll(items[from..to]));
    assert items[start..to] == items[start..from] + items[from..to];
  }

  /** A client follows the cursors from `cursor` over a store that does not change: it sees the
      rest of the listing, each item once and in order, in the fewest pages. */
  method FollowCursors(s: Server, pageSize: int, cursor: string) returns (pages: seq<seq<Resource>>)
    requires 0 < pageSize <= MAX_INT64 && |s.Items()| <= MAX_INT32
    requires DecodeOffsetCursor(cursor).Ok?
    ensures var from := Min(DecodeOffsetCursor(cursor).value, |s.Items()|);
      && 0 <= from
      && Flatten(pages) == RenderAll(s.Items()[from..])
      && |pages| == (|s.Items()| - from) / pageSize + 1
  {
    hide DecodeOffsetCursor, EncodeOffsetCursor, Flatten, PageItems, AllItems, Render;
    ghost var items := s.Items();
    ghost var n := |items|;
    DecodedInRange(cursor);
    ghost var off := DecodeOffsetCursor(cursor).value;
    ghost var start := Min(off, n);
    NothingYet(items, start);
    pages := [];
    var cur := cursor;
    while true
      invariant DecodeOffsetCursor(cur) == Ok(off) && 0 <= off <= MAX_INT64
      invariant start <= Min(off, n)
      invariant Flatten(pages) == RenderAll(items[start..Min(off, n)])
      invariant |pages| + (n - Min(off, n)) / pageSize == (n - start) / pageSize
      decreases n - Min(off, n)
    {
      var r := ListResources(s, pageSize, cur);
      var page := r.value;
      OneMorePage(items, pageSize, start, off, pages);
      pages := pages + [page.resources];
      if |page.resources| == pageSize { NextCursorSet(off + pageSize); }
      if page.nextCursor == "" {
        LastPage(n - Min(off, n), pageSize);
        assert items[start..n] == items[start..];
        return;
      }
      PageCount(n - off, pageSize);
      off := off + pageSize;
      cur := page.nextCursor;
    }
  }

  lemma NothingYet(items: seq<Item>, start: nat)
    requires start <= |items|
    ensures Flatten([]) == RenderAll(items[start..start])
  {
  }

  lemma LastPage(left: nat, pageSize: nat)
    requires left < pageSize
    ensures left / pageSize == 0
  {
    DivUnique(left, pageSize, 0, left);
  }

  lemma NextCursorSet(off: int)
    requires MIN_INT64 <= off <= MAX_INT64
    ensures EncodeOffsetCursor(off) != ""
    ensures off >= 0 ==> DecodeOffsetCursor(EncodeOffsetCursor(off)) == Ok(off)
  {
    DecodeEncoded(off);
  }

  /** From the empty cursor a client enumerates the store exactly once. */
  method EnumerateAll(s: Server, pageSize: int) returns (pages: seq<seq<Resource>>)
    requires 0 < pageSize <= MAX_INT64 && |s.Items()| <= MAX_INT32
    ensures Flatten(pages) == RenderAll(s.Items())
    ensures |pages| == |s.Items()| / pageSize + 1
  {
    pages := FollowCursors(s, pageSize, "");
    assert s.Items()[0..] == s.Items();
  }
}
