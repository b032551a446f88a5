/** The descriptor-graph searches: a depth-first search with one shared seen set decides
    whether a hidden field, or google.protobuf.Any, is reachable from a type. */
module Reachability {
  import opened Descriptors
  import opened Paths

  ghost predicate Step(g: Graph, a: TypeName, b: TypeName) {
    a in g && exists i :: 0 <= i < |g[a].fields| && g[a].fields[i].kind == MessageKind(b)
  }

  ghost function Steps(g: Graph): Edges { (a, b) => Step(g, a, b) }

  /** `t` is Any, or has a hidden field of its own. */
  ghost predicate Hot(g: Graph, hit: Matcher, t: TypeName) {
    t == ANY || (t in g && exists i :: 0 <= i < |g[t].fields| && hit(g[t].fields[i]))
  }

  ghost function HotIn(g: Graph, hit: Matcher): Goal { t => Hot(g, hit, t) }

  ghost predicate Reaches(g: Graph, hit: Matcher, t: TypeName) {
    Reach(Steps(g), HotIn(g, hit), t)
  }

  /** A type that reaches nothing hidden has no hidden field, and neither do its field types. */
  lemma Cold(g: Graph, hit: Matcher, t: TypeName)
    requires t in g && !Reaches(g, hit, t)
    ensures t != ANY
    ensures forall i :: 0 <= i < |g[t].fields| ==> !hit(g[t].fields[i])
    ensures forall i :: 0 <= i < |g[t].fields| && g[t].fields[i].kind.MessageKind? ==>
      !Reaches(g, hit, g[t].fields[i].kind.ty)
  {
    if Hot(g, hit, t) { GoalReaches(Steps(g), HotIn(g, hit), t); }
    forall i | 0 <= i < |g[t].fields| && g[t].fields[i].kind.MessageKind?
      ensures !Reaches(g, hit, g[t].fields[i].kind.ty)
    {
      assert Step(g, t, g[t].fields[i].kind.ty);
      if Reaches(g, hit, g[t].fields[i].kind.ty) { StepBack(Steps(g), HotIn(g, hit), t, g[t].fields[i].kind.ty); }
    }
  }

  lemma ReachesUnion(g: Graph, p: Matcher, q: Matcher, both: Matcher, t: TypeName)
    requires IsUnion(p, q, both)
    ensures Reaches(g, both, t) <==> Reaches(g, p, t) || Reaches(g, q, t)
  {
    if Reaches(g, both, t) {
      var w :| Leads(Steps(g), HotIn(g, both), t, w);
      assert Leads(Steps(g), HotIn(g, p), t, w) || Leads(Steps(g), HotIn(g, q), t, w);
    }
    if Reaches(g, p, t) {
      var w :| Leads(Steps(g), HotIn(g, p), t, w);
      assert Leads(Steps(g), HotIn(g, both), t, w);
    }
    if Reaches(g, q, t) {
      var w :| Leads(Steps(g), HotIn(g, q), t, w);
      assert Leads(Steps(g), HotIn(g, both), t, w);
    }
  }

  // ----- the same, field by field -----

  /** A path of message fields that pass `keep`, down from `t`. */
  ghost predicate FieldPath(g: Graph, keep: Matcher, t: TypeName, path: seq<FieldDesc>)
    decreases |path|
  {
    path == [] ||
    (&& t in g && path[0] in g[t].fields && keep(path[0]) && path[0].kind.MessageKind?
     && FieldPath(g, keep, path[0].kind.ty, path[1..]))
  }

  /** The type such a path leads to. */
  function EndOf(t: TypeName, path: seq<FieldDesc>): TypeName
    decreases |path|
  {
    if path == [] then t else if path[0].kind.ScalarKind? then t else EndOf(path[0].kind.ty, path[1..])
  }

  /** The edges `step` are the message fields that pass `keep`. */
  ghost predicate FollowsFields(g: Graph, keep: Matcher, step: Edges) {
    forall a, b :: step(a, b) <==>
      a in g && exists i :: 0 <= i < |g[a].fields| && keep(g[a].fields[i]) && g[a].fields[i].kind == MessageKind(b)
  }

  lemma {:induction false} PathOfFields(
    g: Graph, keep: Matcher, step: Edges, goal: Goal, t: TypeName, p: seq<TypeName>) returns (path: seq<FieldDesc>)
    requires FollowsFields(g, keep, step) && Leads(step, goal, t, p)
    ensures FieldPath(g, keep, t, path) && goal(EndOf(t, path))
    decreases |p|
  {
    if |p| == 1 {
      path := [];
    } else {
      assert step(p[0], p[1]);
      var i :| 0 <= i < |g[t].fields| && keep(g[t].fields[i]) && g[t].fields[i].kind == MessageKind(p[1]);
      assert forall k :: 0 <= k < |p[1..]| ==> p[1..][k] == p[k + 1];
      var below := PathOfFields(g, keep, step, goal, p[1], p[1..]);
      path := [g[t].fields[i]] + below;
      assert path[1..] == below;
    }
  }

  lemma {:induction false} FieldsLead(
    g: Graph, keep: Matcher, step: Edges, goal: Goal, t: TypeName, path: seq<FieldDesc>)
    requires FollowsFields(g, keep, step) && FieldPath(g, keep, t, path) && goal(EndOf(t, path))
    ensures Reach(step, goal, t)
    decreases |path|
  {
    if path == [] {
      GoalReaches(step, goal, t);
    } else {
      FieldsLead(g, keep, step, goal, path[0].kind.ty, path[1..]);
      var i :| 0 <= i < |g[t].fields| && g[t].fields[i] == path[0];
      assert step(t, path[0].kind.ty);
      StepBack(step, goal, t, path[0].kind.ty);
    }
  }

  lemma ReachByFields(g: Graph, keep: Matcher, step: Edges, goal: Goal, t: TypeName)
    requires FollowsFields(g, keep, step)
    ensures Reach(step, goal, t) <==> exists path :: FieldPath(g, keep, t, path) && goal(EndOf(t, path))
  {
    if Reach(step, goal, t) {
      var p :| Leads(step, goal, t, p);
      var path := PathOfFields(g, keep, step, goal, t, p);
    }
    if path :| FieldPath(g, keep, t, path) && goal(EndOf(t, path)) { FieldsLead(g, keep, step, goal, t, path); }
  }

  predicate AnyField(fd: FieldDesc) { true }

  /** Along message fields, hidden or not, `path` leads to an Any or to a message with a hidden field. */
  ghost predicate LeadsToHidden(g: Graph, hit: Matcher, t: TypeName, path: seq<FieldDesc>) {
    && FieldPath(g, AnyField, t, path)
    && var end := EndOf(t, path);
      end == WellKnownType(Any) || (end in g && exists fd :: fd in g[end].fields && hit(fd))
  }

  lemma StepsAreFields(g: Graph)
    ensures FollowsFields(g, AnyField, Steps(g))
  {
  }

  lemma HotExactly(g: Graph, hit: Matcher, t: TypeName)
    ensures HotIn(g, hit)(t) <==> t == ANY || (t in g && exists fd :: fd in g[t].fields && hit(fd))
  {
    if t in g && t != ANY && Hot(g, hit, t) {
      var i :| 0 <= i < |g[t].fields| && hit(g[t].fields[i]);
      assert g[t].fields[i] in g[t].fields;
    }
  }

  /** Something hidden is reachable exactly when some path of message fields leads there. */
  lemma ReachesByFields(g: Graph, hit: Matcher, t: TypeName)
    ensures Reaches(g, hit, t) <==> exists path :: LeadsToHidden(g, hit, t, path)
  {
    StepsAreFields(g);
    if Reaches(g, hit, t) {
      var p :| Leads(Steps(g), HotIn(g, hit), t, p);
      var path := PathOfFields(g, AnyField, Steps(g), HotIn(g, hit), t, p);
      HotExactly(g, hit, EndOf(t, path));
      assert LeadsToHidden(g, hit, t, path);
    }
    if path :| LeadsToHidden(g, hit, t, path) {
      HotExactly(g, hit, EndOf(t, path));
      FieldsLead(g, AnyField, Steps(g), HotIn(g, hit), t, path);
    }
  }

  /** The recursive search. A `false` leaves every newly seen type explored, so that the
      answers cut short by `seen` are settled by whoever put the type there. */
  method DescriptorHasMatch(g: Graph, md: TypeName, hit: Matcher, seen: SeenSet) returns (found: bool)
    requires ClosedGraph(g) && md in g && seen.names <= g.Keys
    modifies seen
    ensures old(seen.names) <= seen.names <= g.Keys
    ensures found ==> Reaches(g, hit, md)
    ensures !found ==> md in seen.names
    ensures !found ==> forall t :: t in seen.names - old(seen.names) ==>
      Explored(Steps(g), HotIn(g, hit), t, seen.names)
    decreases g.Keys - seen.names
  {
    if md == ANY {
      GoalReaches(Steps(g), HotIn(g, hit), md);
      return true;
    }
    if md in seen.names {
      return false;
    }
    seen.names := seen.names + {md};
    var fields := g[md].fields;
    for i := 0 to |fields|
      invariant old(seen.names) + {md} <= seen.names <= g.Keys
      invariant forall k :: 0 <= k < i ==> !hit(fields[k])
      invariant forall k :: 0 <= k < i && fields[k].kind.MessageKind? ==> fields[k].kind.ty in seen.names
      invariant forall t :: t in seen.names - old(seen.names) - {md} ==>
        Explored(Steps(g), HotIn(g, hit), t, seen.names)
    {
      var fd := fields[i];
      if hit(fd) {
        GoalReaches(Steps(g), HotIn(g, hit), md);
        return true;
      }
      if fd.kind.MessageKind? {
        ghost var before := seen.names;
        var below := DescriptorHasMatch(g, fd.kind.ty, hit, seen);
        if below {
          assert Step(g, md, fd.kind.ty);
          StepBack(Steps(g), HotIn(g, hit), md, fd.kind.ty);
          return true;
        }
        forall t | t in seen.names - old(seen.names) - {md} ensures Explored(Steps(g), HotIn(g, hit), t, seen.names) {
          assert t in before ==> Explored(Steps(g), HotIn(g, hit), t, before);
        }
      }
    }
    assert Explored(Steps(g), HotIn(g, hit), md, seen.names);
    return false;
  }

  /** The search from an empty seen set is exact: skipping on `false` misses nothing. */
  method HasMatching(g: Graph, md: TypeName, hit: Matcher) returns (found: bool)
    requires ClosedGraph(g) && md in g
    ensures found <==> Reaches(g, hit, md)
  {
    var seen := new SeenSet();
    found := DescriptorHasMatch(g, md, hit, seen);
    if !found { ExploredSetIsClosed(Steps(g), HotIn(g, hit), seen.names, md); }
  }

  /** The generator's gates. */
  method HasExclusions(g: Graph, md: TypeName) returns (found: bool)
    requires ClosedGraph(g) && md in g
    ensures found <==> Reaches(g, IsSchemaExcluded, md)
  {
    found := HasMatching(g, md, IsSchemaExcluded);
  }

  method HasOutputExclusions(g: Graph, md: TypeName, rpc: string) returns (found: bool)
    requires ClosedGraph(g) && md in g
    ensures found <==> Reaches(g, OutputExclusionMatcher(rpc), md)
  {
    var hit := (fd: FieldDesc) => IsSchemaExcluded(fd) || IsExcludedFromOutput(fd, rpc);
    found := HasMatching(g, md, hit);
    ReachesUnion(g, hit, hit, OutputExclusionMatcher(rpc), md);
  }
}
