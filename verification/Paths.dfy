/** Reachability in a type graph, and the set argument that settles a depth-first search. */
module Paths {
  import opened Descriptors

  /** Which edges a search follows, and which types it looks for. */
  type Edges = (TypeName, TypeName) -> bool
  type Goal = TypeName -> bool

  ghost predicate IsPath(step: Edges, p: seq<TypeName>) {
    p != [] && forall k :: 0 <= k < |p| - 1 ==> step(p[k], p[k + 1])
  }

  ghost predicate Leads(step: Edges, goal: Goal, t: TypeName, p: seq<TypeName>) {
    IsPath(step, p) && p[0] == t && goal(p[|p| - 1])
  }

  ghost predicate Reach(step: Edges, goal: Goal, t: TypeName) {
    exists p :: Leads(step, goal, t, p)
  }

  lemma GoalReaches(step: Edges, goal: Goal, t: TypeName)
    requires goal(t)
    ensures Reach(step, goal, t)
  {
    assert Leads(step, goal, t, [t]);
  }

  lemma StepBack(step: Edges, goal: Goal, a: TypeName, b: TypeName)
    requires step(a, b) && Reach(step, goal, b)
    ensures Reach(step, goal, a)
  {
    var p :| Leads(step, goal, b, p);
    assert Leads(step, goal, a, [a] + p);
  }

  /** `t` was expanded and is no goal, and all its successors are in `names`. */
  ghost predicate Explored(step: Edges, goal: Goal, t: TypeName, names: set<TypeName>) {
    !goal(t) && forall u :: step(t, u) ==> u in names
  }

  lemma {:induction false} PathStaysInside(step: Edges, goal: Goal, names: set<TypeName>, p: seq<TypeName>)
    requires forall t :: t in names ==> Explored(step, goal, t, names)
    requires IsPath(step, p) && p[0] in names
    ensures p[|p| - 1] in names
    decreases |p|
  {
    if |p| > 1 {
      assert Explored(step, goal, p[0], names);
      assert forall k :: 0 <= k < |p[1..]| ==> p[1..][k] == p[k + 1];
      PathStaysInside(step, goal, names, p[1..]);
    }
  }

  /** From a set whose members were all explored no goal can be reached. */
  lemma ExploredSetIsClosed(step: Edges, goal: Goal, names: set<TypeName>, t: TypeName)
    requires forall u :: u in names ==> Explored(step, goal, u, names)
    requires t in names
    ensures !Reach(step, goal, t)
  {
    forall p | IsPath(step, p) && p[0] == t ensures !goal(p[|p| - 1]) {
      PathStaysInside(step, goal, names, p);
    }
  }

  /** The map the recursive searches share. */
  class SeenSet {
    var names: set<TypeName>

    constructor ()
      ensures names == {}
    {
      names := {};
    }
  }
}
