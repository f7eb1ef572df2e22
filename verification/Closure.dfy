/** The dependency walk of scripts/planning/validate-backlog.py: a recursive
    depth-first search that shares one `seen` and one `visiting` set between
    all start keys, rejecting unresolved edges and cycles. */
module Closure {
  import opened Prelude

  type Key = string

  /** A dict from key to the dependencies in the order they are iterated. */
  type Graph = map<Key, seq<Key>>

  datatype Outcome = Finished | Missing(key: Key) | Cycle(key: Key)

  datatype Result = Reached(keys: set<Key>) | Rejected(reason: Outcome)

  // ----- the declarative side: paths, reachability, cycles

  ghost predicate IsPath(g: Graph, p: seq<Key>) {
    && |p| > 0
    && forall i :: 0 <= i < |p| - 1 ==> p[i] in g && p[i + 1] in g[p[i]]
  }

  ghost predicate Joins(g: Graph, p: seq<Key>, a: Key, b: Key) {
    IsPath(g, p) && p[0] == a && p[|p| - 1] == b
  }

  ghost predicate Reaches(g: Graph, a: Key, b: Key) {
    exists p :: Joins(g, p, a, b)
  }

  /** `k` lies on a path of at least one edge back to itself. */
  ghost predicate OnCycle(g: Graph, k: Key) {
    exists p :: |p| >= 2 && Joins(g, p, k, k)
  }

  ghost predicate ReachedFrom(g: Graph, start: seq<Key>, k: Key) {
    exists s :: s in start && Reaches(g, s, k)
  }

  /** Everything reachable from `start` exists and lies on no cycle. */
  ghost predicate WellFounded(g: Graph, start: seq<Key>) {
    forall k :: ReachedFrom(g, start, k) ==> k in g && !OnCycle(g, k)
  }

  // ----- the certificate the walk maintains: a completion order

  /** Each key comes after all of its dependencies. */
  ghost predicate Topological(g: Graph, order: seq<Key>) {
    && Distinct(order)
    && forall i :: 0 <= i < |order| ==> order[i] in g && forall d :: d in g[order[i]] ==> d in order[..i]
  }

  lemma ReachesSelf(g: Graph, k: Key)
    ensures Reaches(g, k, k)
  {
    assert Joins(g, [k], k, k);
  }

  lemma ReachesStep(g: Graph, a: Key, d: Key, b: Key)
    requires a in g && d in g[a] && Reaches(g, d, b)
    ensures Reaches(g, a, b)
  {
    var p :| Joins(g, p, d, b);
    assert Joins(g, [a] + p, a, b);
  }

  /** A path out of `order[i]` ends strictly before position `i`. */
  lemma {:induction false} PathsDescend(g: Graph, order: seq<Key>, i: nat, p: seq<Key>)
    requires Topological(g, order) && i < |order|
    requires IsPath(g, p) && p[0] == order[i]
    ensures |p| >= 2 ==> p[|p| - 1] in order[..i]
    ensures p[|p| - 1] in order
    decreases |p|
  {
    if |p| >= 2 {
      assert p[1] in g[p[0]];
      var j :| 0 <= j < i && order[j] == p[1];
      PathsDescend(g, order, j, p[1..]);
    }
  }

  /** A completion order rules out cycles and is closed under reachability. */
  lemma TopologicalIsClosed(g: Graph, order: seq<Key>, a: Key, b: Key)
    requires Topological(g, order) && a in order && Reaches(g, a, b)
    ensures b in order && b in g && !OnCycle(g, b)
  {
    var i :| 0 <= i < |order| && order[i] == a;
    var p :| Joins(g, p, a, b);
    PathsDescend(g, order, i, p);
    var j :| 0 <= j < |order| && order[j] == b;
    if OnCycle(g, b) {
      var c :| |c| >= 2 && Joins(g, c, b, b);
      PathsDescend(g, order, j, c);
    }
  }

  /** Meeting a key that is still on the stack closes a cycle. */
  lemma StackClosesCycle(g: Graph, stack: seq<Key>, key: Key)
    requires IsPath(g, stack + [key]) && key in stack
    ensures OnCycle(g, key)
  {
    var i :| 0 <= i < |stack| && stack[i] == key;
    var p := (stack + [key])[i..];
    assert |p| >= 2 && Joins(g, p, key, key);
  }

  // ----- the walk itself

  class Walk {
    const graph: Graph
    var seen: set<Key>
    var visiting: set<Key>
    ghost var order: seq<Key>

    ghost predicate Valid()
      reads this
    {
      && Topological(graph, order)
      && (forall k :: k in seen <==> k in order)
      && visiting <= graph.Keys
      && visiting !! seen
    }

    constructor (graph: Graph)
      ensures Valid() && this.graph == graph && seen == {} && visiting == {}
    {
      this.graph := graph;
      seen, visiting, order := {}, {}, [];
    }

    /** `stack` is the chain of calls in progress; its keys are `visiting`. */
    method Visit(key: Key, ghost stack: seq<Key>) returns (r: Outcome)
      requires Valid()
      requires IsPath(graph, stack + [key]) && forall k :: k in stack <==> k in visiting
      modifies this
      ensures r.Finished? ==> Valid() && visiting == old(visiting) && old(seen) <= seen && key in seen
      ensures r.Finished? ==> forall k :: k in seen && k !in old(seen) ==> Reaches(graph, key, k)
      ensures r.Missing? ==> r.key !in graph && Reaches(graph, key, r.key)
      ensures r.Cycle? ==> OnCycle(graph, r.key) && Reaches(graph, key, r.key)
      decreases graph.Keys - visiting
    {
      ReachesSelf(graph, key);
      if key !in graph {
        return Missing(key);
      }
      if key in visiting {
        StackClosesCycle(graph, stack, key);
        return Cycle(key);
      }
      if key in seen {
        return Finished;
      }
      visiting := visiting + {key};
      var dependencies := graph[key];
      for i := 0 to |dependencies|
        invariant Valid() && visiting == old(visiting) + {key} && old(seen) <= seen
        invariant forall d :: d in dependencies[..i] ==> d in seen
        invariant forall k :: k in seen && k !in old(seen) ==> Reaches(graph, key, k)
      {
        var d := dependencies[i];
        ghost var before := seen;
        DeeperStack(graph, stack, key, d);
        r := Visit(d, stack + [key]);
        forall k | Reaches(graph, d, k)
          ensures Reaches(graph, key, k)
        {
          ReachesStep(graph, key, d, k);
        }
        if !r.Finished? {
          return;
        }
        assert dependencies[..i + 1] == dependencies[..i] + [d];
      }
      assert dependencies[..|dependencies|] == dependencies;
      visiting := visiting - {key};
      seen := seen + {key};
      ghost var longer := order + [key];
      assert forall i :: 0 <= i < |order| ==> longer[..i] == order[..i];
      assert longer[..|order|] == order;
      order := longer;
      return Finished;
    }
  }

  lemma DeeperStack(g: Graph, stack: seq<Key>, key: Key, d: Key)
    requires IsPath(g, stack + [key]) && key in g && d in g[key]
    ensures IsPath(g, stack + [key] + [d])
  {
  }

  /** Succeeds exactly on well-founded start lists, and then returns exactly
      the reachable keys; a rejection names a key that really is missing, or
      really is on a cycle, and is reachable. */
  method Close(graph: Graph, start: seq<Key>) returns (r: Result)
    ensures r.Reached? <==> WellFounded(graph, start)
    ensures r.Reached? ==> forall k :: k in r.keys <==> ReachedFrom(graph, start, k)
    ensures r.Rejected? ==> !r.reason.Finished? && ReachedFrom(graph, start, r.reason.key)
    ensures r.Rejected? && r.reason.Missing? ==> r.reason.key !in graph
    ensures r.Rejected? && r.reason.Cycle? ==> OnCycle(graph, r.reason.key)
  {
    var walk := new Walk(graph);
    for i := 0 to |start|
      invariant walk.Valid() && walk.graph == graph && walk.visiting == {} && fresh(walk)
      invariant forall s :: s in start[..i] ==> s in walk.seen
      invariant forall k :: k in walk.seen ==> ReachedFrom(graph, start, k)
    {
      ghost var before := walk.seen;
      var o := walk.Visit(start[i], []);
      assert start[i] in start;
      if !o.Finished? {
        assert ReachedFrom(graph, start, o.key);
        return Rejected(o);
      }
      assert start[..i + 1] == start[..i] + [start[i]];
    }
    assert start[..|start|] == start;
    forall k | ReachedFrom(graph, start, k)
      ensures k in walk.seen && k in graph && !OnCycle(graph, k)
    {
      var s :| s in start && Reaches(graph, s, k);
      TopologicalIsClosed(graph, walk.order, s, k);
    }
    return Reached(walk.seen);
  }

  // ----- consequences for callers

  /** A key met twice on a path is on a cycle. */
  lemma RepeatMakesCycle(g: Graph, p: seq<Key>, i: nat, j: nat)
    requires IsPath(g, p) && i < j < |p|
    ensures p[i] == p[j] ==> OnCycle(g, p[i])
  {
    var c := p[i..j + 1];
    assert IsPath(g, c) && c[0] == p[i] && c[|c| - 1] == p[j];
    assert p[i] == p[j] ==> Joins(g, c, p[i], p[i]);
  }

  /** In a graph without cycles a path never repeats a key. */
  lemma AcyclicPathsAreDistinct(g: Graph, p: seq<Key>)
    requires IsPath(g, p) && forall k :: k in g ==> !OnCycle(g, k)
    ensures Distinct(p)
  {
    forall i, j | 0 <= i < j < |p|
      ensures p[i] != p[j]
    {
      RepeatMakesCycle(g, p, i, j);
    }
  }
}
