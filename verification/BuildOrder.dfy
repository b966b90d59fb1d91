/** Which images a build needs, and in which order. */
module BuildOrder {

  type Graph = map<string, set<string>>

  datatype Option<+T> = None | Some(value: T)

  function Deps(g: Graph, n: string): (s: set<string>) {
    if n in g then g[n] else {}
  }

  /** A path along dependencies. */
  ghost predicate IsPath(g: Graph, path: seq<string>) {
    path != [] && forall i :: 0 < i < |path| ==> path[i] in Deps(g, path[i - 1])
  }

  ghost predicate Leads(g: Graph, targets: set<string>, path: seq<string>, n: string) {
    IsPath(g, path) && path[0] in targets && path[|path| - 1] == n
  }

  /** `n` is a target, or a dependency of a target, directly or not. */
  ghost predicate Reachable(g: Graph, targets: set<string>, n: string) {
    exists path :: Leads(g, targets, path, n)
  }

  lemma TargetReachable(g: Graph, targets: set<string>, n: string)
    requires n in targets
    ensures Reachable(g, targets, n)
  {
    assert Leads(g, targets, [n], n);
  }

  lemma DepReachable(g: Graph, targets: set<string>, n: string, d: string)
    requires Reachable(g, targets, n) && d in Deps(g, n)
    ensures Reachable(g, targets, d)
  {
    var path :| Leads(g, targets, path, n);
    assert Leads(g, targets, path + [d], d);
  }

  /** A set that contains the targets and is closed under dependencies contains all that is
      reachable. */
  lemma {:induction false} ClosedContains(g: Graph, targets: set<string>, s: set<string>, path: seq<string>)
    requires targets <= s && (forall n, d :: n in s && d in Deps(g, n) ==> d in s)
    requires IsPath(g, path) && path[0] in targets
    ensures path[|path| - 1] in s
    decreases |path|
  {
    if |path| > 1 {
      ClosedContains(g, targets, s, path[..|path| - 1]);
    }
  }

  /** All names a graph mentions. */
  function Nodes(g: Graph): (s: set<string>) {
    g.Keys + set n, d | n in g && d in g[n] :: d
  }

  ghost predicate AllReachable(g: Graph, targets: set<string>, s: set<string>) {
    forall n :: n in s ==> Reachable(g, targets, n)
  }

  lemma DepsReachable(g: Graph, targets: set<string>, s: set<string>, n: string)
    requires AllReachable(g, targets, s) && n in s
    ensures AllReachable(g, targets, s + Deps(g, n))
  {
    forall d | d in Deps(g, n)
      ensures Reachable(g, targets, d)
    {
      DepReachable(g, targets, n, d);
    }
  }

  lemma TargetsReachable(g: Graph, targets: set<string>)
    ensures AllReachable(g, targets, targets)
  {
    forall n | n in targets
      ensures Reachable(g, targets, n)
    {
      TargetReachable(g, targets, n);
    }
  }

  /** Dependencies of the visited names are visited or about to be. */
  ghost predicate Covered(g: Graph, visited: set<string>, toVisit: set<string>) {
    forall n, d :: n in visited && d in Deps(g, n) ==> d in visited || d in toVisit
  }

  /** The state of the worklist. */
  ghost predicate Walk(g: Graph, targets: set<string>, visited: set<string>, toVisit: set<string>) {
    && visited <= targets + Nodes(g) && toVisit <= targets + Nodes(g)
    && targets <= visited + toVisit
    && Covered(g, visited, toVisit) && AllReachable(g, targets, visited + toVisit)
  }

  lemma WalkAgain(g: Graph, targets: set<string>, visited: set<string>, toVisit: set<string>, n: string)
    requires Walk(g, targets, visited, toVisit) && n in toVisit && n in visited
    ensures Walk(g, targets, visited, toVisit - {n})
  {
    assert visited + (toVisit - {n}) == visited + toVisit;
  }

  lemma WalkOn(g: Graph, targets: set<string>, visited: set<string>, toVisit: set<string>, n: string)
    requires Walk(g, targets, visited, toVisit) && n in toVisit && n !in visited
    ensures Walk(g, targets, visited + {n}, toVisit - {n} + Deps(g, n))
    ensures |targets + Nodes(g) - (visited + {n})| < |targets + Nodes(g) - visited|
  {
    hide Reachable;
    DepsReachable(g, targets, visited + toVisit, n);
    assert visited + {n} + (toVisit - {n} + Deps(g, n)) == visited + toVisit + Deps(g, n);
    assert targets + Nodes(g) - (visited + {n}) == (targets + Nodes(g) - visited) - {n};
  }

  /** The worklist computes what is reachable, also in a graph with cycles. */
  method Closure(g: Graph, targets: set<string>) returns (visited: set<string>)
    ensures forall n :: n in visited <==> Reachable(g, targets, n)
  {
    hide Reachable, Walk, Nodes;
    var toVisit := targets;
    visited := {};
    WalkStarts(g, targets);
    while toVisit != {}
      invariant Walk(g, targets, visited, toVisit)
      decreases |targets + Nodes(g) - visited|, |toVisit|
    {
      var current :| current in toVisit;
      if current in visited {
        WalkAgain(g, targets, visited, toVisit, current);
        toVisit := toVisit - {current};
      } else {
        WalkOn(g, targets, visited, toVisit, current);
        visited := visited + {current};
        toVisit := toVisit - {current} + Deps(g, current);
      }
    }
    Reached(g, targets, visited);
  }

  lemma WalkStarts(g: Graph, targets: set<string>)
    ensures Walk(g, targets, {}, targets)
  {
    TargetsReachable(g, targets);
    assert {} + targets == targets;
  }

  lemma Reached(g: Graph, targets: set<string>, s: set<string>)
    requires Walk(g, targets, s, {})
    ensures forall n :: n in s <==> Reachable(g, targets, n)
  {
    assert s + {} == s;
    AllReached(g, targets, s);
  }

  lemma AllReached(g: Graph, targets: set<string>, s: set<string>)
    requires targets <= s && (forall n, d :: n in s && d in Deps(g, n) ==> d in s)
    ensures forall n :: Reachable(g, targets, n) ==> n in s
  {
    forall n | Reachable(g, targets, n)
      ensures n in s
    {
      var path :| Leads(g, targets, path, n);
      ClosedContains(g, targets, s, path);
    }
  }

  /** The order lists the names once each, dependencies first. */
  ghost predicate IsOrder(g: Graph, order: seq<string>) {
    && (forall i, j :: 0 <= i < j < |order| ==> order[i] != order[j])
    && (forall i, d :: 0 <= i < |order| && d in Deps(g, order[i]) ==> d in order[..i])
  }

  ghost predicate DependsOn(g: Graph, n: string, s: set<string>) {
    exists d :: d in s && d in Deps(g, n)
  }

  /** Each of these names depends on one of them. */
  ghost predicate IsKnot(g: Graph, s: set<string>) {
    s != {} && forall n {:trigger DependsOn(g, n, s)} :: n in s ==> DependsOn(g, n, s)
  }

  /** Sorts topologically, or finds that some names depend on each other in a cycle. */
  method TopologicalSort(g: Graph) returns (order: Option<seq<string>>, ghost knot: set<string>)
    ensures order.Some? ==> IsOrder(g, order.value) && (set n | n in order.value) == Nodes(g)
    ensures order.None? ==> IsKnot(g, knot)
  {
    hide IsOrder, IsKnot;
    var left := Nodes(g);
    OrderNone(g);
    var done: seq<string> := [];
    knot := {};
    while left != {}
      invariant IsOrder(g, done)
      invariant forall n :: n in Nodes(g) <==> n in left || n in done
      invariant forall n :: n in done ==> n !in left
      decreases |left|
    {
      var ready := set n | n in left && Deps(g, n) !! left;
      if ready == {} {
        knot := left;
        StuckIsKnot(g, left, ready);
        return None, knot;
      }
      var n :| n in ready;
      forall d | d in Deps(g, n)
        ensures d in done
      {
        assert d in Nodes(g);
      }
      OrderMore(g, done, n);
      done := done + [n];
      left := left - {n};
    }
    order := Some(done);
  }

  lemma OrderNone(g: Graph)
    ensures IsOrder(g, [])
  {
  }

  lemma StuckIsKnot(g: Graph, left: set<string>, ready: set<string>)
    requires left != {} && ready == {} && forall n :: n in left && Deps(g, n) !! left ==> n in ready
    ensures IsKnot(g, left)
  {
    forall n | n in left
      ensures DependsOn(g, n, left)
    {
      assert n !in ready;
      var d :| d in Deps(g, n) && d in left;
    }
  }

  lemma OrderMore(g: Graph, done: seq<string>, n: string)
    requires IsOrder(g, done) && n !in done && forall d :: d in Deps(g, n) ==> d in done
    ensures IsOrder(g, done + [n])
  {
    var more := done + [n];
    forall i, d | 0 <= i < |more| && d in Deps(g, more[i])
      ensures d in more[..i]
    {
      assert more[..i] == if i < |done| then done[..i] else done;
    }
  }

  /** A graph with a knot has no order that contains a name of the knot. */
  lemma {:induction false} KnotHasNoOrder(g: Graph, order: seq<string>, s: set<string>, i: nat)
    requires IsOrder(g, order) && IsKnot(g, s) && i < |order|
    ensures order[i] !in s
    decreases i
  {
    if order[i] in s {
      assert DependsOn(g, order[i], s);
      var d :| d in s && d in Deps(g, order[i]);
      assert d in order[..i];
      var j :| 0 <= j < i && order[..i][j] == d;
      KnotHasNoOrder(g, order, s, j);
    }
  }

  /** The part of the graph that the visited names span. */
  function Restrict(g: Graph, s: set<string>): (h: Graph) {
    map n | n in g && n in s :: g[n]
  }

  /** What a build for the targets processes: the reachable names that are images or
      dependencies of a reachable image. */
  ghost predicate Included(g: Graph, targets: set<string>, n: string) {
    Reachable(g, targets, n) && (n in g || exists m :: Reachable(g, targets, m) && n in Deps(g, m))
  }

  /** A target that is not an image is processed exactly when an image that another target
      leads to depends on it; asked for alone, it is dropped. */
  lemma UnknownTarget(g: Graph, targets: set<string>, n: string)
    requires n in targets && n !in g
    ensures Included(g, targets, n) <==> exists m :: Reachable(g, targets - {n}, m) && n in Deps(g, m)
    ensures n !in Nodes(g) || targets == {n} ==> !Included(g, targets, n)
  {
    TargetReachable(g, targets, n);
    forall m | Reachable(g, targets, m) && n in Deps(g, m)
      ensures Reachable(g, targets - {n}, m)
    {
      var path :| Leads(g, targets, path, m);
      assert |path| > 1 ==> path[1] in Deps(g, path[0]);
      assert Leads(g, targets - {n}, path, m);
    }
    forall m | Reachable(g, targets - {n}, m)
      ensures Reachable(g, targets, m)
    {
      var path :| Leads(g, targets - {n}, path, m);
      assert Leads(g, targets, path, m);
    }
  }

  /** So if none of the targets is an image, the order lists nothing, and that is no error. */
  lemma NothingToDo(g: Graph, targets: set<string>, order: seq<string>)
    requires targets !! g.Keys && forall n :: n in order <==> Included(g, targets, n)
    ensures order == []
  {
    assert order != [] ==> order[0] in order;
    forall m | Reachable(g, targets, m)
      ensures m !in g
    {
      var path :| Leads(g, targets, path, m);
      assert |path| > 1 ==> path[1] in Deps(g, path[0]);
    }
  }

  /** The images to process for the given targets, or for all images if none are given.
      With targets the order lists, each once and dependencies first, exactly the reachable
      names that are images or dependencies of a reachable image. */
  method GetBuildOrder(g: Graph, targets: set<string>) returns (order: Option<seq<string>>, ghost knot: set<string>)
    ensures order.Some? ==> IsOrder(g, order.value)
    ensures order.Some? && targets == {} ==> forall n :: n in order.value <==> n in Nodes(g)
    ensures order.Some? && targets != {} ==>
              forall n :: n in order.value <==> Included(g, targets, n)
    ensures order.None? ==> IsKnot(g, knot) && (targets != {} ==> forall n :: n in knot ==> Reachable(g, targets, n))
  {
    hide IsOrder, IsKnot, Reachable, Nodes, Restrict;
    if targets == {} {
      order, knot := TopologicalSort(g);
      if order.Some? {
        assert forall n :: n in order.value <==> n in (set x | x in order.value);
      }
      return;
    }
    var visited := Closure(g, targets);
    var sub := Restrict(g, visited);
    order, knot := TopologicalSort(sub);
    VisitedNodes(g, targets, visited);
    if order.Some? {
      assert forall n :: n in order.value <==> n in (set x | x in order.value);
      SubOrder(g, visited, order.value);
    } else {
      SubKnot(g, visited, knot);
    }
  }

  lemma VisitedNodes(g: Graph, targets: set<string>, visited: set<string>)
    requires forall n :: n in visited <==> Reachable(g, targets, n)
    ensures forall n :: n in Nodes(Restrict(g, visited)) <==> Included(g, targets, n)
    ensures forall n :: n in Nodes(Restrict(g, visited)) ==> n in visited
  {
    var sub := Restrict(g, visited);
    forall n | n in Nodes(sub)
      ensures Included(g, targets, n)
    {
      if n !in sub {
        var m, d :| m in sub && d in sub[m] && d == n;
        DepReachable(g, targets, m, n);
      }
    }
    forall n | Included(g, targets, n)
      ensures n in Nodes(sub)
    {
      if n !in g {
        var m :| Reachable(g, targets, m) && n in Deps(g, m);
        assert m in sub && n in sub[m];
      }
    }
  }

  lemma SubOrder(g: Graph, visited: set<string>, order: seq<string>)
    requires IsOrder(Restrict(g, visited), order) && forall n :: n in order ==> n in visited
    ensures IsOrder(g, order)
  {
    var sub := Restrict(g, visited);
    forall i, d | 0 <= i < |order| && d in Deps(g, order[i])
      ensures d in order[..i]
    {
      assert order[i] in order;
      assert d in Deps(sub, order[i]);
    }
  }

  lemma SubKnot(g: Graph, visited: set<string>, knot: set<string>)
    requires IsKnot(Restrict(g, visited), knot)
    ensures IsKnot(g, knot) && forall n :: n in knot ==> n in visited
  {
    var sub := Restrict(g, visited);
    forall n | n in knot
      ensures DependsOn(g, n, knot) && n in sub
    {
      assert DependsOn(sub, n, knot);
      var d :| d in knot && d in Deps(sub, n);
      assert d in Deps(g, n);
    }
  }
}
