/**
  The graph checks of a plugin's validation (plugins.py, `_first_unreachable` and `_first_cycle`;
  plugin_manifest.py, `validate`): a queue walk and a depth-first walk, each proved to decide
  exactly the property it is there for.
 */
module GraphChecks {
  import opened Options
  import opened Manifests

  function Starts(m: Manifest): seq<Name> {
    StartsOf(m.entries)
  }

  function StartsOf(entries: seq<Entry>): seq<Name> {
    if entries == [] then [] else StartsOf(entries[..|entries| - 1]) + [entries[|entries| - 1].start]
  }

  lemma {:induction false} StartsAt(entries: seq<Entry>)
    ensures |StartsOf(entries)| == |entries|
    ensures forall i :: 0 <= i < |entries| ==> StartsOf(entries)[i] == entries[i].start
    decreases |entries|
  {
    if entries == [] {
    } else {
      StartsAt(entries[..|entries| - 1]);
    }
  }

  ghost predicate Reached(g: Graph, starts: seq<Name>, b: Name) {
    exists a :: a in starts && Reach(g, a, b)
  }

  // ----- the queue walk --------------------------------------------------------------------------

  /** Between two rounds: what was seen or is queued is reached, and nothing seen points at a name
      that is neither. */
  ghost predicate Walking(g: Graph, starts: seq<Name>, visited: set<Name>, queue: seq<Name>) {
    && visited <= g.Keys && (forall x :: x in queue ==> x in g)
    && (forall a :: a in starts ==> a in visited || a in queue)
    && (forall a, b :: a in visited && Edge(g, a, b) ==> b in visited || b in queue)
    && (forall x :: x in visited || x in queue ==> Reached(g, starts, x))
  }

  lemma {:induction false} WalkingStarts(g: Graph, starts: seq<Name>)
    requires forall a :: a in starts ==> a in g
    ensures Walking(g, starts, {}, starts)
  {
    forall x | x in starts ensures Reached(g, starts, x) {
      ReachSelf(g, x);
    }
  }

  lemma {:induction false} WalkingSkips(g: Graph, starts: seq<Name>, visited: set<Name>, queue: seq<Name>)
    requires Walking(g, starts, visited, queue) && queue != [] && queue[0] in visited
    ensures Walking(g, starts, visited, queue[1..])
  {
  }

  lemma {:induction false} WalkingVisits(g: Graph, starts: seq<Name>, visited: set<Name>, queue: seq<Name>)
    requires Closed(g) && Walking(g, starts, visited, queue) && queue != []
    ensures queue[0] in g && Walking(g, starts, visited + {queue[0]}, queue[1..] + g[queue[0]])
  {
    hide Reached;
    var name := queue[0];
    assert queue == [name] + queue[1..];
    forall x | x in g[name] ensures x in g && Reached(g, starts, x) {
      assert Edge(g, name, x);
      ReachedStep(g, starts, name, x);
    }
  }

  lemma {:induction false} ReachedStep(g: Graph, starts: seq<Name>, a: Name, b: Name)
    requires Reached(g, starts, a) && Edge(g, a, b) && b in g
    ensures Reached(g, starts, b)
  {
    var s :| s in starts && Reach(g, s, a);
    ReachStep(g, s, a, b);
  }

  lemma {:induction false} WalkingEnds(g: Graph, starts: seq<Name>, visited: set<Name>)
    requires Walking(g, starts, visited, [])
    ensures forall x :: x in visited <==> Reached(g, starts, x)
  {
    forall x | Reached(g, starts, x) ensures x in visited {
      var a :| a in starts && Reach(g, a, x);
      var p :| PathFromTo(g, p, a, x);
      StaysInside(g, p, visited);
    }
  }

  /** Everything the entries lead to. */
  method WalkFrom(g: Graph, starts: seq<Name>) returns (visited: set<Name>)
    requires Closed(g) && forall a :: a in starts ==> a in g
    ensures forall x :: x in visited <==> Reached(g, starts, x)
  {
    hide Closed, Reached;
    visited := {};
    var queue := starts;
    WalkingStarts(g, starts);
    while queue != []
      invariant Walking(g, starts, visited, queue)
      decreases g.Keys - visited, |queue|
    {
      var name := queue[0];
      if name in visited {
        WalkingSkips(g, starts, visited, queue);
        queue := queue[1..];
      } else {
        WalkingVisits(g, starts, visited, queue);
        visited := visited + {name};
        queue := queue[1..] + g[name];
      }
    }
    WalkingEnds(g, starts, visited);
  }

  /** The first declared node no entry reaches, in declared order. */
  method FirstUnreachable(m: Manifest) returns (unreachable: Option<Name>)
    requires Closed(GraphOf(m)) && forall a :: a in Starts(m) ==> a in GraphOf(m)
    ensures unreachable.None? <==> forall n :: n in m.nodes ==> Reached(GraphOf(m), Starts(m), n.name)
    ensures unreachable.Some? ==>
              exists i :: && 0 <= i < |m.nodes| && m.nodes[i].name == unreachable.value
                          && !Reached(GraphOf(m), Starts(m), unreachable.value)
                          && forall j :: 0 <= j < i ==> Reached(GraphOf(m), Starts(m), m.nodes[j].name)
  {
    hide Reached;
    var visited := WalkFrom(GraphOf(m), Starts(m));
    for i := 0 to |m.nodes|
      invariant forall j :: 0 <= j < i ==> Reached(GraphOf(m), Starts(m), m.nodes[j].name)
    {
      if m.nodes[i].name !in visited {
        return Some(m.nodes[i].name);
      }
    }
    unreachable := None;
  }

  lemma {:induction false} StaysInside(g: Graph, p: seq<Name>, inside: set<Name>)
    requires IsPath(g, p) && p[0] in inside
    requires forall a, b :: a in inside && Edge(g, a, b) ==> b in inside
    ensures p[|p| - 1] in inside
    decreases |p|
  {
    if |p| <= 1 {
    } else {
      assert Edge(g, p[0], p[0 + 1]);
      var q := p[1..];
      forall i | 0 <= i < |q| - 1 ensures Edge(g, q[i], q[i + 1]) {
        assert q[i] == p[i + 1] && q[i + 1] == p[(i + 1) + 1];
      }
      StaysInside(g, q, inside);
    }
  }

  // ----- the depth-first walk --------------------------------------------------------------------

  /** The walk's own state: what it has entered, and what it is inside of. */
  class CycleWalk {
    const g: Graph
    var visited: set<Name>
    var onPath: set<Name>
    ghost var path: seq<Name>     // the names of `onPath`, outermost first
    ghost var done: seq<Name>     // the names left again, in the order they were left

    constructor (g: Graph)
      ensures this.g == g && visited == {} && onPath == {} && path == [] && done == []
    {
      this.g := g;
      visited, onPath, path, done := {}, {}, [], [];
    }

    ghost predicate Valid()
      reads this
    {
      && (path != [] ==> IsPath(g, path))
      && (forall i, j :: 0 <= i < j < |path| ==> path[i] != path[j])
      && (forall x :: x in onPath <==> x in path)
      && (forall x :: x in visited <==> x in path || x in done)
      && (forall x :: x in path ==> x !in done)
      && visited <= g.Keys
      && Ordered(g, done)
    }

    /** Enter `name` from the end of the current path. Nothing is found exactly when `name` is now
        behind us together with all it leads to; otherwise the answer lies on a cycle. */
    method Visit(name: Name) returns (cycle: Option<Name>)
      requires Valid() && Closed(g) && name in g
      requires path != [] ==> Edge(g, path[|path| - 1], name)
      modifies this
      ensures cycle.None? ==> Valid() && path == old(path) && onPath == old(onPath)
      ensures cycle.None? ==> old(visited) <= visited && old(done) <= done && name in done
      ensures cycle.Some? ==> OnCycle(g, cycle.value)
      ensures cycle.Some? ==> exists a :: a in old(path) + [name] && Reach(g, a, cycle.value)
      decreases g.Keys - visited
    {
      if name in onPath {
        CycleFound(g, path, name);
        return Some(name);
      }
      if name in visited {
        return None;
      }
      visited := visited + {name};
      onPath := onPath + {name};
      path := path + [name];
      var successors := g[name];
      for i := 0 to |successors|
        invariant Valid() && path == old(path) + [name] && onPath == old(onPath) + {name}
        invariant old(visited) + {name} <= visited && old(done) <= done
        invariant forall j :: 0 <= j < i ==> successors[j] in done
      {
        assert Edge(g, name, successors[i]);
        cycle := Visit(successors[i]);
        if cycle.Some? {
          FoundBelow(g, old(path), name, successors[i], cycle.value);
          return;
        }
      }
      onPath := onPath - {name};
      path := old(path);
      forall b | Edge(g, name, b) ensures b in done {
        assert b in successors;
      }
      OrderedSnoc(g, done, name);
      done := done + [name];
      cycle := None;
    }
  }

  lemma {:induction false} FoundBelow(g: Graph, path: seq<Name>, name: Name, successor: Name, cycle: Name)
    requires Edge(g, name, successor)
    requires exists a :: a in path + [name] + [successor] && Reach(g, a, cycle)
    ensures exists a :: a in path + [name] && Reach(g, a, cycle)
  {
    var a :| a in path + [name] + [successor] && Reach(g, a, cycle);
    if a !in path + [name] {
      StepReach(g, name, successor, cycle);
      assert name in path + [name];
    }
  }

  lemma {:induction false} CycleFound(g: Graph, path: seq<Name>, name: Name)
    requires IsPath(g, path) && name in path && Edge(g, path[|path| - 1], name)
    ensures OnCycle(g, name) && Reach(g, name, name)
  {
    var i :| 0 <= i < |path| && path[i] == name;
    var p := path[i..];
    forall k | 0 <= k < |p| - 1 ensures Edge(g, p[k], p[k + 1]) {
      assert p[k] == path[i + k] && p[k + 1] == path[(i + k) + 1];
    }
    assert PathFromTo(g, p, name, path[|path| - 1]);
    assert Reach(g, name, path[|path| - 1]);
    BackEdgeCloses(g, name, path[|path| - 1]);
    ReachSelf(g, name);
  }

  /** A cycle an entry leads to, if there is one: the walk answers exactly, and what it names really
      lies on a cycle. */
  method FirstCycle(m: Manifest) returns (cycle: Option<Name>)
    requires Closed(GraphOf(m)) && forall a :: a in Starts(m) ==> a in GraphOf(m)
    ensures cycle.None? <==> forall b :: Reached(GraphOf(m), Starts(m), b) ==> !OnCycle(GraphOf(m), b)
    ensures cycle.Some? ==> OnCycle(GraphOf(m), cycle.value) && Reached(GraphOf(m), Starts(m), cycle.value)
  {
    var g := GraphOf(m);
    var starts := Starts(m);
    StartsAt(m.entries);
    var walk := new CycleWalk(g);
    for i := 0 to |m.entries|
      invariant walk.Valid() && walk.path == [] && walk.g == g
      invariant forall j :: 0 <= j < i ==> starts[j] in walk.done
    {
      assert m.entries[i].start == starts[i];
      cycle := walk.Visit(m.entries[i].start);
      if cycle.Some? {
        assert Reached(g, starts, cycle.value);
        return;
      }
    }
    forall b | Reached(g, starts, b) ensures !OnCycle(g, b) {
      var a :| a in starts && Reach(g, a, b);
      OrderedReach(g, walk.done, a, b);
    }
    cycle := None;
  }

  /** When every declared node is reached and no reached node lies on a cycle, the whole declared
      graph is acyclic. */
  lemma {:induction false} ReachedAcyclicIsAcyclic(m: Manifest)
    requires forall n :: n in m.nodes ==> Reached(GraphOf(m), Starts(m), n.name)
    requires forall b :: Reached(GraphOf(m), Starts(m), b) ==> !OnCycle(GraphOf(m), b)
    ensures Acyclic(GraphOf(m))
  {
    var g := GraphOf(m);
    forall a ensures !OnCycle(g, a) {
      if a in g {
        IndexKeys(m.nodes);
        assert NodeIndex(m.nodes)[a] in m.nodes;
        assert Reached(g, Starts(m), a);
      } else if OnCycle(g, a) {
        OnCycleDeclared(g, a);
      }
    }
  }

  // ----- the checks in their order -------------------------------------------------------------

  datatype Outcome =
    | Valid
    | DuplicateNodeName(name: Name)
    | DanglingTarget(node: Name, target: Name)
    | UnreachableNode(node: Name)
    | CyclicGraph(node: Name)

  ghost predicate StartsDeclared(m: Manifest) {
    forall a :: a in Starts(m) ==> a in GraphOf(m)
  }

  /** What a validated graph is: names are unique, every arrow and every entry lands on a declared
      node, every node is reached, and no node can come round to itself. */
  ghost predicate Sane(m: Manifest) {
    && DistinctNames(m.nodes) && Closed(GraphOf(m)) && StartsDeclared(m)
    && (forall n :: n in m.nodes ==> Reached(GraphOf(m), Starts(m), n.name))
    && Acyclic(GraphOf(m))
  }

  /** What each refusal claims is so. */
  ghost predicate Justifies(m: Manifest, o: Outcome) {
    match o
    case Valid => Sane(m)
    case DuplicateNodeName(x) =>
      exists i, j :: 0 <= i < j < |m.nodes| && m.nodes[i].name == x && m.nodes[j].name == x
    case DanglingTarget(from, target) =>
      && target !in GraphOf(m)
      && ((exists e :: e in m.entries && e.tool == from && e.start == target)
          || (exists n :: n in m.nodes && n.name == from && target in Successors(n)))
    case UnreachableNode(x) => x in GraphOf(m) && !Reached(GraphOf(m), Starts(m), x)
    case CyclicGraph(x) => OnCycle(GraphOf(m), x) && Reached(GraphOf(m), Starts(m), x)
  }

  method FirstDuplicate(nodes: seq<Node>) returns (seen: set<Name>, duplicate: Option<Name>)
    ensures duplicate.None? <==> DistinctNames(nodes)
    ensures duplicate.Some? ==>
              exists i, j :: 0 <= i < j < |nodes| && nodes[i].name == duplicate.value && nodes[j].name == duplicate.value
    ensures duplicate.None? ==> seen == NodeIndex(nodes).Keys
  {
    seen := {};
    for i := 0 to |nodes|
      invariant forall x :: x in seen <==> exists k :: 0 <= k < i && nodes[k].name == x
      invariant DistinctNames(nodes[..i])
    {
      if nodes[i].name in seen {
        return seen, Some(nodes[i].name);
      }
      seen := seen + {nodes[i].name};
    }
    assert nodes[..|nodes|] == nodes;
    IndexKeys(nodes);
    forall x ensures x in seen <==> x in NodeIndex(nodes) {
      if x in seen {
        var k :| 0 <= k < |nodes| && nodes[k].name == x;
        assert nodes[k] in nodes;
      }
    }
    duplicate := None;
  }

  method FirstDangling(m: Manifest, seen: set<Name>) returns (dangling: Option<(Name, Name)>)
    requires seen == GraphOf(m).Keys && DistinctNames(m.nodes)
    ensures dangling.None? ==> StartsDeclared(m) && Closed(GraphOf(m))
    ensures dangling.Some? ==> Justifies(m, DanglingTarget(dangling.value.0, dangling.value.1))
  {
    for i := 0 to |m.entries|
      invariant forall k :: 0 <= k < i ==> m.entries[k].start in seen
    {
      if m.entries[i].start !in seen {
        return Some((m.entries[i].tool, m.entries[i].start));
      }
    }
    for i := 0 to |m.nodes|
      invariant forall k, x :: 0 <= k < i && x in Successors(m.nodes[k]) ==> x in seen
    {
      var n := m.nodes[i];
      assert n in m.nodes;
      if n.next.Some? && n.next.value !in seen {
        assert n.next.value in Successors(n);
        return Some((n.name, n.next.value));
      }
      for j := 0 to |n.ports|
        invariant forall k :: 0 <= k < j ==> n.ports[k] in seen
      {
        if n.ports[j] !in seen {
          assert n.ports[j] in Successors(n);
          return Some((n.name, n.ports[j]));
        }
      }
    }
    StartsAt(m.entries);
    IndexKeys(m.nodes);
    IndexExact(m.nodes);
    forall a, b | Edge(GraphOf(m), a, b) ensures b in GraphOf(m) {
      var n := NodeIndex(m.nodes)[a];
      var k :| 0 <= k < |m.nodes| && m.nodes[k] == n;
    }
    dangling := None;
  }

  lemma {:induction false} DanglingNotSane(m: Manifest, from: Name, target: Name)
    requires DistinctNames(m.nodes) && Justifies(m, DanglingTarget(from, target))
    ensures !(StartsDeclared(m) && Closed(GraphOf(m)))
  {
    StartsAt(m.entries);
    IndexExact(m.nodes);
    if e :| e in m.entries && e.tool == from && e.start == target {
      var i :| 0 <= i < |m.entries| && m.entries[i] == e;
      assert Starts(m)[i] == target;
    } else {
      var n :| n in m.nodes && n.name == from && target in Successors(n);
      assert Edge(GraphOf(m), n.name, target);
    }
  }

  lemma {:induction false} RefusalNotSane(m: Manifest, o: Outcome)
    requires Justifies(m, o) && !o.Valid?
    ensures !Sane(m)
  {
    match o
    case DuplicateNodeName(_) =>
    case DanglingTarget(from, target) =>
      if DistinctNames(m.nodes) {
        DanglingNotSane(m, from, target);
      }
    case UnreachableNode(x) =>
      IndexKeys(m.nodes);
      assert NodeIndex(m.nodes)[x] in m.nodes;
    case CyclicGraph(x) =>
  }

  /** The graph half of `validate`: stops at the first check that fails, accepts exactly the sane
      manifests, and a refusal names something that really is wrong. */
  method ValidateGraph(m: Manifest) returns (o: Outcome)
    ensures o.Valid? <==> Sane(m)
    ensures Justifies(m, o)
  {
    hide Reached, OnCycle, Acyclic, Closed, DistinctNames, Starts;
    var seen, duplicate := FirstDuplicate(m.nodes);
    if duplicate.Some? {
      RefusalNotSane(m, DuplicateNodeName(duplicate.value));
      return DuplicateNodeName(duplicate.value);
    }
    var dangling := FirstDangling(m, seen);
    if dangling.Some? {
      RefusalNotSane(m, DanglingTarget(dangling.value.0, dangling.value.1));
      return DanglingTarget(dangling.value.0, dangling.value.1);
    }
    var unreachable := FirstUnreachable(m);
    if unreachable.Some? {
      IndexKeys(m.nodes);
      RefusalNotSane(m, UnreachableNode(unreachable.value));
      return UnreachableNode(unreachable.value);
    }
    var cycle := FirstCycle(m);
    if cycle.Some? {
      RefusalNotSane(m, CyclicGraph(cycle.value));
      return CyclicGraph(cycle.value);
    }
    ReachedAcyclicIsAcyclic(m);
    return Valid;
  }
}
