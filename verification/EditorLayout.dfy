/**
  Where each box sits on the canvas (editor_layout.py): a breadth-first walk whose depths are shown to
  be shortest distances, on any drawing at all - cycles, dangling arrows and unreached nodes
  included.
 */
module EditorLayout {
  import opened Manifests
  import opened GraphChecks

  const COLUMN_WIDTH := 220
  const ROW_HEIGHT := 110
  const MARGIN := 40

  // ----- distances -----------------------------------------------------------------------------

  ghost predicate Route(g: Graph, starts: seq<Name>, p: seq<Name>, x: Name) {
    IsPath(g, p) && p[0] in starts && p[|p| - 1] == x
  }

  /** `d` arrows lead to `x` from some entry, and no fewer do. */
  ghost predicate IsDistance(g: Graph, starts: seq<Name>, x: Name, d: nat) {
    && (exists p :: Route(g, starts, p, x) && |p| == d + 1)
    && (forall p :: Route(g, starts, p, x) ==> d + 1 <= |p|)
  }

  type Depths = map<Name, nat>
  type Queue = seq<(Name, nat)>

  ghost predicate Queued(queue: Queue, x: Name, most: nat) {
    exists i :: 0 <= i < |queue| && queue[i].0 == x && queue[i].1 <= most
  }

  ghost predicate Sorted(queue: Queue) {
    && (forall i, j :: 0 <= i < j < |queue| ==> queue[i].1 <= queue[j].1)
    && (forall i :: 0 <= i < |queue| ==> queue[i].1 <= queue[0].1 + 1)
  }

  ghost predicate RouteOfLength(g: Graph, starts: seq<Name>, x: Name, d: nat) {
    exists p :: Route(g, starts, p, x) && |p| == d + 1
  }

  /** What holds between two rounds of the walk: depths found are distances, the queue is in order and
      only promises real routes, and whatever is one arrow away is queued early enough. */
  ghost predicate Exploring(g: Graph, starts: seq<Name>, depth: Depths, queue: Queue) {
    && Sorted(queue)
    && depth.Keys <= g.Keys
    && (forall x :: x in depth ==> IsDistance(g, starts, x, depth[x]))
    && (forall i :: 0 <= i < |queue| && queue[i].0 in g ==> RouteOfLength(g, starts, queue[i].0, queue[i].1))
    && (forall s :: s in starts && s in g && s !in depth ==> Queued(queue, s, 0))
    && (forall a, b :: a in depth && Edge(g, a, b) && b in g && b !in depth ==> Queued(queue, b, depth[a] + 1))
  }

  /** Somewhere on any route to an undiscovered node, the queue is already waiting. */
  lemma {:induction false} FrontierOnRoute(g: Graph, starts: seq<Name>, depth: Depths, queue: Queue, p: seq<Name>, x: Name)
    requires Exploring(g, starts, depth, queue) && Route(g, starts, p, x) && x !in depth
    ensures queue != [] && queue[0].1 + 1 <= |p|
    decreases |p|
  {
    if |p| == 1 {
      assert Queued(queue, x, 0);
    } else {
      var q, y := p[..|p| - 1], p[|p| - 2];
      assert Route(g, starts, q, y) by {
        forall i | 0 <= i < |q| - 1 ensures Edge(g, q[i], q[i + 1]) { assert Edge(g, p[i], p[i + 1]); }
      }
      assert Edge(g, p[|p| - 2], p[(|p| - 2) + 1]);
      if y in depth {
        assert IsDistance(g, starts, y, depth[y]);
        assert Queued(queue, x, depth[y] + 1);
      } else {
        FrontierOnRoute(g, starts, depth, queue, q, y);
      }
    }
  }

  lemma {:induction false} ExploringStarts(g: Graph, starts: seq<Name>, queue: Queue)
    requires |queue| == |starts| && forall i :: 0 <= i < |queue| ==> queue[i] == (starts[i], 0)
    ensures Exploring(g, starts, map[], queue)
  {
    forall i | 0 <= i < |queue| && queue[i].0 in g ensures RouteOfLength(g, starts, queue[i].0, queue[i].1) {
      assert Route(g, starts, [starts[i]], starts[i]);
    }
  }

  lemma {:induction false} QueuedRest(queue: Queue, x: Name, most: nat)
    requires queue != [] && Queued(queue, x, most) && x != queue[0].0
    ensures Queued(queue[1..], x, most)
  {
  }

  lemma {:induction false} QueuedMore(queue: Queue, more: Queue, x: Name, most: nat)
    requires Queued(queue, x, most) || Queued(more, x, most)
    ensures Queued(queue + more, x, most)
  {
    if i :| 0 <= i < |queue| && queue[i].0 == x && queue[i].1 <= most {
      assert (queue + more)[i] == queue[i];
    } else {
      var i :| 0 <= i < |more| && more[i].0 == x && more[i].1 <= most;
      assert (queue + more)[|queue| + i] == more[i];
    }
  }

  /** A name seen before, or not declared at all, is passed over. */
  lemma {:induction false} ExploringSkips(g: Graph, starts: seq<Name>, depth: Depths, queue: Queue)
    requires Exploring(g, starts, depth, queue) && queue != [] && (queue[0].0 in depth || queue[0].0 !in g)
    ensures Exploring(g, starts, depth, queue[1..])
  {
    hide IsDistance, RouteOfLength;
    var rest := queue[1..];
    forall s | s in starts && s in g && s !in depth ensures Queued(rest, s, 0) {
      QueuedRest(queue, s, 0);
    }
    forall a, b | a in depth && Edge(g, a, b) && b in g && b !in depth ensures Queued(rest, b, depth[a] + 1) {
      QueuedRest(queue, b, depth[a] + 1);
    }
  }

  function Tagged(names: seq<Name>, d: nat): Queue {
    seq(|names|, i requires 0 <= i < |names| => (names[i], d))
  }

  /** A name seen for the first time is at its distance. */
  lemma {:induction false} HeadIsDistance(g: Graph, starts: seq<Name>, depth: Depths, queue: Queue)
    requires Exploring(g, starts, depth, queue) && queue != [] && queue[0].0 !in depth && queue[0].0 in g
    ensures IsDistance(g, starts, queue[0].0, queue[0].1)
  {
    var x, d := queue[0].0, queue[0].1;
    assert RouteOfLength(g, starts, x, d);
    forall p | Route(g, starts, p, x) ensures d + 1 <= |p| {
      FrontierOnRoute(g, starts, depth, queue, p, x);
    }
  }

  lemma {:induction false} RouteExtends(g: Graph, starts: seq<Name>, x: Name, d: nat, y: Name)
    requires RouteOfLength(g, starts, x, d) && Edge(g, x, y) && y in g
    ensures RouteOfLength(g, starts, y, d + 1)
  {
    var p :| Route(g, starts, p, x) && |p| == d + 1;
    var q := p + [y];
    forall i | 0 <= i < |q| - 1 ensures Edge(g, q[i], q[i + 1]) {
      if i < |p| - 1 { assert Edge(g, p[i], p[i + 1]); }
    }
    assert Route(g, starts, q, y);
  }

  lemma {:induction false} SortedAppend(queue: Queue, names: seq<Name>)
    requires Sorted(queue) && queue != []
    ensures Sorted(queue[1..] + Tagged(names, queue[0].1 + 1))
  {
  }

  lemma {:induction false} ExploringVisits(g: Graph, starts: seq<Name>, depth: Depths, queue: Queue)
    requires Exploring(g, starts, depth, queue) && queue != [] && queue[0].0 !in depth && queue[0].0 in g
    ensures Exploring(g, starts, depth[queue[0].0 := queue[0].1],
                      queue[1..] + Tagged(g[queue[0].0], queue[0].1 + 1))
  {
    HeadIsDistance(g, starts, depth, queue);
    SortedAppend(queue, g[queue[0].0]);
    hide IsDistance, RouteOfLength, Sorted, Queued;
    VisitedRoutes(g, starts, depth, queue);
    VisitedStarts(g, starts, depth, queue);
    VisitedEdges(g, starts, depth, queue);
  }

  lemma {:induction false} VisitedRoutes(g: Graph, starts: seq<Name>, depth: Depths, queue: Queue)
    requires Exploring(g, starts, depth, queue) && queue != [] && queue[0].0 in g
    ensures var next := queue[1..] + Tagged(g[queue[0].0], queue[0].1 + 1);
            forall i :: 0 <= i < |next| && next[i].0 in g ==> RouteOfLength(g, starts, next[i].0, next[i].1)
  {
    var x, d := queue[0].0, queue[0].1;
    var next := queue[1..] + Tagged(g[x], d + 1);
    assert RouteOfLength(g, starts, x, d);
    hide RouteOfLength, IsDistance, Sorted, Queued;
    forall i | 0 <= i < |next| && next[i].0 in g ensures RouteOfLength(g, starts, next[i].0, next[i].1) {
      if i < |queue| - 1 {
        assert next[i] == queue[i + 1];
      } else {
        assert next[i] == (g[x][i - (|queue| - 1)], d + 1);
        assert Edge(g, x, next[i].0);
        RouteExtends(g, starts, x, d, next[i].0);
      }
    }
  }

  lemma {:induction false} VisitedStarts(g: Graph, starts: seq<Name>, depth: Depths, queue: Queue)
    requires Exploring(g, starts, depth, queue) && queue != [] && queue[0].0 in g
    ensures var next := queue[1..] + Tagged(g[queue[0].0], queue[0].1 + 1);
            forall s :: s in starts && s in g && s !in depth && s != queue[0].0 ==> Queued(next, s, 0)
  {
    hide RouteOfLength, IsDistance, Sorted, Queued, Tagged;
    forall s | s in starts && s in g && s !in depth && s != queue[0].0
      ensures Queued(queue[1..] + Tagged(g[queue[0].0], queue[0].1 + 1), s, 0)
    {
      QueuedRest(queue, s, 0);
      QueuedMore(queue[1..], Tagged(g[queue[0].0], queue[0].1 + 1), s, 0);
    }
  }

  lemma {:induction false} VisitedEdges(g: Graph, starts: seq<Name>, depth: Depths, queue: Queue)
    requires Exploring(g, starts, depth, queue) && queue != [] && queue[0].0 !in depth && queue[0].0 in g
    ensures var next, after := queue[1..] + Tagged(g[queue[0].0], queue[0].1 + 1), depth[queue[0].0 := queue[0].1];
            forall a, b :: a in after && Edge(g, a, b) && b in g && b !in after ==> Queued(next, b, after[a] + 1)
  {
    var x, d := queue[0].0, queue[0].1;
    var more, after := Tagged(g[x], d + 1), depth[x := d];
    hide RouteOfLength, IsDistance, Sorted;
    forall a, b | a in after && Edge(g, a, b) && b in g && b !in after ensures Queued(queue[1..] + more, b, after[a] + 1) {
      if a == x {
        TaggedQueued(g[x], d + 1, b);
      } else {
        hide Queued, Tagged;
        QueuedRest(queue, b, depth[a] + 1);
      }
      QueuedMore(queue[1..], more, b, after[a] + 1);
    }
  }

  lemma {:induction false} TaggedQueued(names: seq<Name>, d: nat, x: Name)
    requires x in names
    ensures Queued(Tagged(names, d), x, d)
  {
    var k :| 0 <= k < |names| && names[k] == x;
    assert Tagged(names, d)[k] == (x, d);
  }

  lemma {:induction false} ExploringEnds(g: Graph, starts: seq<Name>, depth: Depths)
    requires Exploring(g, starts, depth, [])
    ensures forall x :: x in depth <==> Reached(g, starts, x)
  {
    forall x ensures x in depth <==> Reached(g, starts, x) {
      if x in depth {
        assert IsDistance(g, starts, x, depth[x]);
        var p :| Route(g, starts, p, x) && |p| == depth[x] + 1;
        assert PathFromTo(g, p, p[0], x);
      } else if Reached(g, starts, x) {
        var a :| a in starts && Reach(g, a, x);
        var p :| PathFromTo(g, p, a, x);
        FrontierOnRoute(g, starts, depth, [], p, x);
      }
    }
  }

  lemma {:induction false} FewerLeft(names: set<Name>, depth: Depths, name: Name, at: nat)
    requires name in names && name !in depth
    ensures names - depth[name := at].Keys < names - depth.Keys
  {
    assert name in names - depth.Keys && name !in names - depth[name := at].Keys;
  }

  /** Breadth-first from every entry's start: each reached node at its shortest distance from any
      entry, every other node left out. */
  method FindDepths(m: Manifest) returns (depth: Depths)
    ensures forall x :: x in depth <==> Reached(GraphOf(m), Starts(m), x)
    ensures forall x :: x in depth ==> IsDistance(GraphOf(m), Starts(m), x, depth[x])
  {
    hide Reached, IsDistance, Starts, GraphOf;
    var g := GraphOf(m);
    depth := map[];
    var queue := Tagged(Starts(m), 0);
    ExploringStarts(g, Starts(m), queue);
    while queue != []
      invariant Exploring(g, Starts(m), depth, queue)
      decreases g.Keys - depth.Keys, |queue|
    {
      var name, at := queue[0].0, queue[0].1;
      if name in depth || name !in g {
        ExploringSkips(g, Starts(m), depth, queue);
        queue := queue[1..];
      } else {
        ExploringVisits(g, Starts(m), depth, queue);
        FewerLeft(g.Keys, depth, name, at);
        depth := depth[name := at];
        queue := queue[1..] + Tagged(g[name], at + 1);
      }
    }
    ExploringEnds(g, Starts(m), depth);
  }

  // ----- positions ------------------------------------------------------------------------------

  function Column(depth: Depths, beyond: nat, x: Name): nat {
    if x in depth then depth[x] else beyond
  }

  /** How many of the first `n` nodes stand in column `c`. */
  function InColumn(depth: Depths, beyond: nat, nodes: seq<Node>, n: nat, c: nat): nat
    requires n <= |nodes|
  {
    if n == 0 then 0
    else InColumn(depth, beyond, nodes, n - 1, c) + (if Column(depth, beyond, nodes[n - 1].name) == c then 1 else 0)
  }

  lemma {:induction false} InColumnGrows(depth: Depths, beyond: nat, nodes: seq<Node>, i: nat, j: nat)
    requires i < j <= |nodes|
    ensures var c := Column(depth, beyond, nodes[i].name);
            InColumn(depth, beyond, nodes, i, c) < InColumn(depth, beyond, nodes, j, c)
    decreases j
  {
    if i >= j - 1 {
    } else {
      InColumnGrows(depth, beyond, nodes, i, j - 1);
    }
  }

  function PixelOf(column: nat, row: nat): (nat, nat) {
    (MARGIN + column * COLUMN_WIDTH, MARGIN + row * ROW_HEIGHT)
  }

  method DeepestPlusOne(depth: Depths) returns (beyond: nat)
    ensures forall x :: x in depth ==> depth[x] < beyond
    ensures beyond == 0 || exists x :: x in depth && depth[x] == beyond - 1
  {
    beyond := 0;
    var left := depth.Keys;
    while left != {}
      invariant left <= depth.Keys
      invariant forall x :: x in depth && x !in left ==> depth[x] < beyond
      invariant beyond == 0 || exists x :: x in depth && depth[x] == beyond - 1
      decreases left
    {
      var x :| x in left;
      left := left - {x};
      if depth[x] >= beyond {
        beyond := depth[x] + 1;
      }
    }
  }

  /** Node `k` stands in its column, below the earlier nodes of that column. */
  ghost predicate Placed(depth: Depths, beyond: nat, nodes: seq<Node>, k: nat, result: map<Name, (nat, nat)>)
    requires k < |nodes|
  {
    var c := Column(depth, beyond, nodes[k].name);
    nodes[k].name in result && result[nodes[k].name] == PixelOf(c, InColumn(depth, beyond, nodes, k, c))
  }

  /** No two of the nodes share a pixel. */
  ghost predicate Apart(nodes: seq<Node>, result: map<Name, (nat, nat)>)
    requires forall n :: n in nodes ==> n.name in result
  {
    forall i, j :: 0 <= i < j < |nodes| ==> result[nodes[i].name] != result[nodes[j].name]
  }

  /** The node stands as many columns in as its distance from the entries. */
  ghost predicate AtDistance(g: Graph, starts: seq<Name>, x: Name, left: nat) {
    exists d: nat :: IsDistance(g, starts, x, d) && left == MARGIN + d * COLUMN_WIDTH
  }

  /** Every declared node gets a position. When names are distinct each gets a pixel of its own, a
      reached node's column is its distance from the entries, and every unreached node stands
      further right than every reached one. */
  method Positions(m: Manifest) returns (result: map<Name, (nat, nat)>)
    ensures forall n :: n in m.nodes ==> n.name in result
    ensures DistinctNames(m.nodes) ==> Apart(m.nodes, result)
    ensures DistinctNames(m.nodes) ==> forall n :: n in m.nodes && Reached(GraphOf(m), Starts(m), n.name) ==>
              AtDistance(GraphOf(m), Starts(m), n.name, result[n.name].0)
    ensures DistinctNames(m.nodes) ==> forall a, b :: a in m.nodes && b in m.nodes ==>
              Reached(GraphOf(m), Starts(m), a.name) ==> !Reached(GraphOf(m), Starts(m), b.name) ==>
              result[a.name].0 < result[b.name].0
  {
    hide Reached, IsDistance;
    var depth := FindDepths(m);
    var beyond := DeepestPlusOne(depth);
    var rows: map<nat, nat> := map[];
    result := map[];
    for i := 0 to |m.nodes|
      invariant forall c: nat :: (if c in rows then rows[c] else 0) == InColumn(depth, beyond, m.nodes, i, c)
      invariant forall k :: 0 <= k < i ==> m.nodes[k].name in result
      invariant DistinctNames(m.nodes) ==> forall k :: 0 <= k < i ==> Placed(depth, beyond, m.nodes, k, result)
    {
      var name := m.nodes[i].name;
      var column := Column(depth, beyond, name);
      var row := if column in rows then rows[column] else 0;
      rows := rows[column := row + 1];
      ghost var before := result;
      result := result[name := PixelOf(column, row)];
      if DistinctNames(m.nodes) {
        forall k | 0 <= k < i ensures Placed(depth, beyond, m.nodes, k, result) {
          assert Placed(depth, beyond, m.nodes, k, before);
          assert m.nodes[k].name != m.nodes[i].name;
        }
      }
    }
    if DistinctNames(m.nodes) {
      PlacedApart(depth, beyond, m.nodes, result);
      forall n | n in m.nodes
        ensures result[n.name].0 == MARGIN + Column(depth, beyond, n.name) * COLUMN_WIDTH
      {
        var k :| 0 <= k < |m.nodes| && m.nodes[k] == n;
        assert Placed(depth, beyond, m.nodes, k, result);
      }
    }
  }

  lemma {:induction false} PlacedApart(depth: Depths, beyond: nat, nodes: seq<Node>, result: map<Name, (nat, nat)>)
    requires forall k :: 0 <= k < |nodes| ==> Placed(depth, beyond, nodes, k, result)
    ensures forall n :: n in nodes ==> n.name in result
    ensures Apart(nodes, result)
  {
    forall n | n in nodes ensures n.name in result {
      var k :| 0 <= k < |nodes| && nodes[k] == n;
      assert Placed(depth, beyond, nodes, k, result);
    }
    forall i, j | 0 <= i < j < |nodes| ensures result[nodes[i].name] != result[nodes[j].name] {
      assert Placed(depth, beyond, nodes, i, result) && Placed(depth, beyond, nodes, j, result);
      InColumnGrows(depth, beyond, nodes, i, j);
    }
  }
}
