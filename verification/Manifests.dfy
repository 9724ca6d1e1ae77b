/** A plugin's declared graph (plugins.py): data, and the paths its arrows make. */
module Manifests {
  import opened Options

  type Name = string

  // `each` is declared but not runnable; any other word a hand-written file holds is `Other`.
  datatype NodeKind = Compute | Ask | Route | Stop | Call | Each | Wait | Other(word: string)

  datatype Node = Node(
    name: Name,
    kind: NodeKind,
    body: Option<string>,
    skill: Option<string>,
    next: Option<Name>,
    ports: seq<Name>)

  datatype Entry = Entry(tool: string, purpose: string, parameters: string, start: Name)

  datatype Setting = Setting(name: string, purpose: string, secret: bool)

  datatype Manifest = Manifest(
    name: string,
    version: string,
    description: string,
    entries: seq<Entry>,
    nodes: seq<Node>,
    settings: seq<Setting>)

  /** The nodes by name; of two nodes with one name the later one counts. */
  function NodeIndex(nodes: seq<Node>): map<Name, Node> {
    if nodes == [] then map[]
    else NodeIndex(nodes[..|nodes| - 1])[nodes[|nodes| - 1].name := nodes[|nodes| - 1]]
  }

  function Successors(n: Node): seq<Name> {
    (if n.next.Some? then [n.next.value] else []) + n.ports
  }

  ghost predicate DistinctNames(nodes: seq<Node>) {
    forall i, j :: 0 <= i < j < |nodes| ==> nodes[i].name != nodes[j].name
  }

  lemma {:induction false} IndexKeys(nodes: seq<Node>)
    ensures forall n :: n in nodes ==> n.name in NodeIndex(nodes)
    ensures forall x :: x in NodeIndex(nodes) ==> NodeIndex(nodes)[x] in nodes && NodeIndex(nodes)[x].name == x
    decreases |nodes|
  {
    if nodes == [] {
    } else {
      var front, last := nodes[..|nodes| - 1], nodes[|nodes| - 1];
      assert nodes == front + [last];
      IndexKeys(front);
    }
  }

  lemma {:induction false} IndexExact(nodes: seq<Node>)
    requires DistinctNames(nodes)
    ensures forall n :: n in nodes ==> n.name in NodeIndex(nodes) && NodeIndex(nodes)[n.name] == n
    decreases |nodes|
  {
    IndexKeys(nodes);
    if nodes == [] {
    } else {
      var front, last := nodes[..|nodes| - 1], nodes[|nodes| - 1];
      assert nodes == front + [last];
      IndexExact(front);
      forall n | n in front ensures n.name != last.name {
        var i :| 0 <= i < |front| && front[i] == n;
        assert nodes[i] == n;
      }
    }
  }

  // ----- arrows and paths ---------------------------------------------------------------------

  /** A graph as its arrows: each declared name and where it points. */
  type Graph = map<Name, seq<Name>>

  function ArrowsOf(index: map<Name, Node>): Graph {
    map x | x in index :: Successors(index[x])
  }

  function GraphOf(m: Manifest): Graph {
    ArrowsOf(NodeIndex(m.nodes))
  }

  predicate Edge(g: Graph, a: Name, b: Name) {
    a in g && b in g[a]
  }

  /** No arrow leaves the declared names. */
  ghost predicate Closed(g: Graph) {
    forall a, b :: Edge(g, a, b) ==> b in g
  }

  /** A walk along arrows through declared names. */
  ghost predicate IsPath(g: Graph, p: seq<Name>) {
    && p != [] && (forall i :: 0 <= i < |p| ==> p[i] in g)
    && (forall i :: 0 <= i < |p| - 1 ==> Edge(g, p[i], p[i + 1]))
  }

  ghost predicate PathFromTo(g: Graph, p: seq<Name>, a: Name, b: Name) {
    IsPath(g, p) && p[0] == a && p[|p| - 1] == b
  }

  ghost predicate Reach(g: Graph, a: Name, b: Name) {
    exists p :: PathFromTo(g, p, a, b)
  }

  ghost predicate OnCycle(g: Graph, a: Name) {
    exists p :: PathFromTo(g, p, a, a) && |p| >= 2
  }

  ghost predicate Acyclic(g: Graph) {
    forall a :: !OnCycle(g, a)
  }

  lemma {:induction false} ReachSelf(g: Graph, a: Name)
    requires a in g
    ensures Reach(g, a, a)
  {
    assert PathFromTo(g, [a], a, a);
  }

  lemma {:induction false} ReachStep(g: Graph, a: Name, b: Name, c: Name)
    requires Reach(g, a, b) && Edge(g, b, c) && c in g
    ensures Reach(g, a, c)
  {
    var p :| PathFromTo(g, p, a, b);
    assert PathFromTo(g, p + [c], a, c);
  }

  lemma {:induction false} StepReach(g: Graph, a: Name, b: Name, c: Name)
    requires Edge(g, a, b) && Reach(g, b, c)
    ensures Reach(g, a, c)
  {
    var p :| PathFromTo(g, p, b, c);
    assert PathFromTo(g, [a] + p, a, c);
  }

  /** An arrow back to where a path began closes a cycle. */
  lemma {:induction false} BackEdgeCloses(g: Graph, a: Name, b: Name)
    requires Reach(g, a, b) && Edge(g, b, a)
    ensures OnCycle(g, a)
  {
    var p :| PathFromTo(g, p, a, b);
    assert PathFromTo(g, p + [a], a, a);
  }

  lemma {:induction false} OnCycleDeclared(g: Graph, a: Name)
    requires OnCycle(g, a)
    ensures a in g
  {
  }

  // ----- what an arrow leaves to reach ---------------------------------------------------------

  ghost function ReachSet(g: Graph, a: Name): set<Name> {
    set b | b in g && Reach(g, a, b)
  }

  /** In an acyclic graph every step leaves strictly less to reach. */
  lemma {:induction false} StepShrinksReach(g: Graph, a: Name, b: Name)
    requires Acyclic(g) && Edge(g, a, b) && b in g
    ensures ReachSet(g, b) < ReachSet(g, a)
    ensures b in ReachSet(g, b) && a !in ReachSet(g, b)
  {
    forall c | c in ReachSet(g, b) ensures c in ReachSet(g, a) {
      StepReach(g, a, b, c);
    }
    ReachSelf(g, a);
    ReachSelf(g, b);
    if Reach(g, b, a) {
      BackEdgeCloses(g, b, a);
    }
    assert a in ReachSet(g, a) && a !in ReachSet(g, b);
  }

  /** A chain in which every name points only at earlier ones has no cycle. */
  ghost predicate Ordered(g: Graph, order: seq<Name>) {
    && (forall i :: 0 <= i < |order| ==> order[i] in g)
    && (forall i, j :: 0 <= i < j < |order| ==> order[i] != order[j])
    && (forall i, b :: 0 <= i < |order| && Edge(g, order[i], b) ==> b in order[..i])
  }

  lemma {:induction false} OrderedSnoc(g: Graph, order: seq<Name>, a: Name)
    requires Ordered(g, order) && a in g && a !in order
    requires forall b :: Edge(g, a, b) ==> b in order
    ensures Ordered(g, order + [a])
  {
    var longer := order + [a];
    forall i, b | 0 <= i < |longer| && Edge(g, longer[i], b) ensures b in longer[..i] {
      if i < |order| {
        assert longer[..i] == order[..i];
      } else {
        assert longer[..i] == order;
      }
    }
  }

  lemma {:induction false} OrderedDescends(g: Graph, order: seq<Name>, p: seq<Name>, i: nat, k: nat)
    requires Ordered(g, order) && IsPath(g, p) && i < |order| && p[0] == order[i] && k < |p|
    ensures exists j :: 0 <= j <= i && (k > 0 ==> j < i) && p[k] == order[j]
    decreases k
  {
    if k == 0 {
    } else {
      OrderedDescends(g, order, p, i, k - 1);
      var j :| 0 <= j <= i && (k - 1 > 0 ==> j < i) && p[k - 1] == order[j];
      assert Edge(g, p[k - 1], p[k - 1 + 1]);
      assert p[k] in order[..j];
      var l :| 0 <= l < j && order[..j][l] == p[k];
      assert order[l] == p[k];
    }
  }

  lemma {:induction false} OrderedReach(g: Graph, order: seq<Name>, a: Name, b: Name)
    requires Ordered(g, order) && a in order && Reach(g, a, b)
    ensures b in order && !OnCycle(g, b)
  {
    var p :| PathFromTo(g, p, a, b);
    var i :| 0 <= i < |order| && order[i] == a;
    OrderedDescends(g, order, p, i, |p| - 1);
    var j :| 0 <= j <= i && b == order[j];
    if q :| PathFromTo(g, q, b, b) && |q| >= 2 {
      OrderedDescends(g, order, q, j, |q| - 1);
    }
  }
}
