/** The editor's edits of a drawn graph (plugins.py, `rename_node`, `remove_node`, `add_node`). */
module GraphEdits {
  import Decimal
  import opened Options
  import opened Sets
  import opened Manifests
  import opened GraphChecks

  // ----- renaming -------------------------------------------------------------------------------

  function Swap(x: Name, was: Name, now: Name): Name {
    if x == was then now else x
  }

  function SwapAll(xs: seq<Name>, was: Name, now: Name): seq<Name> {
    seq(|xs|, i requires 0 <= i < |xs| => Swap(xs[i], was, now))
  }

  function RenamedNode(n: Node, was: Name, now: Name): Node {
    n.(name := Swap(n.name, was, now),
       next := if n.next.None? then None else Some(Swap(n.next.value, was, now)),
       ports := SwapAll(n.ports, was, now))
  }

  function RenamedEntry(e: Entry, was: Name, now: Name): Entry {
    e.(start := Swap(e.start, was, now))
  }

  function RenamedNodes(nodes: seq<Node>, was: Name, now: Name): seq<Node> {
    seq(|nodes|, i requires 0 <= i < |nodes| => RenamedNode(nodes[i], was, now))
  }

  function RenamedEntries(entries: seq<Entry>, was: Name, now: Name): seq<Entry> {
    seq(|entries|, i requires 0 <= i < |entries| => RenamedEntry(entries[i], was, now))
  }

  function Renamed(m: Manifest, was: Name, now: Name): Manifest {
    m.(entries := RenamedEntries(m.entries, was, now), nodes := RenamedNodes(m.nodes, was, now))
  }

  function RenameNode(m: Manifest, was: Name, now: Name): Result<Manifest> {
    if now == "" then Err("a step needs a name")
    else if was !in NodeIndex(m.nodes) then Err("no such step")
    else if now != was && now in NodeIndex(m.nodes) then Err("already exists")
    else Ok(Renamed(m, was, now))
  }

  /** Somewhere in the manifest the name is written: as a node's own name, a target or a start. */
  predicate MentionedBy(n: Node, x: Name) {
    n.name == x || x in Successors(n)
  }

  ghost predicate Mentioned(m: Manifest, x: Name) {
    (exists n :: n in m.nodes && MentionedBy(n, x)) || (exists e :: e in m.entries && e.start == x)
  }

  lemma {:induction false} SwapBack(x: Name, was: Name, now: Name)
    requires was != now
    ensures Swap(Swap(x, was, now), now, was) == x <==> x != now
  {
  }

  lemma {:induction false} NodeBack(n: Node, was: Name, now: Name)
    requires was != now
    ensures RenamedNode(RenamedNode(n, was, now), now, was) == n <==> !MentionedBy(n, now)
  {
  }

  /** Renaming and renaming back restores the manifest exactly when the old name is one a step can be
      given and the new one, if it is another, was written nowhere in it: an arrow that already
      dangled at that name is captured by the first rename. */
  lemma {:induction false} RenameBackExact(m: Manifest, was: Name, now: Name)
    requires RenameNode(m, was, now).Ok?
    ensures RenameNode(Renamed(m, was, now), now, was) == Ok(m) <==> was != "" && (was == now || !Mentioned(m, now))
  {
    if was == now {
      RenamedToItself(m, was);
    } else {
      RenamedBack(m, was, now);
    }
  }

  lemma {:induction false} RenamedToItself(m: Manifest, x: Name)
    ensures Renamed(m, x, x) == m
  {
    forall n | n in m.nodes ensures RenamedNode(n, x, x) == n {
      assert SwapAll(n.ports, x, x) == n.ports;
    }
    assert RenamedNodes(m.nodes, x, x) == m.nodes && RenamedEntries(m.entries, x, x) == m.entries;
  }

  lemma {:induction false} RenamedBack(m: Manifest, was: Name, now: Name)
    requires RenameNode(m, was, now).Ok? && was != now
    ensures RenameNode(Renamed(m, was, now), now, was) == Ok(m) <==> was != "" && !Mentioned(m, now)
  {
    var there := Renamed(m, was, now);
    var back := Renamed(there, now, was);
    RenamedIndexKeys(m.nodes, was, now);
    forall i | 0 <= i < |m.nodes| ensures back.nodes[i] == m.nodes[i] <==> !MentionedBy(m.nodes[i], now) {
      NodeBack(m.nodes[i], was, now);
    }
    forall i | 0 <= i < |m.entries| ensures back.entries[i] == m.entries[i] <==> m.entries[i].start != now {
      SwapBack(m.entries[i].start, was, now);
    }
    if !Mentioned(m, now) {
      Restores(m, was, now);
    } else if n :| n in m.nodes && MentionedBy(n, now) {
      var i :| 0 <= i < |m.nodes| && m.nodes[i] == n;
      assert back.nodes[i] != m.nodes[i];
    } else {
      var e :| e in m.entries && e.start == now;
      var i :| 0 <= i < |m.entries| && m.entries[i] == e;
      assert back.entries[i] != m.entries[i];
    }
  }

  lemma {:induction false} RenamedIndexKeys(nodes: seq<Node>, was: Name, now: Name)
    requires was in NodeIndex(nodes) && was != now
    ensures var later := RenamedNodes(nodes, was, now);
            now in NodeIndex(later) && was !in NodeIndex(later)
  {
    var later := RenamedNodes(nodes, was, now);
    IndexKeys(nodes);
    IndexKeys(later);
    var n := NodeIndex(nodes)[was];
    var k :| 0 <= k < |nodes| && nodes[k] == n;
    assert later[k] in later && later[k].name == now;
    forall l | l in later ensures l.name != was {
      var j :| 0 <= j < |later| && later[j] == l;
    }
  }

  /** The index of a renamed manifest is the renamed index. */
  lemma {:induction false} RenamedIndex(nodes: seq<Node>, was: Name, now: Name, x: Name)
    requires x != now && forall n :: n in nodes ==> n.name != now
    ensures var later := RenamedNodes(nodes, was, now);
            && (x in NodeIndex(nodes) <==> Swap(x, was, now) in NodeIndex(later))
            && (x in NodeIndex(nodes) ==> NodeIndex(later)[Swap(x, was, now)] == RenamedNode(NodeIndex(nodes)[x], was, now))
    decreases |nodes|
  {
    var later := RenamedNodes(nodes, was, now);
    IndexKeys(nodes);
    if nodes == [] {
    } else {
      var front, last := nodes[..|nodes| - 1], nodes[|nodes| - 1];
      assert nodes == front + [last];
      RenamedIndex(front, was, now, x);
      assert later[..|later| - 1] == RenamedNodes(front, was, now);
      assert last in nodes;
    }
  }

  lemma {:induction false} SwappedSuccessors(n: Node, was: Name, now: Name, b: Name)
    requires b != now && now !in Successors(n)
    ensures Swap(b, was, now) in Successors(RenamedNode(n, was, now)) <==> b in Successors(n)
  {
    var r := RenamedNode(n, was, now);
    if b in Successors(n) {
      if b in n.ports {
        var i :| 0 <= i < |n.ports| && n.ports[i] == b;
        assert r.ports[i] == Swap(b, was, now);
      }
    }
    if Swap(b, was, now) in Successors(r) {
      if Swap(b, was, now) in r.ports {
        var i :| 0 <= i < |r.ports| && r.ports[i] == Swap(b, was, now);
        assert n.ports[i] in Successors(n);
      }
    }
  }

  /** A rename to a name written nowhere moves every arrow along with its ends, and adds none. */
  lemma {:induction false} RenameKeepsEdges(m: Manifest, was: Name, now: Name, a: Name, b: Name)
    requires was in NodeIndex(m.nodes) && was != now && !Mentioned(m, now) && a != now && b != now
    ensures Edge(GraphOf(Renamed(m, was, now)), Swap(a, was, now), Swap(b, was, now)) <==> Edge(GraphOf(m), a, b)
    ensures Swap(a, was, now) in GraphOf(Renamed(m, was, now)) <==> a in GraphOf(m)
  {
    IndexKeys(m.nodes);
    forall n | n in m.nodes ensures n.name != now && now !in Successors(n) {
      assert !MentionedBy(n, now);
    }
    RenamedIndex(m.nodes, was, now, a);
    if a in NodeIndex(m.nodes) {
      SwappedSuccessors(NodeIndex(m.nodes)[a], was, now, b);
    }
  }

  lemma {:induction false} PathAvoids(m: Manifest, p: seq<Name>, now: Name)
    requires IsPath(GraphOf(m), p) && !Mentioned(m, now)
    ensures forall i :: 0 <= i < |p| ==> p[i] != now
  {
    IndexKeys(m.nodes);
    forall i | 0 <= i < |p| ensures p[i] != now {
      assert NodeIndex(m.nodes)[p[i]] in m.nodes;
      assert !MentionedBy(NodeIndex(m.nodes)[p[i]], now);
    }
  }

  lemma {:induction false} RenamePath(m: Manifest, was: Name, now: Name, p: seq<Name>)
    requires was in NodeIndex(m.nodes) && was != now && !Mentioned(m, now) && IsPath(GraphOf(m), p)
    ensures IsPath(GraphOf(Renamed(m, was, now)), SwapAll(p, was, now))
  {
    var g, q := GraphOf(Renamed(m, was, now)), SwapAll(p, was, now);
    PathAvoids(m, p, now);
    forall i | 0 <= i < |q| ensures q[i] in g {
      RenameKeepsEdges(m, was, now, p[i], p[i]);
    }
    forall i | 0 <= i < |q| - 1 ensures Edge(g, q[i], q[i + 1]) {
      RenameKeepsEdges(m, was, now, p[i], p[i + 1]);
    }
  }

  /** The old name is written nowhere in the renamed manifest. */
  lemma {:induction false} OldNameGone(m: Manifest, was: Name, now: Name)
    requires was != now
    ensures !Mentioned(Renamed(m, was, now), was)
  {
  }

  lemma {:induction false} Restores(m: Manifest, was: Name, now: Name)
    requires was in NodeIndex(m.nodes) && was != now && !Mentioned(m, now)
    ensures Renamed(Renamed(m, was, now), now, was) == m
    ensures now in NodeIndex(Renamed(m, was, now).nodes)
  {
    var back := Renamed(Renamed(m, was, now), now, was);
    forall i | 0 <= i < |m.nodes| ensures back.nodes[i] == m.nodes[i] {
      NodeBack(m.nodes[i], was, now);
      assert m.nodes[i] in m.nodes;
    }
    forall i | 0 <= i < |m.entries| ensures back.entries[i] == m.entries[i] {
      SwapBack(m.entries[i].start, was, now);
      assert m.entries[i] in m.entries;
    }
    assert back.nodes == m.nodes && back.entries == m.entries;
    RenamedIndexKeys(m.nodes, was, now);
  }

  lemma {:induction false} RenameReachOneWay(m: Manifest, was: Name, now: Name, a: Name, b: Name)
    requires was in NodeIndex(m.nodes) && was != now && !Mentioned(m, now)
    ensures Reach(GraphOf(m), a, b) ==> Reach(GraphOf(Renamed(m, was, now)), Swap(a, was, now), Swap(b, was, now))
    ensures OnCycle(GraphOf(m), a) ==> OnCycle(GraphOf(Renamed(m, was, now)), Swap(a, was, now))
  {
    var g := GraphOf(Renamed(m, was, now));
    if p :| PathFromTo(GraphOf(m), p, a, b) {
      RenamePath(m, was, now, p);
      assert PathFromTo(g, SwapAll(p, was, now), Swap(a, was, now), Swap(b, was, now));
    }
    if p :| PathFromTo(GraphOf(m), p, a, a) && |p| >= 2 {
      RenamePath(m, was, now, p);
      assert PathFromTo(g, SwapAll(p, was, now), Swap(a, was, now), Swap(a, was, now));
    }
  }

  /** A rename to a name written nowhere keeps who can reach whom and who lies on a cycle. */
  lemma {:induction false} RenameKeepsReach(m: Manifest, was: Name, now: Name, a: Name, b: Name)
    requires was in NodeIndex(m.nodes) && was != now && !Mentioned(m, now) && a != now && b != now
    ensures Reach(GraphOf(Renamed(m, was, now)), Swap(a, was, now), Swap(b, was, now)) <==> Reach(GraphOf(m), a, b)
    ensures OnCycle(GraphOf(Renamed(m, was, now)), Swap(a, was, now)) <==> OnCycle(GraphOf(m), a)
  {
    RenameReachOneWay(m, was, now, a, b);
    Restores(m, was, now);
    OldNameGone(m, was, now);
    RenameReachOneWay(Renamed(m, was, now), now, was, Swap(a, was, now), Swap(b, was, now));
    SwapBack(a, was, now);
    SwapBack(b, was, now);
  }

  lemma {:induction false} RenamedDistinct(m: Manifest, was: Name, now: Name)
    requires !Mentioned(m, now) && DistinctNames(m.nodes)
    ensures DistinctNames(Renamed(m, was, now).nodes)
  {
    var later := Renamed(m, was, now).nodes;
    forall i, j | 0 <= i < j < |later| ensures later[i].name != later[j].name {
      assert m.nodes[i] in m.nodes && m.nodes[j] in m.nodes;
      assert !MentionedBy(m.nodes[i], now) && !MentionedBy(m.nodes[j], now);
    }
  }

  lemma {:induction false} RenamedClosed(m: Manifest, was: Name, now: Name)
    requires was in NodeIndex(m.nodes) && was != now && !Mentioned(m, now) && Closed(GraphOf(m))
    ensures Closed(GraphOf(Renamed(m, was, now)))
  {
    var h := GraphOf(Renamed(m, was, now));
    hide GraphOf, Mentioned, Renamed;
    forall a, b | Edge(h, a, b) ensures b in h {
      BackEdge(m, was, now, a, b);
      var y := Swap(b, now, was);
      RenameKeepsEdges(m, was, now, y, y);
    }
  }

  lemma {:induction false} RenamedStartsDeclared(m: Manifest, was: Name, now: Name)
    requires was in NodeIndex(m.nodes) && was != now && !Mentioned(m, now) && StartsDeclared(m)
    ensures StartsDeclared(Renamed(m, was, now))
  {
    var r := Renamed(m, was, now);
    RenamedStarts(m, was, now);
    StartsAt(m.entries);
    forall s | s in Starts(r) ensures s in GraphOf(r) {
      var i :| 0 <= i < |Starts(r)| && Starts(r)[i] == s;
      assert Starts(m)[i] in Starts(m) && m.entries[i] in m.entries;
      RenameKeepsEdges(m, was, now, Starts(m)[i], Starts(m)[i]);
    }
  }

  lemma {:induction false} RenamedReached(m: Manifest, was: Name, now: Name, x: Name)
    requires was in NodeIndex(m.nodes) && was != now && !Mentioned(m, now) && Reached(GraphOf(m), Starts(m), x)
    ensures Reached(GraphOf(Renamed(m, was, now)), Starts(Renamed(m, was, now)), Swap(x, was, now))
  {
    var r := Renamed(m, was, now);
    var s :| s in Starts(m) && Reach(GraphOf(m), s, x);
    RenamedStarts(m, was, now);
    var k :| 0 <= k < |Starts(m)| && Starts(m)[k] == s;
    assert Starts(r)[k] in Starts(r);
    RenameReachOneWay(m, was, now, s, x);
  }

  lemma {:induction false} RenamedAcyclic(m: Manifest, was: Name, now: Name)
    requires was in NodeIndex(m.nodes) && was != now && !Mentioned(m, now) && Acyclic(GraphOf(m))
    ensures Acyclic(GraphOf(Renamed(m, was, now)))
  {
    var r := Renamed(m, was, now);
    Restores(m, was, now);
    OldNameGone(m, was, now);
    hide OnCycle, GraphOf, Mentioned, Renamed;
    forall a ensures !OnCycle(GraphOf(r), a) {
      RenameReachOneWay(r, now, was, a, a);
    }
  }

  lemma {:induction false} RenameKeepsSaneOneWay(m: Manifest, was: Name, now: Name)
    requires was in NodeIndex(m.nodes) && was != now && !Mentioned(m, now) && Sane(m)
    ensures Sane(Renamed(m, was, now))
  {
    var r := Renamed(m, was, now);
    RenamedDistinct(m, was, now);
    RenamedClosed(m, was, now);
    RenamedStartsDeclared(m, was, now);
    RenamedAcyclic(m, was, now);
    hide Reached, Mentioned, GraphOf, Starts;
    forall n | n in r.nodes ensures Reached(GraphOf(r), Starts(r), n.name) {
      var i :| 0 <= i < |r.nodes| && r.nodes[i] == n;
      assert m.nodes[i] in m.nodes;
      RenamedReached(m, was, now, m.nodes[i].name);
    }
  }

  lemma {:induction false} EdgeEnds(m: Manifest, x: Name, a: Name, b: Name)
    requires Edge(GraphOf(m), a, b) && !Mentioned(m, x)
    ensures a != x && b != x
  {
    IndexKeys(m.nodes);
    var n := NodeIndex(m.nodes)[a];
    assert n in m.nodes && !MentionedBy(n, x);
  }

  lemma {:induction false} BackEdge(m: Manifest, was: Name, now: Name, a: Name, b: Name)
    requires was in NodeIndex(m.nodes) && was != now && !Mentioned(m, now) && Closed(GraphOf(m))
    requires Edge(GraphOf(Renamed(m, was, now)), a, b)
    ensures Swap(b, now, was) in GraphOf(m) && Swap(b, now, was) != now && Swap(Swap(b, now, was), was, now) == b
  {
    var r := Renamed(m, was, now);
    OldNameGone(m, was, now);
    Restores(m, was, now);
    EdgeEnds(r, was, a, b);
    RenameKeepsEdges(r, now, was, a, b);
    assert Edge(GraphOf(m), Swap(a, now, was), Swap(b, now, was));
  }

  lemma {:induction false} RenamedStarts(m: Manifest, was: Name, now: Name)
    ensures |Starts(Renamed(m, was, now))| == |Starts(m)|
    ensures forall i :: 0 <= i < |Starts(m)| ==> Starts(Renamed(m, was, now))[i] == Swap(Starts(m)[i], was, now)
  {
    StartsAt(m.entries);
    StartsAt(Renamed(m, was, now).entries);
  }

  /** Renaming a step of a valid graph to a name written nowhere leaves it valid, and of an invalid
      one leaves it invalid. */
  lemma {:induction false} RenameKeepsSane(m: Manifest, was: Name, now: Name)
    requires RenameNode(m, was, now).Ok? && was != now && !Mentioned(m, now)
    ensures Sane(RenameNode(m, was, now).value) <==> Sane(m)
  {
    if Sane(m) {
      RenameKeepsSaneOneWay(m, was, now);
    }
    if Sane(Renamed(m, was, now)) {
      Restores(m, was, now);
      OldNameGone(m, was, now);
      RenameKeepsSaneOneWay(Renamed(m, was, now), now, was);
    }
  }

  // ----- removing -------------------------------------------------------------------------------

  function Without(xs: seq<Name>, x: Name): seq<Name> {
    if xs == [] then []
    else (if xs[0] == x then [] else [xs[0]]) + Without(xs[1..], x)
  }

  function Unpointed(n: Node, x: Name): Node {
    n.(next := if n.next == Some(x) then None else n.next, ports := Without(n.ports, x))
  }

  function Kept(nodes: seq<Node>, x: Name): seq<Node> {
    if nodes == [] then []
    else Kept(nodes[..|nodes| - 1], x)
         + (if nodes[|nodes| - 1].name == x then [] else [Unpointed(nodes[|nodes| - 1], x)])
  }

  function RemoveNode(m: Manifest, x: Name): Result<Manifest> {
    if x !in NodeIndex(m.nodes) then Err("no such step")
    else
      var kept := Kept(m.nodes, x);
      var fallback := if kept == [] then "" else kept[0].name;
      Ok(m.(entries := seq(|m.entries|, i requires 0 <= i < |m.entries| =>
                             if m.entries[i].start == x then m.entries[i].(start := fallback) else m.entries[i]),
            nodes := kept))
  }

  lemma {:induction false} WithoutExact(xs: seq<Name>, x: Name)
    ensures forall y :: y in Without(xs, x) <==> y in xs && y != x
  {
    if xs == [] {
    } else {
      WithoutExact(xs[1..], x);
      assert xs == [xs[0]] + xs[1..];
    }
  }

  lemma {:induction false} KeptIndex(nodes: seq<Node>, x: Name)
    ensures forall y :: y in NodeIndex(Kept(nodes, x)) <==> y in NodeIndex(nodes) && y != x
    ensures forall y :: y in NodeIndex(nodes) && y != x ==> NodeIndex(Kept(nodes, x))[y] == Unpointed(NodeIndex(nodes)[y], x)
    decreases |nodes|
  {
    if nodes == [] {
    } else {
      var front, last := nodes[..|nodes| - 1], nodes[|nodes| - 1];
      KeptIndex(front, x);
      var kept := Kept(nodes, x);
      if last.name != x {
        assert kept == Kept(front, x) + [Unpointed(last, x)];
        assert kept[..|kept| - 1] == Kept(front, x);
      } else {
        assert kept == Kept(front, x);
      }
    }
  }

  /** Removing a step takes away exactly the arrows that touched it: every other arrow stays, and none
      is added. */
  lemma {:induction false} RemoveKeepsEdges(m: Manifest, x: Name)
    requires RemoveNode(m, x).Ok?
    ensures var g, h := GraphOf(m), GraphOf(RemoveNode(m, x).value);
            && (forall a, b :: Edge(h, a, b) <==> Edge(g, a, b) && a != x && b != x)
            && (forall a :: a in h <==> a in g && a != x)
  {
    var g, h := GraphOf(m), GraphOf(RemoveNode(m, x).value);
    KeptIndex(m.nodes, x);
    forall a, b ensures Edge(h, a, b) <==> Edge(g, a, b) && a != x && b != x {
      if a in h {
        WithoutExact(NodeIndex(m.nodes)[a].ports, x);
      }
    }
  }

  /** A removal keeps a graph closed and acyclic, and on a graph whose entries were declared it leaves
      every entry at a declared step, unless no step is left. */
  lemma {:induction false} RemoveKeepsShape(m: Manifest, x: Name)
    requires RemoveNode(m, x).Ok?
    ensures Closed(GraphOf(m)) ==> Closed(GraphOf(RemoveNode(m, x).value))
    ensures Acyclic(GraphOf(m)) ==> Acyclic(GraphOf(RemoveNode(m, x).value))
    ensures StartsDeclared(m) ==> StartsDeclared(RemoveNode(m, x).value) || RemoveNode(m, x).value.nodes == []
  {
    var r := RemoveNode(m, x).value;
    var g, h := GraphOf(m), GraphOf(r);
    RemoveKeepsEdges(m, x);
    forall a | OnCycle(h, a) ensures OnCycle(g, a) {
      var p :| PathFromTo(h, p, a, a) && |p| >= 2;
      assert PathFromTo(g, p, a, a);
    }
    if StartsDeclared(m) && r.nodes != [] {
      StartsAt(m.entries);
      StartsAt(r.entries);
      IndexKeys(r.nodes);
      forall s | s in Starts(r) ensures s in h {
        var i :| 0 <= i < |Starts(r)| && Starts(r)[i] == s;
        if m.entries[i].start == x {
          assert r.nodes[0] in r.nodes;
        } else {
          assert Starts(m)[i] in Starts(m);
        }
      }
    }
  }

  // ----- adding ---------------------------------------------------------------------------------

  function StepName(n: nat): Name {
    "step_" + Decimal.Show(n)
  }

  lemma {:induction false} StepNameInjective(i: nat, j: nat)
    requires StepName(i) == StepName(j)
    ensures i == j
  {
    assert StepName(i)[5..] == Decimal.Show(i) && StepName(j)[5..] == Decimal.Show(j);
    Decimal.ShowInjective(i, j);
  }

  /** One more step, under the lowest `step_N` nothing uses; a word that is no kind is refused. The
      search stops for want of taken names. */
  method AddNode(m: Manifest, kind: NodeKind) returns (outcome: Result<(Manifest, Name)>)
    ensures outcome.Err? <==> kind.Other?
    ensures outcome.Ok? ==> LowestFree(outcome.value.1, NodeIndex(m.nodes).Keys)
    ensures outcome.Ok? ==>
              var (added, name) := outcome.value;
              && added == m.(nodes := m.nodes + [Node(name, kind, None, None, None, [])])
              && (forall a, b :: Edge(GraphOf(added), a, b) <==> Edge(GraphOf(m), a, b))
              && GraphOf(added).Keys == GraphOf(m).Keys + {name}
  {
    if kind.Other? {
      return Err("not a kind");
    }
    var name := NextStepName(NodeIndex(m.nodes).Keys);
    var added := m.(nodes := m.nodes + [Node(name, kind, None, None, None, [])]);
    assert added.nodes[..|added.nodes| - 1] == m.nodes;
    outcome := Ok((added, name));
  }

  ghost predicate LowestFree(name: Name, taken: set<Name>) {
    exists n: nat :: n >= 1 && name == StepName(n) && name !in taken && forall k: nat :: 1 <= k < n ==> StepName(k) in taken
  }

  method NextStepName(taken: set<Name>) returns (name: Name)
    ensures LowestFree(name, taken)
  {
    var number: nat := 1;
    ghost var tried: set<Name> := {};
    while StepName(number) in taken
      invariant number >= 1
      invariant forall k: nat :: 1 <= k < number ==> StepName(k) in taken
      invariant forall t :: t in tried ==> exists k: nat :: 1 <= k < number && t == StepName(k)
      invariant tried <= taken && |tried| == number - 1
      decreases |taken| - |tried|
    {
      ghost var next := StepName(number);
      if next in tried {
        var k: nat :| 1 <= k < number && next == StepName(k);
        StepNameInjective(k, number);
      }
      SubsetSize(tried + {next}, taken);
      tried := tried + {next};
      number := number + 1;
    }
    name := StepName(number);
  }
}
