/** What any chain of walks, parks and resumes leaves in its trace. */
module WalkTraces {
  import opened Options
  import opened Manifests
  import opened Walker
  import opened ParkedRuns
  import opened GraphChecks

  function NamesOf(trace: seq<Trace>): seq<Name> {
    seq(|trace|, i requires 0 <= i < |trace| => trace[i].node)
  }

  /** The trace followed by where the walk stands. */
  ghost predicate Leads(g: Graph, start: Name, trace: seq<Trace>, current: Name) {
    PathFromTo(g, NamesOf(trace) + [current], start, current)
  }

  /** A result's own account of where it has been: the visited nodes, and the one it waits at. */
  function Visits(r: DagResult): seq<Name> {
    NamesOf(r.trace) + match r.end
      case WaitsAt(n) => [n]
      case ParkedAt(n, _) => [n]
      case _ => []
  }

  ghost predicate FollowsArrows(g: Graph, start: Name, r: DagResult) {
    IsPath(g, Visits(r)) && Visits(r)[0] == start
  }

  lemma {:induction false} LeadsOn(g: Graph, start: Name, trace: seq<Trace>, t: Trace, next: Name)
    requires Leads(g, start, trace, t.node) && Edge(g, t.node, next) && next in g
    ensures Leads(g, start, trace + [t], next)
  {
    var p := NamesOf(trace) + [t.node];
    assert NamesOf(trace + [t]) == p;
    forall i | 0 <= i < |p + [next]| - 1 ensures Edge(g, (p + [next])[i], (p + [next])[i + 1]) {
      if i < |p| - 1 { assert Edge(g, p[i], p[i + 1]); }
    }
  }

  lemma {:induction false} TraceOfWalk(env: Env, approve: Approve, index: Index, start: Name, current: Name, v: Value,
                                       trace: seq<Trace>, artifacts: seq<Artifact>)
    requires Walkable(index) && current in index && Leads(ArrowsOf(index), start, trace, current)
    ensures FollowsArrows(ArrowsOf(index), start, Walk(env, approve, index, current, v, trace, artifacts))
    decreases ReachSet(ArrowsOf(index), current)
  {
    hide ReachSet, Acyclic, Closed, Successors;
    var g, n := ArrowsOf(index), index[current];
    var out := Visit(env, approve, n, v);
    NameIs(index, current);
    if out.Goes? {
      assert NamesOf(trace + [OkTrace(n, out)]) == NamesOf(trace) + [current];
      if NextName(n, out).Some? {
        var next := NextName(n, out).value;
        NextShrinks(index, n, out, env, approve, v);
        LeadsOn(g, start, trace, OkTrace(n, out), next);
        TraceOfWalk(env, approve, index, start, next, out.value, trace + [OkTrace(n, out)], artifacts + out.emitted);
      }
    } else if out.Fails? {
      assert NamesOf(trace + [FailedTrace(n, out.why)]) == NamesOf(trace) + [current];
    }
  }

  /** A resumption goes on from where the pause stood. */
  lemma {:induction false} TraceOfResume(env: Env, approve: Approve, index: Index, back: Value -> Value, start: Name,
                                         r: DagResult, d: Decision)
    requires Walkable(index) && FollowsArrows(ArrowsOf(index), start, r)
    requires r.end.ParkedAt? ==> r.end.node in index && index[r.end.node].kind.Call? && !d.Answered?
    requires r.end.WaitsAt? ==> r.end.node in index && d.Answered?
    ensures FollowsArrows(ArrowsOf(index), start, Resume(env, approve, index, back, r, d))
  {
    hide ReachSet, Acyclic, Closed, Successors;
    var g := ArrowsOf(index);
    if r.end.ParkedAt? {
      var n, v := index[r.end.node], back(r.end.value);
      NameIs(index, r.end.node);
      assert Leads(g, start, r.trace, n.name);
      var out := FinishCall(env, n, v);
      if d.Declined? {
        assert NamesOf(r.trace + [FailedTrace(n, "declined")]) == NamesOf(r.trace) + [n.name];
      } else if !out.Goes? {
        assert NamesOf(r.trace + [FailedTrace(n, out.why)]) == NamesOf(r.trace) + [n.name];
      } else {
        assert NamesOf(r.trace + [OkTrace(n, out)]) == NamesOf(r.trace) + [n.name];
        if NextName(n, out).Some? {
          var next := NextName(n, out).value;
          NextShrinks(index, n, out, env, approve, v);
          LeadsOn(g, start, r.trace, OkTrace(n, out), next);
          TraceOfWalk(env, approve, index, start, next, out.value, r.trace + [OkTrace(n, out)], r.artifacts + out.emitted);
        }
      }
    } else if r.end.WaitsAt? {
      var n := index[r.end.node];
      NameIs(index, r.end.node);
      assert Leads(g, start, r.trace, n.name);
      var entry := Trace(n.name, n.kind, true, None, Some("resumed"));
      assert NamesOf(r.trace + [entry]) == NamesOf(r.trace) + [n.name];
      if n.next.Some? {
        ClosedNext(index, n);
        LeadsOn(g, start, r.trace, entry, n.next.value);
        TraceOfWalk(env, approve, index, start, n.next.value, d.payload, r.trace + [entry], r.artifacts);
      }
    }
  }

  // One resumption of a chain: what the world was like then, and what was decided.
  datatype Resumption = Resumption(env: Env, approve: Approve, back: Value -> Value, decision: Decision)

  ghost predicate Fits(index: Index, r: DagResult, d: Decision) {
    && (r.end.ParkedAt? ==> r.end.node in index && index[r.end.node].kind.Call? && !d.Answered?)
    && (r.end.WaitsAt? ==> r.end.node in index && d.Answered?)
  }

  /** `last` comes out of `r` by some chain of resumptions, each fitting what was paused. */
  ghost predicate Chain(index: Index, r: DagResult, steps: seq<Resumption>, last: DagResult)
    requires Walkable(index)
    decreases |steps|
  {
    if steps == [] then last == r
    else
      && Fits(index, r, steps[0].decision)
      && Chain(index, Resume(steps[0].env, steps[0].approve, index, steps[0].back, r, steps[0].decision), steps[1..], last)
  }

  lemma {:induction false} ChainFollowsArrows(index: Index, start: Name, r: DagResult, steps: seq<Resumption>, last: DagResult)
    requires Walkable(index) && FollowsArrows(ArrowsOf(index), start, r) && Chain(index, r, steps, last)
    ensures FollowsArrows(ArrowsOf(index), start, last)
    decreases |steps|
  {
    hide FollowsArrows, Walkable, ReachSet;
    if steps == [] {
    } else {
      var s := steps[0];
      TraceOfResume(s.env, s.approve, index, s.back, start, r, s.decision);
      ChainFollowsArrows(index, start, Resume(s.env, s.approve, index, s.back, r, s.decision), steps[1..], last);
    }
  }

  lemma {:induction false} RepeatCloses(g: Graph, p: seq<Name>, i: nat, j: nat)
    requires IsPath(g, p) && i < j < |p| && p[i] == p[j]
    ensures OnCycle(g, p[i])
  {
    var q := p[i..j + 1];
    forall k | 0 <= k < |q| - 1 ensures Edge(g, q[k], q[k + 1]) {
      assert q[k] == p[i + k] && q[k + 1] == p[(i + k) + 1];
    }
    assert PathFromTo(g, q, p[i], p[i]);
  }

  lemma {:induction false} PathsAreSimple(g: Graph, p: seq<Name>)
    requires Acyclic(g) && IsPath(g, p)
    ensures forall i, j :: 0 <= i < j < |p| ==> p[i] != p[j]
    ensures |p| <= |g|
  {
    forall i, j | 0 <= i < j < |p| ensures p[i] != p[j] {
      if p[i] == p[j] {
        RepeatCloses(g, p, i, j);
      }
    }
    DistinctFit(p, g.Keys);
    assert |g.Keys| == |g|;
  }

  lemma {:induction false} DistinctFit(p: seq<Name>, names: set<Name>)
    requires forall i, j :: 0 <= i < j < |p| ==> p[i] != p[j]
    requires forall i :: 0 <= i < |p| ==> p[i] in names
    ensures |p| <= |names|
    decreases |p|
  {
    if p == [] {
    } else {
      var last := |p| - 1;
      forall i | 0 <= i < last ensures p[..last][i] in names - {p[last]} {
        assert p[..last][i] == p[i];
      }
      DistinctFit(p[..last], names - {p[last]});
    }
  }

  /** However a run is paused and resumed - any environments, any decisions, any answers - its trace
      is a path of declared arrows from the entry, names no node twice, and is no longer than the
      number of declared nodes. */
  lemma {:induction false} ChainsAreBounded(env: Env, approve: Approve, index: Index, start: Name, arguments: Value,
                                            steps: seq<Resumption>, last: DagResult)
    requires Walkable(index) && start in index
    requires Chain(index, Walk(env, approve, index, start, arguments, [], []), steps, last)
    ensures FollowsArrows(ArrowsOf(index), start, last)
    ensures forall i, j :: 0 <= i < j < |Visits(last)| ==> Visits(last)[i] != Visits(last)[j]
    ensures |last.trace| <= |Visits(last)| <= |index|
  {
    var g := ArrowsOf(index);
    assert NamesOf([]) + [start] == [start];
    assert Leads(g, start, [], start);
    TraceOfWalk(env, approve, index, start, start, arguments, [], []);
    ChainFollowsArrows(index, start, Walk(env, approve, index, start, arguments, [], []), steps, last);
    PathsAreSimple(g, Visits(last));
    assert g.Keys == index.Keys && |g| == |g.Keys| && |index| == |index.Keys|;
  }

  lemma {:induction false} IndexSize(nodes: seq<Node>)
    ensures |NodeIndex(nodes)| <= |nodes|
    decreases |nodes|
  {
    if nodes == [] {
    } else {
      var front, last := nodes[..|nodes| - 1], nodes[|nodes| - 1];
      IndexSize(front);
      assert NodeIndex(nodes).Keys == NodeIndex(front).Keys + {last.name};
      assert |NodeIndex(nodes).Keys| == |NodeIndex(nodes)| && |NodeIndex(front).Keys| == |NodeIndex(front)|;
    }
  }

  /** Validation is all the walk needs: over a manifest it accepted, every chain of runs and
      resumptions from any entry stays within one visit per declared node. */
  lemma {:induction false} ValidatedRunsAreBounded(m: Manifest, e: Entry, env: Env, approve: Approve, arguments: Value,
                                                   steps: seq<Resumption>, last: DagResult)
    requires Sane(m) && e in m.entries
    ensures Walkable(NodeIndex(m.nodes)) && e.start in NodeIndex(m.nodes)
    ensures Chain(NodeIndex(m.nodes), Walk(env, approve, NodeIndex(m.nodes), e.start, arguments, [], []), steps, last) ==>
              FollowsArrows(GraphOf(m), e.start, last) && |Visits(last)| <= |m.nodes|
  {
    hide Reached, Acyclic, Closed, FollowsArrows;
    var index := NodeIndex(m.nodes);
    IndexKeys(m.nodes);
    StartsAt(m.entries);
    var i :| 0 <= i < |m.entries| && m.entries[i] == e;
    assert Starts(m)[i] == e.start;
    if Chain(index, Walk(env, approve, index, e.start, arguments, [], []), steps, last) {
      ChainsAreBounded(env, approve, index, e.start, arguments, steps, last);
      IndexSize(m.nodes);
    }
  }
}
