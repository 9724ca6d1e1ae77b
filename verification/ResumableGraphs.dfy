/**
  Which plugins a parked run can be trusted with: when a run that parks at its calls and is finished
  by `resume_paused_run` (plugin_dispatch.py), which has no model behind `ask`, ends as it would have
  live - told from the drawn graph alone, before anything runs.
 */
module ResumableGraphs {
  import opened Options
  import opened Manifests
  import opened Walker
  import opened ParkedRuns
  import opened WalkTraces

  /** A node of this kind and with these fields can succeed and go on to `next`. */
  predicate Takes(n: Node, next: Name) {
    match n.kind
    case Route => n.body.Some? && next in n.ports
    case Compute => n.body.Some? && n.next == Some(next)
    case Call => n.body.Some? && n.next == Some(next)
    case Ask => n.skill.Some? && n.next == Some(next)
    case Stop => n.next == Some(next)
    case _ => false
  }

  /** A node that hands on the value it was given. */
  predicate HandsOn(n: Node) {
    n.kind.Route? || n.kind.Stop?
  }

  /** Two routes are asked the same of the same body: nothing between them touched the value. */
  ghost predicate SameQuestion(index: Index, p: seq<Name>, j: nat, k: nat)
    requires j < k < |p| && forall i :: 0 <= i < |p| ==> p[i] in index
  {
    && index[p[j]].kind.Route? && index[p[k]].kind.Route? && index[p[j]].body == index[p[k]].body
    && forall i :: j < i < k ==> HandsOn(index[p[i]])
  }

  /** A way through the graph that some bodies and some model could take: every step is one its node
      can take, and no route would have to answer the same question twice in two ways. */
  ghost predicate Passable(index: Index, p: seq<Name>) {
    && p != [] && (forall i :: 0 <= i < |p| ==> p[i] in index)
    && (forall i :: 0 <= i < |p| - 1 ==> Takes(index[p[i]], p[i + 1]))
    && (forall j, k :: 0 <= j < k < |p| - 1 ==> !SameQuestion(index, p, j, k))
  }

  /** A way from `start` through a call to a model that can be asked. */
  ghost predicate AsksAfterCall(index: Index, start: Name, p: seq<Name>) {
    && Passable(index, p) && p[0] == start
    && index[p[|p| - 1]].kind.Ask? && index[p[|p| - 1]].skill.Some?
    && exists i :: 0 <= i < |p| - 1 && index[p[i]].kind.Call?
  }

  // ----- a walk takes passable ways ----------------------------------------------------------------

  /** Step k of a trace, made on value `v`, went on to `next` with value `w`. */
  ghost predicate StepTaken(env: Env, index: Index, t: Trace, v: Value, next: Name, w: Value)
    requires t.node in index
  {
    var n := index[t.node];
    && Takes(n, next) && (HandsOn(n) ==> w == v)
    && (n.kind.Route? ==> n.body.Some? && env.body(n.body.value, v) == Returned(Text(next)))
  }

  /** The trace is of the graph's own nodes, `vs` are the values they were given, and each step but
      the last was taken. */
  ghost predicate Recorded(env: Env, index: Index, t: seq<Trace>, vs: seq<Value>) {
    && |vs| == |t|
    && (forall k :: 0 <= k < |t| ==> t[k].node in index && t[k].kind == index[t[k].node].kind)
    && (forall k :: 0 <= k < |t| - 1 ==> StepTaken(env, index, t[k], vs[k], t[k + 1].node, vs[k + 1]))
  }

  ghost predicate StandsAt(env: Env, index: Index, t: seq<Trace>, vs: seq<Value>, current: Name, v: Value) {
    Recorded(env, index, t, vs) && (t != [] ==> StepTaken(env, index, t[|t| - 1], vs[|t| - 1], current, v))
  }

  lemma {:induction false} VisitTakes(env: Env, approve: Approve, index: Index, n: Node, v: Value)
    requires n.name in index && index[n.name] == n && Visit(env, approve, n, v).Goes?
    ensures var out := Visit(env, approve, n, v);
            NextName(n, out).Some? ==> StepTaken(env, index, OkTrace(n, out), v, NextName(n, out).value, out.value)
  {
  }

  lemma {:induction false} RecordedSnoc(env: Env, index: Index, t: seq<Trace>, vs: seq<Value>, e: Trace, v: Value)
    requires StandsAt(env, index, t, vs, e.node, v) && e.node in index && e.kind == index[e.node].kind
    ensures Recorded(env, index, t + [e], vs + [v])
  {
    hide StepTaken;
  }

  lemma {:induction false} WalkRecorded(env: Env, approve: Approve, index: Index, current: Name, v: Value,
                                        trace: seq<Trace>, artifacts: seq<Artifact>, vs: seq<Value>)
    returns (values: seq<Value>)
    requires Walkable(index) && current in index && StandsAt(env, index, trace, vs, current, v)
    ensures var r := Walk(env, approve, index, current, v, trace, artifacts);
            && Recorded(env, index, r.trace, values) && trace <= r.trace
            && (|r.trace| > |trace| ==> r.trace[|trace|].node == current)
    decreases ReachSet(ArrowsOf(index), current)
  {
    hide ReachSet, Acyclic, Closed, Visit, Recorded, StepTaken;
    var n := index[current];
    var out := Visit(env, approve, n, v);
    NameIs(index, current);
    values := vs;
    if out.Goes? {
      VisitTakes(env, approve, index, n, v);
      RecordedSnoc(env, index, trace, vs, OkTrace(n, out), v);
      var longer := trace + [OkTrace(n, out)];
      values := vs + [v];
      if NextName(n, out).Some? {
        var next := NextName(n, out).value;
        NextShrinks(index, n, out, env, approve, v);
        LengthOf(env, index, trace, vs);
        values := WalkRecorded(env, approve, index, next, out.value, longer, artifacts + out.emitted, vs + [v]);
        assert Walk(env, approve, index, next, out.value, longer, artifacts + out.emitted).trace[|trace|] == OkTrace(n, out);
      }
    } else if out.Fails? {
      RecordedSnoc(env, index, trace, vs, FailedTrace(n, out.why), v);
      values := vs + [v];
    }
  }

  lemma {:induction false} LengthOf(env: Env, index: Index, t: seq<Trace>, vs: seq<Value>)
    requires Recorded(env, index, t, vs)
    ensures |vs| == |t|
  {
  }

  /** Between two routes asked the same, the value is the same. */
  lemma {:induction false} ValueHandedOn(env: Env, index: Index, t: seq<Trace>, vs: seq<Value>, j: nat, k: nat)
    requires Recorded(env, index, t, vs) && j <= k < |t|
    requires forall i :: j <= i < k ==> HandsOn(index[t[i].node])
    ensures vs[k] == vs[j]
    decreases k
  {
    if k == j {
    } else {
      ValueHandedOn(env, index, t, vs, j, k - 1);
      assert StepTaken(env, index, t[k - 1], vs[k - 1], t[k - 1 + 1].node, vs[k - 1 + 1]);
    }
  }

  /** Asked the same, two routes of a recorded walk answer the same. */
  lemma {:induction false} SameAnswer(env: Env, index: Index, t: seq<Trace>, vs: seq<Value>, p: seq<Name>, j: nat, k: nat)
    requires Recorded(env, index, t, vs) && p <= NamesOf(t) && j < k < |p| - 1 && SameQuestion(index, p, j, k)
    ensures p[j + 1] == p[k + 1]
  {
    assert forall i :: 0 <= i < |p| ==> p[i] == t[i].node;
    ValueHandedOn(env, index, t, vs, j, k);
    assert StepTaken(env, index, t[j], vs[j], t[j + 1].node, vs[j + 1]);
    assert StepTaken(env, index, t[k], vs[k], t[k + 1].node, vs[k + 1]);
  }

  /** What a walk recorded is a passable way. */
  lemma {:induction false} RecordedPassable(env: Env, index: Index, t: seq<Trace>, vs: seq<Value>, n: nat)
    requires Walkable(index) && Recorded(env, index, t, vs) && 0 < n <= |t|
    ensures Passable(index, NamesOf(t)[..n])
  {
    hide Walkable;
    var p := NamesOf(t)[..n];
    forall i | 0 <= i < |p| - 1 ensures Takes(index[p[i]], p[i + 1]) {
      assert StepTaken(env, index, t[i], vs[i], t[i + 1].node, vs[i + 1]);
    }
    hide Takes;
    TakesIsPath(index, p);
    PathsDoNotRepeat(index, p);
    forall j, k | 0 <= j < k < |p| - 1 ensures !SameQuestion(index, p, j, k) {
      if SameQuestion(index, p, j, k) {
        SameAnswer(env, index, t, vs, p, j, k);
      }
    }
  }

  /** A model from which something came back after a call was reached by such a way. */
  lemma {:induction false} RecordedAsk(env: Env, index: Index, start: Name, t: seq<Trace>, vs: seq<Value>)
    requires Walkable(index) && Recorded(env, index, t, vs) && (t != [] ==> t[0].node == start) && AskAfterCall(index, t, 0)
    ensures exists p :: AsksAfterCall(index, start, p)
  {
    var i, j :| 0 <= i < j < |t| && t[i].kind.Call? && CameBack(index, t[j]);
    var p := NamesOf(t)[..j + 1];
    RecordedPassable(env, index, t, vs, j + 1);
    hide Passable, StepTaken, Walkable;
    assert p[i] == t[i].node && p[j] == t[j].node && p[0] == t[0].node;
    assert index[p[i]].kind.Call?;
    assert AsksAfterCall(index, start, p);
  }

  /** Parked and resumed, every run of a graph without such a way ends as it would have live: whatever
      the bodies, the model, the decisions and the arguments are. */
  lemma {:induction false} ResumedRunSafe(env: Env, index: Index, back: Value -> Value, decide: (Name, Value) -> bool,
                                          start: Name, v: Value)
    requires Walkable(index) && start in index && Restorable(env, AsLive(decide), index, back, start, v)
    requires forall p :: !AsksAfterCall(index, start, p)
    ensures var parked := Walk(env, Parking, index, start, v, [], []);
            ParksAtCall(index, parked)
            && FinishParked(NoAsk(env), index, back, decide, parked) == Walk(env, AsLive(decide), index, start, v, [], [])
  {
    hide ReachSet, Acyclic, Closed, Walk, FinishParked, Visit, Restorable, AsksAfterCall, AskAfterCall;
    ResumedRunExact(env, index, back, decide, start, v, [], []);
    assert StandsAt(env, index, [], [], start, v);
    hide Recorded;
    var vs := WalkRecorded(env, AsLive(decide), index, start, v, [], [], []);
    var t := Walk(env, AsLive(decide), index, start, v, [], []).trace;
    if AskAfterCall(index, t, 0) {
      RecordedAsk(env, index, start, t, vs);
    }
  }

  // ----- and every such way can be taken -----------------------------------------------------------

  lemma {:induction false} TakesIsPath(index: Index, p: seq<Name>)
    requires p != [] && (forall i :: 0 <= i < |p| ==> p[i] in index)
    requires forall i :: 0 <= i < |p| - 1 ==> Takes(index[p[i]], p[i + 1])
    ensures IsPath(ArrowsOf(index), p)
  {
    forall i | 0 <= i < |p| - 1 ensures Edge(ArrowsOf(index), p[i], p[i + 1]) {
      assert Takes(index[p[i]], p[i + 1]);
      assert p[i + 1] in Successors(index[p[i]]);
    }
  }

  lemma {:induction false} PathsDoNotRepeat(index: Index, p: seq<Name>)
    requires Walkable(index) && IsPath(ArrowsOf(index), p)
    ensures forall j, k :: 0 <= j < k < |p| ==> p[j] != p[k]
  {
    hide Acyclic, IsPath;
    PathsAreSimple(ArrowsOf(index), p);
  }

  /** A way with what was found out about it: its names are declared and differ. */
  ghost predicate Simple(index: Index, p: seq<Name>) {
    (forall i :: 0 <= i < |p| ==> p[i] in index) && (forall j, k :: 0 <= j < k < |p| ==> p[j] != p[k])
  }

  /** The first position from `i` on whose node makes a value of its own. */
  function MakerFrom(index: Index, p: seq<Name>, i: nat): (m: nat)
    ensures i <= m && (i <= |p| ==> m <= |p|)
    decreases |p| - i
  {
    if i < |p| && p[i] in index && HandsOn(index[p[i]]) then MakerFrom(index, p, i + 1) else i
  }

  function PositionOf(p: seq<Name>, x: Name): (i: nat)
    ensures i <= |p|
  {
    if p == [] || p[0] == x then 0 else 1 + PositionOf(p[1..], x)
  }

  /** Values mark where on the way they were made: a number is the position they are first given to, a
      text names a step whose next maker made them. */
  function MadeFor(index: Index, p: seq<Name>, v: Value): nat {
    match v
    case Number(n) => if n < 0 then 0 else n
    case Text(x) => MakerFrom(index, p, PositionOf(p, x)) + 1
    case _ => 0
  }

  /** What a body says to a value first given to position `i`: the next step, if it is a route of that
      stretch, and otherwise where the value it makes is first given to. */
  function Guidance(index: Index, p: seq<Name>, body: string, i: nat): Value
    decreases |p| - i
  {
    if i + 1 >= |p| || p[i] !in index then Number(0)
    else
      var n := index[p[i]];
      if n.body == Some(body) && n.kind.Route? then Text(p[i + 1])
      else if HandsOn(n) then Guidance(index, p, body, i + 1)
      else Number(i + 1)
  }

  /** Bodies that lead along `p`, and a model that always answers. */
  function Guide(index: Index, p: seq<Name>): Env {
    Env((body: string, v: Value) => Returned(Guidance(index, p, body, MadeFor(index, p, v))),
        (skill: string, text: string) => Answers(text),
        (v: Value) =>
          var m := MakerFrom(index, p, MadeFor(index, p, v));
          if m < |p| then p[m] else "",
        (ref: string) => true)
  }

  function Same(v: Value): Value {
    v
  }

  function Always(n: Name, v: Value): bool {
    true
  }

  /** On position `i` with a value that was made for it or for a stretch before it that only hands on. */
  ghost predicate OnTheWay(index: Index, p: seq<Name>, i: nat, v: Value)
    requires forall k :: 0 <= k < |p| ==> p[k] in index
  {
    MadeFor(index, p, v) <= i < |p| && forall k :: MadeFor(index, p, v) <= k < i ==> HandsOn(index[p[k]])
  }

  lemma {:induction false} PositionIs(p: seq<Name>, i: nat)
    requires i < |p| && forall j, k :: 0 <= j < k < |p| ==> p[j] != p[k]
    ensures PositionOf(p, p[i]) == i
    decreases i
  {
    if i == 0 {
    } else {
      PositionIs(p[1..], i - 1);
    }
  }

  lemma {:induction false} MakerIs(index: Index, p: seq<Name>, i: nat, m: nat)
    requires i <= m < |p| && (forall k :: 0 <= k < |p| ==> p[k] in index)
    requires (forall k :: i <= k < m ==> HandsOn(index[p[k]])) && !HandsOn(index[p[m]])
    ensures MakerFrom(index, p, i) == m
    decreases m - i
  {
    if i == m {
    } else {
      MakerIs(index, p, i + 1, m);
    }
  }

  /** A route is led on by its own step: no earlier one of the stretch has its body. */
  lemma {:induction false} GuidanceForRoute(index: Index, p: seq<Name>, s: nat, i: nat, body: string)
    requires Passable(index, p) && s <= i < |p| - 1
    requires index[p[i]].kind.Route? && index[p[i]].body == Some(body)
    requires forall k :: s <= k < i ==> HandsOn(index[p[k]])
    ensures Guidance(index, p, body, s) == Text(p[i + 1])
    decreases i - s
  {
    if s == i {
    } else {
      assert !SameQuestion(index, p, s, i);
      hide Passable, SameQuestion;
      GuidanceForRoute(index, p, s + 1, i, body);
    }
  }

  /** A body that makes a value makes one that is first given to the next step. */
  lemma {:induction false} GuidanceForMaker(index: Index, p: seq<Name>, s: nat, i: nat, body: string)
    requires Simple(index, p) && s <= i < |p| - 1 && !HandsOn(index[p[i]])
    requires forall k :: s <= k < i ==> HandsOn(index[p[k]])
    ensures MadeFor(index, p, Guidance(index, p, body, s)) == i + 1
    ensures Guidance(index, p, body, s).Number? || Guidance(index, p, body, s).Text?
    decreases i - s
  {
    if s == i {
    } else if index[p[s]].body == Some(body) && index[p[s]].kind.Route? {
      PositionIs(p, s + 1);
      MakerIs(index, p, s + 1, i);
    } else {
      GuidanceForMaker(index, p, s + 1, i, body);
    }
  }

  /** The node was passed with success and, if it asks a model, with an answer. */
  predicate Passed(index: Index, x: Name, t: Trace)
    requires x in index
  {
    t.node == x && t.kind == index[x].kind && t.ok && (t.kind.Ask? ==> t.detail == None)
  }

  lemma {:induction false} VisitPassed(env: Env, index: Index, x: Name, v: Value)
    requires Walkable(index) && x in index && Visit(env, AsLive(Always), index[x], v).Goes?
    ensures Passed(index, x, OkTrace(index[x], Visit(env, AsLive(Always), index[x], v)))
  {
    NameIs(index, x);
    SameButAsk(env, AsLive(Always), index[x], v);
    hide Walkable, Visit;
  }

  /** The guided walk goes by the way it was given, one success after another. */
  lemma {:induction false} GuidedStep(index: Index, p: seq<Name>, i: nat, v: Value)
    requires Passable(index, p) && Simple(index, p) && i < |p| - 1 && OnTheWay(index, p, i, v)
    ensures var out := Visit(Guide(index, p), AsLive(Always), index[p[i]], v);
            && out.Goes? && NextName(index[p[i]], out) == Some(p[i + 1]) && out.emitted == []
            && OnTheWay(index, p, i + 1, out.value)
  {
    var n, s := index[p[i]], MadeFor(index, p, v);
    assert Takes(n, p[i + 1]);
    if n.kind.Route? {
      GuidanceForRoute(index, p, s, i, n.body.value);
      assert RunBody(Guide(index, p), n, v) == Returned(Text(p[i + 1]));
    } else if n.kind.Stop? {
      assert HandsOn(n);
    } else if n.kind.Ask? {
      GuideAsks(index, p, i, v);
    } else {
      GuidanceForMaker(index, p, s, i, n.body.value);
      GuideMakes(index, p, i, v);
    }
  }

  lemma {:induction false} GuideMakes(index: Index, p: seq<Name>, i: nat, v: Value)
    requires i < |p| && p[i] in index && (index[p[i]].kind.Compute? || index[p[i]].kind.Call?) && index[p[i]].body.Some?
    requires var made := Guidance(index, p, index[p[i]].body.value, MadeFor(index, p, v)); made.Number? || made.Text?
    ensures Visit(Guide(index, p), AsLive(Always), index[p[i]], v)
            == Goes(Guidance(index, p, index[p[i]].body.value, MadeFor(index, p, v)), None, None, [])
  {
    hide Guidance, MadeFor;
    var n := index[p[i]];
    assert RunBody(Guide(index, p), n, v) == Returned(Guidance(index, p, n.body.value, MadeFor(index, p, v)));
    if n.kind.Call? {
      ApprovedCall(Guide(index, p), Always, n, v);
    }
  }

  /** Where it is approved, a call runs its body. */
  lemma {:induction false} ApprovedCall(env: Env, decide: (Name, Value) -> bool, n: Node, v: Value)
    requires n.kind.Call? && decide(n.name, v)
    ensures Visit(env, AsLive(decide), n, v) == FinishCall(env, n, v)
  {
    hide FinishCall;
  }

  lemma {:induction false} GuideAsks(index: Index, p: seq<Name>, i: nat, v: Value)
    requires Simple(index, p) && OnTheWay(index, p, i, v) && index[p[i]].kind.Ask? && index[p[i]].skill.Some?
    ensures Visit(Guide(index, p), AsLive(Always), index[p[i]], v) == Goes(Text(p[i]), None, None, [])
    ensures MadeFor(index, p, Text(p[i])) == i + 1
  {
    MakerIs(index, p, MadeFor(index, p, v), i);
    PositionIs(p, i);
    MakerIs(index, p, i, i);
  }

  lemma {:induction false} GuidedWalk(index: Index, p: seq<Name>, i: nat, v: Value, trace: seq<Trace>)
    requires Walkable(index) && Passable(index, p) && Simple(index, p) && OnTheWay(index, p, i, v) && |trace| == i
    requires index[p[|p| - 1]].kind.Ask? && index[p[|p| - 1]].skill.Some?
    ensures var t := Walk(Guide(index, p), AsLive(Always), index, p[i], v, trace, []).trace;
            && trace <= t && |t| >= |p|
            && (forall k :: i <= k < |p| ==> Passed(index, p[k], t[k]))
    decreases |p| - i
  {
    hide ReachSet, Acyclic, Closed, Visit, Takes, SameQuestion, MadeFor, Guide, Guidance, Passed;
    var env, n := Guide(index, p), index[p[i]];
    var out := Visit(env, AsLive(Always), n, v);
    NameIs(index, p[i]);
    if i < |p| - 1 {
      GuidedStep(index, p, i, v);
      VisitPassed(env, index, p[i], v);
      NextShrinks(index, n, out, env, AsLive(Always), v);
      var longer := trace + [OkTrace(n, out)];
      GuidedWalk(index, p, i + 1, out.value, longer);
      assert [] + out.emitted == [];
      var t := Walk(env, AsLive(Always), index, p[i + 1], out.value, longer, []).trace;
      assert Walk(env, AsLive(Always), index, p[i], v, trace, []).trace == t;
      assert t[i] == OkTrace(n, out);
    } else {
      GuideAsks(index, p, i, v);
      GuidedEnd(env, index, p[i], v, trace);
    }
  }

  /** A node that succeeds is recorded as a success, whatever follows. */
  lemma {:induction false} GuidedEnd(env: Env, index: Index, current: Name, v: Value, trace: seq<Trace>)
    requires Walkable(index) && current in index && Visit(env, AsLive(Always), index[current], v).Goes?
    ensures var t := Walk(env, AsLive(Always), index, current, v, trace, []).trace;
            trace < t && Passed(index, current, t[|trace|])
  {
    hide ReachSet, Acyclic, Closed, Visit, Passed;
    var n := index[current];
    var out := Visit(env, AsLive(Always), n, v);
    VisitPassed(env, index, current, v);
    if NextName(n, out).Some? {
      NextShrinks(index, n, out, env, AsLive(Always), v);
      var longer := trace + [OkTrace(n, out)];
      WalkExtends(env, AsLive(Always), index, NextName(n, out).value, out.value, longer, [] + out.emitted);
      assert Walk(env, AsLive(Always), index, NextName(n, out).value, out.value, longer, [] + out.emitted).trace[|trace|]
             == OkTrace(n, out);
    }
  }

  predicate Plain(v: Value) {
    v.Text? || v.Number?
  }

  lemma {:induction false} GuidedStaysPlain(index: Index, p: seq<Name>, n: Node, v: Value)
    requires Plain(v) && Visit(Guide(index, p), AsLive(Always), n, v).Goes?
    ensures Plain(Visit(Guide(index, p), AsLive(Always), n, v).value)
  {
    if n.body.Some? {
      GuidancePlain(index, p, n.body.value, MadeFor(index, p, v));
    }
    hide Guidance, MadeFor;
  }

  lemma {:induction false} GuidancePlain(index: Index, p: seq<Name>, body: string, i: nat)
    ensures Plain(Guidance(index, p, body, i))
    decreases |p| - i
  {
    if i + 1 >= |p| || p[i] !in index {
    } else {
      GuidancePlain(index, p, body, i + 1);
    }
  }

  lemma {:induction false} GuidedRestorable(index: Index, p: seq<Name>, current: Name, v: Value)
    requires Walkable(index) && current in index && Plain(v)
    ensures Restorable(Guide(index, p), AsLive(Always), index, Same, current, v)
    decreases ReachSet(ArrowsOf(index), current)
  {
    hide ReachSet, Acyclic, Closed, Guide, Visit;
    var env, n := Guide(index, p), index[current];
    var out := Visit(env, AsLive(Always), n, v);
    if !out.Goes? || NextName(n, out).None? {
    } else {
      NextShrinks(index, n, out, env, AsLive(Always), v);
      GuidedStaysPlain(index, p, n, v);
      GuidedRestorable(index, p, NextName(n, out).value, out.value);
    }
  }

  /** Each such way has a run that ends differently once it was parked. */
  lemma {:induction false} ResumedRunDiffers(index: Index, start: Name, p: seq<Name>)
    requires Walkable(index) && start in index && AsksAfterCall(index, start, p)
    ensures Restorable(Guide(index, p), AsLive(Always), index, Same, start, Number(0))
    ensures var parked := Walk(Guide(index, p), Parking, index, start, Number(0), [], []);
            ParksAtCall(index, parked)
            && FinishParked(NoAsk(Guide(index, p)), index, Same, Always, parked)
               != Walk(Guide(index, p), AsLive(Always), index, start, Number(0), [], [])
  {
    TakesIsPath(index, p);
    hide ReachSet, Acyclic, Closed, Walk, FinishParked, Visit, Restorable, Takes, Guide, SameQuestion, AskAfterCall;
    GuidedRestorable(index, p, start, Number(0));
    ResumedRunExact(Guide(index, p), index, Same, Always, start, Number(0), [], []);
    GuidedAsks(index, start, p);
  }

  lemma {:induction false} GuidedAsks(index: Index, start: Name, p: seq<Name>)
    requires Walkable(index) && start in index && AsksAfterCall(index, start, p)
    ensures AskAfterCall(index, Walk(Guide(index, p), AsLive(Always), index, start, Number(0), [], []).trace, 0)
  {
    TakesIsPath(index, p);
    PathsDoNotRepeat(index, p);
    hide ReachSet, Acyclic, Closed, Walk, Takes, Guide, SameQuestion;
    GuidedWalk(index, p, 0, Number(0), []);
    var t := Walk(Guide(index, p), AsLive(Always), index, start, Number(0), [], []).trace;
    var i :| 0 <= i < |p| - 1 && index[p[i]].kind.Call?;
    assert Passed(index, p[i], t[i]) && Passed(index, p[|p| - 1], t[|p| - 1]);
  }

  // ----- the condition -----------------------------------------------------------------------------

  /** What resuming promises for one run. */
  ghost predicate ResumesAsLive(index: Index, start: Name, env: Env, back: Value -> Value,
                                decide: (Name, Value) -> bool, v: Value)
    requires Walkable(index) && start in index
  {
    var parked := Walk(env, Parking, index, start, v, [], []);
    Restorable(env, AsLive(decide), index, back, start, v) ==>
      ParksAtCall(index, parked)
      && FinishParked(NoAsk(env), index, back, decide, parked) == Walk(env, AsLive(decide), index, start, v, [], [])
  }

  /** Every run of an entry, parked and resumed, ends as it would have live if and only if no way its
      nodes can take leads through a call to a model. */
  lemma {:induction false} ResumableExact(index: Index, start: Name)
    requires Walkable(index) && start in index
    ensures (forall env: Env, back: Value -> Value, decide: (Name, Value) -> bool, v: Value ::
               ResumesAsLive(index, start, env, back, decide, v))
            <==> forall p :: !AsksAfterCall(index, start, p)
  {
    hide Walk, FinishParked, Restorable, AsksAfterCall, Guide, Walkable;
    if forall p :: !AsksAfterCall(index, start, p) {
      forall env: Env, back: Value -> Value, decide: (Name, Value) -> bool, v: Value
        ensures ResumesAsLive(index, start, env, back, decide, v)
      {
        if Restorable(env, AsLive(decide), index, back, start, v) {
          ResumedRunSafe(env, index, back, decide, start, v);
        }
      }
    } else {
      var p :| AsksAfterCall(index, start, p);
      ResumedRunDiffers(index, start, p);
      assert !ResumesAsLive(index, start, Guide(index, p), Same, Always, Number(0));
    }
  }

  /** The coarser question of reaching at all is enough: no `ask` below a `call`, no difference. */
  lemma {:induction false} NoAskBelowCall(env: Env, index: Index, back: Value -> Value, decide: (Name, Value) -> bool,
                                          start: Name, v: Value)
    requires Walkable(index) && start in index && Restorable(env, AsLive(decide), index, back, start, v)
    requires forall a, b :: a in index && b in index && index[a].kind.Call? && index[b].kind.Ask? ==>
               !Reach(ArrowsOf(index), a, b)
    ensures var parked := Walk(env, Parking, index, start, v, [], []);
            ParksAtCall(index, parked)
            && FinishParked(NoAsk(env), index, back, decide, parked) == Walk(env, AsLive(decide), index, start, v, [], [])
  {
    hide Walk, FinishParked, Restorable, Takes, Acyclic, Closed, Visit, SameQuestion;
    forall p ensures !AsksAfterCall(index, start, p) {
      if AsksAfterCall(index, start, p) {
        var i :| 0 <= i < |p| - 1 && index[p[i]].kind.Call?;
        TakesIsPath(index, p);
        PathTail(ArrowsOf(index), p, i);
      }
    }
    ResumedRunSafe(env, index, back, decide, start, v);
  }

  lemma {:induction false} PathTail(g: Graph, p: seq<Name>, i: nat)
    requires IsPath(g, p) && i < |p|
    ensures Reach(g, p[i], p[|p| - 1])
  {
    var q := p[i..];
    forall k | 0 <= k < |q| - 1 ensures Edge(g, q[k], q[k + 1]) {
      assert Edge(g, p[i + k], p[(i + k) + 1]);
    }
    assert PathFromTo(g, q, p[i], p[|p| - 1]);
  }

  // ----- the smallest graph that is not safe -------------------------------------------------------

  /** A step that has to be approved, and after it one that asks the model. */
  function CallThenAskGraph(): Index {
    map["send" := Node("send", Call, Some("send"), None, Some("reply"), []),
        "reply" := Node("reply", Ask, None, Some("write"), None, [])]
  }

  /** A body that always says the same, and a model that says "done". */
  function Echo(): Env {
    Env((body: string, v: Value) => Returned(Text("sent")), (skill: string, text: string) => Answers("done"),
        (v: Value) => if v.Text? then v.text else "", (ref: string) => true)
  }

  /** Live it finishes with the model's answer; parked, approved and resumed it fails at the model. */
  lemma {:induction false} CallThenAskDiffers()
    ensures var index := CallThenAskGraph();
            && Walkable(index) && Restorable(Echo(), AsLive(Always), index, Same, "send", Text("mail"))
            && Walk(Echo(), AsLive(Always), index, "send", Text("mail"), [], []).end == Finished("done")
            && FinishParked(NoAsk(Echo()), index, Same, Always,
                            Walk(Echo(), Parking, index, "send", Text("mail"), [], [])).end == Failed("reply")
  {
    CallThenAskWalkable();
    var index := CallThenAskGraph();
    var n, m, env, live := index["send"], index["reply"], Echo(), AsLive(Always);
    assert RunBody(env, n, Text("mail")) == Returned(Text("sent")) == RunBody(NoAsk(env), n, Text("mail"));
    assert FinishCall(env, n, Text("mail")) == Goes(Text("sent"), None, None, []) == FinishCall(NoAsk(env), n, Text("mail"));
    ApprovedCall(env, Always, n, Text("mail"));
    assert Visit(env, live, m, Text("sent")) == Goes(Text("done"), None, None, []);
    assert Walk(env, live, index, "send", Text("mail"), [], [])
           == Walk(env, live, index, "reply", Text("sent"), [OkTrace(n, FinishCall(env, n, Text("mail")))], []);
  }

  /** A model that cannot be started: the depth limit is reached. */
  function TooDeep(): Env {
    Echo().(ask := (skill: string, text: string) => AskRaises("ChildDepthExceeded"))
  }

  /** Live and resumed it fails at the model, but only live its trace says why. */
  lemma {:induction false} CallThenErrorDiffers()
    ensures var index := CallThenAskGraph();
            && Walkable(index) && Restorable(TooDeep(), AsLive(Always), index, Same, "send", Text("mail"))
            && (var live := Walk(TooDeep(), AsLive(Always), index, "send", Text("mail"), [], []);
                var parked := Walk(TooDeep(), Parking, index, "send", Text("mail"), [], []);
                && live.end == Failed("reply") && |live.trace| == 2
                && live.trace[1].detail == Some("node raised " + "ChildDepthExceeded")
                && ParksAtCall(index, parked) && FinishParked(NoAsk(TooDeep()), index, Same, Always, parked) != live)
  {
    CallThenAskWalkable();
    var index := CallThenAskGraph();
    var n, m, env, live := index["send"], index["reply"], TooDeep(), AsLive(Always);
    assert RunBody(env, n, Text("mail")) == Returned(Text("sent"));
    ApprovedCall(env, Always, n, Text("mail"));
    assert Visit(env, live, m, Text("sent")) == Fails("node raised " + "ChildDepthExceeded");
    assert ("node raised " + "ChildDepthExceeded")[0] == 'n' && NO_ANSWER[0] == 'c';
    var entry := OkTrace(n, FinishCall(env, n, Text("mail")));
    WalkOne(env, live, index, "send", Text("mail"), [], []);
    WalkOne(env, live, index, "reply", Text("sent"), [entry], []);
    var t := Walk(env, live, index, "send", Text("mail"), [], []).trace;
    hide Walk, FinishParked, Walkable;
    assert [] + [entry] == [entry] && [] + FinishCall(env, n, Text("mail")).emitted == [];
    assert t == [entry, FailedTrace(m, "node raised " + "ChildDepthExceeded")];
    assert CameBack(index, t[1]) && t[0].kind.Call?;
    ResumedRunExact(env, index, Same, Always, "send", Text("mail"), [], []);
  }

  lemma {:induction false} CallThenAskWalkable()
    ensures Walkable(CallThenAskGraph())
  {
    var g := ArrowsOf(CallThenAskGraph());
    assert g["send"] == ["reply"] && g["reply"] == [];
    forall a ensures !OnCycle(g, a) {
      if p :| PathFromTo(g, p, a, a) && |p| >= 2 {
        assert Edge(g, p[0], p[0 + 1]);
        assert p[1] == "reply" && p[|p| - 1] == "send";
        assert |p| > 2 ==> Edge(g, p[1], p[1 + 1]);
      }
    }
  }
}
