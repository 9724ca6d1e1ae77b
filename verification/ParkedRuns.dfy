/**
  A run that parks at every `call` and is finished by decisions that come later, against the same
  run asked live (plugin_manifest.py, `_run_graph`; plugin_dispatch.py, `resume_paused_run`).
 */
module ParkedRuns {
  import opened Options
  import opened Manifests
  import opened Walker

  /** Someone at the keyboard who answers at once. */
  function AsLive(decide: (Name, Value) -> bool): Approve {
    Live((n: Name, v: Value) => if decide(n, v) then Yes else No)
  }

  // ----- parking stops at calls, further and further down ------------------------------------------

  ghost predicate ParksAtCall(index: Index, r: DagResult) {
    r.end.ParkedAt? ==> r.end.node in index && index[r.end.node].kind.Call?
  }

  lemma {:induction false} WalkParksBelow(env: Env, index: Index, current: Name, v: Value,
                                          trace: seq<Trace>, artifacts: seq<Artifact>)
    requires Walkable(index) && current in index
    ensures var r := Walk(env, Parking, index, current, v, trace, artifacts);
            ParksAtCall(index, r)
            && (r.end.ParkedAt? ==> ReachSet(ArrowsOf(index), r.end.node) <= ReachSet(ArrowsOf(index), current))
    decreases ReachSet(ArrowsOf(index), current)
  {
    hide ReachSet, Acyclic, Closed;
    var n := index[current];
    var out := Visit(env, Parking, n, v);
    if !out.Goes? || NextName(n, out).None? {
    } else {
      NextShrinks(index, n, out, env, Parking, v);
      WalkParksBelow(env, index, NextName(n, out).value, out.value, trace + [OkTrace(n, out)], artifacts + out.emitted);
    }
  }

  lemma {:induction false} ResumeParksBelow(env: Env, index: Index, back: Value -> Value, r: DagResult, d: Decision)
    requires Walkable(index) && r.end.ParkedAt? && ParksAtCall(index, r) && !d.Answered?
    ensures var s := Resume(env, Parking, index, back, r, d);
            ParksAtCall(index, s)
            && (s.end.ParkedAt? ==> ReachSet(ArrowsOf(index), s.end.node) < ReachSet(ArrowsOf(index), r.end.node))
  {
    hide ReachSet, Acyclic, Closed;
    var n := index[r.end.node];
    var v := back(r.end.value);
    var out := FinishCall(env, n, v);
    if d.Approved? && out.Goes? && NextName(n, out).Some? {
      NextShrinks(index, n, out, env, Parking, v);
      WalkParksBelow(env, index, NextName(n, out).value, out.value, r.trace + [OkTrace(n, out)], r.artifacts + out.emitted);
    }
  }

  /** Resume every `call` park with the decision reached for it, until nothing is parked. */
  function FinishParked(env: Env, index: Index, back: Value -> Value, decide: (Name, Value) -> bool, r: DagResult): DagResult
    requires Walkable(index) && ParksAtCall(index, r)
    decreases r.end.ParkedAt?, if r.end.ParkedAt? then ReachSet(ArrowsOf(index), r.end.node) else {}
  {
    if !r.end.ParkedAt? then r
    else
      var d := if decide(r.end.node, back(r.end.value)) then Approved else Declined;
      ResumeParksBelow(env, index, back, r, d);
      FinishParked(env, index, back, decide, Resume(env, Parking, index, back, r, d))
  }

  /** Along the live walk, every value about to reach a `call` comes back unchanged from being parked. */
  ghost predicate Restorable(env: Env, approve: Approve, index: Index, back: Value -> Value, current: Name, v: Value)
    requires Walkable(index) && current in index
    decreases ReachSet(ArrowsOf(index), current)
  {
    var n := index[current];
    var out := Visit(env, approve, n, v);
    && (n.kind.Call? ==> back(Strip(v)) == v)
    && (out.Goes? && NextName(n, out).Some? ==>
          (NextShrinks(index, n, out, env, approve, v);
           Restorable(env, approve, index, back, NextName(n, out).value, out.value)))
  }

  /** Parking is running live: parking at every call and resuming each with its decision - approve or
      decline - ends in the same result as asking for each decision on the spot: same text, same
      artifacts, same trace, same failed or waiting node. */
  lemma {:induction false} ParkingIsLive(env: Env, index: Index, back: Value -> Value, decide: (Name, Value) -> bool,
                                         current: Name, v: Value, trace: seq<Trace>, artifacts: seq<Artifact>)
    requires Walkable(index) && current in index
    requires Restorable(env, AsLive(decide), index, back, current, v)
    ensures var parked := Walk(env, Parking, index, current, v, trace, artifacts);
            ParksAtCall(index, parked)
            && FinishParked(env, index, back, decide, parked)
               == Walk(env, AsLive(decide), index, current, v, trace, artifacts)
    decreases ReachSet(ArrowsOf(index), current)
  {
    hide ReachSet, Acyclic, Closed;
    WalkParksBelow(env, index, current, v, trace, artifacts);
    var n := index[current];
    var out := Visit(env, AsLive(decide), n, v);
    if !out.Goes? || NextName(n, out).None? {
    } else {
      NextShrinks(index, n, out, env, AsLive(decide), v);
      ParkingIsLive(env, index, back, decide, NextName(n, out).value, out.value,
                    trace + [OkTrace(n, out)], artifacts + out.emitted);
    }
  }

  // ----- what comes back from the store ---------------------------------------------------------------

  const SESSION_KEY := "_sadana_session_key"

  /** What `resume_paused_run` hands the body: any stored object gets the session key put in. */
  function Reinject(session: string, v: Value): Value {
    match v
    case Obj(fields) => Obj(fields[SESSION_KEY := Text(session)])
    case _ => v
  }

  ghost predicate CarriesOnlySession(session: string, v: Value) {
    v.Obj? ==>
      && SESSION_KEY in v.fields && v.fields[SESSION_KEY] == Text(session)
      && forall k :: k in v.fields && Reserved(k) ==> k == SESSION_KEY
  }

  /** A value survives being parked as it is exactly when it has no reserved key. */
  lemma {:induction false} StripExact(v: Value)
    ensures Strip(v) == v <==> (v.Obj? ==> forall k :: k in v.fields ==> !Reserved(k))
  {
  }

  /** Parked and resumed by the dispatcher, a value comes back exactly when it was not an object, or
      its one reserved key was the session's own. An object a step made afresh comes back with a key
      it never had; one carrying a memory context comes back without it. */
  lemma {:induction false} ReinjectExact(session: string, v: Value)
    ensures Reinject(session, Strip(v)) == v <==> CarriesOnlySession(session, v)
  {
  }

  // ----- a resumed walk has no model behind `ask` --------------------------------------------------------

  /** The environment of a walk `resume_paused_run` continues: `_unsupported_ask`. */
  function NoAsk(env: Env): Env {
    env.(ask := (skill: string, text: string) => NoAnswer)
  }

  lemma {:induction false} WalkExtends(env: Env, approve: Approve, index: Index, current: Name, v: Value,
                                       trace: seq<Trace>, artifacts: seq<Artifact>)
    requires Walkable(index) && current in index
    ensures trace <= Walk(env, approve, index, current, v, trace, artifacts).trace
    decreases ReachSet(ArrowsOf(index), current)
  {
    hide ReachSet, Acyclic, Closed;
    var n := index[current];
    var out := Visit(env, approve, n, v);
    if !out.Goes? || NextName(n, out).None? {
    } else {
      NextShrinks(index, n, out, env, approve, v);
      WalkExtends(env, approve, index, NextName(n, out).value, out.value, trace + [OkTrace(n, out)], artifacts + out.emitted);
    }
  }

  /** A model was asked and something came back, an answer or an error. */
  predicate CameBack(index: Index, t: Trace) {
    t.kind.Ask? && t.node in index && index[t.node].skill.Some? && t.detail != Some(NO_ANSWER)
  }

  ghost predicate CameBackFrom(index: Index, trace: seq<Trace>, from: nat) {
    exists j :: from <= j < |trace| && CameBack(index, trace[j])
  }

  /** Without a model the walk is the same exactly when nothing ever came back from one in it. */
  lemma {:induction false} NoAskExact(env: Env, approve: Approve, index: Index, current: Name, v: Value,
                                      trace: seq<Trace>, artifacts: seq<Artifact>)
    requires Walkable(index) && current in index && approve.Live?
    ensures var r := Walk(env, approve, index, current, v, trace, artifacts);
            Walk(NoAsk(env), approve, index, current, v, trace, artifacts) == r
            <==> !CameBackFrom(index, r.trace, |trace|)
    decreases ReachSet(ArrowsOf(index), current)
  {
    hide ReachSet, Acyclic, Closed, Walkable, Successors, ArrowsOf, Visit, Walk;
    var n := index[current];
    var out := Visit(env, approve, n, v);
    SameButAsk(env, approve, n, v);
    NameIs(index, current);
    WalkOne(env, approve, index, current, v, trace, artifacts);
    WalkOne(NoAsk(env), approve, index, current, v, trace, artifacts);
    hide CameBackFrom;
    var r := Walk(env, approve, index, current, v, trace, artifacts);
    if out.Goes? {
      OneEntry(index, r.trace, trace, OkTrace(n, out));
      if NextName(n, out).Some? && !n.kind.Ask? {
        NextShrinks(index, n, out, env, approve, v);
        NoAskExact(env, approve, index, NextName(n, out).value, out.value, trace + [OkTrace(n, out)], artifacts + out.emitted);
      } else if n.kind.Ask? {
        assert Walk(NoAsk(env), approve, index, current, v, trace, artifacts).trace[|trace|] == FailedTrace(n, NO_ANSWER);
      }
    } else if out.Fails? {
      OneEntry(index, r.trace, trace, FailedTrace(n, out.why));
      assert Visit(NoAsk(env), approve, n, v).Fails?;
      assert Walk(NoAsk(env), approve, index, current, v, trace, artifacts).trace[|trace|]
             == FailedTrace(n, Visit(NoAsk(env), approve, n, v).why);
    } else {
      NoEntry(index, trace);
    }
  }

  lemma {:induction false} NoEntry(index: Index, trace: seq<Trace>)
    ensures !CameBackFrom(index, trace, |trace|)
  {
  }

  lemma {:induction false} OneEntry(index: Index, t: seq<Trace>, trace: seq<Trace>, entry: Trace)
    requires trace + [entry] <= t
    ensures t[|trace|] == entry
    ensures CameBackFrom(index, t, |trace|) <==> CameBack(index, entry) || CameBackFrom(index, t, |trace| + 1)
    ensures |t| == |trace| + 1 ==> !CameBackFrom(index, t, |trace| + 1)
  {
  }

  /** What one node adds to the result of a walk. */
  lemma {:induction false} WalkOne(env: Env, approve: Approve, index: Index, current: Name, v: Value,
                                   trace: seq<Trace>, artifacts: seq<Artifact>)
    requires Walkable(index) && current in index
    ensures var n, r := index[current], Walk(env, approve, index, current, v, trace, artifacts);
            match Visit(env, approve, n, v)
            case Fails(why) => r == DagResult(Failed(n.name), artifacts, trace + [FailedTrace(n, why)])
            case Goes(value, port, detail, emitted) =>
              var out := Goes(value, port, detail, emitted);
              && trace + [OkTrace(n, out)] <= r.trace
              && (NextName(n, out).Some? ==>
                    && NextName(n, out).value in index
                    && r == Walk(env, approve, index, NextName(n, out).value, value, trace + [OkTrace(n, out)],
                                 artifacts + emitted))
              && (NextName(n, out).None? ==>
                    r == DagResult(Finished(env.text(value)), artifacts + emitted, trace + [OkTrace(n, out)]))
            case _ => r.trace == trace && r.artifacts == artifacts && !r.end.Finished?
                      && r == Walk(NoAsk(env), approve, index, current, v, trace, artifacts)
  {
    hide ReachSet, Acyclic, Closed;
    var n := index[current];
    var out := Visit(env, approve, n, v);
    SameButAsk(env, approve, n, v);
    hide Visit;
    if out.Goes? && NextName(n, out).Some? {
      NextShrinks(index, n, out, env, approve, v);
      WalkExtends(env, approve, index, NextName(n, out).value, out.value, trace + [OkTrace(n, out)], artifacts + out.emitted);
    }
  }

  lemma {:induction false} NameIs(index: Index, current: Name)
    requires Walkable(index) && current in index
    ensures index[current].name == current
  {
  }

  lemma {:induction false} SameButAsk(env: Env, approve: Approve, n: Node, v: Value)
    ensures !n.kind.Ask? ==> Visit(NoAsk(env), approve, n, v) == Visit(env, approve, n, v)
    ensures n.kind.Ask? && Visit(env, approve, n, v).Goes? ==>
              n.skill.Some? && Visit(NoAsk(env), approve, n, v) == Fails(NO_ANSWER)
              && OkTrace(n, Visit(env, approve, n, v)).detail == None
    ensures n.kind.Ask? && !Visit(env, approve, n, v).Goes? ==>
              && Visit(env, approve, n, v).Fails? && Visit(NoAsk(env), approve, n, v).Fails?
              && (Visit(NoAsk(env), approve, n, v) == Visit(env, approve, n, v)
                  <==> n.skill.None? || Visit(env, approve, n, v).why == NO_ANSWER)
    ensures FinishCall(NoAsk(env), n, v) == FinishCall(env, n, v)
  {
  }

  lemma {:induction false} NoAskRestorable(env: Env, approve: Approve, index: Index, back: Value -> Value,
                                           current: Name, v: Value)
    requires Walkable(index) && current in index
    requires Restorable(env, approve, index, back, current, v)
    ensures Restorable(NoAsk(env), approve, index, back, current, v)
    decreases ReachSet(ArrowsOf(index), current)
  {
    hide ReachSet, Acyclic, Closed;
    var n := index[current];
    var out := Visit(env, approve, n, v);
    SameButAsk(env, approve, n, v);
    if !out.Goes? || NextName(n, out).None? {
    } else {
      NextShrinks(index, n, out, env, approve, v);
      NoAskRestorable(env, approve, index, back, NextName(n, out).value, out.value);
    }
  }

  ghost predicate AskAfterCall(index: Index, trace: seq<Trace>, from: nat) {
    exists i, j :: from <= i < j < |trace| && trace[i].kind.Call? && CameBack(index, trace[j])
  }

  /** What being parked at a node and finished later comes to: the walk from there without a model. */
  lemma {:induction false} ResumedAtCall(env: Env, index: Index, back: Value -> Value, decide: (Name, Value) -> bool,
                                         current: Name, v: Value, trace: seq<Trace>, artifacts: seq<Artifact>)
    requires Walkable(index) && current in index && index[current].kind.Call?
    requires Restorable(env, AsLive(decide), index, back, current, v)
    ensures var parked := Walk(env, Parking, index, current, v, trace, artifacts);
            var live := Walk(env, AsLive(decide), index, current, v, trace, artifacts);
            ParksAtCall(index, parked)
            && (FinishParked(NoAsk(env), index, back, decide, parked) == live <==> !AskAfterCall(index, live.trace, |trace|))
  {
    hide ReachSet, Acyclic, Closed, AskAfterCall, CameBackFrom, Restorable;
    var approve := AsLive(decide);
    WalkParksBelow(env, index, current, v, trace, artifacts);
    CallStartsWalk(env, approve, index, current, v, trace, artifacts);
    hide Walk, FinishParked;
    NoAskRestorable(env, approve, index, back, current, v);
    ParkingIsLive(NoAsk(env), index, back, decide, current, v, trace, artifacts);
    NoAskExact(env, approve, index, current, v, trace, artifacts);
    CallThenAsk(index, Walk(env, approve, index, current, v, trace, artifacts).trace, |trace|);
  }

  /** A walk from a `call` parks there with or without a model, and, live, that call is the first thing
      it records. */
  lemma {:induction false} CallStartsWalk(env: Env, approve: Approve, index: Index, current: Name, v: Value,
                                          trace: seq<Trace>, artifacts: seq<Artifact>)
    requires Walkable(index) && current in index && index[current].kind.Call?
    ensures Walk(NoAsk(env), Parking, index, current, v, trace, artifacts)
            == Walk(env, Parking, index, current, v, trace, artifacts)
    ensures var t := Walk(env, approve, index, current, v, trace, artifacts).trace; |t| > |trace| ==> t[|trace|].kind.Call?
  {
    hide ReachSet, Acyclic, Closed;
    var n := index[current];
    var out := Visit(env, approve, n, v);
    if out.Goes? && NextName(n, out).Some? {
      NextShrinks(index, n, out, env, approve, v);
      var longer := trace + [OkTrace(n, out)];
      WalkExtends(env, approve, index, NextName(n, out).value, out.value, longer, artifacts + out.emitted);
      assert Walk(env, approve, index, NextName(n, out).value, out.value, longer, artifacts + out.emitted).trace[|trace|]
             == OkTrace(n, out);
    }
  }

  /** Parked by the first dispatch and finished by `resume_paused_run`, a run ends as it would have
      live if and only if, live, nothing came back from a model - no answer and no error - after a call
      was made. */
  lemma {:induction false} ResumedRunExact(env: Env, index: Index, back: Value -> Value, decide: (Name, Value) -> bool,
                                           current: Name, v: Value, trace: seq<Trace>, artifacts: seq<Artifact>)
    requires Walkable(index) && current in index
    requires Restorable(env, AsLive(decide), index, back, current, v)
    ensures var parked := Walk(env, Parking, index, current, v, trace, artifacts);
            var live := Walk(env, AsLive(decide), index, current, v, trace, artifacts);
            ParksAtCall(index, parked)
            && (FinishParked(NoAsk(env), index, back, decide, parked) == live <==> !AskAfterCall(index, live.trace, |trace|))
    decreases ReachSet(ArrowsOf(index), current)
  {
    hide ReachSet, Acyclic, Closed, AskAfterCall, CameBackFrom;
    var n := index[current];
    if n.kind.Call? {
      ResumedAtCall(env, index, back, decide, current, v, trace, artifacts);
    } else {
      WalkParksBelow(env, index, current, v, trace, artifacts);
      SameButCall(env, decide, n, v);
      var out := Visit(env, Parking, n, v);
      hide Visit;
      if out.Goes? && NextName(n, out).Some? {
        NextShrinks(index, n, out, env, Parking, v);
        var next, longer, more := NextName(n, out).value, trace + [OkTrace(n, out)], artifacts + out.emitted;
        WalkExtends(env, AsLive(decide), index, next, out.value, longer, more);
        var live := Walk(env, AsLive(decide), index, next, out.value, longer, more);
        assert live.trace[|trace|] == OkTrace(n, out);
        ResumedRunExact(env, index, back, decide, next, out.value, longer, more);
        NotACall(index, live.trace, |trace|);
      } else {
        LastStep(env, AsLive(decide), index, current, v, trace, artifacts);
        OneStepAtMost(index, Walk(env, AsLive(decide), index, current, v, trace, artifacts).trace, |trace|);
      }
    }
  }

  /** Parking and asking differ only at a `call`. */
  lemma {:induction false} SameButCall(env: Env, decide: (Name, Value) -> bool, n: Node, v: Value)
    requires !n.kind.Call?
    ensures Visit(env, Parking, n, v) == Visit(env, AsLive(decide), n, v) && !Visit(env, Parking, n, v).Parks?
  {
  }

  lemma {:induction false} LastStep(env: Env, approve: Approve, index: Index, current: Name, v: Value,
                                    trace: seq<Trace>, artifacts: seq<Artifact>)
    requires Walkable(index) && current in index
    requires var out := Visit(env, approve, index[current], v); !(out.Goes? && NextName(index[current], out).Some?)
    ensures |Walk(env, approve, index, current, v, trace, artifacts).trace| <= |trace| + 1
  {
  }

  lemma {:induction false} OneStepAtMost(index: Index, trace: seq<Trace>, from: nat)
    requires |trace| <= from + 1
    ensures !AskAfterCall(index, trace, from)
  {
  }

  lemma {:induction false} CallThenAsk(index: Index, trace: seq<Trace>, at: nat)
    requires at < |trace| ==> trace[at].kind.Call?
    ensures AskAfterCall(index, trace, at) <==> CameBackFrom(index, trace, at)
  {
  }

  lemma {:induction false} NotACall(index: Index, trace: seq<Trace>, at: nat)
    requires at < |trace| && !trace[at].kind.Call?
    ensures AskAfterCall(index, trace, at) <==> AskAfterCall(index, trace, at + 1)
  {
  }
}
