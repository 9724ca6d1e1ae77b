/**
  Walking a validated graph, live, parked and resumed (plugin_manifest.py, `_run_graph`).

  A plugin is an `Env`: arbitrary total bodies, an arbitrary model behind `ask`. `Walk` is the walk
  as a function; it needs no step counter because every arrow of an acyclic graph leaves strictly
  less to reach. `RunGraph` is the loop the program runs.
 */
module Walker {
  import opened Options
  import opened Manifests

  datatype ArtifactKind = Link | File

  datatype Artifact = Artifact(kind: ArtifactKind, name: string, ref: string)

  datatype Value =
    | Null
    | Text(text: string)
    | Number(n: int)
    | List(items: seq<Value>)
    | Obj(fields: map<string, Value>)
    | Made(artifact: Artifact)

  datatype BodyResult = Returned(value: Value) | Raised(error: string)

  // What comes of asking the model: an answer, a child that did not complete, or an error, such as
  // ChildDepthExceeded or SkillLoadError.
  datatype AskReply = Answers(text: string) | NoAnswer | AskRaises(error: string)

  // `text` is `_coerce_text`; `inside` is whether a file lies in the run's own output directory.
  datatype Env = Env(
    body: (string, Value) -> BodyResult,
    ask: (string, string) -> AskReply,
    text: Value -> string,
    inside: string -> bool)

  datatype Reply = Yes | No | ReplyRaises(error: string)

  datatype Approve = Live(decide: (Name, Value) -> Reply) | Parking

  datatype Trace = Trace(node: Name, kind: NodeKind, ok: bool, port: Option<Name>, detail: Option<string>)

  datatype Ended =
    | Finished(text: string)
    | Failed(node: Name)
    | WaitsAt(node: Name)
    | ParkedAt(node: Name, value: Value)

  datatype DagResult = DagResult(end: Ended, artifacts: seq<Artifact>, trace: seq<Trace>)

  const RESERVED := "_sadana_"

  predicate Reserved(key: string) {
    RESERVED <= key
  }

  /** `_persistable_paused_value`: dispatch-time keys are not part of what is parked. */
  function Strip(v: Value): Value {
    match v
    case Obj(fields) => Obj(map k | k in fields && !Reserved(k) :: fields[k])
    case _ => v
  }

  // ----- one node --------------------------------------------------------------------------------

  datatype Visited =
    | Goes(value: Value, port: Option<Name>, detail: Option<string>, emitted: seq<Artifact>)
    | Fails(why: string)
    | Waits
    | Parks

  const NO_ANSWER := "child did not complete"

  function RunBody(env: Env, n: Node, v: Value): BodyResult {
    if n.body.None? then Raised("AssertionError") else env.body(n.body.value, v)
  }

  /** What a `call` body's result counts for, live or after an approval. */
  function FinishCall(env: Env, n: Node, v: Value): Visited {
    match RunBody(env, n, v)
    case Raised(e) => Fails("node raised " + e)
    case Returned(Made(a)) =>
      if a.kind.File? && !env.inside(a.ref) then Fails("file artifact points outside the run's own output directory")
      else Goes(Text(a.ref), None, Some("emitted artifact " + a.name), [a])
    case Returned(value) => Goes(value, None, None, [])
  }

  function Visit(env: Env, approve: Approve, n: Node, v: Value): Visited {
    match n.kind
    case Each => Fails("each steps are not runnable yet")
    case Wait => Waits
    case Compute => (
      match RunBody(env, n, v)
      case Raised(e) => Fails("node raised " + e)
      case Returned(value) => Goes(value, None, None, []))
    case Route => (
      match RunBody(env, n, v)
      case Raised(e) => Fails("node raised " + e)
      case Returned(Text(port)) =>
        if port in n.ports then Goes(v, Some(port), None, []) else Fails("not a declared port")
      case Returned(_) => Fails("not a declared port"))
    case Ask =>
      if n.skill.None? then Fails("node raised AssertionError")
      else (match env.ask(n.skill.value, env.text(v))
            case NoAnswer => Fails(NO_ANSWER)
            case AskRaises(e) => Fails("node raised " + e)
            case Answers(output) => Goes(Text(output), None, None, []))
    case Call => (
      match approve
      case Parking => Parks
      case Live(decide) => (
        match decide(n.name, v)
        case Yes => FinishCall(env, n, v)
        case No => Fails("declined")
        case ReplyRaises(e) => Fails("node raised " + e)))
    case Stop => Goes(v, None, None, [])
    case Other(_) => Fails("unrecognized node kind")
  }

  function NextName(n: Node, out: Visited): Option<Name>
    requires out.Goes?
  {
    if n.kind.Route? then out.port else n.next
  }

  function FailedTrace(n: Node, detail: string): Trace {
    Trace(n.name, n.kind, false, None, Some(detail))
  }

  function OkTrace(n: Node, out: Visited): Trace
    requires out.Goes?
  {
    Trace(n.name, n.kind, true, out.port, out.detail)
  }

  // ----- the walk --------------------------------------------------------------------------------

  type Index = map<Name, Node>

  /** What validation established about the nodes. */
  ghost predicate Walkable(index: Index) {
    && Closed(ArrowsOf(index)) && Acyclic(ArrowsOf(index))
    && (forall x :: x in index ==> index[x].name == x)
  }

  lemma {:induction false} NextShrinks(index: Index, n: Node, out: Visited, env: Env, approve: Approve, v: Value)
    requires Walkable(index) && n.name in index && index[n.name] == n
    requires out.Goes? && (out == Visit(env, approve, n, v) || (out == FinishCall(env, n, v) && n.kind.Call?))
    requires NextName(n, out).Some?
    ensures var next := NextName(n, out).value;
            && next in index && Edge(ArrowsOf(index), n.name, next)
            && ReachSet(ArrowsOf(index), next) < ReachSet(ArrowsOf(index), n.name)
  {
    var g, next := ArrowsOf(index), NextName(n, out).value;
    assert next in Successors(n);
    assert Edge(g, n.name, next);
    StepShrinksReach(g, n.name, next);
  }

  function Walk(env: Env, approve: Approve, index: Index, current: Name, v: Value,
                trace: seq<Trace>, artifacts: seq<Artifact>): DagResult
    requires Walkable(index) && current in index
    decreases ReachSet(ArrowsOf(index), current)
  {
    var n := index[current];
    var out := Visit(env, approve, n, v);
    match out
    case Fails(detail) => DagResult(Failed(n.name), artifacts, trace + [FailedTrace(n, detail)])
    case Waits => DagResult(WaitsAt(n.name), artifacts, trace)
    case Parks => DagResult(ParkedAt(n.name, Strip(v)), artifacts, trace)
    case Goes(value, _, _, emitted) => Onward(env, approve, index, n, v, out, trace, artifacts)
  }

  /** From a node that has just succeeded to the next one, or to the end. */
  function Onward(env: Env, approve: Approve, index: Index, n: Node, v: Value, out: Visited,
                  trace: seq<Trace>, artifacts: seq<Artifact>): DagResult
    requires Walkable(index) && n.name in index && index[n.name] == n
    requires out.Goes? && (out == Visit(env, approve, n, v) || (out == FinishCall(env, n, v) && n.kind.Call?))
    decreases ReachSet(ArrowsOf(index), n.name), 0
  {
    var next := NextName(n, out);
    if next.None? then DagResult(Finished(env.text(out.value)), artifacts + out.emitted, trace + [OkTrace(n, out)])
    else
      NextShrinks(index, n, out, env, approve, v);
      Walk(env, approve, index, next.value, out.value, trace + [OkTrace(n, out)], artifacts + out.emitted)
  }

  // ----- resuming --------------------------------------------------------------------------------

  datatype Decision = Approved | Declined | Answered(payload: Value)

  /** Continue a paused run: a parked `call` runs its body now or is declined, a `wait` takes the
      answer for its output. `back` is what the body is handed for the value that was stored. */
  function Resume(env: Env, approve: Approve, index: Index, back: Value -> Value, r: DagResult, d: Decision): DagResult
    requires Walkable(index)
    requires r.end.ParkedAt? ==> r.end.node in index && index[r.end.node].kind.Call? && !d.Answered?
    requires r.end.WaitsAt? ==> r.end.node in index && d.Answered?
  {
    match r.end
    case ParkedAt(node, stored) => (
      var n := index[node];
      if d.Declined? then DagResult(Failed(n.name), r.artifacts, r.trace + [FailedTrace(n, "declined")])
      else
        var out := FinishCall(env, n, back(stored));
        if out.Goes? then Onward(env, approve, index, n, back(stored), out, r.trace, r.artifacts)
        else DagResult(Failed(n.name), r.artifacts, r.trace + [FailedTrace(n, out.why)]))
    case WaitsAt(node) => (
      var n := index[node];
      var entry := Trace(n.name, n.kind, true, None, Some("resumed"));
      if n.next.None? then DagResult(Finished(env.text(d.payload)), r.artifacts, r.trace + [entry])
      else
        ClosedNext(index, n);
        Walk(env, approve, index, n.next.value, d.payload, r.trace + [entry], r.artifacts))
    case _ => r
  }

  lemma {:induction false} ClosedNext(index: Index, n: Node)
    requires Walkable(index) && n.name in index && index[n.name] == n && n.next.Some?
    ensures n.next.value in index && Edge(ArrowsOf(index), n.name, n.next.value)
  {
    assert n.next.value in Successors(n);
    assert Edge(ArrowsOf(index), n.name, n.next.value);
  }

  // ----- the loop --------------------------------------------------------------------------------

  /** The walk as the program runs it: one value, one current node, a trace that grows. */
  method RunGraph(env: Env, approve: Approve, index: Index, start: Name, arguments: Value)
    returns (result: DagResult)
    requires Walkable(index) && start in index
    ensures result == Walk(env, approve, index, start, arguments, [], [])
  {
    var value, current := arguments, start;
    var trace: seq<Trace>, artifacts: seq<Artifact> := [], [];
    while true
      invariant current in index
      invariant Walk(env, approve, index, current, value, trace, artifacts)
                == Walk(env, approve, index, start, arguments, [], [])
      decreases ReachSet(ArrowsOf(index), current)
    {
      hide ReachSet, Acyclic, Closed;
      var n := index[current];
      var out := Visit(env, approve, n, value);
      match out {
        case Fails(detail) =>
          return DagResult(Failed(n.name), artifacts, trace + [FailedTrace(n, detail)]);
        case Waits =>
          return DagResult(WaitsAt(n.name), artifacts, trace);
        case Parks =>
          return DagResult(ParkedAt(n.name, Strip(value)), artifacts, trace);
        case Goes(v, port, detail, emitted) =>
          trace := trace + [OkTrace(n, out)];
          artifacts := artifacts + emitted;
          var next := NextName(n, out);
          if next.None? {
            return DagResult(Finished(env.text(v)), artifacts, trace);
          }
          NextShrinks(index, n, out, env, approve, value);
          value, current := v, next.value;
      }
    }
  }
}
