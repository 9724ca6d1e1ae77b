/**
  What one turn can meet and what it leaves behind (conversation.py, `run_turn`).

  Everything outside the loop - the model, the store, the tools, the spill checkpoint, the observer -
  is a `World`: it may answer anything, including failing or being cancelled, and its answer may
  depend on all that happened before. A turn writes down each answer it got as an `Event`. The
  history is never part of the log: `Replay` recomputes it, so a log says exactly what the history
  has to be.
 */
module TurnModel {
  import opened Options
  import opened Transcript
  import opened Compaction
  import opened ToolCalls

  // the question the epilogue asks; nothing depends on its words
  const SUMMARY_REQUEST := "summarise"

  // `ModelRaises`: an error `run_turn` does not catch, such as a malformed
  // SADANA_CONTEXT_CACHE_TRAILING_MARKS or SADANA_MODEL_ACCESS_MAX_RETRIES.
  datatype ModelReply =
    | Says(content: Option<string>, calls: seq<ToolCall>)
    | Overflows
    | Fails
    | ModelCancelled
    | ModelRaises

  // `CompressionRaises`: the same, such as a malformed SADANA_CONTEXT_COMPACTION_TAIL_MESSAGES.
  datatype Compression =
    | Compression(summary: Option<string>, prompt: Option<string>)
    | CompressionCancelled
    | CompressionRaises

  datatype SaveReply = Saved | SaveFails | SaveCancelled(landed: bool)

  datatype DispatchReply = Returns(text: string) | Raises(detail: string) | DispatchCancelled

  // `SpillFails`: a malformed SADANA_CONTEXT_RESULT_SPILL_CHARS; a failed write is not an error.
  datatype SpillReply = Keeps(text: string) | SpillFails | SpillCancelled

  datatype Event =
    | Asked(reply: ModelReply)
    | Compressed(compression: Compression, tailStart: nat)
    | Persisted(history: History, saved: SaveReply)
    | Ran(call: ToolCall, result: DispatchReply)
    | Kept(id: CallId, raw: string, spill: SpillReply)
    | Polled(stop: bool)
    | SummaryAsked(reply: ModelReply)

  type Log = seq<Event>

  datatype World = World(
    model: Log -> ModelReply,
    compress: Log -> Compression,
    save: Log -> SaveReply,
    dispatch: Log -> DispatchReply,
    spill: Log -> SpillReply,
    stop: Log -> bool)

  // `capsReadable`: SADANA_CONVERSATION_TOOL_RESULT_CHARS and SADANA_CONVERSATION_TOOL_TURN_BUDGET_CHARS
  // are numbers and not negative. `expired`: the wall clock budget was already spent at the one reading
  // of the clock a turn gets.
  datatype Config = Config(tools: set<string>, keepTail: int, promptMatches: bool, capsReadable: bool, expired: bool)

  datatype ExitReason =
    | Completed
    | BudgetExhausted
    | WallClockExhausted
    | PersistenceFailed
    | ProviderFailed
    | ContextOverflowUnhandled
    | Interrupted
    | InvalidToolCalls

  datatype Outcome =
    | Drifted                                  // PromptDriftError
    | Escaped                                  // another error leaves run_turn
    | Ended(reason: ExitReason, finalText: Option<string>, modelCalls: nat, turnStart: nat)

  datatype Budget = Budget(maxTotal: int, used: int)

  function ConsumeIteration(b: Budget): Option<Budget> {
    if b.used >= b.maxTotal then None else Some(b.(used := b.used + 1))
  }

  function ResultText(reply: DispatchReply): string {
    match reply
    case Returns(text) => text
    case Raises(detail) => "tool_error: " + detail
    case DispatchCancelled => ""
  }

  function UnknownTool(name: string): string {
    "tool_error: unknown tool " + name
  }

  // ----- the history a log stands for -----------------------------------------------------

  function Step(h: History, e: Event): History {
    match e
    case Asked(Says(content, calls)) => h + [AssistantMessage(content, FirstOfEach(calls))]
    case Compressed(Compression(Some(text), _), k) => Compact(h, k, text)
    case Kept(id, _, Keeps(text)) => h + [ToolMessage(id, text)]
    case SummaryAsked(Says(content, _)) =>
      h + [UserMessage(SUMMARY_REQUEST)] + [AssistantMessage(content, [])]
    case _ => h
  }

  function Replay(start: History, log: Log): History {
    if log == [] then start
    else Step(Replay(start, log[..|log| - 1]), log[|log| - 1])
  }

  // ----- what every event needs to have happened before it --------------------------------

  /** The calls of the tool round `h` is in. */
  function RoundCalls(h: History): seq<ToolCall> {
    if LastAsk(h) < 0 then [] else h[LastAsk(h)].toolCalls
  }

  ghost predicate SavedAt(log: Log, j: nat, calls: seq<ToolCall>) {
    && j < |log|
    && log[j].Persisted? && log[j].saved == Saved
    && log[j].history != [] && log[j].history[|log[j].history| - 1].toolCalls == calls
    && (forall i :: j < i < |log| ==> log[i].Ran? || log[i].Kept?)
  }

  /** The message asking for `calls` is durable, and nothing but this round's work came after. */
  ghost predicate WrittenAhead(log: Log, calls: seq<ToolCall>) {
    exists j: nat :: SavedAt(log, j, calls)
  }

  /** A tool result comes from the dispatch just made, or says that the tool does not exist. */
  ghost predicate ResultOf(cfg: Config, past: Log, calls: seq<ToolCall>, id: CallId, raw: string) {
    if past != [] && past[|past| - 1].Ran? then
      past[|past| - 1].call.id == id && raw == ResultText(past[|past| - 1].result)
    else exists c :: c in calls && c.id == id && c.name !in cfg.tools && raw == UnknownTool(c.name)
  }

  /** Nothing that happened so far ended the turn. */
  predicate Open(past: Log) {
    past == [] ||
    match past[|past| - 1]
    case Asked(Says(_, calls)) => calls != []
    case Asked(reply) => reply == Overflows
    case Compressed(Compression(summary, prompt), _) => summary.Some? || prompt.Some?
    case Compressed(_, _) => false
    case Persisted(_, reply) => reply == Saved
    case Ran(_, reply) => reply != DispatchCancelled
    case Kept(_, _, reply) => reply.Keeps?
    case Polled(stop) => !stop
    case SummaryAsked(_) => false
  }

  ghost predicate Justified(cfg: Config, world: World, start: History, past: Log, e: Event) {
    var h := Replay(start, past);
    Open(past) &&
    match e
    case Asked(reply) =>
      && Pending(h) == {}
      && FromModel(world.model(past), reply)
    case Compressed(reply, k) =>
      && past != [] && past[|past| - 1] == Asked(Overflows)
      && IsBoundary(h, cfg.keepTail, k)
      && reply == world.compress(past)
    case Persisted(history, reply) =>
      && past != [] && past[|past| - 1].Asked? && past[|past| - 1].reply.Says?
      && history == h
      && reply == world.save(past)
    case Ran(call, reply) =>
      && call in RoundCalls(h) && call.id in Pending(h) && call.name in cfg.tools
      && WrittenAhead(past, RoundCalls(h))
      && (past != [] ==> !past[|past| - 1].Ran?)
      && reply == world.dispatch(past)
    case Kept(id, raw, reply) =>
      && id in Pending(h)
      && ResultOf(cfg, past, RoundCalls(h), id, raw)
      && reply == world.spill(past)
    case Polled(stop) =>
      && Pending(h) == {}
      && stop == world.stop(past)
    case SummaryAsked(reply) =>
      && Pending(h) == {}
      && FromModel(world.model(past), reply)
  }

  ghost predicate FromModel(raw: ModelReply, reply: ModelReply) {
    if raw.Says? then reply.Says? && reply.content == raw.content && Uniquified(raw.calls, reply.calls)
    else reply == raw
  }

  /** Every event was justified when it happened and the history was well formed all along. */
  ghost predicate Sound(cfg: Config, world: World, start: History, log: Log)
    decreases |log|
  {
    && WellFormed(Replay(start, log))
    && (log != [] ==>
          && Sound(cfg, world, start, log[..|log| - 1])
          && Justified(cfg, world, start, log[..|log| - 1], log[|log| - 1]))
  }

  /** How a turn ends is what the last thing that happened in it says. */
  function Verdict(log: Log): Option<ExitReason> {
    if log == [] then Some(WallClockExhausted)
    else match log[|log| - 1]
      case Asked(Says(_, calls)) => if calls == [] then Some(Completed) else None
      case Asked(Overflows) => None
      case Asked(Fails) => Some(ProviderFailed)
      case Asked(ModelCancelled) => Some(Interrupted)
      case Asked(ModelRaises) => None
      case Compressed(CompressionCancelled, _) => Some(Interrupted)
      case Compressed(CompressionRaises, _) => None
      case Compressed(Compression(summary, prompt), _) =>
        if summary.None? && prompt.None? then Some(ContextOverflowUnhandled) else None
      case Persisted(_, Saved) => None
      case Persisted(_, SaveFails) => Some(PersistenceFailed)
      case Persisted(_, SaveCancelled(_)) => Some(Interrupted)
      case Ran(_, DispatchCancelled) => Some(Interrupted)
      case Ran(_, _) => None
      case Kept(_, _, SpillCancelled) => Some(Interrupted)
      case Kept(_, _, SpillFails) => None
      case Kept(_, _, Keeps(_)) => Some(InvalidToolCalls)
      case Polled(stop) => if stop then Some(Interrupted) else None
      case SummaryAsked(ModelCancelled) => Some(Interrupted)
      case SummaryAsked(ModelRaises) => None
      case SummaryAsked(_) => Some(BudgetExhausted)
  }

  /** The last thing that happened was an error the turn does not catch. */
  predicate EndsInError(log: Log) {
    log != [] &&
    match log[|log| - 1]
    case Asked(reply) => reply.ModelRaises?
    case Compressed(reply, _) => reply.CompressionRaises?
    case Kept(_, _, reply) => reply.SpillFails?
    case SummaryAsked(reply) => reply.ModelRaises?
    case _ => false
  }

  /** The turn leaves by such an error: before the loop, or in it. */
  predicate Escapes(cfg: Config, log: Log) {
    !cfg.capsReadable || EndsInError(log)
  }

  /** The log of a turn from its start to its end: nothing happened in one that did not get into the
      loop, and any other ended for a reason or by an error. */
  ghost predicate WholeLog(cfg: Config, world: World, start: History, log: Log) {
    && Sound(cfg, world, start, log)
    && if cfg.promptMatches && cfg.capsReadable then EndsInError(log) || Verdict(log).Some? else log == []
  }

  /** The last thing that happened cut a tool round short. */
  predicate CutShort(log: Log) {
    log != [] &&
    match log[|log| - 1]
    case Persisted(_, reply) => reply != Saved
    case Ran(_, reply) => reply == DispatchCancelled
    case Kept(_, _, reply) => !reply.Keeps?
    case _ => false
  }

  function FinalText(log: Log): Option<string> {
    if log == [] then None
    else match log[|log| - 1]
      case Asked(Says(content, calls)) => if calls == [] then content else None
      case SummaryAsked(Says(content, _)) => content
      case _ => None
  }

  /** Model calls a turn reports: every reply in the loop, and the summary only if it came. */
  function ReportedCalls(log: Log): nat {
    if log == [] then 0
    else ReportedCalls(log[..|log| - 1]) +
         match log[|log| - 1]
         case Asked(reply) => if reply.ModelCancelled? || reply.ModelRaises? then 0 else 1
         case SummaryAsked(Says(_, _)) => 1
         case _ => 0
  }

  predicate NoSummary(log: Log) {
    forall k :: 0 <= k < |log| ==> log[k].Compressed? ==>
      log[k].compression.Compression? ==> log[k].compression.summary.None?
  }

  // ----- one event at a time --------------------------------------------------------------

  lemma {:induction false} Extend(cfg: Config, world: World, start: History, log: Log, e: Event)
    requires Sound(cfg, world, start, log)
    requires Justified(cfg, world, start, log, e)
    requires WellFormed(Step(Replay(start, log), e))
    ensures Sound(cfg, world, start, log + [e])
    ensures Replay(start, log + [e]) == Step(Replay(start, log), e)
    ensures ReportedCalls(log + [e]) == ReportedCalls(log) + ReportedCalls([e])
  {
    assert (log + [e])[..|log|] == log;
    assert [e][..0] == [];
    assert ReportedCalls([e][..0]) == 0;
  }

  lemma {:induction false} GrowWellFormed(h: History, m: Message)
    requires WellFormed(h) && MayFollow(h, m) && DistinctIds(m.toolCalls)
    ensures Append(h, m) == Ok(h + [m])
    ensures WellFormed(h + [m])
  {
    AcceptedKeepsPaired(h, m);
  }

  /** A reply's calls open a round in which all of them, and only they, are waiting. */
  lemma {:induction false} AskedOpensRound(h: History, raw: ModelReply, content: Option<string>, calls: seq<ToolCall>)
    requires WellFormed(h) && Pending(h) == {} && FromModel(raw, Says(content, calls))
    ensures var m := AssistantMessage(content, FirstOfEach(calls));
            && MayFollow(h, m) && DistinctIds(m.toolCalls) && WellFormed(h + [m])
            && Pending(h + [m]) == Declared(m.toolCalls)
            && (calls != [] ==> m.toolCalls != [] && RoundCalls(h + [m]) == m.toolCalls)
  {
    var m := AssistantMessage(content, FirstOfEach(calls));
    UniquifiedDistinct(raw.calls, calls);
    FirstOfEachFacts(calls);
    GrowWellFormed(h, m);
    PendingSnoc(h, m);
    if calls != [] {
      assert LastAsk(h + [m]) == |h|;
    }
  }

  /** A result closes its own call and leaves the round otherwise as it was. */
  lemma {:induction false} ResultClosesCall(h: History, id: CallId, text: string)
    requires WellFormed(h) && id in Pending(h)
    ensures var m := ToolMessage(id, text);
            && MayFollow(h, m) && WellFormed(h + [m])
            && Pending(h + [m]) == Pending(h) - {id}
            && RoundCalls(h + [m]) == RoundCalls(h)
  {
    var m := ToolMessage(id, text);
    GrowWellFormed(h, m);
    PendingSnoc(h, m);
    assert (h + [m])[..|h|] == h;
    assert LastAsk(h + [m]) == LastAsk(h);
  }
}
