/** The turn loop itself (conversation.py, `run_turn` and `_append_invalid_results`). */
module TurnLoop {
  import opened Arithmetic
  import opened Options
  import opened Transcript
  import opened HistoryRepair
  import opened Compaction
  import opened ToolCalls
  import opened TurnModel

  /** What the loop keeps, whatever it has met so far: the log is sound and says what the history is. */
  ghost predicate InTurn(cfg: Config, world: World, start: History, messages: History, log: Log) {
    Sound(cfg, world, start, log) && messages == Replay(start, log)
  }

  datatype Halt = Going | Cancelled | Failed

  /** The calls of an open round that still wait for a result, and are all different. */
  ghost predicate Waiting(h: History, calls: seq<ToolCall>) {
    && DistinctIds(calls)
    && (forall c :: c in calls ==> c.id in Pending(h) && c in RoundCalls(h))
  }

  /** The events a tool round adds leave no dispatch without its result behind. */
  ghost predicate Settled(log: Log) {
    log != [] ==> !log[|log| - 1].Ran?
  }

  lemma {:induction false} WaitingShrinks(h: History, calls: seq<ToolCall>, text: string)
    requires WellFormed(h) && calls != [] && Waiting(h, calls)
    ensures Waiting(h + [ToolMessage(calls[0].id, text)], calls[1..])
  {
    hide Pending, Paired;
    var rest := calls[1..];
    assert calls == [calls[0]] + rest;
    assert calls[0] in calls;
    ResultClosesCall(h, calls[0].id, text);
    forall d | d in rest ensures d in calls && d.id != calls[0].id {
      var k :| 0 <= k < |rest| && rest[k] == d;
      assert calls[k + 1] == d;
    }
    assert forall k :: 0 <= k < |rest| ==> rest[k] == calls[k + 1];
  }

  lemma {:induction false} WrittenAheadStays(log: Log, calls: seq<ToolCall>, e: Event)
    requires WrittenAhead(log, calls) && (e.Ran? || e.Kept?)
    ensures WrittenAhead(log + [e], calls)
  {
    var j: nat :| SavedAt(log, j, calls);
    assert SavedAt(log + [e], j, calls);
  }

  lemma {:induction false} SoundNow(cfg: Config, world: World, start: History, log: Log)
    requires Sound(cfg, world, start, log)
    ensures WellFormed(Replay(start, log))
  {
  }

  /** The checkpoint every tool result passes before it is appended. */
  method KeepResult(cfg: Config, world: World, ghost start: History, messages0: History,
                    ghost waiting: seq<ToolCall>, id: CallId, raw: string, log0: Log)
    returns (messages: History, log: Log, halt: Halt)
    requires InTurn(cfg, world, start, messages0, log0)
    requires waiting != [] && waiting[0].id == id && Waiting(messages0, waiting) && Open(log0)
    requires ResultOf(cfg, log0, RoundCalls(messages0), id, raw)
    ensures InTurn(cfg, world, start, messages, log)
    ensures log == log0 + [Kept(id, raw, world.spill(log0))]
    ensures ReportedCalls(log) == ReportedCalls(log0)
    ensures RoundCalls(messages) == RoundCalls(messages0) && |messages| >= |messages0|
    ensures halt == match world.spill(log0) { case Keeps(_) => Going case SpillFails => Failed case SpillCancelled => Cancelled }
    ensures halt.Going? ==> Waiting(messages, waiting[1..]) && Pending(messages) == Pending(messages0) - {id}
  {
    assert waiting[0] in waiting;
    var reply := world.spill(log0);
    var e := Kept(id, raw, reply);
    if reply.Keeps? {
      ResultClosesCall(messages0, id, reply.text);
      WaitingShrinks(messages0, waiting, reply.text);
      messages := Append(messages0, ToolMessage(id, reply.text)).value;
    } else {
      messages := messages0;
    }
    Extend(cfg, world, start, log0, e);
    log := log0 + [e];
    halt := match reply { case Keeps(_) => Going case SpillFails => Failed case SpillCancelled => Cancelled };
  }

  lemma {:induction false} DeclaredFrom(calls: seq<ToolCall>, i: nat)
    requires i < |calls|
    ensures calls[i..][0] == calls[i] && calls[i..][1..] == calls[i + 1..]
    ensures Declared(calls[i..]) == {calls[i].id} + Declared(calls[i + 1..])
  {
  }

  method AppendInvalidResults(cfg: Config, world: World, ghost start: History,
                              messages0: History, invalid: seq<ToolCall>, log0: Log)
    returns (messages: History, log: Log, halt: Halt)
    requires InTurn(cfg, world, start, messages0, log0)
    requires Settled(log0) && Open(log0) && Waiting(messages0, invalid)
    requires forall c :: c in invalid ==> c.name !in cfg.tools
    ensures InTurn(cfg, world, start, messages, log)
    ensures log0 <= log && ReportedCalls(log) == ReportedCalls(log0)
    ensures forall k :: |log0| <= k < |log| ==> log[k].Kept?
    ensures RoundCalls(messages) == RoundCalls(messages0) && |messages| >= |messages0|
    ensures halt.Going? ==> Pending(messages) == Pending(messages0) - Declared(invalid) && Open(log)
    ensures !halt.Going? || invalid != [] ==> |log| > |log0|
    ensures halt.Going? && invalid != [] ==> log[|log| - 1].spill.Keeps?
    ensures halt.Failed? ==> EndsInError(log)
    ensures halt.Cancelled? ==> EndsAs(log, Interrupted) && CutShort(log)
  {
    hide Pending, Paired, WellFormed, RoundCalls, InTurn;
    messages, log, halt := messages0, log0, Going;
    for i := 0 to |invalid|
      invariant InTurn(cfg, world, start, messages, log)
      invariant log0 <= log && ReportedCalls(log) == ReportedCalls(log0)
      invariant forall k :: |log0| <= k < |log| ==> log[k].Kept?
      invariant Settled(log) && Open(log)
      invariant RoundCalls(messages) == RoundCalls(messages0) && |messages| >= |messages0|
      invariant Waiting(messages, invalid[i..])
      invariant Pending(messages) - Declared(invalid[i..]) == Pending(messages0) - Declared(invalid)
      invariant i > 0 ==> |log| > |log0| && log[|log| - 1].spill.Keeps?
      invariant halt.Going?
    {
      var call := invalid[i];
      DeclaredFrom(invalid, i);
      assert call in invalid[i..];
      assert ResultOf(cfg, log, RoundCalls(messages), call.id, UnknownTool(call.name));
      messages, log, halt :=
        KeepResult(cfg, world, start, messages, invalid[i..], call.id, UnknownTool(call.name), log);
      if !halt.Going? {
        return;
      }
    }
    assert invalid[|invalid|..] == [];
  }

  lemma {:induction false} RunStep(cfg: Config, world: World, start: History, h: History, log: Log, call: ToolCall)
    requires InTurn(cfg, world, start, h, log) && Settled(log) && Open(log)
    requires call in RoundCalls(h) && call.id in Pending(h) && call.name in cfg.tools
    requires WrittenAhead(log, RoundCalls(h))
    ensures var next := log + [Ran(call, world.dispatch(log))];
            && InTurn(cfg, world, start, h, next) && ReportedCalls(next) == ReportedCalls(log)
            && WrittenAhead(next, RoundCalls(h))
            && (world.dispatch(log).DispatchCancelled? ==> EndsAs(next, Interrupted) && CutShort(next))
  {
    hide Pending, Paired, RoundCalls;
    Extend(cfg, world, start, log, Ran(call, world.dispatch(log)));
    WrittenAheadStays(log, RoundCalls(h), Ran(call, world.dispatch(log)));
  }

  /** The calls a log ran, in the order it ran them. */
  function CallsRun(log: Log): seq<ToolCall> {
    if log == [] then []
    else CallsRun(log[..|log| - 1]) + (if log[|log| - 1].Ran? then [log[|log| - 1].call] else [])
  }

  lemma {:induction false} CallsRunSnoc(log: Log, e: Event)
    ensures CallsRun(log + [e]) == CallsRun(log) + (if e.Ran? then [e.call] else [])
  {
    assert (log + [e])[..|log|] == log;
  }

  lemma {:induction false} CallsRunTaken(before: seq<ToolCall>, calls: seq<ToolCall>, i: nat)
    requires i < |calls|
    ensures before + calls[..i] + [calls[i]] == before + calls[..i + 1]
    ensures before <= before + calls[..i + 1] <= before + calls
  {
  }

  /** The dispatch loop of a tool round: run each valid call, in order, and record its result. */
  method DispatchValid(cfg: Config, world: World, ghost start: History,
                       messages0: History, valid: seq<ToolCall>, log0: Log)
    returns (messages: History, log: Log, halt: Halt)
    requires InTurn(cfg, world, start, messages0, log0)
    requires Settled(log0) && Open(log0) && Waiting(messages0, valid)
    requires forall c :: c in valid ==> c.name in cfg.tools
    requires WrittenAhead(log0, RoundCalls(messages0))
    ensures InTurn(cfg, world, start, messages, log)
    ensures log0 <= log && ReportedCalls(log) == ReportedCalls(log0)
    ensures forall k :: |log0| <= k < |log| ==> log[k].Ran? || log[k].Kept?
    ensures CallsRun(log0) <= CallsRun(log) <= CallsRun(log0) + valid
    ensures halt.Going? ==> CallsRun(log) == CallsRun(log0) + valid
    ensures |messages| >= |messages0|
    ensures halt.Going? ==> Pending(messages) == Pending(messages0) - Declared(valid) && Open(log)
    ensures !halt.Going? ==> |log| > |log0|
    ensures halt.Cancelled? ==> EndsAs(log, Interrupted) && CutShort(log)
    ensures halt.Failed? ==> EndsInError(log)
  {
    hide Pending, Paired, WellFormed, RoundCalls, InTurn, CallsRun, ReportedCalls, WrittenAhead;
    messages, log, halt := messages0, log0, Going;
    for i := 0 to |valid|
      invariant InTurn(cfg, world, start, messages, log)
      invariant log0 <= log && ReportedCalls(log) == ReportedCalls(log0)
      invariant forall k :: |log0| <= k < |log| ==> log[k].Ran? || log[k].Kept?
      invariant CallsRun(log) == CallsRun(log0) + valid[..i]
      invariant Settled(log) && Open(log)
      invariant RoundCalls(messages) == RoundCalls(messages0) && |messages| >= |messages0|
      invariant Waiting(messages, valid[i..])
      invariant WrittenAhead(log, RoundCalls(messages0))
      invariant Pending(messages) - Declared(valid[i..]) == Pending(messages0) - Declared(valid)
      invariant halt.Going?
    {
      var call := valid[i];
      DeclaredFrom(valid, i);
      assert call in valid[i..];
      var result := world.dispatch(log);
      var ran := Ran(call, result);
      RunStep(cfg, world, start, messages, log, call);
      CallsRunSnoc(log, ran);
      CallsRunTaken(CallsRun(log0), valid, i);
      log := log + [ran];
      if result.DispatchCancelled? {
        return messages, log, Cancelled;
      }
      WrittenAheadStays(log, RoundCalls(messages0), Kept(call.id, ResultText(result), world.spill(log)));
      CallsRunSnoc(log, Kept(call.id, ResultText(result), world.spill(log)));
      messages, log, halt :=
        KeepResult(cfg, world, start, messages, valid[i..], call.id, ResultText(result), log);
      if !halt.Going? {
        return;
      }
    }
    assert valid[|valid|..] == [] && valid[..|valid|] == valid;
  }

  // ----- one tool round --------------------------------------------------------------------

  function Named(calls: seq<ToolCall>, names: set<string>): seq<ToolCall> {
    if calls == [] then []
    else (if calls[0].name in names then [calls[0]] else []) + Named(calls[1..], names)
  }

  function Unnamed(calls: seq<ToolCall>, names: set<string>): seq<ToolCall> {
    if calls == [] then []
    else (if calls[0].name in names then [] else [calls[0]]) + Unnamed(calls[1..], names)
  }

  lemma {:induction false} SplitMembers(calls: seq<ToolCall>, names: set<string>)
    ensures forall c :: c in Named(calls, names) <==> c in calls && c.name in names
    ensures forall c :: c in Unnamed(calls, names) <==> c in calls && c.name !in names
  {
    if calls == [] {
    } else {
      assert calls == [calls[0]] + calls[1..];
      SplitMembers(calls[1..], names);
    }
  }

  lemma {:induction false} DistinctTail(calls: seq<ToolCall>)
    requires calls != [] && DistinctIds(calls)
    ensures DistinctIds(calls[1..]) && forall c :: c in calls[1..] ==> c.id != calls[0].id
  {
  }

  lemma {:induction false} DistinctCons(head: ToolCall, rest: seq<ToolCall>)
    requires DistinctIds(rest) && forall c :: c in rest ==> c.id != head.id
    ensures DistinctIds([head] + rest)
  {
  }

  lemma {:induction false} SplitFacts(calls: seq<ToolCall>, names: set<string>)
    ensures forall c :: c in Named(calls, names) <==> c in calls && c.name in names
    ensures forall c :: c in Unnamed(calls, names) <==> c in calls && c.name !in names
    ensures DistinctIds(calls) ==> DistinctIds(Named(calls, names)) && DistinctIds(Unnamed(calls, names))
  {
    SplitMembers(calls, names);
    if calls == [] || !DistinctIds(calls) {
    } else {
      var rest := calls[1..];
      SplitFacts(rest, names);
      DistinctTail(calls);
      SplitMembers(rest, names);
      hide DistinctIds;
      DistinctCons(calls[0], if calls[0].name in names then Named(rest, names) else Unnamed(rest, names));
      assert [] + Named(rest, names) == Named(rest, names) && [] + Unnamed(rest, names) == Unnamed(rest, names);
    }
  }

  lemma {:induction false} AllUnnamed(calls: seq<ToolCall>, names: set<string>)
    requires Named(calls, names) == []
    ensures Unnamed(calls, names) == calls
  {
    if calls == [] {
    } else {
      AllUnnamed(calls[1..], names);
      assert calls == [calls[0]] + calls[1..];
    }
  }

  lemma {:induction false} SplitIds(calls: seq<ToolCall>, names: set<string>)
    requires DistinctIds(calls)
    ensures Declared(Named(calls, names)) + Declared(Unnamed(calls, names)) == Declared(calls)
    ensures Declared(Named(calls, names)) !! Declared(Unnamed(calls, names))
  {
    SplitFacts(calls, names);
    forall c, d | c in calls && d in calls && c.id == d.id ensures c == d {
      var i :| 0 <= i < |calls| && calls[i] == c;
      var j :| 0 <= j < |calls| && calls[j] == d;
    }
  }

  datatype RoundEnd = NextCall | TurnOver(reason: ExitReason) | Raised

  /** What the last event says about how a tool round ended the turn. */
  predicate EndsAs(log: Log, reason: ExitReason) {
    Verdict(log) == Some(reason) && FinalText(log) == None
  }

  /** A round just asked for: every call of `calls` waits, and the message asking is the last one. */
  ghost predicate RoundOpen(messages: History, calls: seq<ToolCall>) {
    && calls != [] && DistinctIds(calls)
    && messages != [] && messages[|messages| - 1].toolCalls == calls
    && RoundCalls(messages) == calls && Pending(messages) == Declared(calls)
  }

  lemma {:induction false} SplitWaiting(h: History, calls: seq<ToolCall>, names: set<string>)
    requires RoundOpen(h, calls)
    ensures Waiting(h, Named(calls, names)) && Waiting(h, Unnamed(calls, names))
  {
    hide Pending, RoundCalls;
    SplitFacts(calls, names);
  }

  lemma {:induction false} SaveStep(cfg: Config, world: World, start: History, h: History, log: Log, calls: seq<ToolCall>)
    requires InTurn(cfg, world, start, h, log)
    requires log != [] && log[|log| - 1].Asked? && log[|log| - 1].reply.Says? && RoundOpen(h, calls) && Open(log)
    ensures RoundCalls(h) == calls
    ensures var next := log + [Persisted(h, world.save(log))];
            && InTurn(cfg, world, start, h, next)
            && ReportedCalls(next) == ReportedCalls(log)
            && (world.save(log) == Saved ==> SavedAt(next, |log|, calls))
            && (world.save(log) != Saved ==>
                  EndsAs(next, if world.save(log).SaveFails? then PersistenceFailed else Interrupted) && CutShort(next))
  {
  }

  lemma {:induction false} PollStep(cfg: Config, world: World, start: History, h: History, log: Log)
    requires InTurn(cfg, world, start, h, log) && Pending(h) == {} && Open(log)
    ensures var next := log + [Polled(world.stop(log))];
            && InTurn(cfg, world, start, h, next)
            && ReportedCalls(next) == ReportedCalls(log)
            && (world.stop(log) ==> EndsAs(next, Interrupted))
  {
    hide Pending, Paired;
    Extend(cfg, world, start, log, Polled(world.stop(log)));
  }

  lemma {:induction false} ValidStillWaiting(h0: History, h1: History, calls: seq<ToolCall>, names: set<string>)
    requires RoundOpen(h0, calls) && RoundCalls(h1) == RoundCalls(h0)
    requires Pending(h1) == Pending(h0) - Declared(Unnamed(calls, names))
    ensures Waiting(h1, Named(calls, names))
    ensures Pending(h1) - Declared(Named(calls, names)) == {}
  {
    hide Pending, RoundCalls;
    SplitFacts(calls, names);
    SplitIds(calls, names);
  }

  lemma {:induction false} StillAhead(saved: Log, log: Log, at: nat, calls: seq<ToolCall>)
    requires SavedAt(saved, at, calls) && saved <= log
    requires forall k :: |saved| <= k < |log| ==> log[k].Kept?
    ensures WrittenAhead(log, calls)
    ensures Settled(saved) ==> Settled(log)
  {
    assert SavedAt(log, at, calls);
  }

  /** What a tool round leaves: a sound log with no compaction in it, and nothing pending unless the
      turn was cut short or an error got out. */
  ghost predicate RoundLeaves(cfg: Config, world: World, start: History, messages0: History, log0: Log,
                              messages: History, log: Log, end: RoundEnd) {
    && InTurn(cfg, world, start, messages, log)
    && log0 <= log && ReportedCalls(log) == ReportedCalls(log0) && |messages| >= |messages0|
    && (forall k :: |log0| <= k < |log| ==> !log[k].Compressed?)
    && match end
       case NextCall => Pending(messages) == {} && Open(log)
       case TurnOver(reason) =>
         && EndsAs(log, reason) && (Pending(messages) == {} || CutShort(log))
         && reason in {PersistenceFailed, Interrupted, InvalidToolCalls}
         && (reason == InvalidToolCalls ==> forall c :: c in RoundCalls(messages) ==> c.name !in cfg.tools)
       case Raised => |log| > |log0| && EndsInError(log)
  }

  /** A batch with no call to a known tool: answer each with an error and give up. */
  method HopelessRound(cfg: Config, world: World, ghost start: History,
                       messages0: History, calls: seq<ToolCall>, log0: Log)
    returns (messages: History, log: Log, end: RoundEnd)
    requires InTurn(cfg, world, start, messages0, log0)
    requires Settled(log0) && Open(log0) && RoundOpen(messages0, calls) && Waiting(messages0, calls)
    requires forall c :: c in calls ==> c.name !in cfg.tools
    ensures RoundLeaves(cfg, world, start, messages0, log0, messages, log, end)
  {
    hide Pending, Paired, WellFormed, RoundCalls, InTurn;
    var halt: Halt;
    messages, log, halt := AppendInvalidResults(cfg, world, start, messages0, calls, log0);
    match halt {
      case Going => end := TurnOver(InvalidToolCalls);
      case Cancelled => end := TurnOver(Interrupted);
      case Failed => end := Raised;
    }
  }

  /** The answers of a round whose request is durable: unknown tools first, then the real work. */
  method AnswerRound(cfg: Config, world: World, ghost start: History,
                     messages0: History, calls: seq<ToolCall>, log0: Log)
    returns (messages: History, log: Log, halt: Halt)
    requires InTurn(cfg, world, start, messages0, log0)
    requires Settled(log0) && Open(log0) && RoundOpen(messages0, calls) && RoundCalls(messages0) == calls
    requires log0 != [] && SavedAt(log0, |log0| - 1, calls)
    ensures InTurn(cfg, world, start, messages, log)
    ensures log0 <= log && ReportedCalls(log) == ReportedCalls(log0) && |messages| >= |messages0|
    ensures forall k :: |log0| <= k < |log| ==> log[k].Ran? || log[k].Kept?
    ensures halt.Going? ==> Pending(messages) == {} && Open(log)
    ensures halt.Cancelled? ==> EndsAs(log, Interrupted) && CutShort(log)
    ensures halt.Failed? ==> EndsInError(log)
  {
    hide Pending, Paired, WellFormed, RoundCalls, InTurn, Waiting, SavedAt, WrittenAhead, Declared, DistinctIds, RoundOpen;
    hide Named, Unnamed, Open, EndsAs, CutShort, ReportedCalls;
    var valid, invalid := Named(calls, cfg.tools), Unnamed(calls, cfg.tools);
    SplitFacts(calls, cfg.tools);
    SplitWaiting(messages0, calls, cfg.tools);
    messages, log, halt := AppendInvalidResults(cfg, world, start, messages0, invalid, log0);
    if halt.Going? {
      ValidStillWaiting(messages0, messages, calls, cfg.tools);
      StillAhead(log0, log, |log0| - 1, calls);
      messages, log, halt := DispatchValid(cfg, world, start, messages, valid, log);
    }
  }

  /** A batch with at least one call to a known tool: make the request durable, answer it, then look
      whether to stop. */
  method WorkRound(cfg: Config, world: World, ghost start: History,
                   messages0: History, calls: seq<ToolCall>, log0: Log)
    returns (messages: History, log: Log, end: RoundEnd)
    requires InTurn(cfg, world, start, messages0, log0)
    requires log0 != [] && log0[|log0| - 1].Asked? && log0[|log0| - 1].reply.Says?
    requires RoundOpen(messages0, calls) && Open(log0)
    ensures RoundLeaves(cfg, world, start, messages0, log0, messages, log, end)
  {
    hide Pending, Paired, WellFormed, RoundCalls, InTurn, SavedAt, RoundOpen, Justified;
    SaveStep(cfg, world, start, messages0, log0, calls);
    var saved := world.save(log0);
    log := log0 + [Persisted(messages0, saved)];
    match saved {
      case SaveFails => return messages0, log, TurnOver(PersistenceFailed);
      case SaveCancelled(_) => return messages0, log, TurnOver(Interrupted);
      case Saved =>
    }
    var halt: Halt;
    messages, log, halt := AnswerRound(cfg, world, start, messages0, calls, log);
    match halt {
      case Cancelled => return messages, log, TurnOver(Interrupted);
      case Failed => return messages, log, Raised;
      case Going =>
    }
    PollStep(cfg, world, start, messages, log);
    var stop := world.stop(log);
    log := log + [Polled(stop)];
    end := if stop then TurnOver(Interrupted) else NextCall;
  }

  method ToolRound(cfg: Config, world: World, ghost start: History,
                   messages0: History, calls: seq<ToolCall>, log0: Log)
    returns (messages: History, log: Log, end: RoundEnd)
    requires InTurn(cfg, world, start, messages0, log0)
    requires log0 != [] && log0[|log0| - 1].Asked? && log0[|log0| - 1].reply.Says?
    requires RoundOpen(messages0, calls) && Open(log0)
    ensures RoundLeaves(cfg, world, start, messages0, log0, messages, log, end)
  {
    hide Pending, Paired, WellFormed, RoundCalls, InTurn, Waiting, Open, EndsAs, CutShort, ReportedCalls, RoundLeaves;
    var valid, invalid := Named(calls, cfg.tools), Unnamed(calls, cfg.tools);
    if valid == [] {
      SplitFacts(calls, cfg.tools);
      SplitWaiting(messages0, calls, cfg.tools);
      AllUnnamed(calls, cfg.tools);
      messages, log, end := HopelessRound(cfg, world, start, messages0, invalid, log0);
    } else {
      messages, log, end := WorkRound(cfg, world, start, messages0, calls, log0);
    }
  }

  // ----- the turn --------------------------------------------------------------------------

  /** The history the loop starts from: repaired, then the user's message. */
  function Opening(messages: History, userInput: string): History {
    Repaired(messages) + [UserMessage(userInput)]
  }

  lemma {:induction false} OpeningWellFormed(messages: History, userInput: string)
    requires WellFormed(messages)
    ensures MayFollow(Repaired(messages), UserMessage(userInput))
    ensures WellFormed(Opening(messages, userInput)) && Pending(Opening(messages, userInput)) == {}
  {
    RepairCloses(messages);
    GrowWellFormed(Repaired(messages), UserMessage(userInput));
    PendingSnoc(Repaired(messages), UserMessage(userInput));
  }

  lemma {:induction false} AskStep(cfg: Config, world: World, start: History, messages: History, log: Log,
                                   raw: ModelReply, reply: ModelReply)
    requires InTurn(cfg, world, start, messages, log) && Pending(messages) == {} && Open(log)
    requires raw == world.model(log) && FromModel(raw, reply)
    ensures InTurn(cfg, world, start, Step(messages, Asked(reply)), log + [Asked(reply)])
    ensures ReportedCalls(log + [Asked(reply)]) == ReportedCalls(log) + (if reply.ModelCancelled? || reply.ModelRaises? then 0 else 1)
    ensures reply.Says? ==>
              Append(messages, AssistantMessage(reply.content, FirstOfEach(reply.calls)))
              == Ok(Step(messages, Asked(reply)))
    ensures reply.Says? && reply.calls == [] ==> Pending(Step(messages, Asked(reply))) == {}
    ensures reply.Says? && reply.calls != [] ==>
              RoundOpen(Step(messages, Asked(reply)), FirstOfEach(reply.calls))
    ensures !reply.Says? ==> Step(messages, Asked(reply)) == messages
  {
    hide Paired;
    SoundNow(cfg, world, start, log);
    if reply.Says? {
      AskedOpensRound(messages, raw, reply.content, reply.calls);
    }
    Extend(cfg, world, start, log, Asked(reply));
    assert [Asked(reply)][..0] == [];
  }

  lemma {:induction false} CompressStep(cfg: Config, world: World, start: History, messages: History, log: Log, k: nat)
    requires InTurn(cfg, world, start, messages, log) && Pending(messages) == {}
    requires log != [] && log[|log| - 1] == Asked(Overflows) && IsBoundary(messages, cfg.keepTail, k)
    ensures var e := Compressed(world.compress(log), k);
            && InTurn(cfg, world, start, Step(messages, e), log + [e])
            && ReportedCalls(log + [e]) == ReportedCalls(log)
            && Pending(Step(messages, e)) == {}
  {
    hide Paired;
    SoundNow(cfg, world, start, log);
    var reply := world.compress(log);
    if reply.Compression? && reply.summary.Some? {
      CompactAtBoundary(messages, cfg.keepTail, k, reply.summary.value);
    }
    Extend(cfg, world, start, log, Compressed(reply, k));
  }

  lemma {:induction false} SummaryStep(cfg: Config, world: World, start: History, messages: History, log: Log,
                                       raw: ModelReply, reply: ModelReply)
    requires InTurn(cfg, world, start, messages, log) && Pending(messages) == {} && Open(log)
    requires raw == world.model(log) && FromModel(raw, reply)
    ensures InTurn(cfg, world, start, Step(messages, SummaryAsked(reply)), log + [SummaryAsked(reply)])
    ensures Pending(Step(messages, SummaryAsked(reply))) == {}
    ensures ReportedCalls(log + [SummaryAsked(reply)]) == ReportedCalls(log) + (if reply.Says? then 1 else 0)
    ensures MayFollow(messages, UserMessage(SUMMARY_REQUEST))
    ensures reply.Says? ==>
              MayFollow(messages + [UserMessage(SUMMARY_REQUEST)], AssistantMessage(reply.content, []))
  {
    hide Paired;
    SoundNow(cfg, world, start, log);
    var ask := UserMessage(SUMMARY_REQUEST);
    GrowWellFormed(messages, ask);
    PendingSnoc(messages, ask);
    if reply.Says? {
      var answer := AssistantMessage(reply.content, []);
      GrowWellFormed(messages + [ask], answer);
      PendingSnoc(messages + [ask], answer);
    }
    Extend(cfg, world, start, log, SummaryAsked(reply));
    assert [SummaryAsked(reply)][..0] == [];
  }

  /** `complete()`: one answer from the model, its tool calls given distinct ids. */
  method Complete(world: World, log: Log) returns (reply: ModelReply)
    ensures FromModel(world.model(log), reply)
  {
    reply := world.model(log);
    if reply.Says? {
      var calls := Uniquify(reply.calls);
      reply := Says(reply.content, calls);
    }
  }

  /** The epilogue of a turn that ran out of iterations: one last question, without tools. */
  method Summarise(cfg: Config, world: World, ghost start: History, messages0: History, log0: Log)
    returns (messages: History, log: Log, end: RoundEnd, finalText: Option<string>)
    requires InTurn(cfg, world, start, messages0, log0) && Pending(messages0) == {} && Open(log0)
    ensures InTurn(cfg, world, start, messages, log) && Pending(messages) == {}
    ensures |log| == |log0| + 1 && log0 <= log && log[|log0|].SummaryAsked?
    ensures ReportedCalls(log) == ReportedCalls(log0) + (if log[|log0|].reply.Says? then 1 else 0)
    ensures |messages| >= |messages0|
    ensures end.Raised? <==> EndsInError(log)
    ensures !end.NextCall?
    ensures end.TurnOver? ==> Verdict(log) == Some(end.reason) && FinalText(log) == finalText
    ensures end.TurnOver? ==> end.reason in {BudgetExhausted, Interrupted}
    ensures NoSummary(log) ==> NoSummary(log0)
  {
    hide Pending, Paired, WellFormed, InTurn;
    var reply := Complete(world, log0);
    SummaryStep(cfg, world, start, messages0, log0, world.model(log0), reply);
    messages, log := messages0, log0 + [SummaryAsked(reply)];
    NoSummarySplit(log0, log);
    end, finalText := TurnOver(BudgetExhausted), None;
    if reply.Says? {
      messages := Append(messages, UserMessage(SUMMARY_REQUEST)).value;
      messages := Append(messages, AssistantMessage(reply.content, [])).value;
      finalText := reply.content;
    } else if reply.ModelCancelled? {
      end := TurnOver(Interrupted);
    } else if reply.ModelRaises? {
      end := Raised;
    }
  }

  lemma {:induction false} NoSummarySplit(log0: Log, log: Log)
    requires log0 <= log && forall k :: |log0| <= k < |log| ==> !log[k].Compressed?
    ensures NoSummary(log) <==> NoSummary(log0)
  {
  }

  lemma {:induction false} StartsSound(cfg: Config, world: World, start: History)
    requires WellFormed(start)
    ensures InTurn(cfg, world, start, start, [])
    ensures !cfg.promptMatches || !cfg.capsReadable ==> WholeLog(cfg, world, start, [])
    ensures ReportedCalls([]) == 0 && !EndsInError([])
  {
  }

  /** The overflow branch: compact at a safe boundary if the context checkpoint offers a summary. */
  method Shorten(cfg: Config, world: World, ghost start: History, messages0: History, log0: Log)
    returns (messages: History, log: Log, end: RoundEnd)
    requires InTurn(cfg, world, start, messages0, log0) && Pending(messages0) == {} && Open(log0)
    requires log0 != [] && log0[|log0| - 1] == Asked(Overflows)
    ensures InTurn(cfg, world, start, messages, log) && Pending(messages) == {}
    ensures |log| == |log0| + 1 && log0 <= log && ReportedCalls(log) == ReportedCalls(log0)
    ensures log[|log0|].Compressed? && log[|log0|].compression == world.compress(log0)
    ensures IsBoundary(messages0, cfg.keepTail, log[|log0|].tailStart)
    ensures messages == Step(messages0, log[|log0|])
    ensures end.TurnOver? ==> EndsAs(log, end.reason) && end.reason in {Interrupted, ContextOverflowUnhandled}
    ensures (end.Raised? <==> EndsInError(log)) && (end.NextCall? ==> Open(log))
    ensures NoSummary(log) ==> NoSummary(log0) && messages == messages0
  {
    hide Pending, Paired, WellFormed, InTurn, IsBoundary;
    var k := FindCompactionBoundary(messages0, cfg.keepTail);
    CompressStep(cfg, world, start, messages0, log0, k);
    var compression := world.compress(log0);
    log := log0 + [Compressed(compression, k)];
    assert log[|log0|] == Compressed(compression, k);
    assert forall i :: 0 <= i < |log0| ==> log[i] == log0[i];
    if compression.CompressionCancelled? {
      return messages0, log, TurnOver(Interrupted);
    }
    if compression.CompressionRaises? {
      return messages0, log, Raised;
    }
    messages, end := messages0, NextCall;
    if compression.summary.Some? {
      messages := Compact(messages0, k, compression.summary.value);
    } else if compression.prompt.None? {
      end := TurnOver(ContextOverflowUnhandled);
    }
  }

  /** One pass of the loop from the moment it asks the model. */
  method AskModel(cfg: Config, world: World, ghost start: History, messages0: History, log0: Log)
    returns (messages: History, log: Log, end: RoundEnd, finalText: Option<string>)
    requires InTurn(cfg, world, start, messages0, log0) && Pending(messages0) == {} && Open(log0)
    ensures InTurn(cfg, world, start, messages, log)
    ensures log0 < log && log[|log0|].Asked?
    ensures var reply := log[|log0|].reply;
            ReportedCalls(log) == ReportedCalls(log0) + (if reply.ModelCancelled? || reply.ModelRaises? then 0 else 1)
    ensures end.NextCall? ==> Pending(messages) == {} && Open(log)
    ensures end.TurnOver? ==> Verdict(log) == Some(end.reason) && FinalText(log) == finalText
    ensures end.TurnOver? ==> Pending(messages) == {} || CutShort(log)
    ensures end.TurnOver? ==> !end.reason.WallClockExhausted? && !end.reason.BudgetExhausted?
    ensures end.TurnOver? && end.reason == InvalidToolCalls ==>
              forall c :: c in RoundCalls(messages) ==> c.name !in cfg.tools
    ensures end.Raised? ==> EndsInError(log)
    ensures NoSummary(log) ==> NoSummary(log0) && |messages| >= |messages0|
  {
    hide Pending, Paired, WellFormed, RoundCalls, InTurn, RoundOpen, FromModel;
    var reply := Complete(world, log0);
    AskStep(cfg, world, start, messages0, log0, world.model(log0), reply);
    NoSummarySplit(log0, log0 + [Asked(reply)]);
    messages, log, finalText := messages0, log0 + [Asked(reply)], None;
    match reply {
      case ModelCancelled =>
        end := TurnOver(Interrupted);
      case ModelRaises =>
        end := Raised;
      case Fails =>
        end := TurnOver(ProviderFailed);
      case Overflows =>
        messages, log, end := Shorten(cfg, world, start, messages, log);
      case Says(content, calls) =>
        var unique := Deduplicate(calls);
        messages := Append(messages, AssistantMessage(content, unique)).value;
        if calls == [] {
          end, finalText := TurnOver(Completed), content;
        } else {
          ghost var asked := log;
          messages, log, end := ToolRound(cfg, world, start, messages, unique, log);
          NoSummarySplit(asked, log);
        }
    }
  }

  lemma {:induction false} NothingYet()
    ensures Verdict([]) == Some(WallClockExhausted) && FinalText([]) == None && Open([]) && NoSummary([])
  {
  }

  lemma {:induction false} WholeNow(cfg: Config, world: World, start: History, messages: History, log: Log)
    requires InTurn(cfg, world, start, messages, log) && cfg.promptMatches && cfg.capsReadable
    requires EndsInError(log) || Verdict(log).Some?
    ensures WholeLog(cfg, world, start, log)
    ensures Verdict(log).Some? ==> !EndsInError(log)
  {
  }

  lemma {:induction false} StaysOpen(log: Log)
    requires Open(log)
    ensures Open(log + [Polled(false)])
  {
  }

  /** A turn with budget and time begins by looking whether to stop and, if not, asking the model. */
  predicate FirstPass(world: World, log: Log) {
    log != [] && log[0] == Polled(world.stop([])) && (!world.stop([]) ==> |log| >= 2 && log[1].Asked?)
  }

  lemma {:induction false} PassDone(world: World, before: Log, log: Log)
    requires before <= log
    ensures FirstPass(world, before) ==> FirstPass(world, log)
    ensures before == [] && log != [] && log[0] == Polled(world.stop([])) && (world.stop([]) || (|log| >= 2 && log[1].Asked?)) ==>
              FirstPass(world, log)
  {
  }

  method RunTurn(cfg: Config, world: World, messages0: History, userInput: string, budget0: Budget)
    returns (outcome: Outcome, messages: History, budget: Budget, log: Log)
    requires WellFormed(messages0)
    ensures outcome.Drifted? <==> !cfg.promptMatches
    ensures !outcome.Drifted? ==> InTurn(cfg, world, Opening(messages0, userInput), messages, log)
    ensures WholeLog(cfg, world, Opening(messages0, userInput), log)
    ensures outcome.Escaped? <==> cfg.promptMatches && Escapes(cfg, log)
    ensures cfg.promptMatches && cfg.capsReadable && !cfg.expired && budget0.used < budget0.maxTotal ==>
              FirstPass(world, log)
    ensures outcome.Ended? ==>
              && Verdict(log) == Some(outcome.reason) && FinalText(log) == outcome.finalText
              && ReportedCalls(log) == outcome.modelCalls
              && outcome.turnStart <= |messages|
              && (NoSummary(log) ==> outcome.turnStart == |Repaired(messages0)|)
    ensures outcome.Ended? ==> Pending(messages) == {} || CutShort(log)
    ensures budget.maxTotal == budget0.maxTotal
    ensures budget0.used <= budget.used && (budget.used == budget0.used || budget.used <= budget.maxTotal)
    ensures outcome.Ended? ==> outcome.modelCalls <= budget.used - budget0.used + 1
    ensures outcome.Ended? && outcome.reason.BudgetExhausted? ==> budget.used >= budget.maxTotal
    ensures outcome.Ended? ==>
              (outcome.reason.WallClockExhausted? <==> cfg.expired && budget0.used < budget0.maxTotal)
    ensures outcome.Ended? && outcome.reason.WallClockExhausted? ==> log == []
    ensures outcome.Ended? && outcome.reason.InvalidToolCalls? ==>
              forall c :: c in RoundCalls(messages) ==> c.name !in cfg.tools
  {
    hide Pending, Paired, WellFormed, RoundCalls, InTurn, Repaired, NoSummary, CutShort, Verdict, FinalText, ReportedCalls, Open;
    hide Sound, EndsInError, WholeLog, FirstPass;
    messages, budget, log := messages0, budget0, [];
    ghost var start := Opening(messages0, userInput);
    OpeningWellFormed(messages0, userInput);
    StartsSound(cfg, world, start);
    if !cfg.promptMatches {
      return Drifted, messages, budget, log;
    }
    messages := Repair(messages0);
    messages := Append(messages, UserMessage(userInput)).value;
    var turnStart: nat := |messages| - 1;
    var modelCalls: nat := 0;
    NothingYet();
    if !cfg.capsReadable {
      return Escaped, messages, budget, log;
    }
    while true
      invariant InTurn(cfg, world, start, messages, log) && Pending(messages) == {} && Open(log)
      invariant budget.maxTotal == budget0.maxTotal
      invariant budget0.used <= budget.used && (budget.used == budget0.used || budget.used <= budget.maxTotal)
      invariant modelCalls == ReportedCalls(log) <= budget.used - budget0.used
      invariant cfg.expired ==> log == [] && budget == budget0
      invariant if log == [] then budget == budget0 else FirstPass(world, log)
      invariant turnStart <= |messages|
      invariant NoSummary(log) ==> turnStart == |Repaired(messages0)|
      decreases budget.maxTotal - budget.used
    {
      ghost var before := log;
      var next := ConsumeIteration(budget);
      if next.None? {
        var end, finalText;
        messages, log, end, finalText := Summarise(cfg, world, start, messages, log);
        PassDone(world, before, log);
        WholeNow(cfg, world, start, messages, log);
        if log[|log| - 1].reply.Says? {
          modelCalls := modelCalls + 1;
        }
        outcome := if end.Raised? then Escaped else Ended(end.reason, finalText, modelCalls, turnStart);
        return;
      }
      budget := next.value;
      if cfg.expired {
        WholeNow(cfg, world, start, messages, log);
        return Ended(WallClockExhausted, None, modelCalls, turnStart), messages, budget, log;
      }
      var stop := world.stop(log);
      PollStep(cfg, world, start, messages, log);
      NoSummarySplit(log, log + [Polled(stop)]);
      log := log + [Polled(stop)];
      if stop {
        PassDone(world, before, log);
        WholeNow(cfg, world, start, messages, log);
        return Ended(Interrupted, None, modelCalls, turnStart), messages, budget, log;
      }
      StaysOpen(log[..|log| - 1]);
      assert log == log[..|log| - 1] + [Polled(false)];
      var asked := |log|;
      var end, finalText;
      messages, log, end, finalText := AskModel(cfg, world, start, messages, log);
      if !log[asked].reply.ModelCancelled? && !log[asked].reply.ModelRaises? {
        modelCalls := modelCalls + 1;
      }
      turnStart := Min(turnStart, |messages|);
      PassDone(world, before, log);
      if !end.NextCall? {
        WholeNow(cfg, world, start, messages, log);
        outcome := if end.Raised? then Escaped else Ended(end.reason, finalText, modelCalls, turnStart);
        return;
      }
    }
  }
}
