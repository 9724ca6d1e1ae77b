/**
  Turns that leave `run_turn` by an error it does not catch (conversation.py, `run_turn`): with one
  setting malformed this happens to every turn that uses a tool, after its request has been saved.
 */
module EscapedTurns {
  import opened Options
  import opened Transcript
  import opened ToolCalls
  import opened TurnModel
  import opened TurnSafety
  import opened TurnLoop

  function OneCall(): ToolCall {
    ToolCall("call", "tool", "{}")
  }

  /** A model that uses a tool, a store and a tool that work, and a malformed
      SADANA_CONTEXT_RESULT_SPILL_CHARS. */
  function MalformedSpill(): World {
    World((past: Log) => Says(None, [OneCall()]), (past: Log) => Compression(None, None), (past: Log) => Saved,
          (past: Log) => Returns("done"), (past: Log) => SpillFails, (past: Log) => false)
  }

  function Asking(): Message {
    AssistantMessage(None, [OneCall()])
  }

  function EscapedLog(start: History): Log {
    [Polled(false), Asked(Says(None, [OneCall()])), Persisted(start + [Asking()], Saved),
     Ran(OneCall(), Returns("done")), Kept(OneCall().id, "done", SpillFails)]
  }

  /** On any history, with any input and any budget left, the turn saves its request, runs the tool,
      and leaves by the error. */
  method EscapesAfterSave(messages0: History, userInput: string, budget0: Budget)
    returns (outcome: Outcome, log: Log)
    requires WellFormed(messages0) && budget0.used < budget0.maxTotal
    ensures outcome.Escaped? && log == EscapedLog(Opening(messages0, userInput))
  {
    hide WellFormed, Sound, InTurn, Verdict, ReportedCalls, CutShort, FinalText, RoundCalls, Opening, Pending;
    var cfg := Config({"tool"}, 10, true, true, false);
    var messages, budget;
    outcome, messages, budget, log := RunTurn(cfg, MalformedSpill(), messages0, userInput, budget0);
    OpeningWellFormed(messages0, userInput);
    OneWay(cfg, Opening(messages0, userInput), log);
  }

  /** There is no other way through such a turn. */
  lemma {:induction false} OneWay(cfg: Config, start: History, log: Log)
    requires WholeLog(cfg, MalformedSpill(), start, log) && FirstPass(MalformedSpill(), log)
    requires cfg.tools == {"tool"} && cfg.promptMatches && cfg.capsReadable
    requires WellFormed(start) && Pending(start) == {}
    ensures log == EscapedLog(start)
  {
    hide WellFormed, Sound, Pending, Replay, FirstPass, MalformedSpill, EndsInError, Verdict, RoundCalls;
    AskedOnce(cfg, start, log);
    RoundOfOne(start);
    assert log[..|log|] == log;
    GoesOn(start, 2);
    GoesOn(start, 3);
    GoesOn(start, 4);
    if |log| > 2 {
      ThenSaves(cfg, start, log);
    }
    if |log| > 3 {
      ThenRuns(cfg, start, log);
    }
    if |log| > 4 {
      ThenFails(cfg, start, log);
    }
    assert |log| == 5;
    assert log == log[..5];
  }

  /** Before the error, the turn has not ended. */
  lemma {:induction false} GoesOn(start: History, k: nat)
    requires 2 <= k < 5
    ensures var past := EscapedLog(start)[..k]; Verdict(past).None? && !EndsInError(past)
  {
    var past := EscapedLog(start)[..k];
    assert past[k - 1] == EscapedLog(start)[k - 1];
  }

  lemma {:induction false} AskedOnce(cfg: Config, start: History, log: Log)
    requires Sound(cfg, MalformedSpill(), start, log) && FirstPass(MalformedSpill(), log)
    ensures |log| >= 2 && log[..2] == EscapedLog(start)[..2]
  {
    hide WellFormed, Pending, Sound;
    SoundAtEveryMoment(cfg, MalformedSpill(), start, log, 1);
    assert FromModel(Says(None, [OneCall()]), log[1].reply);
    UniquifiedIdentity([OneCall()], log[1].reply.calls);
  }

  lemma {:induction false} OneCallAlone()
    ensures Uniquified([OneCall()], [OneCall()]) && FirstOfEach([OneCall()]) == [OneCall()]
  {
    hide FirstOfEach;
    UniquifiedIdentity([OneCall()], [OneCall()]);
    FirstOfOne();
  }

  lemma {:induction false} FirstOfOne()
    ensures FirstOfEach([OneCall()]) == [OneCall()]
  {
    assert [OneCall()][..0] == [];
  }

  /** The history while the round is open: one call waits. */
  lemma {:induction false} RoundOfOne(start: History)
    requires WellFormed(start) && Pending(start) == {}
    ensures var h := start + [Asking()]; Pending(h) == {OneCall().id} && RoundCalls(h) == [OneCall()]
  {
    hide WellFormed, Pending, RoundCalls, FirstOfEach, Uniquified;
    OneCallAlone();
    AskedOpensRound(start, Says(None, [OneCall()]), None, [OneCall()]);
  }

  /** Saving and dispatching leave the history as it is. */
  lemma {:induction false} HistoryStays(start: History, log: Log, k: nat)
    requires 2 <= k <= 4 && |log| >= k && log[..k] == EscapedLog(start)[..k]
    ensures Replay(start, log[..k]) == start + [Asking()]
    decreases k
  {
    assert log[..k][..k - 1] == log[..k - 1] == EscapedLog(start)[..k - 1] && log[..k][k - 1] == EscapedLog(start)[k - 1];
    if k == 2 {
      FirstOfOne();
      hide FirstOfEach;
      assert log[..1][..0] == [] && log[..1][0] == Polled(false);
      assert Replay(start, log[..1]) == start;
    } else {
      HistoryStays(start, log, k - 1);
    }
  }

  lemma {:induction false} ThenSaves(cfg: Config, start: History, log: Log)
    requires Sound(cfg, MalformedSpill(), start, log) && |log| > 2 && log[..2] == EscapedLog(start)[..2]
    requires cfg.tools == {"tool"}
    requires Pending(start + [Asking()]) == {OneCall().id} && RoundCalls(start + [Asking()]) == [OneCall()]
    ensures log[..3] == EscapedLog(start)[..3]
  {
    hide WellFormed, Pending, RoundCalls, Sound, Replay;
    HistoryStays(start, log, 2);
    SoundAtEveryMoment(cfg, MalformedSpill(), start, log, 2);
    var past := log[..2];
    assert past[0] == Polled(false) && past[1] == Asked(Says(None, [OneCall()]));
    assert !WrittenAhead(past, [OneCall()]);
  }

  lemma {:induction false} ThenRuns(cfg: Config, start: History, log: Log)
    requires Sound(cfg, MalformedSpill(), start, log) && |log| > 3 && log[..3] == EscapedLog(start)[..3]
    requires cfg.tools == {"tool"}
    requires Pending(start + [Asking()]) == {OneCall().id} && RoundCalls(start + [Asking()]) == [OneCall()]
    ensures log[..4] == EscapedLog(start)[..4]
  {
    hide WellFormed, Pending, RoundCalls, Sound, Replay, WrittenAhead;
    HistoryStays(start, log, 3);
    SoundAtEveryMoment(cfg, MalformedSpill(), start, log, 3);
    assert log[..3][2] == EscapedLog(start)[2];
  }

  lemma {:induction false} ThenFails(cfg: Config, start: History, log: Log)
    requires Sound(cfg, MalformedSpill(), start, log) && |log| > 4 && log[..4] == EscapedLog(start)[..4]
    ensures |log| == 5 && log[..5] == EscapedLog(start)
  {
    hide WellFormed, Pending, RoundCalls, Sound, Replay, WrittenAhead;
    assert log[..4][3] == log[3];
    ResultFollowsRun(cfg, MalformedSpill(), start, log, 3);
    SoundAtEveryMoment(cfg, MalformedSpill(), start, log, 4);
    if |log| > 5 {
      assert log[..5][4] == log[4];
      SoundAtEveryMoment(cfg, MalformedSpill(), start, log, 5);
    }
  }
}
