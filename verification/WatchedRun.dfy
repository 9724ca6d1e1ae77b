/** The turn loop seen from the store: what a sound log promises to the rows a watched turn writes. */
module WatchedRun {
  import opened Options
  import opened Transcript
  import opened HistoryRepair
  import opened Compaction
  import opened ToolCalls
  import opened TurnModel
  import opened TurnSafety
  import opened TurnLoop
  import opened MessageStore
  import opened SavedRuns
  import opened CrashRecovery
  import opened WatchedTurn

  /** The first thing a turn adds to its opening is a reply of the model, except for the question the
      epilogue asks, which is the last thing that happens. */
  lemma {:induction false} FirstAdditionIsReply(cfg: Config, world: World, start: History, log: Log, k: nat)
    requires Sound(cfg, world, start, log) && NoSummary(log) && k <= |log| && Pending(start) == {}
    ensures var h := Replay(start, log[..k]);
            && start <= h
            && (h == start || (|h| > |start| && (h[|start|].role.Assistant? || (k > 0 && log[k - 1].SummaryAsked?))))
    decreases k
  {
    hide WellFormed, Pending, FromModel, IsBoundary, ResultOf, WrittenAhead;
    if k == 0 {
    } else {
      FirstAdditionIsReply(cfg, world, start, log, k - 1);
      SoundAtEveryMoment(cfg, world, start, log, k - 1);
      HistoryGrows(start, log, 0, k);
      if k > 1 { assert log[..k - 1][k - 2] == log[k - 2]; }
    }
  }

  lemma {:induction false} SavedExtendsOpening(cfg: Config, world: World, start: History, log: Log, j: nat)
    requires Sound(cfg, world, start, log) && NoSummary(log) && Pending(start) == {}
    requires j < |log| && log[j].Persisted?
    ensures start < log[j].history && log[j].history == Replay(start, log[..j])
    ensures log[j].history[|start|].role.Assistant?
  {
    hide WellFormed, Pending, FromModel, IsBoundary, ResultOf, WrittenAhead;
    SoundAtEveryMoment(cfg, world, start, log, j);
    assert j > 0 && log[..j][j - 1] == log[j - 1];
    SoundAtEveryMoment(cfg, world, start, log, j - 1);
    HistoryGrows(start, log, 0, j - 1);
    FirstAdditionIsReply(cfg, world, start, log, j);
  }

  /** A turn of the loop without compaction, whatever it met, gives the store what it needs. */
  lemma {:induction false} TurnHasShape(cfg: Config, world: World, h0: History, input: string, log: Log, now: int)
    requires WellFormed(h0) && Unflagged(h0)
    requires Sound(cfg, world, Opening(h0, input), log) && NoSummary(log)
    ensures TurnShape(h0, input, Landed(log, now), Replay(Opening(h0, input), log), FinalText(log))
  {
    OpeningIsPlain(h0, input);
    hide WellFormed, Pending, Justified, Sound, Repaired, NoSummary, FinalText, Replay, Landed, Opening, Unflagged;
    SavesAreOrdered(cfg, world, Opening(h0, input), log, now);
    SavesExtend(cfg, world, Opening(h0, input), log, now);
    LastReplyShape(cfg, world, Opening(h0, input), log);
  }

  lemma {:induction false} SavesExtend(cfg: Config, world: World, start: History, log: Log, now: int)
    requires Sound(cfg, world, start, log) && NoSummary(log) && Pending(start) == {} && Unflagged(start)
    ensures forall k :: 0 <= k < |Landed(log, now)| ==> start < Landed(log, now)[k].history
    ensures Landed(log, now) != [] ==> |Replay(start, log)| > |start| && Replay(start, log)[|start|].role.Assistant?
  {
    hide Sound, NoSummary, Replay, Landed, Unflagged, Pending;
    forall k | 0 <= k < |Landed(log, now)| ensures start < Landed(log, now)[k].history {
      SaveExtends(cfg, world, start, log, now, k);
    }
    if Landed(log, now) != [] {
      SaveExtends(cfg, world, start, log, now, 0);
      SavesAreOrdered(cfg, world, start, log, now);
      ExtendsAt(start, Landed(log, now)[0].history, Replay(start, log));
    }
  }

  lemma {:induction false} ExtendsAt(start: History, middle: History, final: History)
    requires start < middle && middle <= final
    ensures |final| > |start| && final[|start|] == middle[|start|]
  {
  }

  lemma {:induction false} OpeningIsPlain(h0: History, input: string)
    requires WellFormed(h0) && Unflagged(h0)
    ensures Pending(Opening(h0, input)) == {} && Unflagged(Opening(h0, input))
  {
    hide WellFormed, Pending, Repaired;
    OpeningWellFormed(h0, input);
    RepairedUnflagged(h0);
  }

  lemma {:induction false} SavesAreOrdered(cfg: Config, world: World, start: History, log: Log, now: int)
    requires Sound(cfg, world, start, log) && NoSummary(log) && Unflagged(start)
    ensures start <= Replay(start, log) && Unflagged(Replay(start, log))
    ensures var saves := Landed(log, now);
            && (forall k :: 0 <= k < |saves| ==> saves[k].history <= Replay(start, log))
            && (forall j, k :: 0 <= j < k < |saves| ==> saves[j].history <= saves[k].history)
  {
    hide WellFormed, Sound, Replay, NoSummary, Unflagged, Landed;
    forall i | 0 <= i < |log| && log[i].Persisted? ensures log[i].history == Replay(start, log[..i]) {
      PersistedIsNow(cfg, world, start, log, i);
    }
    ReplayUnflagged(start, log);
    LandedGrows(start, start, log, now, |log|);
    assert log[..|log|] == log;
  }

  lemma {:induction false} SaveExtends(cfg: Config, world: World, start: History, log: Log, now: int, k: nat)
    requires Sound(cfg, world, start, log) && NoSummary(log) && Pending(start) == {} && k < |Landed(log, now)|
    ensures start < Landed(log, now)[k].history && Landed(log, now)[k].history[|start|].role.Assistant?
  {
    hide Sound, NoSummary, Pending, Landed;
    LandedMembers(log, now, |log|);
    assert log[..|log|] == log;
    var s := Landed(log, now)[k];
    assert s in Landed(log, now);
    var j :| 0 <= j < |log| && Lands(log[j]) && log[j].history == s.history;
    SavedExtendsOpening(cfg, world, start, log, j);
  }

  lemma {:induction false} LastReplyShape(cfg: Config, world: World, start: History, log: Log)
    requires Sound(cfg, world, start, log) && NoSummary(log)
    ensures FinalText(log).Some? && |Replay(start, log)| == |start| + 1 ==>
              Replay(start, log)[|start|] == AssistantMessage(FinalText(log), [])
  {
  }

  // ----- the turn as a whole ----------------------------------------------------------------------

  /** The store once the turn's opening rows are in it. */
  function Begun(rows: Rows, h0: History, input: string, nextId: nat, now: int): Flushed
    requires Opened(rows, h0, input, nextId, now).Ok?
  {
    Flushed(Opened(rows, h0, input, nextId, now).value, nextId + 2, [])
  }

  /** What a watched turn leaves: one that escapes is never closed, and nothing is saved after it. */
  function AfterTurn(cfg: Config, rows: Rows, h0: History, input: string, log: Log, nextId: nat, now: int): Rows
    requires Opened(rows, h0, input, nextId, now).Ok?
  {
    if Escapes(cfg, log) then OnDisk(Begun(rows, h0, input, nextId, now), log, now).rows
    else WholeTurn(rows, h0, input, Landed(log, now), Replay(Opening(h0, input), log), FinalText(log), nextId, now)
  }

  /** End to end: on a store holding exactly the history, a watched turn that ends - opening rows, the
      loop's own saves, closing branch, final save - leaves the store reading back the turn's history
      if and only if it added something to its opening; one that escapes leaves what it saved last or,
      if no save landed, its opening rows. */
  lemma {:induction false} WatchedTurnExact(cfg: Config, world: World, h0: History, input: string, log: Log,
                                            rows: Rows, nextId: nat, now: int)
    requires WellFormed(h0) && Unflagged(h0) && Mirrors(rows, h0)
    requires cfg.promptMatches && WholeLog(cfg, world, Opening(h0, input), log) && NoSummary(log)
    ensures Opened(rows, h0, input, nextId, now).Ok?
    ensures var after, final := Load(AfterTurn(cfg, rows, h0, input, log, nextId, now)), Replay(Opening(h0, input), log);
            if Escapes(cfg, log) then
              after == if Landed(log, now) == [] then h0 + [UserMessage(input)] + [PlaceholderMessage()]
                       else LastSaved(h0, Landed(log, now))
            else after == final <==> final != Opening(h0, input)
  {
    hide WellFormed, Sound, Mirrors, Opened, WholeTurn, Landed, FinalText, Replay, Repaired, Pending, NoSummary, Unflagged, Escapes;
    TurnHasShape(cfg, world, h0, input, log, now);
    WatchedTurnReadsBack(rows, h0, input, Landed(log, now), Replay(Opening(h0, input), log), FinalText(log), nextId, now);
    CrashAfterOpening(rows, h0, input, nextId, now);
    if Landed(log, now) != [] {
      SavedDisk(cfg, world, h0, input, log, rows, nextId, now);
    }
  }

  // ----- how a watched turn is closed ---------------------------------------------------------------

  /** What is saved ends with the message whose calls are about to be run. */
  lemma {:induction false} SavedAsks(cfg: Config, world: World, start: History, log: Log, j: nat)
    requires Sound(cfg, world, start, log) && j < |log| && log[j].Persisted?
    ensures log[j].history != [] && log[j].history[|log[j].history| - 1].toolCalls != []
  {
    hide WellFormed, Pending, IsBoundary, ResultOf, WrittenAhead;
    SoundAtEveryMoment(cfg, world, start, log, j);
    assert j > 0 && log[..j][j - 1] == log[j - 1];
    SoundAtEveryMoment(cfg, world, start, log, j - 1);
    FirstOfEachFacts(log[j - 1].reply.calls);
  }

  lemma {:induction false} LandedAsks(cfg: Config, world: World, start: History, log: Log, now: int, k: nat)
    requires Sound(cfg, world, start, log) && k < |Landed(log, now)|
    ensures var h := Landed(log, now)[k].history; h != [] && h[|h| - 1].toolCalls != []
  {
    hide Sound, Landed;
    LandedMembers(log, now, |log|);
    assert log[..|log|] == log;
    var s := Landed(log, now)[k];
    assert s in Landed(log, now);
    var j :| 0 <= j < |log| && Lands(log[j]) && log[j].history == s.history;
    SavedAsks(cfg, world, start, log, j);
  }

  /** A turn whose save landed drops its placeholder, however it ends: it added something, and the
      place of the placeholder is taken by a message with calls, which is not a final reply. */
  lemma {:induction false} SavedTurnDrops(cfg: Config, world: World, h0: History, input: string, log: Log, now: int)
    requires WellFormed(h0) && Unflagged(h0) && Landed(log, now) != []
    requires WholeLog(cfg, world, Opening(h0, input), log) && !Escapes(cfg, log) && NoSummary(log)
    ensures var u := |Repaired(h0)|;
            EndingOf(u + 1, FinalText(log), u, |Replay(Opening(h0, input), log)|) == Dropped
  {
    hide WellFormed, Sound, Repaired, NoSummary, FinalText, Replay, Landed, Unflagged;
    TurnHasShape(cfg, world, h0, input, log, now);
    LandedAsks(cfg, world, Opening(h0, input), log, now, 0);
    var final := Replay(Opening(h0, input), log);
    assert Landed(log, now)[0].history <= final;
  }

  /** The turn is closed by dropping its placeholder, and the row is still there afterwards. */
  predicate DropsInVain(cfg: Config, h0: History, input: string, log: Log, rows: Rows) {
    var u, total := |Repaired(h0)|, |Replay(Opening(h0, input), log)|;
    && !Escapes(cfg, log)
    && EndingOf(u + 1, FinalText(log), u, total) == Dropped
    && u + 1 in CloseTurn(rows, u + 1, FinalText(log), u, total)
  }

  /** A watched turn announces as deleted a placeholder that is still in the store if and only if it
      did not escape and a save of it landed. */
  lemma {:induction false} FalseTombstoneExact(cfg: Config, world: World, h0: History, input: string, log: Log,
                                               rows: Rows, nextId: nat, now: int)
    requires WellFormed(h0) && Unflagged(h0) && Mirrors(rows, h0)
    requires cfg.promptMatches && WholeLog(cfg, world, Opening(h0, input), log) && NoSummary(log)
    ensures Opened(rows, h0, input, nextId, now).Ok?
    ensures DropsInVain(cfg, h0, input, log, OnDisk(Begun(rows, h0, input, nextId, now), log, now).rows)
            <==> !Escapes(cfg, log) && Landed(log, now) != []
  {
    hide WellFormed, Sound, Repaired, NoSummary, FinalText, Replay, Landed, Unflagged, Escapes;
    RepairCloses(h0);
    OpeningPlaceholder(rows, h0, input, nextId, now);
    SettledIsFinal(Begun(rows, h0, input, nextId, now), Landed(log, now), |Repaired(h0)| + 1);
    if !Escapes(cfg, log) && Landed(log, now) != [] {
      SavedTurnDrops(cfg, world, h0, input, log, now);
      TurnHasShape(cfg, world, h0, input, log, now);
      assert |Repaired(h0)| + 1 < |Landed(log, now)[0].history|;
    }
  }

  lemma {:induction false} OpeningPlaceholder(rows: Rows, h0: History, input: string, nextId: nat, now: int)
    requires Mirrors(rows, h0) && |h0| <= |Repaired(h0)|
    ensures Opened(rows, h0, input, nextId, now).Ok?
    ensures var r, p := Opened(rows, h0, input, nextId, now).value, |Repaired(h0)| + 1;
            p in r && r[p].id == nextId + 1 && r[p].state == Streaming
  {
    hide Repaired;
  }

  // ----- a crash during a watched turn ----------------------------------------------------------------

  /** Kill the process after any `k` events of a watched turn: what is on disk loads as a well-formed
      history if and only if a save has landed by then or there was nothing to repair; and every
      tool that had been run was asked for by a message that is still there. */
  lemma {:induction false} WatchedCrashExact(cfg: Config, world: World, h0: History, input: string, log: Log,
                                             rows: Rows, nextId: nat, now: int, k: nat)
    requires WellFormed(h0) && Unflagged(h0) && Mirrors(rows, h0) && k <= |log|
    requires Sound(cfg, world, Opening(h0, input), log) && NoSummary(log)
    ensures Opened(rows, h0, input, nextId, now).Ok?
    ensures var begun := Begun(rows, h0, input, nextId, now);
            var disk := Load(OnDisk(begun, log[..k], now).rows);
            && (WellFormed(disk) <==> Landed(log[..k], now) != [] || Pending(h0) == {})
            && (forall j :: 0 <= j < k && log[j].Ran? ==> AskedIn(disk, log[j].call))
  {
    hide WellFormed, Sound, Pending, Repaired, NoSummary, Replay, Landed, Unflagged, Opened, Mirrors, AskedIn;
    SoundAtEveryMoment(cfg, world, Opening(h0, input), log, k);
    NoSummaryPrefix(log, k);
    OpeningIsPlain(h0, input);
    CrashAfterOpening(rows, h0, input, nextId, now);
    if Landed(log[..k], now) != [] {
      SavedDisk(cfg, world, h0, input, log[..k], rows, nextId, now);
    }
    forall j | 0 <= j < k && log[j].Ran?
      ensures AskedIn(Load(OnDisk(Begun(rows, h0, input, nextId, now), log[..k], now).rows),
                      log[j].call)
    {
      assert log[..k][j] == log[j];
      RanIsSaved(cfg, world, Opening(h0, input), log[..k], now, j);
    }
  }

  /** Kill the process after the closing and before the save that follows it: what is on disk loads as a
      well-formed history under the same condition. */
  lemma {:induction false} ClosedCrashExact(cfg: Config, world: World, h0: History, input: string, log: Log,
                                            rows: Rows, nextId: nat, now: int)
    requires WellFormed(h0) && Unflagged(h0) && Mirrors(rows, h0)
    requires WholeLog(cfg, world, Opening(h0, input), log) && !Escapes(cfg, log) && NoSummary(log)
    ensures Opened(rows, h0, input, nextId, now).Ok?
    ensures var u, final := |Repaired(h0)|, Replay(Opening(h0, input), log);
            var run := OnDisk(Begun(rows, h0, input, nextId, now), log, now).rows;
            var disk := Load(CloseTurn(run, u + 1, FinalText(log), u, |final|));
            WellFormed(disk) <==> Landed(log, now) != [] || Pending(h0) == {}
  {
    hide WellFormed, Sound, Pending, Repaired, NoSummary, Replay, FinalText, Landed, Unflagged, Escapes, CloseTurn;
    RepairCloses(h0);
    var u, final := |Repaired(h0)|, Replay(Opening(h0, input), log);
    OpeningPlaceholder(rows, h0, input, nextId, now);
    if Landed(log, now) == [] {
      ClosedLoads(rows, h0, u, input, nextId, now, FinalText(log), |final|);
      ClosedWellFormed(h0, input);
    } else {
      SavedDisk(cfg, world, h0, input, log, rows, nextId, now);
      SettledIsFinal(Begun(rows, h0, input, nextId, now), Landed(log, now), u + 1);
      TurnHasShape(cfg, world, h0, input, log, now);
      assert u + 1 < |Landed(log, now)[0].history|;
      ClosingPasses(OnDisk(Begun(rows, h0, input, nextId, now), log, now).rows, u + 1, FinalText(log), u, |final|);
    }
  }

  /** Once a save has landed, the opening rows are part of what was saved. */
  lemma {:induction false} SavedDisk(cfg: Config, world: World, h0: History, input: string, log: Log,
                                     rows: Rows, nextId: nat, now: int)
    requires WellFormed(h0) && Unflagged(h0) && Mirrors(rows, h0) && Landed(log, now) != []
    requires Sound(cfg, world, Opening(h0, input), log) && NoSummary(log)
    requires Opened(rows, h0, input, nextId, now).Ok?
    ensures var begun := Begun(rows, h0, input, nextId, now);
            var disk := Load(OnDisk(begun, log, now).rows);
            disk == LastSaved(h0, Landed(log, now)) && WellFormed(disk)
  {
    hide WellFormed, Sound, Pending, Repaired, NoSummary, Replay, FinalText, Landed, Opened, Mirrors;
    var saves := Landed(log, now);
    var begun := Begun(rows, h0, input, nextId, now);
    RepairCloses(h0);
    TurnHasShape(cfg, world, h0, input, log, now);
    OpeningIsPlain(h0, input);
    SavesExtend(cfg, world, Opening(h0, input), log, now);
    OpenedSavable(rows, h0, input, saves[0].history, nextId, now);
    SavesMirror(begun, saves);
    MirrorsLoads(SaveAll(begun, saves).rows, saves[|saves| - 1].history);
    SavedWellFormed(cfg, world, Opening(h0, input), log, now);
  }

  lemma {:induction false} SavedWellFormed(cfg: Config, world: World, start: History, log: Log, now: int)
    requires Sound(cfg, world, start, log) && Landed(log, now) != []
    ensures WellFormed(Landed(log, now)[|Landed(log, now)| - 1].history)
  {
    hide WellFormed, Sound, Landed, Replay;
    LandedMembers(log, now, |log|);
    assert log[..|log|] == log;
    var s := Landed(log, now)[|Landed(log, now)| - 1];
    assert s in Landed(log, now);
    var j :| 0 <= j < |log| && Lands(log[j]) && log[j].history == s.history;
    PersistedIsNow(cfg, world, start, log, j);
    SoundAtEveryMoment(cfg, world, start, log, j);
  }

  /** A tool that was run was asked for by a message of the last save. */
  lemma {:induction false} RanIsSaved(cfg: Config, world: World, start: History, log: Log, now: int, j: nat)
    requires Sound(cfg, world, start, log) && NoSummary(log) && Unflagged(start) && j < |log| && log[j].Ran?
    ensures Landed(log, now) != []
    ensures AskedIn(Landed(log, now)[|Landed(log, now)| - 1].history, log[j].call)
  {
    hide WellFormed, Sound, Landed, Replay, NoSummary, Unflagged;
    WriteAhead(cfg, world, start, log, j);
    var i: nat :| SavedBefore(start, log, i, j);
    LandedMembers(log, now, |log|);
    assert log[..|log|] == log;
    var saved := log[i].history;
    assert Lands(log[i]) && Save(saved, now) in Landed(log, now);
    var k :| 0 <= k < |Landed(log, now)| && Landed(log, now)[k] == Save(saved, now);
    SavesAreOrdered(cfg, world, start, log, now);
    assert Landed(log, now)[k].history <= Landed(log, now)[|Landed(log, now)| - 1].history;
    var last := Landed(log, now)[|Landed(log, now)| - 1].history;
    assert saved <= last;
    assert last[|saved| - 1] == saved[|saved| - 1];
  }
}
