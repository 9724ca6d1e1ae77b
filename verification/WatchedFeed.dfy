/**
  A watched turn on the whole store (door/nouns/messages.py, `turn_started` and `turn_finished`
  around client_surface.py, `take_turn`): which transactions it makes, among those of everybody else,
  and what a mirror of the store ends up with.
 */
module WatchedFeed {
  import opened Options
  import opened Transcript
  import opened HistoryRepair
  import opened TurnModel
  import opened TurnLoop
  import opened SavedRuns
  import opened CrashRecovery
  import opened StoreTables
  import opened WatchedRun
  import M = MessageStore
  import W = WatchedTurn

  /** The saves of a turn, each sending what the one before did not (`bind_persist`). */
  function SaveOps(key: Key, saves: seq<Save>): seq<Op> {
    if saves == [] then []
    else
      var front, s := saves[..|saves| - 1], saves[|saves| - 1];
      SaveOps(key, front) + [SaveConversation(key, s.history, FlushedAfter(0, front), s.now)]
  }

  /** The transactions that may touch the conversation's message rows. */
  predicate On(op: Op, key: Key) {
    match op
    case CreateConversation(k, _, _) => k == key
    case SaveConversation(k, _, _, _) => k == key
    case OpenTurn(k, _, _, _) => k == key
    case CloseTurn(k, _, _, _, _, _) => k == key
    case _ => false
  }

  function Own(ops: seq<Op>, key: Key): seq<Op> {
    if ops == [] then []
    else Own(ops[..|ops| - 1], key) + (if On(ops[|ops| - 1], key) then [ops[|ops| - 1]] else [])
  }

  function Start(key: Key, h0: History, input: string, now: int): Op {
    OpenTurn(key, |Repaired(h0)|, input, now)
  }

  function Closing(before: seq<Op>, key: Key, h0: History, input: string, log: Log): Op {
    var u := |Repaired(h0)|;
    CloseTurn(key, u + 1, Run(before).tables.nextId + 1, FinalText(log), u, |Replay(Opening(h0, input), log)|)
  }

  /** Up to the closing. */
  function BeforeClosing(before: seq<Op>, mid: seq<Op>, key: Key, h0: History, input: string, now: int): seq<Op> {
    before + [Start(key, h0, input, now)] + mid
  }

  /** A store that has made `before` goes through one watched turn with this log; a turn that escapes
      is never closed. */
  function WatchedOps(cfg: Config, before: seq<Op>, mid: seq<Op>, tail: seq<Op>, key: Key, h0: History, input: string,
                      log: Log, now: int): seq<Op> {
    BeforeClosing(before, mid, key, h0, input, now)
    + if Escapes(cfg, log) then [] else [Closing(before, key, h0, input, log)] + tail
  }

  /** The turn's own transactions among all those made from its start on: its saves up to its closing,
      and after that, unless the process dies first, the save of its final history. The tools of the
      turn and everybody else may make any others that leave the conversation's messages alone. */
  ghost predicate Watches(mid: seq<Op>, tail: seq<Op>, key: Key, h0: History, input: string, log: Log, now: int) {
    && Own(mid, key) == SaveOps(key, Landed(log, now))
    && (Own(tail, key) == [] || Own(tail, key) == [SaveConversation(key, Replay(Opening(h0, input), log), 0, now)])
  }

  /** Every transaction told the truth, with the possible exception of one. */
  ghost predicate TruthfulBut(ops: seq<Op>, at: nat) {
    forall i :: 0 <= i < |ops| && i != at ==> TellsTruth(Run(ops[..i]).tables, ops[i])
  }

  // ----- what becomes of the placeholder ---------------------------------------------------------------

  lemma {:induction false} RunSnoc(ops: seq<Op>, op: Op)
    ensures Run(ops + [op]) == Next(Run(ops), op)
  {
    assert (ops + [op])[..|ops|] == ops;
  }

  ghost predicate Holds(t: Tables, key: Key, p: nat, id: nat, streaming: bool) {
    && p in RowsOf(t.messages, key) && RowsOf(t.messages, key)[p].id == id
    && (RowsOf(t.messages, key)[p].state == M.Streaming <==> streaming)
  }

  lemma {:induction false} ElsewhereHolds(s: Snapshot, op: Op, key: Key, p: nat, id: nat, streaming: bool)
    requires !On(op, key) && Holds(s.tables, key, p, id, streaming)
    ensures Holds(Next(s, op).tables, key, p, id, streaming)
  {
    hide M.Flush, W.OpenTurn, W.CloseTurn, Holds, Without, AdoptedAs;
    assert RowsOf(Next(s, op).tables.messages, key) == RowsOf(s.tables.messages, key);
    SameRowsHold(s.tables, Next(s, op).tables, key, p, id, streaming);
  }

  lemma {:induction false} SameRowsHold(s: Tables, t: Tables, key: Key, p: nat, id: nat, streaming: bool)
    requires RowsOf(s.messages, key) == RowsOf(t.messages, key)
    ensures Holds(s, key, p, id, streaming) == Holds(t, key, p, id, streaming)
  {
  }

  /** A placeholder keeps its id over the saves, whatever else is written between them; the first save
      that reaches it settles it. */
  lemma {:induction false} PlaceholderOverSaves(ops: seq<Op>, mid: seq<Op>, key: Key, saves: seq<Save>, p: nat, id: nat)
    requires Holds(Run(ops).tables, key, p, id, true) && Own(mid, key) == SaveOps(key, saves)
    requires forall k :: 0 <= k < |saves| ==> p < |saves[k].history|
    ensures Holds(Run(ops + mid).tables, key, p, id, saves == [])
    decreases |mid|
  {
    hide Next, Run, Holds, On;
    if mid == [] {
      SaveOpsLength(key, saves);
      assert ops + mid == ops;
    } else {
      var front, op := mid[..|mid| - 1], mid[|mid| - 1];
      assert ops + mid == ops + front + [op];
      RunSnoc(ops + front, op);
      if On(op, key) {
        SaveOpsLength(key, saves);
        var rest, s := saves[..|saves| - 1], saves[|saves| - 1];
        assert (Own(front, key) + [op])[..|Own(front, key)|] == Own(front, key);
        assert op == SaveConversation(key, s.history, FlushedAfter(0, rest), s.now) && Own(front, key) == SaveOps(key, rest);
        PlaceholderOverSaves(ops, front, key, rest, p, id);
        PlaceholderSaved(Run(ops + front), op, p, id, rest == []);
      } else {
        PlaceholderOverSaves(ops, front, key, saves, p, id);
        ElsewhereHolds(Run(ops + front), op, key, p, id, saves == []);
      }
    }
  }

  lemma {:induction false} SaveOpsLength(key: Key, saves: seq<Save>)
    ensures |SaveOps(key, saves)| == |saves|
    decreases |saves|
  {
    if saves == [] {
    } else {
      SaveOpsLength(key, saves[..|saves| - 1]);
    }
  }

  lemma {:induction false} PlaceholderSaved(s: Snapshot, op: Op, p: nat, id: nat, streaming: bool)
    requires op.SaveConversation? && Holds(s.tables, op.key, p, id, streaming)
    requires p < |op.history| && (streaming ==> op.from <= p)
    ensures Holds(Next(s, op).tables, op.key, p, id, false)
  {
    hide M.Flush;
    M.FlushRows(M.Flushed(RowsOf(s.tables.messages, op.key), s.tables.nextId + 1, []), op.history, op.from, op.now);
  }

  lemma {:induction false} PlaceholderOpened(s: Snapshot, op: Op, h0: History)
    requires op.OpenTurn? && Mirrors(RowsOf(s.tables.messages, op.key), h0) && op.userSeq >= |h0|
    ensures Holds(Next(s, op).tables, op.key, op.userSeq + 1, s.tables.nextId + 1, true)
  {
  }

  /** The closing of a watched turn is true if and only if its placeholder was not settled under a
      closing that drops it. */
  lemma {:induction false} ClosesTrulyExact(t: Tables, key: Key, p: nat, id: nat, streaming: bool,
                                            finalText: Option<string>, turnStart: nat, total: nat)
    requires Holds(t, key, p, id, streaming)
    ensures ClosesTruly(t.messages, key, p, id, finalText, turnStart, total)
            <==> (W.EndingOf(p, finalText, turnStart, total) == W.Dropped ==> streaming)
  {
    assert HasId(RowsOf(t.messages, key), id);
    assert IsRow(t.messages, key, id);
  }

  lemma {:induction false} PlaceholderAtClosing(cfg: Config, world: World, before: seq<Op>, mid: seq<Op>, key: Key,
                                                h0: History, input: string, log: Log, now: int)
    requires WellFormed(h0) && Unflagged(h0) && Mirrors(RowsOf(Run(before).tables.messages, key), h0)
    requires Sound(cfg, world, Opening(h0, input), log) && NoSummary(log)
    requires Own(mid, key) == SaveOps(key, Landed(log, now))
    ensures Holds(Run(BeforeClosing(before, mid, key, h0, input, now)).tables, key, |Repaired(h0)| + 1,
                  Run(before).tables.nextId + 1, Landed(log, now) == [])
  {
    hide WellFormed, Sound, Repaired, NoSummary, FinalText, Replay, Landed, Unflagged, Mirrors, Next, Run, Holds, Own;
    var open := Start(key, h0, input, now);
    RepairCloses(h0);
    RunSnoc(before, open);
    PlaceholderOpened(Run(before), open, h0);
    TurnHasShape(cfg, world, h0, input, log, now);
    forall k | 0 <= k < |Landed(log, now)| ensures |Repaired(h0)| + 1 < |Landed(log, now)[k].history| {
      assert Opening(h0, input) < Landed(log, now)[k].history;
    }
    PlaceholderOverSaves(before + [open], mid, key, Landed(log, now), |Repaired(h0)| + 1, Run(before).tables.nextId + 1);
  }

  // ----- the whole turn ------------------------------------------------------------------------------

  lemma {:induction false} ClosingExact(cfg: Config, world: World, before: seq<Op>, mid: seq<Op>, key: Key, h0: History,
                                        input: string, log: Log, now: int)
    requires WellFormed(h0) && Unflagged(h0) && Mirrors(RowsOf(Run(before).tables.messages, key), h0)
    requires WholeLog(cfg, world, Opening(h0, input), log) && !Escapes(cfg, log) && NoSummary(log)
    requires Own(mid, key) == SaveOps(key, Landed(log, now))
    ensures TellsTruth(Run(BeforeClosing(before, mid, key, h0, input, now)).tables, Closing(before, key, h0, input, log))
            <==> Landed(log, now) == []
  {
    hide WellFormed, Sound, Repaired, NoSummary, FinalText, Replay, Landed, Unflagged, Mirrors, Run, Holds, ClosesTruly, Own;
    PlaceholderAtClosing(cfg, world, before, mid, key, h0, input, log, now);
    var u := |Repaired(h0)|;
    ClosesTrulyExact(Run(BeforeClosing(before, mid, key, h0, input, now)).tables, key, u + 1, Run(before).tables.nextId + 1,
                     Landed(log, now) == [], FinalText(log), u, |Replay(Opening(h0, input), log)|);
    if Landed(log, now) != [] {
      SavedTurnDrops(cfg, world, h0, input, log, now);
    }
  }

  /** On a store whose rows are the history, a watched turn without compaction and whatever is written
      beside it: given that everything but its closing told the truth, so did all of it if and only if
      the turn escaped or no save of it landed. */
  lemma {:induction false} WatchedTurnTruthfulExact(cfg: Config, world: World, before: seq<Op>, mid: seq<Op>, tail: seq<Op>,
                                                    key: Key, h0: History, input: string, log: Log, now: int)
    requires WellFormed(h0) && Unflagged(h0) && Mirrors(RowsOf(Run(before).tables.messages, key), h0)
    requires cfg.promptMatches && WholeLog(cfg, world, Opening(h0, input), log) && NoSummary(log)
    requires Watches(mid, tail, key, h0, input, log, now)
    ensures var all, at := WatchedOps(cfg, before, mid, tail, key, h0, input, log, now), |before| + 1 + |mid|;
            Truthful(all) <==> TruthfulBut(all, at) && (Escapes(cfg, log) || Landed(log, now) == [])
  {
    hide WellFormed, Sound, Repaired, NoSummary, FinalText, Replay, Landed, Unflagged, Mirrors, Run, TellsTruth, Own, SaveOps,
         WholeLog, Escapes;
    var all, at := WatchedOps(cfg, before, mid, tail, key, h0, input, log, now), |before| + 1 + |mid|;
    if !Escapes(cfg, log) {
      assert all[..at] == BeforeClosing(before, mid, key, h0, input, now);
      assert all[at] == Closing(before, key, h0, input, log);
      ClosingExact(cfg, world, before, mid, key, h0, input, log, now);
    }
  }

  /** Every mirror of such a store, however started and fed, agrees with it at the end of the ledger
      if and only if the turn escaped or no save of it landed. */
  lemma {:induction false} WatchedTurnMirrorExact(cfg: Config, world: World, before: seq<Op>, mid: seq<Op>, tail: seq<Op>,
                                                  key: Key, h0: History, input: string, log: Log, now: int)
    requires WellFormed(h0) && Unflagged(h0) && Mirrors(RowsOf(Run(before).tables.messages, key), h0)
    requires cfg.promptMatches && WholeLog(cfg, world, Opening(h0, input), log) && NoSummary(log)
    requires Watches(mid, tail, key, h0, input, log, now)
    requires TruthfulBut(WatchedOps(cfg, before, mid, tail, key, h0, input, log, now), |before| + 1 + |mid|)
    ensures MirrorsAgree(WatchedOps(cfg, before, mid, tail, key, h0, input, log, now))
            <==> Escapes(cfg, log) || Landed(log, now) == []
  {
    hide WellFormed, Sound, NoSummary, Landed, Unflagged, Mirrors, Run, Truthful, TruthfulBut, MirrorsAgree, WatchedOps,
         Watches, WholeLog, Escapes;
    WatchedTurnTruthfulExact(cfg, world, before, mid, tail, key, h0, input, log, now);
    MirrorsAgreeExact(WatchedOps(cfg, before, mid, tail, key, h0, input, log, now));
  }

  // ----- a turn by itself ----------------------------------------------------------------------------

  lemma {:induction false} OwnIsAll(ops: seq<Op>, key: Key)
    requires forall i :: 0 <= i < |ops| ==> On(ops[i], key)
    ensures Own(ops, key) == ops
    decreases |ops|
  {
    if ops == [] {
    } else {
      OwnIsAll(ops[..|ops| - 1], key);
    }
  }

  lemma {:induction false} SaveOpsAreSaves(key: Key, saves: seq<Save>)
    ensures forall i :: 0 <= i < |SaveOps(key, saves)| ==>
              SaveOps(key, saves)[i].SaveConversation? && SaveOps(key, saves)[i].key == key
    decreases |saves|
  {
    if saves == [] {
    } else {
      SaveOpsAreSaves(key, saves[..|saves| - 1]);
    }
  }

  /** When nobody else writes, only the closing is in question. */
  lemma {:induction false} AloneTruthful(cfg: Config, before: seq<Op>, key: Key, h0: History, input: string, log: Log, now: int)
    requires Truthful(before)
    ensures var mid, tail := SaveOps(key, Landed(log, now)), [SaveConversation(key, Replay(Opening(h0, input), log), 0, now)];
            && Watches(mid, tail, key, h0, input, log, now)
            && TruthfulBut(WatchedOps(cfg, before, mid, tail, key, h0, input, log, now), |before| + 1 + |mid|)
  {
    hide Landed, Replay, Repaired, FinalText, Escapes, Run, SaveOps, Own;
    var mid, tail := SaveOps(key, Landed(log, now)), [SaveConversation(key, Replay(Opening(h0, input), log), 0, now)];
    SaveOpsAreSaves(key, Landed(log, now));
    OwnIsAll(mid, key);
    OwnIsAll(tail, key);
    var all, at := WatchedOps(cfg, before, mid, tail, key, h0, input, log, now), |before| + 1 + |mid|;
    forall i | 0 <= i < |all| && i != at ensures TellsTruth(Run(all[..i]).tables, all[i]) {
      if i < |before| {
        assert all[..i] == before[..i] && all[i] == before[i];
      } else if |before| < i < at {
        assert all[i] == mid[i - |before| - 1];
      }
    }
  }
}
