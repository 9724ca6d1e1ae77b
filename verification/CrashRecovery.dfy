/** A turn against a real store: whatever is lost in a crash, loading and repairing is enough. */
module CrashRecovery {
  import opened Transcript
  import opened HistoryRepair
  import opened TurnModel
  import opened TurnSafety
  import opened TurnLoop
  import opened MessageStore
  import opened SavedRuns

  /** A save reaches the disk when it succeeds, or when the turn is cancelled after it landed. */
  predicate Lands(e: Event) {
    e.Persisted? && (e.saved == Saved || e.saved == SaveCancelled(true))
  }

  /** The saves of a log that reached the disk. */
  function Landed(log: Log, now: int): seq<Save> {
    if log == [] then []
    else Landed(log[..|log| - 1], now)
         + (if Lands(log[|log| - 1]) then [Save(log[|log| - 1].history, now)] else [])
  }

  /** What is on disk after the events of `log`, starting from `t`. */
  function OnDisk(t: Flushed, log: Log, now: int): Flushed {
    SaveAll(t, Landed(log, now))
  }

  lemma {:induction false} ReplayUnflagged(start: History, log: Log)
    requires Unflagged(start) && NoSummary(log)
    ensures Unflagged(Replay(start, log))
    decreases |log|
  {
    if log == [] {
    } else {
      NoSummaryPrefix(log, |log| - 1);
      ReplayUnflagged(start, log[..|log| - 1]);
    }
  }

  lemma {:induction false} RepairedUnflagged(h: History)
    requires Unflagged(h)
    ensures Unflagged(Repaired(h))
  {
    if Pending(h) != {} {
      ClosingsUnflagged(h[LastAsk(h)].toolCalls, Pending(h));
    }
  }

  lemma {:induction false} ClosingsUnflagged(calls: seq<Transcript.ToolCall>, pending: set<CallId>)
    ensures Unflagged(Closings(calls, pending))
  {
    if calls == [] {
    } else {
      ClosingsUnflagged(calls[1..], pending);
    }
  }

  /** The saves grow, and none is ahead of `current`. */
  ghost predicate Behind(h0: History, saves: seq<Save>, current: History) {
    && Growing(h0, saves) && h0 <= current
    && (forall i :: 0 <= i < |saves| ==> saves[i].history <= current)
  }

  lemma {:induction false} BehindSnoc(h0: History, saves: seq<Save>, current: History, next: History, now: int)
    requires Behind(h0, saves, current) && current <= next && Unflagged(current)
    ensures Behind(h0, saves, next)
    ensures Behind(h0, saves + [Save(current, now)], next)
  {
  }

  /** Each landed save is the history of its moment, so the saves grow with the history. */
  lemma {:induction false} LandedGrows(h0: History, start: History, log: Log, now: int, k: nat)
    requires NoSummary(log) && k <= |log| && h0 <= start && Unflagged(start)
    requires forall i :: 0 <= i < |log| && log[i].Persisted? ==> log[i].history == Replay(start, log[..i])
    ensures Behind(h0, Landed(log[..k], now), Replay(start, log[..k]))
    decreases k
  {
    if k == 0 {
      assert log[..k] == [];
    } else {
      LandedGrows(h0, start, log, now, k - 1);
      HistoryGrows(start, log, k - 1, k);
      NoSummaryPrefix(log, k - 1);
      ReplayUnflagged(start, log[..k - 1]);
      LandedSnoc(log, now, k - 1);
      hide Replay, Behind, Landed, NoSummary, Unflagged;
      BehindSnoc(h0, Landed(log[..k - 1], now), Replay(start, log[..k - 1]), Replay(start, log[..k]), now);
    }
  }

  lemma {:induction false} NoSummaryPrefix(log: Log, k: nat)
    requires NoSummary(log) && k <= |log|
    ensures NoSummary(log[..k])
  {
  }

  lemma {:induction false} LandedSnoc(log: Log, now: int, k: nat)
    requires k < |log|
    ensures Landed(log[..k + 1], now)
            == if Lands(log[k]) then Landed(log[..k], now) + [Save(log[k].history, now)] else Landed(log[..k], now)
  {
    assert log[..k + 1][..k] == log[..k] && log[..k + 1][k] == log[k];
  }

  /** Every save that landed is among the saves, and every save is a moment of the log. */
  lemma {:induction false} LandedMembers(log: Log, now: int, k: nat)
    requires k <= |log|
    ensures forall j :: 0 <= j < k && Lands(log[j]) ==> Save(log[j].history, now) in Landed(log[..k], now)
    ensures forall s :: s in Landed(log[..k], now) ==> exists j :: 0 <= j < k && Lands(log[j]) && log[j].history == s.history
    decreases k
  {
    if k == 0 {
    } else {
      LandedMembers(log, now, k - 1);
      assert log[..k][..k - 1] == log[..k - 1] && log[..k][k - 1] == log[k - 1];
    }
  }

  /** Kill the process between any two events of a turn without compaction, on a store that held
      exactly the history the turn began with. Then what is on disk loads as a well-formed history
      that the lost one extended; repairing it leaves nothing pending and adds rows only; and every
      tool that had been run was asked for by a message that is still there. */
  lemma {:induction false} CrashRecovers(cfg: Config, world: World, h0: History, input: string, log: Log,
                                         t: Flushed, now: int, k: nat)
    requires WellFormed(h0) && Unflagged(h0) && Mirrors(t.rows, h0)
    requires Sound(cfg, world, Opening(h0, input), log) && NoSummary(log) && k <= |log|
    ensures var disk := Load(OnDisk(t, log[..k], now).rows);
            && Mirrors(OnDisk(t, log[..k], now).rows, disk)
            && h0 <= disk && disk <= Replay(Opening(h0, input), log[..k])
            && WellFormed(disk)
            && WellFormed(Repaired(disk)) && Pending(Repaired(disk)) == {} && disk <= Repaired(disk)
            && (forall j :: 0 <= j < k && log[j].Ran? ==> AskedIn(disk, log[j].call))
  {
    hide WellFormed, Pending, Justified;
    var start := Opening(h0, input);
    RepairCloses(h0);
    RepairedUnflagged(h0);
    forall i | 0 <= i < |log| && log[i].Persisted? ensures log[i].history == Replay(start, log[..i]) {
      PersistedIsNow(cfg, world, start, log, i);
    }
    LandedGrows(h0, start, log, now, k);
    LandedMembers(log, now, k);
    var saves := Landed(log[..k], now);
    GrowingSavesMirror(t, h0, saves);
    var disk := LastSaved(h0, saves);
    if saves != [] {
      assert saves[|saves| - 1] in saves;
      var j :| 0 <= j < k && Lands(log[j]) && log[j].history == disk;
      SoundAtEveryMoment(cfg, world, start, log, j);
    }
    RepairCloses(disk);
    forall j | 0 <= j < k && log[j].Ran? ensures AskedIn(disk, log[j].call) {
      WriteAhead(cfg, world, start, log, j);
      var i: nat :| SavedBefore(start, log, i, j);
      assert Lands(log[i]);
      var saved := log[i].history;
      SavedIsInLast(h0, saves, Save(saved, now));
      assert disk[|saved| - 1] == saved[|saved| - 1];
    }
  }

  lemma {:induction false} PersistedIsNow(cfg: Config, world: World, start: History, log: Log, i: nat)
    requires Sound(cfg, world, start, log) && i < |log| && log[i].Persisted?
    ensures log[i].history == Replay(start, log[..i])
  {
    hide WellFormed, Pending;
    SoundAtEveryMoment(cfg, world, start, log, i);
  }

  lemma {:induction false} SavedIsInLast(h0: History, saves: seq<Save>, s: Save)
    requires Growing(h0, saves) && s in saves
    ensures s.history <= LastSaved(h0, saves)
  {
  }

  ghost predicate AskedIn(h: History, call: Transcript.ToolCall) {
    exists i :: 0 <= i < |h| && call in h[i].toolCalls
  }
}
