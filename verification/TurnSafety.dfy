/** What a sound log says about a whole turn: writes before effects, one run per call, growth. */
module TurnSafety {
  import opened Transcript
  import opened Compaction
  import opened TurnModel

  /** Everything a finished log keeps, every moment of the turn kept. */
  lemma {:induction false} SoundAtEveryMoment(cfg: Config, world: World, start: History, log: Log, k: nat)
    requires Sound(cfg, world, start, log) && k <= |log|
    ensures Sound(cfg, world, start, log[..k]) && WellFormed(Replay(start, log[..k]))
    ensures k < |log| ==> Justified(cfg, world, start, log[..k], log[k])
    ensures k < |log| ==> Replay(start, log[..k + 1]) == Step(Replay(start, log[..k]), log[k])
    decreases |log| - k
  {
    hide Justified, WellFormed;
    if k < |log| {
      SoundAtEveryMoment(cfg, world, start, log, k + 1);
      assert log[..k + 1][..k] == log[..k];
    } else {
      assert log[..k] == log;
    }
  }

  /** A dispatch changes nothing in the history, so its call still waits right after it. */
  lemma {:induction false} RanLeavesPending(cfg: Config, world: World, start: History, log: Log, k: nat)
    requires Sound(cfg, world, start, log) && k < |log| && log[k].Ran?
    ensures Replay(start, log[..k + 1]) == Replay(start, log[..k])
    ensures log[k].call.id in Pending(Replay(start, log[..k]))
    ensures log[k].call in RoundCalls(Replay(start, log[..k]))
    ensures log[k].call.name in cfg.tools
  {
    hide Pending, WellFormed;
    SoundAtEveryMoment(cfg, world, start, log, k);
  }

  /** Nothing happens between a dispatch and the recording of its result. */
  lemma {:induction false} ResultFollowsRun(cfg: Config, world: World, start: History, log: Log, k: nat)
    requires Sound(cfg, world, start, log) && k + 1 < |log| && log[k].Ran?
    ensures log[k + 1].Kept? && log[k + 1].id == log[k].call.id && log[k + 1].raw == ResultText(log[k].result)
  {
    hide WellFormed, IsBoundary;
    RanLeavesPending(cfg, world, start, log, k);
    SoundAtEveryMoment(cfg, world, start, log, k + 1);
    assert log[..k + 1][k] == log[k];
  }

  /** While only dispatches and results happen, the round stays the same and its waiting calls only
      become fewer. */
  lemma {:induction false} RoundShrinks(cfg: Config, world: World, start: History, log: Log, j: nat, k: nat)
    requires Sound(cfg, world, start, log) && j <= k <= |log|
    requires forall i :: j <= i < k ==> log[i].Ran? || log[i].Kept?
    ensures RoundCalls(Replay(start, log[..k])) == RoundCalls(Replay(start, log[..j]))
    ensures Pending(Replay(start, log[..k])) <= Pending(Replay(start, log[..j]))
    ensures Replay(start, log[..j]) <= Replay(start, log[..k])
    decreases k
  {
    hide Pending, WellFormed, RoundCalls, IsBoundary;
    if j == k {
    } else {
      RoundShrinks(cfg, world, start, log, j, k - 1);
      SoundAtEveryMoment(cfg, world, start, log, k - 1);
      var h := Replay(start, log[..k - 1]);
      if log[k - 1].Kept? && log[k - 1].spill.Keeps? {
        ResultClosesCall(h, log[k - 1].id, log[k - 1].spill.text);
      }
    }
  }

  /** Write-ahead: when a tool runs, the message that asked for it has been saved, in this very
      round, as part of a history the current one still extends. */
  lemma {:induction false} WriteAhead(cfg: Config, world: World, start: History, log: Log, k: nat)
    requires Sound(cfg, world, start, log) && k < |log| && log[k].Ran?
    ensures exists j: nat :: SavedBefore(start, log, j, k)
  {
    hide Pending, WellFormed, RoundCalls;
    SoundAtEveryMoment(cfg, world, start, log, k);
    var calls := RoundCalls(Replay(start, log[..k]));
    assert WrittenAhead(log[..k], calls);
    var j: nat :| SavedAt(log[..k], j, calls);
    assert log[..k][j] == log[j];
    SoundAtEveryMoment(cfg, world, start, log, j);
    forall i | j < i < k ensures log[i].Ran? || log[i].Kept? {
      assert log[..k][i] == log[i];
    }
    RoundShrinks(cfg, world, start, log, j + 1, k);
    assert SavedBefore(start, log, j, k);
  }

  ghost predicate SavedBefore(start: History, log: Log, j: nat, k: nat)
    requires k < |log| && log[k].Ran?
  {
    && j < k && log[j].Persisted? && log[j].saved == Saved
    && log[j].history == Replay(start, log[..j])
    && log[j].history <= Replay(start, log[..k])
    && log[j].history != [] && log[k].call in log[j].history[|log[j].history| - 1].toolCalls
    && (forall i :: j < i < k ==> log[i].Ran? || log[i].Kept?)
  }

  /** No call of a round is run twice. */
  lemma {:induction false} RunOnce(cfg: Config, world: World, start: History, log: Log, j: nat, k: nat)
    requires Sound(cfg, world, start, log) && j < k < |log| && log[j].Ran? && log[k].Ran?
    requires forall i :: j < i < k ==> log[i].Ran? || log[i].Kept?
    ensures log[j].call.id != log[k].call.id
  {
    ResultFollowsRun(cfg, world, start, log, j);
    KeptCloses(cfg, world, start, log, j + 1);
    RoundShrinks(cfg, world, start, log, j + 2, k);
    RanLeavesPending(cfg, world, start, log, k);
    hide *;
  }

  /** A recorded result closes its call for the rest of the turn's round. */
  lemma {:induction false} KeptCloses(cfg: Config, world: World, start: History, log: Log, k: nat)
    requires Sound(cfg, world, start, log) && k + 1 < |log| && log[k].Kept?
    ensures log[k].id !in Pending(Replay(start, log[..k + 1]))
  {
    hide Pending, WellFormed, RoundCalls, IsBoundary, Sound, Replay;
    SoundAtEveryMoment(cfg, world, start, log, k);
    SoundAtEveryMoment(cfg, world, start, log, k + 1);
    assert log[..k + 1][k] == log[k];
    ResultClosesCall(Replay(start, log[..k]), log[k].id, log[k].spill.text);
  }

  /** Without compaction a history only grows: every moment's history is a prefix of every later one. */
  lemma {:induction false} HistoryGrows(start: History, log: Log, j: nat, k: nat)
    requires j <= k <= |log| && NoSummary(log)
    ensures Replay(start, log[..j]) <= Replay(start, log[..k])
    decreases k
  {
    if j == k {
    } else {
      HistoryGrows(start, log, j, k - 1);
      assert log[..k][..k - 1] == log[..k - 1] && log[..k][k - 1] == log[k - 1];
    }
  }
}
