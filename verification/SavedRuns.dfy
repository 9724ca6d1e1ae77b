/** Sequences of saves: flushing tails is saving everything, and what is settled stays settled. */
module SavedRuns {
  import opened Transcript
  import opened MessageStore

  // One persist call: the history handed over, and the clock at that moment.
  datatype Save = Save(history: History, now: int)

  /** Every save sends the whole history. */
  function SaveAll(t: Flushed, saves: seq<Save>): Flushed {
    if saves == [] then t
    else
      var s := saves[|saves| - 1];
      Flush(SaveAll(t, saves[..|saves| - 1]), s.history, 0, s.now)
  }

  function FlushedAfter(flushed: nat, saves: seq<Save>): nat {
    if saves == [] then flushed else |saves[|saves| - 1].history|
  }

  /** Every save sends what the one before it did not. */
  function SaveTails(t: Flushed, flushed: nat, saves: seq<Save>): Flushed {
    if saves == [] then t
    else
      var front, s := saves[..|saves| - 1], saves[|saves| - 1];
      Flush(SaveTails(t, flushed, front), s.history, FlushedAfter(flushed, front), s.now)
  }

  /** Over any number of saves, sending tails and sending everything give the same rows, with the
      same ids, and land the same writes in the same order. */
  lemma {:induction false} TailsRefineWhole(t: Flushed, flushed: nat, saves: seq<Save>)
    requires SettledBelow(t.rows, flushed)
    ensures SaveTails(t, flushed, saves) == SaveAll(t, saves)
    ensures SettledBelow(SaveAll(t, saves).rows, FlushedAfter(flushed, saves))
    decreases |saves|
  {
    if saves == [] {
    } else {
      var front, s := saves[..|saves| - 1], saves[|saves| - 1];
      TailsRefineWhole(t, flushed, front);
      TailIsEnough(SaveAll(t, front), s.history, FlushedAfter(flushed, front), s.now);
      FlushSettles(SaveAll(t, front), s.history, 0, s.now);
    }
  }

  /** The rows are exactly `h`: one settled row per message, from 0 up, and no other. */
  ghost predicate Mirrors(rows: Rows, h: History) {
    && (forall k: nat :: k in rows <==> k < |h|)
    && (forall k: nat :: k < |h| ==> rows[k].state != Streaming && RowMessage(rows[k]) == h[k])
  }

  lemma {:induction false} MirrorsLoads(rows: Rows, h: History)
    requires Mirrors(rows, h)
    ensures Load(rows) == h
  {
    LoadIs(rows, |h|);
    LoadBelowAll(rows, |h|);
  }

  ghost predicate Unflagged(h: History) {
    forall k :: 0 <= k < |h| ==> !h[k].isSummary
  }

  lemma {:induction false} SavedMirrors(t: Flushed, h: History, now: int)
    requires Savable(t.rows, h)
    ensures Mirrors(Flush(t, h, 0, now).rows, h)
  {
    FlushRows(t, h, 0, now);
  }

  lemma {:induction false} MirrorsSavable(rows: Rows, h: History, next: History)
    requires Mirrors(rows, h) && h <= next && Unflagged(next)
    ensures Savable(rows, next)
  {
  }

  ghost predicate Growing(h: History, saves: seq<Save>) {
    && (forall k :: 0 <= k < |saves| ==> h <= saves[k].history && Unflagged(saves[k].history))
    && (forall j, k :: 0 <= j < k < |saves| ==> saves[j].history <= saves[k].history)
  }

  function LastSaved(h: History, saves: seq<Save>): History {
    if saves == [] then h else saves[|saves| - 1].history
  }

  /** A store that mirrors `h`, put through any saves of growing histories, mirrors the last one:
      rows run from 0 without a gap and loading returns what was last saved. */
  lemma {:induction false} GrowingSavesMirror(t: Flushed, h: History, saves: seq<Save>)
    requires Mirrors(t.rows, h) && Growing(h, saves)
    ensures Mirrors(SaveAll(t, saves).rows, LastSaved(h, saves))
    ensures Load(SaveAll(t, saves).rows) == LastSaved(h, saves)
    decreases |saves|
  {
    if saves == [] {
    } else {
      var front, s := saves[..|saves| - 1], saves[|saves| - 1];
      GrowingSavesMirror(t, h, front);
      assert LastSaved(h, front) <= s.history;
      MirrorsSavable(SaveAll(t, front).rows, LastSaved(h, front), s.history);
      SavedMirrors(SaveAll(t, front), s.history, s.now);
    }
    MirrorsLoads(SaveAll(t, saves).rows, LastSaved(h, saves));
  }

  /** Whatever is saved, in whatever order, a settled row never changes again, and a placeholder
      keeps its id, its creation time and its role. */
  lemma {:induction false} SettledIsFinal(t: Flushed, saves: seq<Save>, k: nat)
    requires k in t.rows
    ensures k in SaveAll(t, saves).rows
    ensures t.rows[k].state != Streaming ==> SaveAll(t, saves).rows[k] == t.rows[k]
    ensures var r := SaveAll(t, saves).rows[k];
            r.id == t.rows[k].id && r.createdAt == t.rows[k].createdAt && r.role == t.rows[k].role
    ensures t.rows[k].state == Streaming ==> SaveAll(t, saves).rows[k].state in {Streaming, Sent}
    ensures t.rows[k].state == Streaming && (exists i :: 0 <= i < |saves| && k < |saves[i].history|) ==>
              SaveAll(t, saves).rows[k].state == Sent
    decreases |saves|
  {
    if saves == [] {
    } else {
      var front, s := saves[..|saves| - 1], saves[|saves| - 1];
      SettledIsFinal(t, front, k);
      FlushRows(SaveAll(t, front), s.history, 0, s.now);
      if i :| 0 <= i < |saves| && k < |saves[i].history| {
        assert i == |saves| - 1 || (i < |front| && front[i] == saves[i]);
      }
    }
  }
}
