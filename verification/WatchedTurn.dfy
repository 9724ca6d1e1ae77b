/**
  A turn somebody watches (door/nouns/messages.py): a placeholder for the reply is written when the
  turn starts and filled in, marked failed or dropped when it ends, around the saves the turn
  itself makes.
 */
module WatchedTurn {
  import opened Options
  import opened Transcript
  import opened HistoryRepair
  import opened TurnModel
  import opened TurnLoop
  import opened MessageStore
  import opened SavedRuns

  function PlaceholderMessage(): Message {
    AssistantMessage(Some(""), [])
  }

  /** `turn_started`: two plain inserts in one transaction; a row already there undoes both. */
  function OpenTurn(rows: Rows, userSeq: nat, text: string, nextId: nat, now: int): Result<Rows> {
    if userSeq in rows || userSeq + 1 in rows then Err("integrity")
    else Ok(rows[userSeq := NewRow(UserMessage(text), nextId, now)]
                [userSeq + 1 := NewRow(PlaceholderMessage(), nextId + 1, now).(state := Streaming)])
  }

  datatype Ending = FilledIn | MarkedFailed | Dropped

  /** `turn_finished`: which of the three branches runs. */
  function EndingOf(placeholder: nat, finalText: Option<string>, turnStart: nat, total: nat): Ending {
    if finalText.Some? && total == placeholder + 1 then FilledIn
    else if total == turnStart + 1 then MarkedFailed
    else Dropped
  }

  function CloseTurn(rows: Rows, placeholder: nat, finalText: Option<string>, turnStart: nat, total: nat): Rows {
    if placeholder !in rows || rows[placeholder].state != Streaming then rows
    else match EndingOf(placeholder, finalText, turnStart, total)
      case FilledIn =>
        rows[placeholder := rows[placeholder].(content := finalText, state := Sent)]
      case MarkedFailed => rows[placeholder := rows[placeholder].(state := Broken)]
      case Dropped => rows - {placeholder}
  }

  /** The rows once a watched turn on `h0` has started. */
  function Opened(rows: Rows, h0: History, input: string, nextId: nat, now: int): Result<Rows> {
    OpenTurn(rows, |Repaired(h0)|, input, nextId, now)
  }

  /** On a store that mirrors the history, starting always succeeds, and what a crash right then
      would leave loads as the history, the user's message and an empty reply. The rows the repair
      closed are not there yet: the history read back is well formed exactly when there was
      nothing to repair. */
  lemma {:induction false} CrashAfterOpening(rows: Rows, h0: History, input: string, nextId: nat, now: int)
    requires Mirrors(rows, h0) && WellFormed(h0)
    ensures Opened(rows, h0, input, nextId, now).Ok?
    ensures var r := Opened(rows, h0, input, nextId, now).value;
            && Load(r) == h0 + [UserMessage(input)] + [PlaceholderMessage()]
            && (WellFormed(Load(r)) <==> Pending(h0) == {})
            && ((forall k: nat :: k in r <==> k < |r|) <==> Pending(h0) == {})
  {
    hide WellFormed, Pending, Repaired;
    RepairCloses(h0);
    var u := |Repaired(h0)|;
    var r := Opened(rows, h0, input, nextId, now).value;
    OpenedLoads(rows, h0, u, input, nextId, now);
    OpenedWellFormed(h0, input, Some(""));
    OpenedSize(rows, r, h0, u);
  }

  lemma {:induction false} OpenedLoads(rows: Rows, h0: History, u: nat, input: string, nextId: nat, now: int)
    requires Mirrors(rows, h0) && u >= |h0|
    ensures OpenTurn(rows, u, input, nextId, now).Ok?
    ensures Load(OpenTurn(rows, u, input, nextId, now).value) == h0 + [UserMessage(input)] + [PlaceholderMessage()]
  {
    OpenedRows(rows, h0, u, input, nextId, now);
    hide OpenTurn, Mirrors, Load;
    var r := OpenTurn(rows, u, input, nextId, now).value;
    LoadIs(r, u + 2);
    LoadBelowSkips(r, |h0|, u);
    assert LoadBelow(r, u + 1) == h0 + [UserMessage(input)];
    assert LoadBelow(r, u + 2) == LoadBelow(r, u + 1) + [PlaceholderMessage()];
  }

  /** The history's rows, perhaps a gap, the user's row and the placeholder. */
  lemma {:induction false} OpenedRows(rows: Rows, h0: History, u: nat, input: string, nextId: nat, now: int)
    requires Mirrors(rows, h0) && u >= |h0|
    ensures OpenTurn(rows, u, input, nextId, now).Ok?
    ensures var r := OpenTurn(rows, u, input, nextId, now).value;
            && LoadBelow(r, |h0|) == h0 && (forall k: nat :: |h0| <= k < u ==> k !in r)
            && u in r && RowMessage(r[u]) == UserMessage(input)
            && u + 1 in r && RowMessage(r[u + 1]) == PlaceholderMessage()
            && (forall k :: k in r ==> k < u + 2)
  {
    var r := OpenTurn(rows, u, input, nextId, now).value;
    assert forall k: nat :: k < |h0| ==> k in r && r[k] == rows[k];
    hide OpenTurn;
    LoadBelowAll(r, |h0|);
  }

  lemma {:induction false} OpenedWellFormed(h0: History, input: string, text: Option<string>)
    requires WellFormed(h0)
    ensures WellFormed(h0 + [UserMessage(input)] + [AssistantMessage(text, [])]) <==> Pending(h0) == {}
  {
    var g, m := h0 + [UserMessage(input)], AssistantMessage(text, []);
    AppendExact(h0, UserMessage(input));
    PendingSnoc(h0, UserMessage(input));
    if Pending(h0) == {} {
      GrowWellFormed(h0, UserMessage(input));
      GrowWellFormed(g, m);
    } else if Paired(g + [m]) {
      PairedPrefix(g, m);
    }
  }

  /** A closing before any save: the placeholder filled in, kept empty, or gone. */
  lemma {:induction false} ClosedLoads(rows: Rows, h0: History, u: nat, input: string, nextId: nat, now: int,
                                       finalText: Option<string>, total: nat)
    requires Mirrors(rows, h0) && u >= |h0| && OpenTurn(rows, u, input, nextId, now).Ok?
    ensures var loaded := Load(CloseTurn(OpenTurn(rows, u, input, nextId, now).value, u + 1, finalText, u, total));
            loaded == h0 + [UserMessage(input)]
            || exists text :: loaded == h0 + [UserMessage(input)] + [AssistantMessage(text, [])]
  {
    var r := OpenTurn(rows, u, input, nextId, now).value;
    var closed := CloseTurn(r, u + 1, finalText, u, total);
    OpenedRows(rows, h0, u, input, nextId, now);
    OpenedBelow(rows, h0, u, input, nextId, now);
    hide OpenTurn, Mirrors, Load;
    ClosedBelow(r, u + 1, finalText, u, total);
    LoadIs(closed, u + 2);
    assert u + 1 in closed ==> RowMessage(closed[u + 1]) == AssistantMessage(closed[u + 1].content, []);
    hide CloseTurn;
    assert Load(closed) == LoadBelow(closed, u + 1) + if u + 1 in closed then [RowMessage(closed[u + 1])] else [];
  }

  lemma {:induction false} ClosedBelow(rows: Rows, placeholder: nat, finalText: Option<string>, turnStart: nat, total: nat)
    ensures var closed := CloseTurn(rows, placeholder, finalText, turnStart, total);
            && LoadBelow(closed, placeholder) == LoadBelow(rows, placeholder) && closed.Keys <= rows.Keys
  {
    LoadBelowSame(rows, CloseTurn(rows, placeholder, finalText, turnStart, total), placeholder);
  }

  lemma {:induction false} OpenedBelow(rows: Rows, h0: History, u: nat, input: string, nextId: nat, now: int)
    requires Mirrors(rows, h0) && u >= |h0| && OpenTurn(rows, u, input, nextId, now).Ok?
    ensures LoadBelow(OpenTurn(rows, u, input, nextId, now).value, u + 1) == h0 + [UserMessage(input)]
  {
    var r := OpenTurn(rows, u, input, nextId, now).value;
    OpenedRows(rows, h0, u, input, nextId, now);
    hide OpenTurn, Mirrors;
    LoadBelowSkips(r, |h0|, u);
  }

  lemma {:induction false} ClosedWellFormed(h0: History, input: string)
    requires WellFormed(h0)
    ensures WellFormed(h0 + [UserMessage(input)]) <==> Pending(h0) == {}
    ensures forall text :: WellFormed(h0 + [UserMessage(input)] + [AssistantMessage(text, [])]) <==> Pending(h0) == {}
  {
    AppendExact(h0, UserMessage(input));
    if Pending(h0) == {} {
      GrowWellFormed(h0, UserMessage(input));
    }
    forall text ensures WellFormed(h0 + [UserMessage(input)] + [AssistantMessage(text, [])]) <==> Pending(h0) == {} {
      OpenedWellFormed(h0, input, text);
    }
  }

  /** A placeholder that is settled already is left alone by any closing. */
  lemma {:induction false} ClosingPasses(rows: Rows, placeholder: nat, finalText: Option<string>, turnStart: nat, total: nat)
    requires placeholder in rows && rows[placeholder].state != Streaming
    ensures CloseTurn(rows, placeholder, finalText, turnStart, total) == rows
  {
  }

  lemma {:induction false} OpenedSize(rows: Rows, r: Rows, h0: History, u: nat)
    requires forall k: nat :: k in rows <==> k < |h0|
    requires u >= |h0| && forall k: nat :: k in r <==> k < |h0| || k == u || k == u + 1
    ensures |r| == |h0| + 2
    ensures (forall k: nat :: k in r <==> k < |r|) <==> u == |h0|
  {
    KeysSize(rows, |h0|);
    assert r.Keys == rows.Keys + {u, u + 1};
    assert |r.Keys| == |rows.Keys| + 2;
    assert |r| == |r.Keys| && |rows| == |rows.Keys|;
    if u != |h0| {
      assert u + 1 in r && !(u + 1 < |r|);
    }
  }

  lemma {:induction false} KeysSize(rows: Rows, n: nat)
    requires forall k: nat :: k in rows <==> k < n
    ensures |rows| == n
    decreases n
  {
    if n == 0 {
      assert rows == map[];
    } else {
      var rest := rows - {n - 1};
      KeysSize(rest, n - 1);
      assert rows.Keys == rest.Keys + {n - 1};
      assert |rows.Keys| == |rows| && |rest.Keys| == |rest|;
    }
  }

  /** Loaded again after such a crash, the next turn's history can be saved over the rows - the
      placeholder is settled as the empty reply it was loaded as - if and only if there is no gap. */
  lemma {:induction false} NextSaveExact(rows: Rows, h0: History, input: string, nextId: nat, now: int)
    requires Mirrors(rows, h0) && WellFormed(h0) && Unflagged(h0)
    ensures Opened(rows, h0, input, nextId, now).Ok?
    ensures var r := Opened(rows, h0, input, nextId, now).value;
            (forall next :: Load(r) <= next && Unflagged(next) ==> Savable(r, next)) <==> Pending(h0) == {}
  {
    hide WellFormed, Pending, Repaired, Savable, Unflagged, Mirrors, OpenTurn;
    RepairCloses(h0);
    CrashAfterOpening(rows, h0, input, nextId, now);
    var r := Opened(rows, h0, input, nextId, now).value;
    if Pending(h0) == {} {
      forall next | Load(r) <= next && Unflagged(next) ensures Savable(r, next) {
        OpenedSavableAgain(rows, h0, input, next, nextId, now);
      }
    } else {
      GapNotSavable(rows, h0, |Repaired(h0)|, input, nextId, now);
      assert Load(r) <= Load(r);
    }
  }

  lemma {:induction false} OpenedSavableAgain(rows: Rows, h0: History, input: string, next: History, nextId: nat, now: int)
    requires Mirrors(rows, h0) && OpenTurn(rows, |h0|, input, nextId, now).Ok? && Unflagged(next)
    requires h0 + [UserMessage(input)] + [PlaceholderMessage()] <= next
    ensures Savable(OpenTurn(rows, |h0|, input, nextId, now).value, next)
  {
    var loaded := h0 + [UserMessage(input)] + [PlaceholderMessage()];
    assert forall k :: 0 <= k < |loaded| ==> next[k] == loaded[k];
  }

  lemma {:induction false} GapNotSavable(rows: Rows, h0: History, u: nat, input: string, nextId: nat, now: int)
    requires Mirrors(rows, h0) && Unflagged(h0) && u > |h0| && OpenTurn(rows, u, input, nextId, now).Ok?
    ensures var r := OpenTurn(rows, u, input, nextId, now).value; Unflagged(Load(r)) && !Savable(r, Load(r))
  {
    OpenedLoads(rows, h0, u, input, nextId, now);
    OpenedRows(rows, h0, u, input, nextId, now);
    hide OpenTurn, Mirrors, Load;
  }

  // ----- the turn as a whole ----------------------------------------------------------------

  /** Everything that is written for one watched turn: the opening rows, the turn's own saves, the
      closing branch, and the save after the turn. */
  function WholeTurn(rows: Rows, h0: History, input: string, saves: seq<Save>, final: History,
                     finalText: Option<string>, nextId: nat, now: int): Rows
    requires Opened(rows, h0, input, nextId, now).Ok?
  {
    var start := |Repaired(h0)|;
    var begun := Flushed(Opened(rows, h0, input, nextId, now).value, nextId + 2, []);
    var run := SaveAll(begun, saves);
    var closed := CloseTurn(run.rows, start + 1, finalText, start, |final|);
    Flush(run.(rows := closed), final, 0, now).rows
  }

  /** What a turn of the loop guarantees about its saves and its end, seen from the store. */
  ghost predicate TurnShape(h0: History, input: string, saves: seq<Save>, final: History, finalText: Option<string>) {
    var start := Opening(h0, input);
    && start <= final && Unflagged(final)
    && (forall k :: 0 <= k < |saves| ==> start < saves[k].history && saves[k].history <= final)
    && (forall j, k :: 0 <= j < k < |saves| ==> saves[j].history <= saves[k].history)
    && (saves != [] ==> |final| > |start| && final[|start|].role.Assistant?)
    && (finalText.Some? && |final| == |start| + 1 ==> final[|start|] == AssistantMessage(finalText, []))
  }

  lemma {:induction false} OpenedSavable(rows: Rows, h0: History, input: string, next: History, nextId: nat, now: int)
    requires Mirrors(rows, h0) && h0 <= Repaired(h0) && Opened(rows, h0, input, nextId, now).Ok?
    requires Opening(h0, input) < next && Unflagged(next) && next[|Opening(h0, input)|].role.Assistant?
    ensures Savable(Opened(rows, h0, input, nextId, now).value, next)
  {
    hide Repaired;
    var u := |Repaired(h0)|;
    assert next[u] == UserMessage(input) by { assert Opening(h0, input)[u] == UserMessage(input); }
    forall k | 0 <= k < |h0| ensures next[k] == h0[k] {
      assert Opening(h0, input)[k] == h0[k];
    }
  }

  lemma {:induction false} SavesMirror(t: Flushed, saves: seq<Save>)
    requires saves != [] && Savable(t.rows, saves[0].history)
    requires forall k :: 0 <= k < |saves| ==> Unflagged(saves[k].history)
    requires forall j, k :: 0 <= j < k < |saves| ==> saves[j].history <= saves[k].history
    ensures Mirrors(SaveAll(t, saves).rows, saves[|saves| - 1].history)
    decreases |saves|
  {
    var front, s := saves[..|saves| - 1], saves[|saves| - 1];
    if front == [] {
      assert SaveAll(t, front) == t;
    } else {
      SavesMirror(t, front);
      MirrorsSavable(SaveAll(t, front).rows, front[|front| - 1].history, s.history);
    }
    SavedMirrors(SaveAll(t, front), s.history, s.now);
  }

  /** When everything of a watched turn is written, the store reads back the turn's final history -
      unless the turn appended nothing: then the failed placeholder stays, and the history read
      back has an empty reply at its end that the turn never had. */
  lemma {:induction false} WatchedTurnReadsBack(rows: Rows, h0: History, input: string, saves: seq<Save>,
                                                final: History, finalText: Option<string>, nextId: nat, now: int)
    requires Mirrors(rows, h0) && WellFormed(h0) && TurnShape(h0, input, saves, final, finalText)
    ensures Opened(rows, h0, input, nextId, now).Ok?
    ensures var after := Load(WholeTurn(rows, h0, input, saves, final, finalText, nextId, now));
            && (after == final <==> |final| > |Opening(h0, input)|)
            && (after != final ==> after == final + [PlaceholderMessage()])
  {
    hide WellFormed, Pending, Repaired;
    RepairCloses(h0);
    var u := |Repaired(h0)|;
    var start := Opening(h0, input);
    var begun := Flushed(Opened(rows, h0, input, nextId, now).value, nextId + 2, []);
    var run := SaveAll(begun, saves);
    var closed := CloseTurn(run.rows, u + 1, finalText, u, |final|);
    SaveThenLoadExact(run.(rows := closed), final, now);
    if saves != [] {
      OpenedSavable(rows, h0, input, saves[0].history, nextId, now);
      SavesMirror(begun, saves);
      MirrorsSavable(run.rows, saves[|saves| - 1].history, final);
    } else if |final| > |start| {
      UnsavedClose(rows, h0, input, final, finalText, nextId, now);
    } else {
      assert final == start;
      FailedTurnRows(rows, h0, input, finalText, nextId, now);
    }
  }

  lemma {:induction false} UnsavedClose(rows: Rows, h0: History, input: string, final: History,
                                        finalText: Option<string>, nextId: nat, now: int)
    requires Mirrors(rows, h0) && h0 <= Repaired(h0) && Opened(rows, h0, input, nextId, now).Ok?
    requires TurnShape(h0, input, [], final, finalText) && |final| > |Opening(h0, input)|
    ensures Savable(CloseTurn(Opened(rows, h0, input, nextId, now).value, |Repaired(h0)| + 1, finalText,
                              |Repaired(h0)|, |final|), final)
  {
    hide Repaired;
    var u := |Repaired(h0)|;
    assert final[u] == UserMessage(input) by { assert Opening(h0, input)[u] == UserMessage(input); }
    forall k | 0 <= k < |h0| ensures final[k] == h0[k] {
      assert Opening(h0, input)[k] == h0[k];
    }
  }

  lemma {:induction false} FailedTurnRows(rows: Rows, h0: History, input: string, finalText: Option<string>,
                                          nextId: nat, now: int)
    requires Mirrors(rows, h0) && h0 <= Repaired(h0) && Opened(rows, h0, input, nextId, now).Ok?
    requires Unflagged(Opening(h0, input))
    ensures var final := Opening(h0, input);
            Load(WholeTurn(rows, h0, input, [], final, finalText, nextId, now)) == final + [PlaceholderMessage()]
  {
    hide Repaired;
    var u := |Repaired(h0)|;
    var final := Opening(h0, input);
    var begun := Flushed(Opened(rows, h0, input, nextId, now).value, nextId + 2, []);
    assert SaveAll(begun, []) == begun;
    assert EndingOf(u + 1, finalText, u, |final|) == MarkedFailed;
    var closed := CloseTurn(begun.rows, u + 1, finalText, u, |final|);
    assert final[u] == UserMessage(input) && forall k :: 0 <= k < |h0| ==> final[k] == h0[k];
    EmptyReplyStays(begun.(rows := closed), final, now);
  }

  lemma {:induction false} EmptyReplyStays(t: Flushed, final: History, now: int)
    requires |final| in t.rows && t.rows[|final|].state == Broken
    requires RowMessage(t.rows[|final|]) == PlaceholderMessage()
    requires forall k :: k in t.rows && k != |final| ==>
               k < |final| && t.rows[k].state != Streaming && RowMessage(t.rows[k]) == final[k]
    requires Unflagged(final)
    ensures Load(Flush(t, final, 0, now).rows) == final + [PlaceholderMessage()]
  {
    var after := Flush(t, final, 0, now).rows;
    FlushRows(t, final, 0, now);
    LoadIs(after, |final| + 1);
    LoadBelowAll(after, |final|);
    assert LoadBelow(after, |final|) == final;
  }
}
