/** Closing the calls an interruption left unanswered (conversation.py, `repair`). */
module HistoryRepair {
  import opened Options
  import opened Transcript

  /** One marker row per declared id that is still pending, in declared order. */
  function Closings(calls: seq<ToolCall>, pending: set<CallId>): History {
    if calls == [] then []
    else (if calls[0].id in pending then [ToolMessage(calls[0].id, REPAIR_MARKER)] else [])
         + Closings(calls[1..], pending)
  }

  function Repaired(h: History): History {
    if Pending(h) == {} then h
    else h + Closings(h[LastAsk(h)].toolCalls, Pending(h))
  }

  method Repair(messages: History) returns (repaired: History)
    ensures repaired == Repaired(messages)
  {
    var last := |messages| - 1;
    while last >= 0 && !AsksForTools(messages[last])
      invariant -1 <= last < |messages|
      invariant forall k :: last < k < |messages| ==> !AsksForTools(messages[k])
    {
      last := last - 1;
    }
    assert last == LastAsk(messages);
    if last < 0 {
      return messages;
    }
    var pending := Pending(messages);
    if pending == {} {
      return messages;
    }
    var calls := messages[last].toolCalls;
    var rows := Close(calls, pending);
    repaired := messages + rows;
  }

  /** The rows a repair adds, one call at a time. */
  method Close(calls: seq<ToolCall>, pending: set<CallId>) returns (rows: History)
    ensures rows == Closings(calls, pending)
  {
    rows := [];
    for i := 0 to |calls|
      invariant rows + Closings(calls[i..], pending) == Closings(calls, pending)
    {
      assert calls[i..][1..] == calls[i + 1..];
      if calls[i].id in pending {
        rows := rows + [ToolMessage(calls[i].id, REPAIR_MARKER)];
      }
    }
  }

  // ----- what a repair achieves -----------------------------------------------------------

  /** Nobody declares a still-pending id twice. */
  ghost predicate PendingOnce(calls: seq<ToolCall>, pending: set<CallId>) {
    forall i, j :: 0 <= i < j < |calls| && calls[i].id in pending ==> calls[i].id != calls[j].id
  }

  lemma {:induction false} PairedPrefixes(h: History, rest: History)
    requires Paired(h + rest)
    ensures Paired(h)
    decreases |rest|
  {
    if rest == [] {
      assert h + rest == h;
    } else {
      var last := |rest| - 1;
      assert h + rest == (h + rest[..last]) + [rest[last]];
      PairedPrefix(h + rest[..last], rest[last]);
      PairedPrefixes(h, rest[..last]);
    }
  }

  lemma {:induction false} DeclaredHead(calls: seq<ToolCall>, pending: set<CallId>)
    requires calls != [] && PendingOnce(calls, pending)
    ensures PendingOnce(calls[1..], pending)
    ensures Declared(calls) * pending ==
            (if calls[0].id in pending then {calls[0].id} else {}) + Declared(calls[1..]) * pending
    ensures calls[0].id in pending ==> calls[0].id !in Declared(calls[1..])
  {
  }

  lemma {:induction false} ClosingsShape(calls: seq<ToolCall>, pending: set<CallId>)
    requires PendingOnce(calls, pending)
    ensures |Closings(calls, pending)| == |Declared(calls) * pending|
    ensures forall m :: m in Closings(calls, pending) ==>
              m.role.Tool? && m.toolCallId.Some? && m.toolCallId.value in pending && m.toolCalls == []
    decreases |calls|
  {
    if calls == [] {
    } else {
      DeclaredHead(calls, pending);
      ClosingsShape(calls[1..], pending);
    }
  }

  lemma {:induction false} CloseOne(g: History, id: CallId)
    requires Paired(g) && id in Pending(g)
    ensures Paired(g + [ToolMessage(id, REPAIR_MARKER)])
    ensures Pending(g + [ToolMessage(id, REPAIR_MARKER)]) == Pending(g) - {id}
  {
    var row := ToolMessage(id, REPAIR_MARKER);
    AcceptedKeepsPaired(g, row);
    PendingSnoc(g, row);
  }

  lemma {:induction false} ClosingsHead(g: History, calls: seq<ToolCall>, pending: set<CallId>)
    requires calls != []
    ensures g + Closings(calls, pending)
            == (if calls[0].id in pending then g + [ToolMessage(calls[0].id, REPAIR_MARKER)] else g)
               + Closings(calls[1..], pending)
  {
  }

  lemma {:induction false} ClosingsClose(g: History, calls: seq<ToolCall>, pending: set<CallId>)
    requires Paired(g) && PendingOnce(calls, pending)
    requires Pending(g) == Declared(calls) * pending
    ensures Paired(g + Closings(calls, pending))
    ensures Pending(g + Closings(calls, pending)) == {}
    decreases |calls|
  {
    if calls == [] {
      assert g + Closings(calls, pending) == g;
      assert Declared(calls) == {};
    } else {
      hide Paired, Pending, Declared, PendingOnce, Closings;
      var rest := calls[1..];
      DeclaredHead(calls, pending);
      ClosingsHead(g, calls, pending);
      if calls[0].id in pending {
        CloseOne(g, calls[0].id);
        ClosingsClose(g + [ToolMessage(calls[0].id, REPAIR_MARKER)], rest, pending);
      } else {
        ClosingsClose(g, rest, pending);
      }
    }
  }

  /** A closing row for an id that is no longer pending has no call to pair with. */
  lemma {:induction false} SpentIdBreaks(g: History, calls: seq<ToolCall>, pending: set<CallId>, i: nat)
    requires Paired(g) && i < |calls| && calls[i].id in pending && calls[i].id !in Pending(g)
    ensures !Paired(g + Closings(calls, pending))
    decreases |calls|
  {
    var head, rest := calls[0], calls[1..];
    if head.id in pending {
      var row := ToolMessage(head.id, REPAIR_MARKER);
      assert g + Closings(calls, pending) == (g + [row]) + Closings(rest, pending);
      AppendExact(g, row);
      PendingSnoc(g, row);
      if Paired(g + [row]) {
        SpentIdBreaks(g + [row], rest, pending, i - 1);
      } else if Paired((g + [row]) + Closings(rest, pending)) {
        PairedPrefixes(g + [row], Closings(rest, pending));
      }
    } else {
      assert Closings(calls, pending) == Closings(rest, pending);
      SpentIdBreaks(g, rest, pending, i - 1);
    }
  }

  lemma {:induction false} DuplicateBreaks(g: History, calls: seq<ToolCall>, pending: set<CallId>, i: nat, j: nat)
    requires Paired(g) && i < j < |calls| && calls[i].id in pending && calls[i].id == calls[j].id
    ensures !Paired(g + Closings(calls, pending))
    decreases |calls|
  {
    hide Paired, Pending;
    var head, rest := calls[0], calls[1..];
    if head.id !in pending {
      assert Closings(calls, pending) == Closings(rest, pending);
      DuplicateBreaks(g, rest, pending, i - 1, j - 1);
    } else {
      var row := ToolMessage(head.id, REPAIR_MARKER);
      assert g + Closings(calls, pending) == (g + [row]) + Closings(rest, pending);
      if !Paired(g + [row]) {
        UnpairedStays(g + [row], Closings(rest, pending));
      } else if i == 0 {
        FirstAnswerSpends(g, row);
        SpentIdBreaks(g + [row], rest, pending, j - 1);
      } else {
        DuplicateBreaks(g + [row], rest, pending, i - 1, j - 1);
      }
    }
  }

  lemma {:induction false} UnpairedStays(g: History, rows: History)
    requires !Paired(g)
    ensures !Paired(g + rows)
  {
    hide Paired;
    if Paired(g + rows) {
      PairedPrefixes(g, rows);
    }
  }

  lemma {:induction false} FirstAnswerSpends(g: History, row: Message)
    requires Paired(g) && row.role.Tool? && row.toolCallId.Some? && Paired(g + [row])
    ensures row.toolCallId.value !in Pending(g + [row])
  {
    hide Paired, Pending;
    AppendExact(g, row);
    PendingSnoc(g, row);
  }

  /** Repairing keeps a paired history paired exactly when no pending id was declared twice. */
  lemma {:induction false} RepairExact(h: History)
    requires Paired(h)
    ensures Paired(Repaired(h)) <==> (Pending(h) == {} || PendingOnce(h[LastAsk(h)].toolCalls, Pending(h)))
  {
    if Pending(h) != {} {
      var calls, pending := h[LastAsk(h)].toolCalls, Pending(h);
      assert pending == Declared(calls) * pending;
      if PendingOnce(calls, pending) {
        ClosingsClose(h, calls, pending);
      } else {
        var i, j :| 0 <= i < j < |calls| && calls[i].id in pending && calls[i].id == calls[j].id;
        DuplicateBreaks(h, calls, pending, i, j);
      }
    }
  }

  /** A repair leaves nothing pending, only adds rows, adds one per pending call, and is a no-op
      on a history with nothing to close - hence repairing twice is repairing once. */
  lemma {:induction false} RepairCloses(h: History)
    requires WellFormed(h)
    ensures WellFormed(Repaired(h)) && Pending(Repaired(h)) == {}
    ensures h <= Repaired(h) && |Repaired(h)| == |h| + |Pending(h)|
    ensures forall k :: |h| <= k < |Repaired(h)| ==>
              Repaired(h)[k].role.Tool? && Repaired(h)[k].toolCallId.Some?
              && Repaired(h)[k].toolCallId.value in Pending(h)
    ensures Repaired(Repaired(h)) == Repaired(h)
  {
    if Pending(h) != {} {
      var calls, pending := h[LastAsk(h)].toolCalls, Pending(h);
      assert pending == Declared(calls) * pending;
      ClosingsClose(h, calls, pending);
      ClosingsShape(calls, pending);
      var rows := Closings(calls, pending);
      forall k | 0 <= k < |h + rows| ensures DistinctIds((h + rows)[k].toolCalls) {
        if k >= |h| { assert (h + rows)[k] in rows; }
      }
    }
  }
}
