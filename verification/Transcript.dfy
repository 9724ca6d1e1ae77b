/**
  A conversation's message history, as conversation.py keeps it: a value that grows through
  `Append` and `Repair` and is shortened by `Compact`, nothing else.

  `Pending` and `Append` are the program's own definitions. `Paired` is an independent statement
  of what a history has to look like, written over positions and without `Pending`; the lemmas
  show that `Append` accepts a message exactly when the result is still `Paired`.
 */
module Transcript {
  import opened Options

  type CallId = string

  datatype Role = User | Assistant | Tool

  // `arguments` is the canonical JSON text of the parsed arguments.
  datatype ToolCall = ToolCall(id: CallId, name: string, arguments: string)

  datatype Message = Message(
    role: Role,
    content: Option<string>,
    toolCalls: seq<ToolCall>,
    toolCallId: Option<CallId>,
    isSummary: bool)

  type History = seq<Message>

  const REPAIR_MARKER := "[repaired] interrupted before execution"

  function UserMessage(text: string): Message {
    Message(User, Some(text), [], None, false)
  }

  function AssistantMessage(content: Option<string>, calls: seq<ToolCall>): Message {
    Message(Assistant, content, calls, None, false)
  }

  function ToolMessage(id: CallId, content: string): Message {
    Message(Tool, Some(content), [], Some(id), false)
  }

  predicate AsksForTools(m: Message) {
    m.role.Assistant? && m.toolCalls != []
  }

  // ----- the program's definitions -------------------------------------------------------

  /** The position of the last assistant message that asks for tools, or -1. */
  function LastAsk(h: History): (i: int)
    ensures -1 <= i < |h|
    ensures i >= 0 ==> AsksForTools(h[i])
    ensures forall k :: i < k < |h| ==> !AsksForTools(h[k])
  {
    if h == [] then -1
    else if AsksForTools(h[|h| - 1]) then |h| - 1
    else LastAsk(h[..|h| - 1])
  }

  function Declared(calls: seq<ToolCall>): set<CallId> {
    set c | c in calls :: c.id
  }

  function Answered(rows: History): set<Option<CallId>> {
    set m | m in rows && m.role.Tool? :: m.toolCallId
  }

  function Pending(h: History): set<CallId> {
    var c := LastAsk(h);
    if c < 0 then {}
    else set id | id in Declared(h[c].toolCalls) && Some(id) !in Answered(h[c + 1..])
  }

  predicate MayFollow(h: History, m: Message) {
    if Pending(h) != {} then m.role.Tool? && m.toolCallId.Some? && m.toolCallId.value in Pending(h)
    else !m.role.Tool?
  }

  function Append(h: History, m: Message): Result<History> {
    if MayFollow(h, m) then Ok(h + [m]) else Err("transcript invariant")
  }

  // ----- what a history has to look like, by position ------------------------------------

  /** Row `a` answers a call of message `c`: only tool rows stand between them, `c` asked for
      that id, and no row in between answered it already. */
  ghost predicate Answers(h: History, c: int, a: int) {
    && 0 <= c < a < |h|
    && AsksForTools(h[c])
    && h[a].role.Tool? && h[a].toolCallId.Some?
    && h[a].toolCallId.value in Declared(h[c].toolCalls)
    && (forall j :: c < j < a ==> h[j].role.Tool? && h[j].toolCallId != h[a].toolCallId)
  }

  ghost predicate AnswersId(h: History, c: int, a: int, id: CallId) {
    Answers(h, c, a) && h[a].toolCallId == Some(id)
  }

  /** Every call message `c` declares has been answered before position `i`. */
  ghost predicate ClosedBefore(h: History, c: int, i: int)
    requires 0 <= c < i <= |h|
  {
    forall id :: id in Declared(h[c].toolCalls) ==>
      exists a :: c < a < i && Answers(h, c, a) && h[a].toolCallId == Some(id)
  }

  /** Tool rows answer the round they stand in, and nothing else is said while a round is open. */
  ghost predicate Paired(h: History) {
    && (forall a :: 0 <= a < |h| && h[a].role.Tool? ==> exists c :: Answers(h, c, a))
    && (forall c, i :: 0 <= c < i < |h| && AsksForTools(h[c]) && !h[i].role.Tool? ==> ClosedBefore(h, c, i))
  }

  /** No assistant message declares one id twice. */
  ghost predicate DistinctIds(calls: seq<ToolCall>) {
    forall i, j :: 0 <= i < j < |calls| ==> calls[i].id != calls[j].id
  }

  ghost predicate DistinctAsks(h: History) {
    forall i :: 0 <= i < |h| ==> DistinctIds(h[i].toolCalls)
  }

  ghost predicate WellFormed(h: History) {
    Paired(h) && DistinctAsks(h)
  }

  // ----- Append accepts exactly what keeps a history paired ------------------------------

  lemma {:induction false} LastAskSnoc(h: History, m: Message)
    ensures LastAsk(h + [m]) == if AsksForTools(m) then |h| else LastAsk(h)
  {
    var g := h + [m];
    assert g[..|g| - 1] == h;
  }

  lemma {:induction false} AnsweredSnoc(rows: History, m: Message)
    ensures Answered(rows + [m]) == Answered(rows) + if m.role.Tool? then {m.toolCallId} else {}
  {
    forall x ensures x in Answered(rows + [m]) <==> x in Answered(rows) + if m.role.Tool? then {m.toolCallId} else {} {
      if x in Answered(rows) {
        var r :| r in rows && r.role.Tool? && r.toolCallId == x;
        assert r in rows + [m];
      }
      if m.role.Tool? && x == m.toolCallId {
        assert m in rows + [m];
      }
    }
  }

  lemma {:induction false} PendingSnoc(h: History, m: Message)
    ensures AsksForTools(m) ==> Pending(h + [m]) == Declared(m.toolCalls)
    ensures !AsksForTools(m) && m.role.Tool? && m.toolCallId.Some? ==>
              Pending(h + [m]) == Pending(h) - {m.toolCallId.value}
    ensures !AsksForTools(m) && (!m.role.Tool? || m.toolCallId.None?) ==> Pending(h + [m]) == Pending(h)
  {
    LastAskSnoc(h, m);
    hide LastAsk, Declared;
    var g, c := h + [m], LastAsk(h + [m]);
    if AsksForTools(m) {
      assert g[c + 1..] == [];
    } else if c >= 0 {
      assert g[c + 1..] == h[c + 1..] + [m];
      AnsweredSnoc(h[c + 1..], m);
      hide Answered;
    }
  }

  /** Growing a history does not disturb who answers whom in it. */
  lemma {:induction false} AnswersStable(h: History, m: Message, c: int, a: int)
    ensures a < |h| ==> (Answers(h + [m], c, a) <==> Answers(h, c, a))
  {
    var g := h + [m];
    assert forall k :: 0 <= k < |h| ==> g[k] == h[k];
    if a < |h| {
      if Answers(h, c, a) {
        assert forall j :: c < j < a ==> g[j] == h[j];
      }
      if Answers(g, c, a) {
        forall j | c < j < a ensures h[j].role.Tool? && h[j].toolCallId != h[a].toolCallId {
          assert g[j] == h[j];
        }
      }
    }
  }

  lemma {:induction false} ClosedStable(h: History, m: Message, c: int, i: int)
    requires 0 <= c < i <= |h|
    ensures ClosedBefore(h + [m], c, i) <==> ClosedBefore(h, c, i)
  {
    forall a { AnswersStable(h, m, c, a); }
    var g := h + [m];
    assert g[c] == h[c];
    if ClosedBefore(h, c, i) {
      forall id | id in Declared(g[c].toolCalls)
        ensures exists a :: c < a < i && Answers(g, c, a) && g[a].toolCallId == Some(id)
      {
        var a :| c < a < i && Answers(h, c, a) && h[a].toolCallId == Some(id);
        assert Answers(g, c, a);
      }
    }
    if ClosedBefore(g, c, i) {
      forall id | id in Declared(h[c].toolCalls)
        ensures exists a :: c < a < i && Answers(h, c, a) && h[a].toolCallId == Some(id)
      {
        var a :| c < a < i && Answers(g, c, a) && g[a].toolCallId == Some(id);
        assert Answers(h, c, a);
      }
    }
  }

  lemma {:induction false} PairedPrefix(h: History, m: Message)
    requires Paired(h + [m])
    ensures Paired(h)
  {
    var g := h + [m];
    forall a | 0 <= a < |h| && h[a].role.Tool? ensures exists c :: Answers(h, c, a) {
      assert g[a].role.Tool?;
      var c :| Answers(g, c, a);
      AnswersStable(h, m, c, a);
    }
    forall c, i | 0 <= c < i < |h| && AsksForTools(h[c]) && !h[i].role.Tool? ensures ClosedBefore(h, c, i) {
      assert AsksForTools(g[c]) && !g[i].role.Tool?;
      ClosedStable(h, m, c, i);
    }
  }

  lemma {:induction false} AnsweredByPosition(h: History, c: int, id: CallId)
    requires 0 <= c < |h|
    ensures Some(id) in Answered(h[c + 1..])
            <==> exists a :: c < a < |h| && h[a].role.Tool? && h[a].toolCallId == Some(id)
  {
    var rows := h[c + 1..];
    if Some(id) in Answered(rows) {
      var m :| m in rows && m.role.Tool? && m.toolCallId == Some(id);
      var k :| 0 <= k < |rows| && rows[k] == m;
      assert h[c + 1 + k] == m;
    }
    if a :| c < a < |h| && h[a].role.Tool? && h[a].toolCallId == Some(id) {
      assert rows[a - c - 1] == h[a];
    }
  }

  lemma {:induction false} ClosedMeansNothingPending(h: History, i: int)
    requires 0 <= LastAsk(h) < i <= |h| && ClosedBefore(h, LastAsk(h), i)
    ensures Pending(h) == {}
  {
    var c := LastAsk(h);
    forall id | id in Declared(h[c].toolCalls) ensures Some(id) in Answered(h[c + 1..]) {
      var a :| c < a < i && Answers(h, c, a) && h[a].toolCallId == Some(id);
      AnsweredByPosition(h, c, id);
    }
  }

  /** While a call is unanswered, only tool rows follow the message that made it. */
  lemma {:induction false} OpenRoundIsTools(h: History)
    requires Paired(h) && Pending(h) != {}
    ensures 0 <= LastAsk(h)
    ensures forall j :: LastAsk(h) < j < |h| ==> h[j].role.Tool?
  {
    forall j | LastAsk(h) < j < |h| ensures h[j].role.Tool? {
      if !h[j].role.Tool? {
        ClosedMeansNothingPending(h, j);
      }
    }
  }

  /** A tool row after the last asking message answers that message and no other. */
  lemma {:induction false} AnswererIsLastAsk(h: History, c: int, a: int)
    requires Answers(h, c, a) && LastAsk(h) < a
    ensures c == LastAsk(h)
  {
  }

  /** An accepted tool row answers the last message that asked. */
  lemma {:induction false} NewRowAnswers(h: History, m: Message)
    requires Paired(h) && MayFollow(h, m) && m.role.Tool?
    ensures Answers(h + [m], LastAsk(h), |h|)
  {
    OpenRoundIsTools(h);
    hide Paired;
    var c := LastAsk(h);
    forall j | c < j < |h| ensures h[j].toolCallId != m.toolCallId {
      assert h[c + 1..][j - c - 1] == h[j];
    }
    hide LastAsk;
  }

  lemma {:induction false} AcceptedAnswers(h: History, m: Message, a: int)
    requires Paired(h) && MayFollow(h, m) && 0 <= a <= |h| && (h + [m])[a].role.Tool?
    ensures exists c :: Answers(h + [m], c, a)
  {
    if a < |h| {
      assert h[a].role.Tool?;
      var c :| Answers(h, c, a);
      AnswersStable(h, m, c, a);
    } else {
      NewRowAnswers(h, m);
    }
  }

  /** When nothing is pending, every earlier round is closed. */
  lemma {:induction false} AllRoundsClosed(h: History, c: int)
    requires Paired(h) && Pending(h) == {} && 0 <= c < |h| && AsksForTools(h[c])
    ensures ClosedBefore(h, c, |h|)
  {
    var l := LastAsk(h);
    forall id | id in Declared(h[c].toolCalls)
      ensures exists a :: c < a < |h| && Answers(h, c, a) && h[a].toolCallId == Some(id)
    {
      if c < l {
        assert ClosedBefore(h, c, l);
        hide Paired, Answers, Pending;
        var a :| c < a < l && Answers(h, c, a) && h[a].toolCallId == Some(id);
      } else {
        LastRoundClosed(h, id);
      }
    }
  }

  lemma {:induction false} LastRoundClosed(h: History, id: CallId)
    requires Paired(h) && Pending(h) == {} && LastAsk(h) >= 0 && id in Declared(h[LastAsk(h)].toolCalls)
    ensures exists a :: LastAsk(h) < a < |h| && Answers(h, LastAsk(h), a) && h[a].toolCallId == Some(id)
  {
    var l := LastAsk(h);
    assert id !in Pending(h);
    AnsweredByPosition(h, l, id);
    hide Pending, LastAsk, Answers;
    var a :| l < a < |h| && h[a].role.Tool? && h[a].toolCallId == Some(id);
    var c :| Answers(h, c, a);
    AnswererIsLastAsk(h, c, a);
  }

  lemma {:induction false} AcceptedKeepsPaired(h: History, m: Message)
    requires Paired(h) && MayFollow(h, m)
    ensures Paired(h + [m])
  {
    var g, n := h + [m], |h|;
    hide Answers, ClosedBefore, Pending;
    forall a | 0 <= a < |g| && g[a].role.Tool? ensures exists c :: Answers(g, c, a) {
      AcceptedAnswers(h, m, a);
    }
    forall c, i | 0 <= c < i < |g| && AsksForTools(g[c]) && !g[i].role.Tool? ensures ClosedBefore(g, c, i) {
      assert AsksForTools(h[c]);
      if i < n {
        assert !h[i].role.Tool?;
      } else {
        AllRoundsClosed(h, c);
      }
      ClosedStable(h, m, c, i);
    }
  }

  lemma {:induction false} PairedMeansAccepted(h: History, m: Message)
    requires Paired(h) && Paired(h + [m])
    ensures MayFollow(h, m)
  {
    var g := h + [m];
    var n := |h|;
    assert g[n] == m;
    assert forall j :: 0 <= j < n ==> g[j] == h[j];
    var l := LastAsk(h);
    if m.role.Tool? {
      var c :| Answers(g, c, n);
      assert c == l;
      AnsweredByPosition(h, c, m.toolCallId.value);
      assert m.toolCallId.value in Pending(h);
    } else if 0 <= l {
      assert ClosedBefore(g, l, n);
      ClosedStable(h, m, l, n);
      ClosedMeansNothingPending(h, n);
    }
  }

  /** `Append` succeeds on exactly the messages that keep a paired history paired, and then its
      result is the history with that one message at the end. */
  lemma {:induction false} AppendExact(h: History, m: Message)
    requires Paired(h)
    ensures Append(h, m).Ok? <==> Paired(h + [m])
    ensures Append(h, m).Ok? ==> Append(h, m).value == h + [m]
  {
    if MayFollow(h, m) {
      AcceptedKeepsPaired(h, m);
    } else if Paired(h + [m]) {
      PairedMeansAccepted(h, m);
    }
  }

  /** `h` can be produced from the empty history by successful appends. */
  ghost predicate Appendable(h: History)
    decreases |h|
  {
    h == [] || (Appendable(h[..|h| - 1]) && MayFollow(h[..|h| - 1], h[|h| - 1]))
  }

  /** The histories `Append` can build are the paired ones, and no others. */
  lemma {:induction false} ReachableExact(h: History)
    ensures Appendable(h) <==> Paired(h)
    decreases |h|
  {
    if h == [] {
    } else {
      var p, m := h[..|h| - 1], h[|h| - 1];
      assert h == p + [m];
      ReachableExact(p);
      if Paired(h) {
        PairedPrefix(p, m);
      }
      if Paired(p) {
        AppendExact(p, m);
      }
    }
  }

  /** In a paired history an id is answered at most once per round, and an id of an earlier
      round, or one no longer pending, is answered exactly once. */
  lemma {:induction false} AnsweredExactlyOnce(h: History, c: int, id: CallId)
    requires Paired(h) && 0 <= c < |h| && AsksForTools(h[c]) && id in Declared(h[c].toolCalls)
    ensures forall a, b :: AnswersId(h, c, a, id) && AnswersId(h, c, b, id) ==> a == b
    ensures (exists a :: AnswersId(h, c, a, id)) <==> (c < LastAsk(h) || id !in Pending(h))
  {
    var l := LastAsk(h);
    if c < l {
      assert ClosedBefore(h, c, l);
      var a :| c < a < l && Answers(h, c, a) && h[a].toolCallId == Some(id);
      assert AnswersId(h, c, a, id);
    } else {
      AnsweredByPosition(h, c, id);
      forall a | c < a < |h| && h[a].role.Tool? && h[a].toolCallId == Some(id) ensures AnswersId(h, c, a, id) {
        var c' :| Answers(h, c', a);
        AnswererIsLastAsk(h, c', a);
      }
    }
  }
}
