/**
  Parked runs and the approvals asked for them (conversation_store.py, `save_pause`, `resolve_pause`
  and `mark_approval_decided`).

  The two tables are written in one transaction each time. `Coupled` says they stay in step; the
  partial unique index on waiting approvals is part of it rather than an assumption.
 */
module Pauses {
  import opened Options

  type Key = string
  type ApprovalId = nat

  datatype Kind = Wait | Call

  // `record` stands for the trace, artifacts and parked value, which are stored and read back whole.
  datatype Pause = Pause(
    plugin: string, entry: string, node: string, kind: Kind, record: string,
    turnSeq: Option<nat>, seqInTurn: Option<nat>)

  datatype Decision = Approved | Declined | Answered | Expired

  datatype State = Waiting | Decided(decision: Decision)

  datatype Approval = Approval(
    conversation: Key, plugin: string, entry: string, node: string, kind: Kind,
    turnSeq: Option<nat>, seqInTurn: Option<nat>, question: string,
    requestedAt: int, expiresAt: int, state: State,
    answeredBy: Option<string>, answer: Option<string>, decidedAt: Option<int>,
    createdAt: int, updatedAt: int, version: nat)

  datatype Tables = Tables(pauses: map<Key, Pause>, approvals: map<ApprovalId, Approval>, nextId: ApprovalId)

  const TTL := 86400

  function EmptyTables(): Tables { Tables(map[], map[], 0) }

  predicate WaitsFor(t: Tables, key: Key, id: ApprovalId) {
    id in t.approvals && t.approvals[id].state.Waiting? && t.approvals[id].conversation == key
  }

  /** The index on waiting approvals, and ids not yet given out. */
  ghost predicate Indexed(t: Tables) {
    && (forall key, i, j :: WaitsFor(t, key, i) && WaitsFor(t, key, j) ==> i == j)
    && (forall id :: id in t.approvals ==> id < t.nextId)
  }

  ghost predicate SameStep(p: Pause, a: Approval) {
    && p.plugin == a.plugin && p.entry == a.entry && p.node == a.node && p.kind == a.kind
    && p.turnSeq == a.turnSeq && p.seqInTurn == a.seqInTurn
  }

  /** A conversation is parked if and only if exactly one approval waits for it, and the two name
      the same step. */
  ghost predicate Coupled(t: Tables) {
    && Indexed(t)
    && (forall key :: key in t.pauses <==> exists id :: WaitsFor(t, key, id))
    && (forall key, id :: WaitsFor(t, key, id) ==> key in t.pauses && SameStep(t.pauses[key], t.approvals[id]))
  }

  // ----- the transactions, as functions on the tables --------------------------------------

  function Asking(key: Key, p: Pause, question: string, now: int): Approval {
    Approval(key, p.plugin, p.entry, p.node, p.kind, p.turnSeq, p.seqInTurn, question,
             now, now + TTL, Waiting, None, None, None, now, now, 1)
  }

  /** The waiting row is rewritten for the new step; it keeps its creation time and gains a version. */
  function AskingAgain(a: Approval, p: Pause, question: string, now: int): Approval {
    a.(plugin := p.plugin, entry := p.entry, node := p.node, kind := p.kind,
       turnSeq := p.turnSeq, seqInTurn := p.seqInTurn, question := question,
       requestedAt := now, expiresAt := now + TTL, updatedAt := now, version := a.version + 1)
  }

  function Settle(a: Approval, decision: Decision, who: Option<string>, answer: Option<string>, now: int): Approval {
    a.(state := Decided(decision), answeredBy := who, answer := answer, decidedAt := Some(now),
       updatedAt := now, version := a.version + 1)
  }

  ghost function TheWaiting(t: Tables, key: Key): (id: ApprovalId)
    requires exists i :: WaitsFor(t, key, i)
    ensures WaitsFor(t, key, id)
  {
    var i :| WaitsFor(t, key, i); i
  }

  ghost function WritePause(t: Tables, key: Key, p: Pause, question: string, now: int): Tables {
    if exists i :: WaitsFor(t, key, i) then
      var id := TheWaiting(t, key);
      Tables(t.pauses[key := p], t.approvals[id := AskingAgain(t.approvals[id], p, question, now)], t.nextId)
    else
      Tables(t.pauses[key := p], t.approvals[t.nextId := Asking(key, p, question, now)], t.nextId + 1)
  }

  ghost function MarkDecided(t: Tables, key: Key, d: Decision, who: Option<string>, answer: Option<string>, now: int): Tables {
    if exists i :: WaitsFor(t, key, i) then
      var id := TheWaiting(t, key);
      t.(approvals := t.approvals[id := Settle(t.approvals[id], d, who, answer, now)])
    else t
  }

  function ClearPause(t: Tables, key: Key): Tables {
    t.(pauses := t.pauses - {key})
  }

  // What one caller asks of the store. `next` is where the resumed run parked again, if it did.
  datatype Op =
    | Save(key: Key, pause: Pause, question: string, at: int)
    | Resolve(key: Key, decision: Decision, who: Option<string>, answer: Option<string>,
              next: Option<Pause>, question: string, at: int)

  ghost function Apply(t: Tables, op: Op): Tables {
    match op
    case Save(key, p, question, now) => WritePause(t, key, p, question, now)
    case Resolve(key, d, who, answer, next, question, now) =>
      var marked := MarkDecided(t, key, d, who, answer, now);
      if next.None? then ClearPause(marked, key) else WritePause(marked, key, next.value, question, now)
  }

  ghost function Run(t: Tables, ops: seq<Op>): Tables {
    if ops == [] then t else Apply(Run(t, ops[..|ops| - 1]), ops[|ops| - 1])
  }

  // ----- the store ------------------------------------------------------------------------

  class PauseStore {
    var pauses: map<Key, Pause>
    var approvals: map<ApprovalId, Approval>
    var nextId: ApprovalId

    ghost function Contents(): Tables
      reads this
    {
      Tables(pauses, approvals, nextId)
    }

    constructor ()
      ensures Contents() == EmptyTables()
    {
      pauses, approvals, nextId := map[], map[], 0;
    }

    method WritePauseRow(key: Key, p: Pause, question: string, now: int)
      requires Indexed(Contents())
      modifies this
      ensures Contents() == WritePause(old(Contents()), key, p, question, now)
    {
      pauses := pauses[key := p];
      if id :| id in approvals && approvals[id].state.Waiting? && approvals[id].conversation == key {
        assert WaitsFor(old(Contents()), key, id);
        approvals := approvals[id := AskingAgain(approvals[id], p, question, now)];
      } else {
        assert forall i :: !WaitsFor(old(Contents()), key, i);
        approvals := approvals[nextId := Asking(key, p, question, now)];
        nextId := nextId + 1;
      }
    }

    method MarkApprovalDecided(key: Key, d: Decision, who: Option<string>, answer: Option<string>, now: int)
      requires Indexed(Contents())
      modifies this`approvals
      ensures Contents() == MarkDecided(old(Contents()), key, d, who, answer, now)
    {
      if id :| id in approvals && approvals[id].state.Waiting? && approvals[id].conversation == key {
        assert WaitsFor(old(Contents()), key, id);
        approvals := approvals[id := Settle(approvals[id], d, who, answer, now)];
      } else {
        assert forall i :: !WaitsFor(old(Contents()), key, i);
      }
    }

    method SavePause(key: Key, p: Pause, question: string, now: int)
      requires Coupled(Contents())
      modifies this
      ensures Contents() == Apply(old(Contents()), Save(key, p, question, now))
      ensures Coupled(Contents())
    {
      WritePauseRow(key, p, question, now);
      WriteCouples(old(Contents()), key, p, question, now);
    }

    method ResolvePause(key: Key, d: Decision, who: Option<string>, answer: Option<string>,
                        next: Option<Pause>, question: string, now: int)
      requires Coupled(Contents())
      modifies this
      ensures Contents() == Apply(old(Contents()), Resolve(key, d, who, answer, next, question, now))
      ensures Coupled(Contents())
    {
      MarkFrees(Contents(), key, d, who, answer, now);
      MarkApprovalDecided(key, d, who, answer, now);
      ghost var marked := Contents();
      if next.None? {
        pauses := pauses - {key};
        ClearCouples(marked, key);
      } else {
        WritePauseRow(key, next.value, question, now);
        WriteCouples(marked, key, next.value, question, now);
      }
    }
  }

  // ----- what every transaction keeps -------------------------------------------------------

  /** In step, except that `key` may be parked with nobody waiting: the state between the two halves
      of a resolution. */
  ghost predicate CoupledBut(t: Tables, key: Key) {
    && Indexed(t)
    && (forall k :: k != key ==> (k in t.pauses <==> exists id :: WaitsFor(t, k, id)))
    && (forall k, id :: k != key && WaitsFor(t, k, id) ==> SameStep(t.pauses[k], t.approvals[id]))
  }

  lemma {:induction false} WriteCouples(t: Tables, key: Key, p: Pause, question: string, now: int)
    requires CoupledBut(t, key)
    ensures Coupled(WritePause(t, key, p, question, now))
  {
    hide WritePause, WaitsFor, SameStep;
    var u := WritePause(t, key, p, question, now);
    var id := WriteWaits(t, key, p, question, now);
    assert WaitsFor(u, key, id);
    forall k | k != key ensures k in u.pauses <==> exists i :: WaitsFor(u, k, i) {
      assert k in u.pauses <==> k in t.pauses;
    }
  }

  /** Afterwards one approval waits for `key`, for this pause, and for every other key the same as before. */
  lemma {:induction false} WriteWaits(t: Tables, key: Key, p: Pause, question: string, now: int) returns (id: nat)
    requires Indexed(t)
    ensures var u := WritePause(t, key, p, question, now);
            && u.pauses == t.pauses[key := u.pauses[key]] && key in u.pauses
            && (forall k, i :: WaitsFor(u, k, i) <==> (k == key && i == id) || (k != key && WaitsFor(t, k, i)))
            && id in u.approvals && SameStep(u.pauses[key], u.approvals[id])
            && (forall i :: i in u.approvals ==> i < u.nextId)
            && (forall k, i :: k != key && WaitsFor(t, k, i) ==>
                  i in t.approvals && i in u.approvals && u.approvals[i] == t.approvals[i])
  {
    id := if exists i :: WaitsFor(t, key, i) then TheWaiting(t, key) else t.nextId;
    var u := WritePause(t, key, p, question, now);
    assert (exists i :: WaitsFor(t, key, i)) ==> WaitsFor(t, key, id);
    forall k, i ensures WaitsFor(u, k, i) <==> (k == key && i == id) || (k != key && WaitsFor(t, k, i)) {
      assert i != id ==> (WaitsFor(u, k, i) <==> WaitsFor(t, k, i));
    }
  }

  lemma {:induction false} MarkFrees(t: Tables, key: Key, d: Decision, who: Option<string>, answer: Option<string>, now: int)
    requires Coupled(t)
    ensures var u := MarkDecided(t, key, d, who, answer, now);
            CoupledBut(u, key) && u.pauses == t.pauses && forall i :: !WaitsFor(u, key, i)
  {
    var u := MarkDecided(t, key, d, who, answer, now);
    forall k, i ensures WaitsFor(u, k, i) <==> (k != key && WaitsFor(t, k, i)) {
      if WaitsFor(t, key, i) { assert i == TheWaiting(t, key); }
    }
  }

  lemma {:induction false} ClearCouples(t: Tables, key: Key)
    requires CoupledBut(t, key) && forall i :: !WaitsFor(t, key, i)
    ensures Coupled(ClearPause(t, key))
  {
    var u := ClearPause(t, key);
    assert forall k, i :: WaitsFor(u, k, i) <==> WaitsFor(t, k, i);
  }

  lemma {:induction false} ApplyCouples(t: Tables, op: Op)
    requires Coupled(t)
    ensures Coupled(Apply(t, op))
  {
    match op
    case Save(key, p, question, now) =>
      WriteCouples(t, key, p, question, now);
    case Resolve(key, d, who, answer, next, question, now) =>
      MarkFrees(t, key, d, who, answer, now);
      var marked := MarkDecided(t, key, d, who, answer, now);
      if next.None? {
        ClearCouples(marked, key);
      } else {
        WriteCouples(marked, key, next.value, question, now);
      }
  }

  /** Whatever is saved and resolved, in whatever order, the two tables stay in step. */
  lemma {:induction false} RunsCouple(t: Tables, ops: seq<Op>)
    requires Coupled(t)
    ensures Coupled(Run(t, ops))
    decreases |ops|
  {
    if ops == [] {
    } else {
      RunsCouple(t, ops[..|ops| - 1]);
      ApplyCouples(Run(t, ops[..|ops| - 1]), ops[|ops| - 1]);
    }
  }

  lemma {:induction false} EmptyCoupled()
    ensures Coupled(EmptyTables())
  {
  }

  /** A row may only change while it waits, and then its version goes up; identity never changes. */
  ghost predicate Evolves(a: Approval, b: Approval) {
    && b.conversation == a.conversation && b.createdAt == a.createdAt
    && a.version <= b.version && (a != b ==> a.version < b.version)
    && (a.state.Decided? ==> b == a)
  }

  lemma {:induction false} ApplyEvolves(t: Tables, op: Op, id: ApprovalId)
    requires Coupled(t) && id in t.approvals
    ensures id in Apply(t, op).approvals && Evolves(t.approvals[id], Apply(t, op).approvals[id])
  {
    if op.Resolve? {
      MarkFrees(t, op.key, op.decision, op.who, op.answer, op.at);
    }
  }

  /** Over any run: no approval disappears, its version only grows, and once decided - approved,
      declined, answered or expired - it never changes again. */
  lemma {:induction false} RunsEvolve(t: Tables, ops: seq<Op>, id: ApprovalId)
    requires Coupled(t) && id in t.approvals
    ensures id in Run(t, ops).approvals && Evolves(t.approvals[id], Run(t, ops).approvals[id])
    decreases |ops|
  {
    if ops == [] {
    } else {
      var front := ops[..|ops| - 1];
      RunsEvolve(t, front, id);
      RunsCouple(t, front);
      ApplyEvolves(Run(t, front), ops[|ops| - 1], id);
    }
  }

  /** Resolving a parked conversation decides exactly its own waiting approval, and a run that parks
      again asks a new question under a new approval, never by reopening the old one. */
  lemma {:induction false} ResolveDecides(t: Tables, op: Op)
    requires Coupled(t) && op.Resolve? && op.key in t.pauses
    ensures exists id :: WaitsFor(t, op.key, id) && Apply(t, op).approvals[id].state == Decided(op.decision)
    ensures op.next.None? ==> op.key !in Apply(t, op).pauses && |Apply(t, op).approvals| == |t.approvals|
    ensures op.next.Some? ==>
              Apply(t, op).pauses[op.key] == op.next.value && WaitsFor(Apply(t, op), op.key, t.nextId)
    ensures forall k :: k != op.key && k in t.pauses ==>
              k in Apply(t, op).pauses && Apply(t, op).pauses[k] == t.pauses[k]
  {
    MarkFrees(t, op.key, op.decision, op.who, op.answer, op.at);
    var id := TheWaiting(t, op.key);
    var marked := MarkDecided(t, op.key, op.decision, op.who, op.answer, op.at);
    assert marked.approvals.Keys == t.approvals.Keys;
    assert |marked.approvals| == |marked.approvals.Keys| && |t.approvals| == |t.approvals.Keys|;
    assert WaitsFor(t, op.key, id) && Apply(t, op).approvals[id].state == Decided(op.decision);
  }

  /** `delete_pause` clears the pause and leaves the approval waiting: it keeps the tables in step
      exactly when there was no pause to delete. */
  lemma {:induction false} DeletePauseExact(t: Tables, key: Key)
    requires Coupled(t)
    ensures Coupled(ClearPause(t, key)) <==> key !in t.pauses
  {
    var u := ClearPause(t, key);
    assert forall k, i :: WaitsFor(u, k, i) <==> WaitsFor(t, k, i);
    if key !in t.pauses {
      assert u.pauses == t.pauses;
    } else {
      assert WaitsFor(u, key, TheWaiting(t, key));
    }
  }
}
