/**
  The `messages` rows of one conversation (conversation_store.py, `_insert_messages`, `save`,
  `load`, `bind_persist`), and the placeholder rows a watched turn writes beside them
  (door/nouns/messages.py, `turn_started` and `turn_finished`).

  `Flush` is what one save does to the rows. The class does it row by row, and the persister calls
  it with only the part of the history it has not sent yet.
 */
module MessageStore {
  import opened Options
  import opened Transcript

  datatype RowState = Sent | Streaming | Broken

  // `is_summary` has no column: a row reads back as a message that is not a summary.
  datatype Row = Row(
    role: Role,
    content: Option<string>,
    toolCalls: seq<ToolCall>,
    toolCallId: Option<CallId>,
    id: nat,
    createdAt: int,
    state: RowState)

  type Rows = map<nat, Row>

  function RowMessage(r: Row): Message {
    Message(r.role, r.content, r.toolCalls, r.toolCallId, false)
  }

  function NewRow(m: Message, id: nat, now: int): Row {
    Row(m.role, m.content, m.toolCalls, m.toolCallId, id, now, Sent)
  }

  /** Finalising a placeholder fills it in; it keeps its role, its id and its creation time. */
  function Finalised(r: Row, m: Message): Row {
    r.(content := m.content, toolCalls := m.toolCalls, toolCallId := m.toolCallId, state := Sent)
  }

  // `landed` lists, in order, the id of every row written and whether it was a placeholder.
  datatype Flushed = Flushed(rows: Rows, nextId: nat, landed: seq<(nat, bool)>)

  function FlushOne(t: Flushed, k: nat, m: Message, now: int): Flushed {
    if k !in t.rows then
      Flushed(t.rows[k := NewRow(m, t.nextId, now)], t.nextId + 1, t.landed + [(t.nextId, false)])
    else if t.rows[k].state == Streaming then
      Flushed(t.rows[k := Finalised(t.rows[k], m)], t.nextId + 1, t.landed + [(t.rows[k].id, true)])
    else t
  }

  function Flush(t: Flushed, h: History, from: nat, now: int): Flushed
    decreases |h| - from
  {
    if from >= |h| then t
    else Flush(FlushOne(t, from, h[from], now), h, from + 1, now)
  }

  /** All rows with a sequence number below `n`, in order. */
  function LoadBelow(rows: Rows, n: nat): History {
    if n == 0 then []
    else LoadBelow(rows, n - 1) + (if n - 1 in rows then [RowMessage(rows[n - 1])] else [])
  }

  function Bound(keys: set<nat>): nat
    ensures forall k :: k in keys ==> k < Bound(keys)
  {
    if keys == {} then 0
    else
      var m := Largest(keys);
      m + 1
  }

  function Largest(keys: set<nat>): (m: nat)
    requires keys != {}
    ensures m in keys && forall k :: k in keys ==> k <= m
  {
    LargestExists(keys);
    var m :| m in keys && forall k :: k in keys ==> k <= m;
    m
  }

  lemma {:induction false} LargestExists(keys: set<nat>)
    requires keys != {}
    ensures exists m :: m in keys && forall k :: k in keys ==> k <= m
    decreases keys
  {
    var x :| x in keys;
    if keys == {x} {
    } else {
      LargestExists(keys - {x});
      var m :| m in keys - {x} && forall k :: k in keys - {x} ==> k <= m;
      var top := if x <= m then m else x;
      forall k | k in keys ensures k <= top {
        assert k == x || k in keys - {x};
      }
    }
  }

  /** `load`: every row, ordered by sequence number, whatever its state. */
  function Load(rows: Rows): History {
    LoadBelow(rows, Bound(rows.Keys))
  }

  class Store {
    var rows: Rows
    var nextId: nat

    constructor ()
      ensures rows == map[] && nextId == 0
    {
      rows, nextId := map[], 0;
    }

    /** One row written or finalised for every message from `startSeq` on that has no settled row. */
    method InsertMessages(messages: History, startSeq: nat, now: int) returns (landed: seq<(nat, bool)>)
      modifies this
      ensures Flushed(rows, nextId, landed) == Flush(Flushed(old(rows), old(nextId), []), messages, startSeq, now)
    {
      landed := [];
      var k := startSeq;
      while k < |messages|
        invariant Flush(Flushed(rows, nextId, landed), messages, k, now)
                  == Flush(Flushed(old(rows), old(nextId), []), messages, startSeq, now)
      {
        var m := messages[k];
        if k in rows {
          if rows[k].state == Streaming {
            landed := landed + [(rows[k].id, true)];
            rows := rows[k := Finalised(rows[k], m)];
            nextId := nextId + 1;
          }
        } else {
          landed := landed + [(nextId, false)];
          rows := rows[k := NewRow(m, nextId, now)];
          nextId := nextId + 1;
        }
        k := k + 1;
      }
    }
  }

  /** `bind_persist`: a closure that remembers how much of the growing history it has sent. */
  class Persister {
    const store: Store
    var flushed: nat

    constructor (store: Store)
      ensures this.store == store && flushed == 0
    {
      this.store := store;
      flushed := 0;
    }

    /** The rows this persister has already sent are settled. */
    ghost predicate Valid()
      reads this, store
    {
      SettledBelow(store.rows, flushed)
    }

    /** Sending only the unsent tail leaves the store exactly as saving the whole history would. */
    method Persist(messages: History, now: int) returns (landed: seq<(nat, bool)>)
      requires Valid()
      modifies this`flushed, store
      ensures Flushed(store.rows, store.nextId, landed)
              == Flush(Flushed(old(store.rows), old(store.nextId), []), messages, 0, now)
      ensures flushed == |messages|
      ensures Valid()
    {
      TailIsEnough(Flushed(store.rows, store.nextId, []), messages, flushed, now);
      ghost var before := store.rows;
      landed := store.InsertMessages(messages, flushed, now);
      FlushSettles(Flushed(before, old(store.nextId), []), messages, 0, now);
      flushed := |messages|;
    }
  }

  // ----- the tail is enough ---------------------------------------------------------------

  ghost predicate SettledBelow(rows: Rows, n: nat) {
    forall k: nat :: k < n ==> k in rows && rows[k].state != Streaming
  }

  /** Rows that are settled are passed over, so starting after them changes nothing. */
  lemma {:induction false} TailIsEnough(t: Flushed, h: History, n: nat, now: int)
    requires SettledBelow(t.rows, n)
    ensures Flush(t, h, n, now) == Flush(t, h, 0, now)
  {
    SkipSettled(t, h, 0, n, now);
  }

  lemma {:induction false} SkipSettled(t: Flushed, h: History, j: nat, n: nat, now: int)
    requires SettledBelow(t.rows, n) && j <= n
    ensures Flush(t, h, n, now) == Flush(t, h, j, now)
    decreases n - j
  {
    if j == n {
    } else {
      SkipSettled(t, h, j + 1, n, now);
    }
  }

  // ----- what a save does to each row -----------------------------------------------------

  lemma {:induction false} FlushOneRow(t: Flushed, at: nat, m: Message, now: int)
    ensures var v := FlushOne(t, at, m, now);
            && (forall k: nat :: k in v.rows <==> k in t.rows || k == at)
            && (forall k: nat :: k in t.rows ==>
                  v.rows[k] == if k == at && t.rows[k].state == Streaming then Finalised(t.rows[k], m) else t.rows[k])
            && (at !in t.rows ==> v.rows[at] == NewRow(m, t.nextId, now))
            && v.nextId >= t.nextId
  {
  }

  /** A save writes one settled row per message from `from` on, touches no settled row, finalises a
      placeholder in place, and leaves rows outside its range alone. */
  lemma {:induction false} FlushRows(t: Flushed, h: History, from: nat, now: int)
    ensures var rows := Flush(t, h, from, now).rows;
            && (forall k: nat :: k in rows <==> k in t.rows || from <= k < |h|)
            && (forall k: nat :: k in t.rows ==>
                  rows[k] == if from <= k < |h| && t.rows[k].state == Streaming
                             then Finalised(t.rows[k], h[k]) else t.rows[k])
            && (forall k: nat :: k in rows && k !in t.rows ==>
                  rows[k].id >= t.nextId && rows[k] == NewRow(h[k], rows[k].id, now))
    ensures Flush(t, h, from, now).nextId >= t.nextId
    decreases |h| - from
  {
    if from >= |h| {
    } else {
      FlushOneRow(t, from, h[from], now);
      FlushRows(FlushOne(t, from, h[from], now), h, from + 1, now);
      hide FlushOne;
    }
  }

  lemma {:induction false} FlushSettles(t: Flushed, h: History, from: nat, now: int)
    requires SettledBelow(t.rows, from)
    ensures SettledBelow(Flush(t, h, from, now).rows, |h|)
  {
    FlushRows(t, h, from, now);
  }

  /** Row ids stay different from each other and below the next id to be given out. */
  ghost predicate FreshIds(rows: Rows, nextId: nat) {
    && (forall k :: k in rows ==> rows[k].id < nextId)
    && (forall j, k :: j in rows && k in rows && rows[j].id == rows[k].id ==> j == k)
  }

  lemma {:induction false} FlushKeepsIds(t: Flushed, h: History, from: nat, now: int)
    requires FreshIds(t.rows, t.nextId)
    ensures FreshIds(Flush(t, h, from, now).rows, Flush(t, h, from, now).nextId)
    decreases |h| - from
  {
    if from >= |h| {
    } else {
      FlushKeepsIds(FlushOne(t, from, h[from], now), h, from + 1, now);
    }
  }

  // ----- reading back ---------------------------------------------------------------------

  lemma {:induction false} LoadBelowAll(rows: Rows, n: nat)
    requires forall k: nat :: k < n ==> k in rows
    ensures |LoadBelow(rows, n)| == n
    ensures forall k: nat :: k < n ==> LoadBelow(rows, n)[k] == RowMessage(rows[k])
  {
    if n == 0 {
    } else {
      LoadBelowAll(rows, n - 1);
    }
  }

  lemma {:induction false} LoadBelowSkips(rows: Rows, m: nat, n: nat)
    requires m <= n && forall k: nat :: m <= k < n ==> k !in rows
    ensures LoadBelow(rows, n) == LoadBelow(rows, m)
    decreases n
  {
    if m == n {
    } else {
      LoadBelowSkips(rows, m, n - 1);
    }
  }

  /** The bound used to read is immaterial as long as no row lies beyond it. */
  lemma {:induction false} LoadIs(rows: Rows, n: nat)
    requires forall k :: k in rows ==> k < n
    ensures Load(rows) == LoadBelow(rows, n)
  {
    var b := Bound(rows.Keys);
    if b <= n {
      LoadBelowSkips(rows, b, n);
    } else {
      LoadBelowSkips(rows, n, b);
    }
  }

  lemma {:induction false} LoadBelowGrows(rows: Rows, m: nat, n: nat)
    requires m <= n
    ensures |LoadBelow(rows, m)| <= |LoadBelow(rows, n)|
  {
    if m == n {
    } else {
      LoadBelowGrows(rows, m, n - 1);
    }
  }

  lemma {:induction false} LoadBelowSame(a: Rows, b: Rows, n: nat)
    requires forall k: nat :: k < n ==> (k in a <==> k in b) && (k in a ==> RowMessage(a[k]) == RowMessage(b[k]))
    ensures LoadBelow(a, n) == LoadBelow(b, n)
  {
    if n == 0 {
    } else {
      LoadBelowSame(a, b, n - 1);
    }
  }

  /** The rows agree with `h` as far as a save can still make them: what is settled already says
      what `h` says, a placeholder already has the final role, and nothing lies beyond the end. */
  ghost predicate Savable(rows: Rows, h: History) {
    && (forall k :: k in rows ==> k < |h|)
    && (forall k :: k in rows && rows[k].state != Streaming ==> RowMessage(rows[k]) == h[k])
    && (forall k :: k in rows && rows[k].state == Streaming ==> rows[k].role == h[k].role)
    && (forall k :: 0 <= k < |h| ==> !h[k].isSummary)
  }

  lemma {:induction false} BeyondEndShows(rows: Rows, n: nat, k: nat)
    requires k in rows && k >= n && forall j: nat :: j < n ==> j in rows
    ensures |Load(rows)| > n
  {
    LoadBelowAll(rows, n);
    LoadBelowGrows(rows, n, k);
    LoadBelowGrows(rows, k + 1, Bound(rows.Keys));
  }

  /** After saving the whole of `h`, reading gives `h` back exactly when the rows were savable. */
  lemma {:induction false} SaveThenLoadExact(t: Flushed, h: History, now: int)
    ensures Load(Flush(t, h, 0, now).rows) == h <==> Savable(t.rows, h)
  {
    var rows := Flush(t, h, 0, now).rows;
    FlushRows(t, h, 0, now);
    if Savable(t.rows, h) {
      LoadIs(rows, |h|);
      LoadBelowAll(rows, |h|);
    } else if k :| k in t.rows && k >= |h| {
      BeyondEndShows(rows, |h|, k);
    } else {
      LoadIs(rows, |h|);
      LoadBelowAll(rows, |h|);
      assert exists k: nat :: k < |h| && RowMessage(rows[k]) != h[k];
    }
  }
}
