/**
  The tables a mirror is told about, and what each write transaction leaves and announces
  (conversation_store.py, `create`, `save` and `_record_conversation_change`;
  door/nouns/conversations.py, `_apply_update`; memory_store.py, `write_entry`, `forget_entry`,
  `delete_entry`, `adopt_scheduled_memories`; stores.py, `purge_account`; door/nouns/messages.py,
  `turn_started` and `turn_finished`).

  `Listing` is what `inventory` would read. A transaction tells the truth when its change rows move
  the listing just as it moved the tables. All but two kinds always do; for the closing of a watched
  turn and the purge of an account the lemmas say exactly when.
 */
module StoreTables {
  import opened Options
  import opened Ledger
  import T = Transcript
  import M = MessageStore
  import W = WatchedTurn

  type Key = string
  type MemoryKey = (string, string)

  // An identified row: what matters of it here is its id, its version and whether it is kept.
  datatype Entry = Entry(id: nat, version: nat, kept: bool, content: string)

  ghost predicate Distinct<K(!new)>(t: map<K, Entry>, nextId: nat) {
    && (forall k :: k in t ==> t[k].id < nextId)
    && (forall j, k :: j in t && k in t && t[j].id == t[k].id ==> j == k)
  }

  /** Every row of `t` is listed at its version, and nothing else of that noun is. */
  ghost predicate Shows<K(!new)>(live: Live, noun: Noun, t: map<K, Entry>) {
    && (forall k :: k in t ==> Lists(live, noun, t[k]))
    && (forall id: Id :: id in live && id.noun == noun ==> exists k :: k in t && t[k].id == id.n)
  }

  ghost predicate Lists(live: Live, noun: Noun, e: Entry) {
    Id(noun, e.id) in live && live[Id(noun, e.id)] == e.version
  }

  lemma {:induction false} ShowsPut<K(!new)>(live: Live, noun: Noun, t: map<K, Entry>, nextId: nat, k: K, e: Entry, next: nat)
    requires Distinct(t, nextId) && Shows(live, noun, t)
    requires nextId <= next && e.id < next && if k in t then e.id == t[k].id else e.id >= nextId
    ensures Distinct(t[k := e], next) && Shows(live[Id(noun, e.id) := e.version], noun, t[k := e])
  {
    var u, after := t[k := e], live[Id(noun, e.id) := e.version];
    forall j | j in u ensures Lists(after, noun, u[j]) {
      if j != k { assert Lists(live, noun, t[j]); }
    }
    forall id: Id | id in after && id.noun == noun ensures exists j :: j in u && u[j].id == id.n {
      if id.n == e.id {
        assert u[k].id == id.n;
      } else {
        var j :| j in t && t[j].id == id.n;
        assert u[j].id == id.n;
      }
    }
  }

  lemma {:induction false} ShowsDrop<K(!new)>(live: Live, noun: Noun, t: map<K, Entry>, nextId: nat, k: K)
    requires Distinct(t, nextId) && Shows(live, noun, t) && k in t
    ensures Distinct(t - {k}, nextId) && Shows(live - {Id(noun, t[k].id)}, noun, t - {k})
  {
    var u, after := t - {k}, live - {Id(noun, t[k].id)};
    forall j | j in u ensures Lists(after, noun, u[j]) {
      assert Lists(live, noun, t[j]);
    }
    forall id: Id | id in after && id.noun == noun ensures exists j :: j in u && u[j].id == id.n {
      var j :| j in t && t[j].id == id.n;
      assert u[j].id == id.n;
    }
  }

  lemma {:induction false} OtherNoun<K(!new)>(live: Live, after: Live, noun: Noun, t: map<K, Entry>)
    requires Shows(live, noun, t)
    requires forall id: Id :: id.noun == noun ==> SameEntry(live, after, id)
    ensures Shows(after, noun, t)
  {
  }

  /** Announcing a row that was written lists it. */
  lemma {:induction false} PutShows<K(!new)>(live: Live, noun: Noun, t: map<K, Entry>, nextId: nat, k: K, e: Entry,
                                             next: nat, kind: Kind)
    requires Distinct(t, nextId) && Shows(live, noun, t) && !kind.Deleted?
    requires nextId <= next && e.id < next && if k in t then e.id == t[k].id else e.id >= nextId
    ensures Distinct(t[k := e], next)
    ensures Shows(ApplyOne(live, Change(noun, Id(noun, e.id), kind, Some(e.version))), noun, t[k := e])
  {
    hide Distinct, Shows;
    ShowsPut(live, noun, t, nextId, k, e, next);
  }

  /** The tombstone of a row that goes takes it off the list. */
  lemma {:induction false} DropShows<K(!new)>(live: Live, noun: Noun, t: map<K, Entry>, nextId: nat, k: K)
    requires Distinct(t, nextId) && Shows(live, noun, t) && k in t
    ensures var after := ApplyOne(live, Change(noun, Id(noun, t[k].id), Deleted, None));
            Distinct(t - {k}, nextId) && Shows(after, noun, t - {k}) && Id(noun, t[k].id) !in after
  {
    hide Distinct, Shows;
    ShowsDrop(live, noun, t, nextId, k);
  }

  /** A change to one noun leaves what is listed of the others. */
  lemma {:induction false} OtherShows<K(!new)>(live: Live, noun: Noun, n: nat, kind: Kind, version: Option<nat>,
                                               t: map<K, Entry>, nextId: nat, next: nat, messages: map<Key, M.Rows>, other: Noun)
    requires noun != other && noun != Messages && nextId <= next
    requires Distinct(t, nextId) && Shows(live, other, t) && ShowsMessages(live, messages)
    ensures var after := ApplyOne(live, Change(noun, Id(noun, n), kind, version));
            Distinct(t, next) && Shows(after, other, t) && ShowsMessages(after, messages)
  {
    var after := ApplyOne(live, Change(noun, Id(noun, n), kind, version));
    forall id: Id | id.noun != noun ensures SameEntry(live, after, id) {
    }
    hide Shows, ShowsMessages, SameEntry, ApplyOne;
    OtherNoun(live, after, other, t);
    OtherMessages(live, after, messages);
  }

  // ----- message rows ------------------------------------------------------------------------

  ghost predicate HasId(rows: M.Rows, id: nat) {
    exists k :: k in rows && rows[k].id == id
  }

  ghost predicate IsRow(messages: map<Key, M.Rows>, key: Key, id: nat) {
    key in messages && HasId(messages[key], id)
  }

  /** Message rows are listed at version 1, whatever happens to them. */
  ghost predicate ShowsMessages(live: Live, messages: map<Key, M.Rows>) {
    && (forall key, id :: IsRow(messages, key, id) ==> Id(Messages, id) in live)
    && (forall id: Id :: id in live && id.noun == Messages ==> live[id] == 1 && exists key :: IsRow(messages, key, id.n))
  }

  lemma {:induction false} OtherMessages(live: Live, after: Live, messages: map<Key, M.Rows>)
    requires ShowsMessages(live, messages)
    requires forall id: Id :: id.noun == Messages ==> SameEntry(live, after, id)
    ensures ShowsMessages(after, messages)
  {
  }

  function MessageChange(l: (nat, bool)): Change {
    Change(Messages, Id(Messages, l.0), if l.1 then Changed else Created, Some(1))
  }

  function MessageChanges(landed: seq<(nat, bool)>): seq<Change> {
    if landed == [] then []
    else MessageChanges(landed[..|landed| - 1]) + [MessageChange(landed[|landed| - 1])]
  }

  ghost predicate LandedId(landed: seq<(nat, bool)>, id: nat) {
    exists k :: 0 <= k < |landed| && landed[k].0 == id
  }

  lemma {:induction false} LandedSnoc(landed: seq<(nat, bool)>, l: (nat, bool), id: nat)
    ensures LandedId(landed + [l], id) <==> LandedId(landed, id) || l.0 == id
  {
    if k :| 0 <= k < |landed| && landed[k].0 == id { assert (landed + [l])[k].0 == id; }
    if l.0 == id { assert (landed + [l])[|landed|].0 == id; }
  }

  lemma {:induction false} OneChangePut(mid: Live, l: (nat, bool), id: Id)
    ensures var after := ApplyOne(mid, MessageChange(l));
            if id == Id(Messages, l.0) then id in after && after[id] == 1 else SameEntry(mid, after, id)
  {
  }

  lemma {:induction false} ChangesSnoc(m: Live, landed: seq<(nat, bool)>)
    requires landed != []
    ensures var front, last := landed[..|landed| - 1], landed[|landed| - 1];
            ApplyAll(m, MessageChanges(landed)) == ApplyOne(ApplyAll(m, MessageChanges(front)), MessageChange(last))
  {
  }

  lemma {:induction false} MessageChangesPut(m: Live, landed: seq<(nat, bool)>, id: Id)
    ensures var after := ApplyAll(m, MessageChanges(landed));
            if id.noun == Messages && LandedId(landed, id.n) then id in after && after[id] == 1
            else SameEntry(m, after, id)
    decreases |landed|
  {
    if landed == [] {
    } else {
      var front, last := landed[..|landed| - 1], landed[|landed| - 1];
      MessageChangesPut(m, front, id);
      assert landed == front + [last];
      LandedSnoc(front, last, id.n);
      ChangesSnoc(m, landed);
      OneChangePut(ApplyAll(m, MessageChanges(front)), last, id);
      hide ApplyAll, ApplyOne, MessageChanges, MessageChange, LandedId;
    }
  }

  lemma {:induction false} OneLands(t: M.Flushed, k: nat, m: T.Message, now: int, id: nat)
    ensures var v := M.FlushOne(t, k, m, now);
            HasId(v.rows, id) || LandedId(t.landed, id) <==> HasId(t.rows, id) || LandedId(v.landed, id)
    ensures var v := M.FlushOne(t, k, m, now);
            (LandedId(t.landed, id) ==> LandedId(v.landed, id)) && (HasId(t.rows, id) ==> HasId(v.rows, id))
            && (LandedId(v.landed, id) ==> LandedId(t.landed, id) || HasId(v.rows, id))
  {
    var v := M.FlushOne(t, k, m, now);
    if HasId(t.rows, id) {
      var j :| j in t.rows && t.rows[j].id == id;
      assert v.rows[j].id == id;
    }
    if v.landed != t.landed {
      LandedSnoc(t.landed, v.landed[|t.landed|], id);
      assert v.rows[k].id == v.landed[|t.landed|].0;
    }
  }

  /** The rows a save leaves are the ones that were there and the ones it says it landed. */
  lemma {:induction false} FlushLands(t: M.Flushed, h: T.History, from: nat, now: int, id: nat)
    ensures var u := M.Flush(t, h, from, now);
            && (HasId(u.rows, id) || LandedId(t.landed, id) <==> HasId(t.rows, id) || LandedId(u.landed, id))
            && (LandedId(t.landed, id) ==> LandedId(u.landed, id)) && (HasId(t.rows, id) ==> HasId(u.rows, id))
    decreases |h| - from
  {
    if from >= |h| {
    } else {
      OneLands(t, from, h[from], now, id);
      FlushLands(M.FlushOne(t, from, h[from], now), h, from + 1, now, id);
    }
  }

  function RowsOf(messages: map<Key, M.Rows>, key: Key): M.Rows {
    if key in messages then messages[key] else map[]
  }

  /** Rows that gained exactly the landed ids are listed once the landings are announced. */
  lemma {:induction false} LandedShows(live: Live, messages: map<Key, M.Rows>, key: Key, rows: M.Rows,
                                       landed: seq<(nat, bool)>)
    requires ShowsMessages(live, messages)
    requires forall id :: HasId(rows, id) <==> HasId(RowsOf(messages, key), id) || LandedId(landed, id)
    ensures ShowsMessages(ApplyAll(live, MessageChanges(landed)), messages[key := rows])
  {
    hide HasId, LandedId, ApplyAll, MessageChanges;
    var after := ApplyAll(live, MessageChanges(landed));
    var all: map<Key, M.Rows> := messages[key := rows];
    NoRowNoId();
    forall k, id | IsRow(all, k, id) ensures Id(Messages, id) in after {
      MessageChangesPut(live, landed, Id(Messages, id));
      if k != key { assert IsRow(messages, k, id); }
      if k == key && HasId(RowsOf(messages, key), id) { assert IsRow(messages, key, id); }
    }
    forall id: Id | id in after && id.noun == Messages
      ensures after[id] == 1 && exists k :: IsRow(all, k, id.n)
    {
      MessageChangesPut(live, landed, id);
      if LandedId(landed, id.n) {
        assert IsRow(all, key, id.n);
      } else {
        var k :| IsRow(messages, k, id.n);
        assert IsRow(all, k, id.n);
      }
    }
  }

  lemma {:induction false} NoRowNoId()
    ensures forall id :: !HasId(map[], id)
  {
  }

  lemma {:induction false} FlushShows(live: Live, messages: map<Key, M.Rows>, key: Key, t: M.Flushed,
                                      h: T.History, from: nat, now: int)
    requires ShowsMessages(live, messages)
    requires t.landed == [] && t.rows == RowsOf(messages, key)
    ensures var u := M.Flush(t, h, from, now);
            ShowsMessages(ApplyAll(live, MessageChanges(u.landed)), messages[key := u.rows])
  {
    hide ShowsMessages, M.Flush, HasId, ApplyAll, MessageChanges;
    var u := M.Flush(t, h, from, now);
    forall id ensures HasId(u.rows, id) <==> HasId(t.rows, id) || LandedId(u.landed, id) {
      FlushLands(t, h, from, now, id);
    }
    LandedShows(live, messages, key, u.rows, u.landed);
  }

  // ----- message ids ---------------------------------------------------------------------------

  /** No two message rows of any conversations share an id, and none has an id still to be given out. */
  ghost predicate DistinctRows(messages: map<Key, M.Rows>, nextId: nat) {
    && (forall key, s :: key in messages && s in messages[key] ==> messages[key][s].id < nextId)
    && (forall j, r, k, s ::
          (j in messages && r in messages[j] && k in messages && s in messages[k]
           && messages[j][r].id == messages[k][s].id)
          ==> j == k && r == s)
  }

  /** The rows of one conversation keep their ids or get new ones. */
  ghost predicate Renews(before: M.Rows, after: M.Rows, nextId: nat) {
    forall s :: s in after ==> after[s].id >= nextId || (s in before && before[s].id == after[s].id)
  }

  lemma {:induction false} RowsReplaced(messages: map<Key, M.Rows>, nextId: nat, key: Key, rows: M.Rows, next: nat)
    requires DistinctRows(messages, nextId) && nextId <= next
    requires M.FreshIds(rows, next) && Renews(RowsOf(messages, key), rows, nextId)
    ensures DistinctRows(messages[key := rows], next)
  {
    var all: map<Key, M.Rows> := messages[key := rows];
    forall j, r, k, s | (j in all && r in all[j] && k in all && s in all[k]) && all[j][r].id == all[k][s].id
      ensures j == k && r == s
    {
      SameIdSameRow(messages, nextId, key, rows, next, j, r, k, s);
    }
  }

  lemma {:induction false} SameIdSameRow(messages: map<Key, M.Rows>, nextId: nat, key: Key, rows: M.Rows, next: nat,
                                         j: Key, r: nat, k: Key, s: nat)
    requires DistinctRows(messages, nextId)
    requires M.FreshIds(rows, next) && Renews(RowsOf(messages, key), rows, nextId)
    requires var all: map<Key, M.Rows> := messages[key := rows];
             j in all && r in all[j] && k in all && s in all[k] && all[j][r].id == all[k][s].id
    ensures j == k && r == s
  {
    var all: map<Key, M.Rows> := messages[key := rows];
    if all[j][r].id < nextId {
      assert messages[j][r].id == messages[k][s].id;
    }
  }

  lemma {:induction false} RowsAreFresh(messages: map<Key, M.Rows>, nextId: nat, key: Key)
    requires DistinctRows(messages, nextId)
    ensures M.FreshIds(RowsOf(messages, key), nextId)
  {
  }

  lemma {:induction false} FreshLater(rows: M.Rows, nextId: nat, next: nat)
    requires M.FreshIds(rows, nextId) && nextId <= next
    ensures M.FreshIds(rows, next)
  {
  }

  lemma {:induction false} FlushRenews(messages: map<Key, M.Rows>, nextId: nat, key: Key, first: nat,
                                       h: T.History, from: nat, now: int)
    requires DistinctRows(messages, nextId) && nextId <= first
    ensures var u := M.Flush(M.Flushed(RowsOf(messages, key), first, []), h, from, now);
            DistinctRows(messages[key := u.rows], u.nextId) && u.nextId >= first
  {
    hide DistinctRows, M.Flush;
    var t := M.Flushed(RowsOf(messages, key), first, []);
    var u := M.Flush(t, h, from, now);
    RowsAreFresh(messages, nextId, key);
    FreshLater(t.rows, nextId, first);
    M.FlushKeepsIds(t, h, from, now);
    M.FlushRows(t, h, from, now);
    assert Renews(t.rows, u.rows, nextId) by {
      forall s | s in u.rows && s in t.rows ensures u.rows[s].id == t.rows[s].id {
      }
    }
    hide M.FreshIds, Renews;
    RowsReplaced(messages, nextId, key, u.rows, u.nextId);
  }

  lemma {:induction false} RowsLater(messages: map<Key, M.Rows>, nextId: nat, next: nat)
    requires DistinctRows(messages, nextId) && nextId <= next
    ensures DistinctRows(messages, next)
  {
  }

  // ----- transactions ----------------------------------------------------------------------------

  datatype Tables = Tables(
    conversations: map<Key, Entry>,
    messages: map<Key, M.Rows>,
    memory: map<MemoryKey, Entry>,
    nextId: nat)

  datatype Op =
    | CreateConversation(key: Key, history: T.History, now: int)
    | SaveConversation(key: Key, history: T.History, from: nat, now: int)
    | Touch(key: Key)
    | UpdateConversation(key: Key, seen: nat)      // `seen`: the version its caller had read
    | Write(entry: MemoryKey, content: string)
    | Forget(entry: MemoryKey)
    | Delete(entry: MemoryKey)
    | AdoptEntry(source: MemoryKey, owner: string)
    | PurgeAccount(account: string)
    | OpenTurn(key: Key, userSeq: nat, text: string, now: int)
    | CloseTurn(key: Key, placeholder: nat, assistant: nat, finalText: Option<string>, turnStart: nat, total: nat)

  // What a transaction leaves, and the change rows it adds.
  datatype Written = Written(tables: Tables, changes: seq<Change>)

  function EntryChange(noun: Noun, e: Entry, kind: Kind): Change {
    Change(noun, Id(noun, e.id), kind, Some(e.version))
  }

  function Bumped(e: Entry): Entry {
    e.(version := e.version + 1)
  }

  /** The conversation row, then its messages. */
  function Upserted(t: Tables, key: Key, history: T.History, from: nat, now: int): Written {
    var e := if key in t.conversations then Bumped(t.conversations[key]) else Entry(t.nextId, 1, true, "");
    var u := M.Flush(M.Flushed(RowsOf(t.messages, key), t.nextId + 1, []), history, from, now);
    Written(Tables(t.conversations[key := e], t.messages[key := u.rows], t.memory, u.nextId),
            [EntryChange(Conversations, e, if e.version == 1 then Created else Changed)] + MessageChanges(u.landed))
  }

  /** The two opening rows or, if one of their places is taken, nothing; the ids are used up either way. */
  function TurnOpened(t: Tables, key: Key, userSeq: nat, text: string, now: int): Written {
    match W.OpenTurn(RowsOf(t.messages, key), userSeq, text, t.nextId, now)
    case Err(_) => Written(t.(nextId := t.nextId + 2), [])
    case Ok(rows) =>
      Written(t.(messages := t.messages[key := rows], nextId := t.nextId + 2),
              MessageChanges([(t.nextId, false), (t.nextId + 1, false)]))
  }

  /** The change row a closing writes: it names the placeholder the turn meant to write, whatever the
      conditional statement before it did. */
  function ClosingChange(placeholder: nat, assistant: nat, finalText: Option<string>, turnStart: nat, total: nat): Change {
    if W.EndingOf(placeholder, finalText, turnStart, total) == W.Dropped
    then Change(Messages, Id(Messages, assistant), Deleted, None)
    else Change(Messages, Id(Messages, assistant), Changed, Some(1))
  }

  const SCHEDULED := "schedule:"

  /** Where an entry a scheduled run remembered goes when its owner adopts it. */
  function AdoptedAs(memory: map<MemoryKey, Entry>, source: MemoryKey, owner: string): MemoryKey {
    (owner, if (owner, source.1) in memory then source.1 + "--" + source.0 else source.1)
  }

  /** One row of the adoption: it appears with its owner, then goes where it was. A row already there
      is overwritten and keeps its version. */
  function Adopted(t: Tables, source: MemoryKey, owner: string): Written {
    if source !in t.memory || !(SCHEDULED <= source.0) || SCHEDULED <= owner then Written(t, [])
    else
      var target, from := AdoptedAs(t.memory, source, owner), t.memory[source];
      var e := if target in t.memory then t.memory[target].(content := from.content, kept := from.kept)
               else Entry(t.nextId, 1, from.kept, from.content);
      Written(t.(memory := t.memory[target := e] - {source}, nextId := t.nextId + 1),
              [EntryChange(MemoryEntries, e, Created), Change(MemoryEntries, Id(MemoryEntries, from.id), Deleted, None)])
  }

  function Without(memory: map<MemoryKey, Entry>, account: string): map<MemoryKey, Entry> {
    map k | k in memory && k.0 != account :: memory[k]
  }

  function Apply(t: Tables, op: Op): Written {
    match op
    case CreateConversation(key, history, now) =>
      if key in t.conversations then Written(t, []) else Upserted(t, key, history, 0, now)
    case SaveConversation(key, history, from, now) => Upserted(t, key, history, from, now)
    case Touch(key) =>
      if key !in t.conversations then Written(t, [])
      else
        var e := Bumped(t.conversations[key]);
        Written(t.(conversations := t.conversations[key := e]), [EntryChange(Conversations, e, Changed)])
    case UpdateConversation(key, seen) =>
      if key !in t.conversations then Written(t, [])
      else
        var e := t.conversations[key].(version := seen + 1);
        Written(t.(conversations := t.conversations[key := e]), [EntryChange(Conversations, e, Changed)])
    case AdoptEntry(source, owner) => Adopted(t, source, owner)
    case PurgeAccount(account) => Written(t.(memory := Without(t.memory, account)), [])
    case Write(key, content) =>
      var e := if key in t.memory then Entry(t.memory[key].id, t.memory[key].version + 1, true, content)
               else Entry(t.nextId, 1, true, content);
      Written(t.(memory := t.memory[key := e], nextId := t.nextId + 1),
              [EntryChange(MemoryEntries, e, if key in t.memory then Changed else Created)])
    case Forget(key) =>
      if key !in t.memory then Written(t, [])
      else
        var e := Bumped(t.memory[key]).(kept := false);
        Written(t.(memory := t.memory[key := e]), [EntryChange(MemoryEntries, e, Changed)])
    case Delete(key) =>
      if key !in t.memory then Written(t, [])
      else Written(t.(memory := t.memory - {key}),
                   [Change(MemoryEntries, Id(MemoryEntries, t.memory[key].id), Deleted, None)])
    case OpenTurn(key, userSeq, text, now) => TurnOpened(t, key, userSeq, text, now)
    case CloseTurn(key, placeholder, assistant, finalText, turnStart, total) =>
      Written(t.(messages := t.messages[key :=
                W.CloseTurn(RowsOf(t.messages, key), placeholder, finalText, turnStart, total)]),
              [ClosingChange(placeholder, assistant, finalText, turnStart, total)])
  }

  // ----- what is listed --------------------------------------------------------------------------

  ghost predicate Consistent(t: Tables) {
    Distinct(t.conversations, t.nextId) && Distinct(t.memory, t.nextId) && DistinctRows(t.messages, t.nextId)
  }

  ghost predicate Listed(live: Live, t: Tables) {
    && Shows(live, Conversations, t.conversations)
    && Shows(live, MemoryEntries, t.memory)
    && ShowsMessages(live, t.messages)
  }

  function EntryIds<K>(noun: Noun, t: map<K, Entry>): set<Id> {
    set k | k in t :: Id(noun, t[k].id)
  }

  function MessageIds(messages: map<Key, M.Rows>): set<Id> {
    set key, s | key in messages && s in messages[key] :: Id(Messages, messages[key][s].id)
  }

  ghost function VersionOf<K(!new)>(t: map<K, Entry>, n: nat): nat
    requires exists k :: k in t && t[k].id == n
  {
    var k :| k in t && t[k].id == n;
    t[k].version
  }

  /** `inventory`: every row with an id, at its version; a message always at 1. */
  ghost function Listing(t: Tables): Live {
    map id: Id | id in EntryIds(Conversations, t.conversations) + EntryIds(MemoryEntries, t.memory) + MessageIds(t.messages) ::
      match id.noun
      case Conversations => VersionOf(t.conversations, id.n)
      case MemoryEntries => VersionOf(t.memory, id.n)
      case Messages => 1
  }

  lemma {:induction false} ListingListed(t: Tables)
    requires Consistent(t)
    ensures Listed(Listing(t), t)
  {
    hide Distinct, DistinctRows, Shows, ShowsMessages, Listing;
    ConversationsListed(t);
    MemoryListed(t);
    MessagesListed(t);
  }

  lemma {:induction false} ConversationsListed(t: Tables)
    requires Distinct(t.conversations, t.nextId)
    ensures Shows(Listing(t), Conversations, t.conversations)
  {
    forall k | k in t.conversations ensures Lists(Listing(t), Conversations, t.conversations[k]) {
      assert Id(Conversations, t.conversations[k].id) in EntryIds(Conversations, t.conversations);
    }
  }

  lemma {:induction false} MemoryListed(t: Tables)
    requires Distinct(t.memory, t.nextId)
    ensures Shows(Listing(t), MemoryEntries, t.memory)
  {
    forall k | k in t.memory ensures Lists(Listing(t), MemoryEntries, t.memory[k]) {
      assert Id(MemoryEntries, t.memory[k].id) in EntryIds(MemoryEntries, t.memory);
    }
  }

  lemma {:induction false} MessagesListed(t: Tables)
    ensures ShowsMessages(Listing(t), t.messages)
  {
    var live := Listing(t);
    forall key, id | IsRow(t.messages, key, id) ensures Id(Messages, id) in live {
      var s :| s in t.messages[key] && t.messages[key][s].id == id;
      assert Id(Messages, id) in MessageIds(t.messages);
    }
    forall id: Id | id in live && id.noun == Messages ensures live[id] == 1 && exists key :: IsRow(t.messages, key, id.n) {
      var key, s :| key in t.messages && s in t.messages[key] && id == Id(Messages, t.messages[key][s].id);
      assert HasId(t.messages[key], id.n);
      assert IsRow(t.messages, key, id.n);
    }
  }

  /** There is one listing that shows the tables. */
  lemma {:induction false} ListingExact(live: Live, t: Tables)
    requires Consistent(t)
    ensures Listed(live, t) <==> live == Listing(t)
  {
    ListingListed(t);
    if Listed(live, t) {
      forall id ensures SameEntry(live, Listing(t), id) {
        ListedAgree(live, Listing(t), t, id);
      }
      SameMaps(live, Listing(t));
    }
  }

  lemma {:induction false} ListedAgree(a: Live, b: Live, t: Tables, id: Id)
    requires Listed(a, t) && Listed(b, t)
    ensures SameEntry(a, b, id)
  {
    match id.noun
    case Conversations => EntriesAgree(a, b, Conversations, t.conversations, id);
    case MemoryEntries => EntriesAgree(a, b, MemoryEntries, t.memory, id);
    case Messages =>
      MessagesAgree(a, b, t.messages, id);
      MessagesAgree(b, a, t.messages, id);
  }

  lemma {:induction false} EntriesAgree<K(!new)>(a: Live, b: Live, noun: Noun, t: map<K, Entry>, id: Id)
    requires Shows(a, noun, t) && Shows(b, noun, t) && id.noun == noun
    ensures SameEntry(a, b, id)
  {
    if k :| k in t && t[k].id == id.n {
      assert Lists(a, noun, t[k]) && Lists(b, noun, t[k]);
    }
  }

  lemma {:induction false} MessagesAgree(a: Live, b: Live, messages: map<Key, M.Rows>, id: Id)
    requires ShowsMessages(a, messages) && ShowsMessages(b, messages) && id.noun == Messages
    ensures id in a ==> id in b && a[id] == 1 == b[id]
  {
    if id in a {
      var key :| IsRow(messages, key, id.n);
    }
  }

  // ----- a watched turn's closing ----------------------------------------------------------------

  ghost predicate HasMessage(messages: map<Key, M.Rows>, id: nat) {
    exists key :: IsRow(messages, key, id)
  }

  predicate Removes(rows: M.Rows, placeholder: nat, finalText: Option<string>, turnStart: nat, total: nat) {
    && W.EndingOf(placeholder, finalText, turnStart, total) == W.Dropped
    && placeholder in rows && rows[placeholder].state == M.Streaming
  }

  /** The closing's announcement is right: what it says was filled in or failed is there; what it says
      is gone was the row taken away, or was never there and nothing was taken away. */
  ghost predicate ClosesTruly(messages: map<Key, M.Rows>, key: Key, placeholder: nat, assistant: nat,
                              finalText: Option<string>, turnStart: nat, total: nat) {
    var rows := RowsOf(messages, key);
    if Removes(rows, placeholder, finalText, turnStart, total) then rows[placeholder].id == assistant
    else W.EndingOf(placeholder, finalText, turnStart, total) == W.Dropped <==> !HasMessage(messages, assistant)
  }

  /** A closing takes away one row or none, and leaves every id as it was. */
  lemma {:induction false} ClosedRows(messages: map<Key, M.Rows>, nextId: nat, key: Key, placeholder: nat,
                                      finalText: Option<string>, turnStart: nat, total: nat, id: nat)
    requires DistinctRows(messages, nextId)
    ensures var rows := RowsOf(messages, key);
            var after := messages[key := W.CloseTurn(rows, placeholder, finalText, turnStart, total)];
            HasMessage(after, id) <==>
              HasMessage(messages, id)
              && !(Removes(rows, placeholder, finalText, turnStart, total) && rows[placeholder].id == id)
  {
    var rows := RowsOf(messages, key);
    var after := messages[key := W.CloseTurn(rows, placeholder, finalText, turnStart, total)];
    var gone := Removes(rows, placeholder, finalText, turnStart, total) && rows[placeholder].id == id;
    assert IsRow(messages, key, id) <==> HasId(rows, id);
    RowsOfClosed(rows, placeholder, finalText, turnStart, total, id);
    if gone {
      forall k ensures IsRow(messages, k, id) ==> k == key {
        assert placeholder in messages[key] && messages[key][placeholder].id == id;
      }
      forall s | s in rows && rows[s].id == id ensures s == placeholder {
        assert messages[key][s].id == messages[key][placeholder].id;
      }
    }
    hide DistinctRows, Removes, W.CloseTurn, HasId;
    assert IsRow(after, key, id) <==> HasId(after[key], id);
    forall k | k != key ensures IsRow(after, k, id) <==> IsRow(messages, k, id) {
    }
    assert HasMessage(after, id) ==> HasMessage(messages, id);
  }

  lemma {:induction false} RowsOfClosed(rows: M.Rows, placeholder: nat, finalText: Option<string>, turnStart: nat,
                                        total: nat, id: nat)
    ensures HasId(W.CloseTurn(rows, placeholder, finalText, turnStart, total), id) <==>
              exists s :: s in rows && rows[s].id == id
                          && !(Removes(rows, placeholder, finalText, turnStart, total) && s == placeholder)
  {
    var closed := W.CloseTurn(rows, placeholder, finalText, turnStart, total);
    forall s | s in rows && !(Removes(rows, placeholder, finalText, turnStart, total) && s == placeholder)
      ensures s in closed && closed[s].id == rows[s].id
    {
    }
  }

  lemma {:induction false} ShowsMessagesIs(live: Live, messages: map<Key, M.Rows>)
    ensures ShowsMessages(live, messages) <==>
              (forall id: Id :: id.noun == Messages ==> (id in live <==> HasMessage(messages, id.n)))
              && (forall id: Id :: id in live && id.noun == Messages ==> live[id] == 1)
  {
    if forall id: Id :: id.noun == Messages ==> (id in live <==> HasMessage(messages, id.n)) {
      forall key, id | IsRow(messages, key, id) ensures Id(Messages, id) in live {
        assert HasMessage(messages, Id(Messages, id).n);
      }
    }
  }

  /** What is listed of the messages after the closing's change row is what is there, if and only if
      the closing was true. */
  lemma {:induction false} ClosingShowsExact(live: Live, messages: map<Key, M.Rows>, nextId: nat, key: Key, placeholder: nat,
                                             assistant: nat, finalText: Option<string>, turnStart: nat, total: nat)
    requires DistinctRows(messages, nextId) && ShowsMessages(live, messages)
    ensures var closed := W.CloseTurn(RowsOf(messages, key), placeholder, finalText, turnStart, total);
            ShowsMessages(ApplyOne(live, ClosingChange(placeholder, assistant, finalText, turnStart, total)),
                          messages[key := closed])
            <==> ClosesTruly(messages, key, placeholder, assistant, finalText, turnStart, total)
  {
    hide ShowsMessages, HasMessage, W.CloseTurn, DistinctRows;
    var rows := RowsOf(messages, key);
    var after := messages[key := W.CloseTurn(rows, placeholder, finalText, turnStart, total)];
    var told := ApplyOne(live, ClosingChange(placeholder, assistant, finalText, turnStart, total));
    forall id ensures HasMessage(after, id) <==>
        HasMessage(messages, id) && !(Removes(rows, placeholder, finalText, turnStart, total) && rows[placeholder].id == id)
    {
      ClosedRows(messages, nextId, key, placeholder, finalText, turnStart, total, id);
    }
    ShowsMessagesIs(live, messages);
    ShowsMessagesIs(told, after);
    if Removes(rows, placeholder, finalText, turnStart, total) {
      var gone := rows[placeholder].id;
      RowIsThere(messages, key, placeholder);
      assert Id(Messages, gone) in told <==> gone != assistant;
      assert !HasMessage(after, Id(Messages, gone).n);
    } else {
      assert Id(Messages, assistant) in told <==> W.EndingOf(placeholder, finalText, turnStart, total) != W.Dropped;
      assert HasMessage(after, Id(Messages, assistant).n) <==> HasMessage(messages, assistant);
    }
  }

  lemma {:induction false} RowIsThere(messages: map<Key, M.Rows>, key: Key, s: nat)
    requires s in RowsOf(messages, key)
    ensures HasMessage(messages, RowsOf(messages, key)[s].id)
  {
    assert HasId(messages[key], messages[key][s].id);
    assert IsRow(messages, key, messages[key][s].id);
  }

  /** When a watched turn drops its placeholder it announces the row as deleted, whether or not the
      conditional delete found it still streaming. The announcement is true exactly when it did: a
      placeholder the turn's own save had already filled in is still there, and a mirror that
      applies the tombstone has lost a row the store keeps. */
  lemma {:induction false} DroppedPlaceholderExact(live: Live, messages: map<Key, M.Rows>, nextId: nat, key: Key,
                                                   placeholder: nat, finalText: Option<string>, turnStart: nat, total: nat)
    requires DistinctRows(messages, nextId) && ShowsMessages(live, messages)
    requires key in messages && placeholder in messages[key]
    requires W.EndingOf(placeholder, finalText, turnStart, total) == W.Dropped
    ensures var id := Id(Messages, messages[key][placeholder].id);
            var rows: M.Rows := W.CloseTurn(messages[key], placeholder, finalText, turnStart, total);
            ShowsMessages(ApplyOne(live, Change(Messages, id, Deleted, None)), messages[key := rows])
            <==> messages[key][placeholder].state == M.Streaming
  {
    hide ShowsMessages, DistinctRows, W.CloseTurn;
    ClosingShowsExact(live, messages, nextId, key, placeholder, messages[key][placeholder].id, finalText, turnStart, total);
    assert IsRow(messages, key, messages[key][placeholder].id);
  }

  // ----- which transactions tell the truth ---------------------------------------------------------

  ghost predicate TellsTruth(t: Tables, op: Op) {
    && (op.CloseTurn? ==>
          ClosesTruly(t.messages, op.key, op.placeholder, op.assistant, op.finalText, op.turnStart, op.total))
    && (op.PurgeAccount? ==> forall k :: k in t.memory ==> k.0 != op.account)
  }

  /** Writing one conversation row and announcing it. */
  lemma {:induction false} PutConversationListed(live: Live, t: Tables, key: Key, e: Entry, kind: Kind, next: nat)
    requires Consistent(t) && Listed(live, t) && !kind.Deleted? && t.nextId <= next && e.id < next
    requires if key in t.conversations then e.id == t.conversations[key].id else e.id >= t.nextId
    ensures var after := t.(conversations := t.conversations[key := e], nextId := next);
            Consistent(after) && Listed(ApplyOne(live, EntryChange(Conversations, e, kind)), after)
  {
    hide Distinct, Shows, ShowsMessages, DistinctRows, ApplyOne;
    PutShows(live, Conversations, t.conversations, t.nextId, key, e, next, kind);
    OtherShows(live, Conversations, e.id, kind, Some(e.version), t.memory, t.nextId, next, t.messages, MemoryEntries);
    RowsLater(t.messages, t.nextId, next);
  }

  lemma {:induction false} PutMemoryListed(live: Live, t: Tables, key: MemoryKey, e: Entry, kind: Kind, next: nat)
    requires Consistent(t) && Listed(live, t) && !kind.Deleted? && t.nextId <= next && e.id < next
    requires if key in t.memory then e.id == t.memory[key].id else e.id >= t.nextId
    ensures var after := t.(memory := t.memory[key := e], nextId := next);
            Consistent(after) && Listed(ApplyOne(live, EntryChange(MemoryEntries, e, kind)), after)
  {
    hide Distinct, Shows, ShowsMessages, DistinctRows, ApplyOne;
    PutShows(live, MemoryEntries, t.memory, t.nextId, key, e, next, kind);
    OtherShows(live, MemoryEntries, e.id, kind, Some(e.version), t.conversations, t.nextId, next, t.messages, Conversations);
    RowsLater(t.messages, t.nextId, next);
  }

  lemma {:induction false} DropMemoryListed(live: Live, t: Tables, key: MemoryKey)
    requires Consistent(t) && Listed(live, t) && key in t.memory
    ensures var after := t.(memory := t.memory - {key});
            var id := Id(MemoryEntries, t.memory[key].id);
            var told := ApplyOne(live, Change(MemoryEntries, id, Deleted, None));
            Consistent(after) && Listed(told, after) && id !in told
  {
    hide Distinct, Shows, ShowsMessages, DistinctRows, ApplyOne;
    DropShows(live, MemoryEntries, t.memory, t.nextId, key);
    OtherShows(live, MemoryEntries, t.memory[key].id, Deleted, None, t.conversations, t.nextId, t.nextId, t.messages,
               Conversations);
  }

  lemma {:induction false} AdoptedListed(live: Live, t: Tables, source: MemoryKey, owner: string)
    requires Consistent(t) && Listed(live, t)
    ensures var w := Adopted(t, source, owner);
            Consistent(w.tables) && Listed(ApplyAll(live, w.changes), w.tables)
  {
    hide Distinct, Shows, ShowsMessages, DistinctRows, ApplyAll, ApplyOne, AdoptedAs;
    var w := Adopted(t, source, owner);
    if w.changes == [] {
      NoChange(live);
    } else {
      var target := AdoptedAs(t.memory, source, owner);
      AdoptedElsewhere(t.memory, source, owner);
      EntryIdBelow(t, source);
      EntryIdBelow(t, target);
      var e := if target in t.memory then t.memory[target].(content := t.memory[source].content, kept := t.memory[source].kept)
               else Entry(t.nextId, 1, t.memory[source].kept, t.memory[source].content);
      PutMemoryListed(live, t, target, e, Created, t.nextId + 1);
      var mid := t.(memory := t.memory[target := e], nextId := t.nextId + 1);
      DropMemoryListed(ApplyOne(live, w.changes[0]), mid, source);
      TwoChanges(live, w.changes[0], w.changes[1]);
    }
  }

  lemma {:induction false} AdoptedElsewhere(memory: map<MemoryKey, Entry>, source: MemoryKey, owner: string)
    requires SCHEDULED <= source.0 && !(SCHEDULED <= owner)
    ensures AdoptedAs(memory, source, owner) != source
  {
  }

  lemma {:induction false} EntryIdBelow(t: Tables, key: MemoryKey)
    requires Consistent(t)
    ensures key in t.memory ==> t.memory[key].id < t.nextId
  {
  }

  /** An account's entries go without a word: that is true only of an account that has none. */
  lemma {:induction false} PurgedListedExact(live: Live, t: Tables, account: string)
    requires Consistent(t) && Listed(live, t)
    ensures var after := t.(memory := Without(t.memory, account));
            Consistent(after) && (Listed(live, after) <==> forall k :: k in t.memory ==> k.0 != account)
  {
    hide DistinctRows, ShowsMessages;
    var after := Without(t.memory, account);
    if k :| k in t.memory && k.0 == account {
      assert Lists(live, MemoryEntries, t.memory[k]);
      assert Id(MemoryEntries, t.memory[k].id) in live;
      assert !exists j :: j in after && after[j].id == t.memory[k].id;
      assert !Shows(live, MemoryEntries, after);
    } else {
      assert after == t.memory;
    }
  }

  /** Changes to message rows leave what is listed of the other nouns. */
  lemma {:induction false} MessagesOnly(live: Live, t: Tables, rows: map<Key, M.Rows>, landed: seq<(nat, bool)>, next: nat)
    requires Consistent(t) && Listed(live, t) && t.nextId <= next && DistinctRows(rows, next)
    requires ShowsMessages(ApplyAll(live, MessageChanges(landed)), rows)
    ensures var after := t.(messages := rows, nextId := next);
            Consistent(after) && Listed(ApplyAll(live, MessageChanges(landed)), after)
  {
    hide Shows, ShowsMessages, DistinctRows, ApplyAll, MessageChanges;
    var told := ApplyAll(live, MessageChanges(landed));
    forall id: Id | id.noun != Messages ensures SameEntry(live, told, id) {
      MessageChangesPut(live, landed, id);
    }
    OtherNoun(live, told, MemoryEntries, t.memory);
    OtherNoun(live, told, Conversations, t.conversations);
  }

  lemma {:induction false} FlushListed(live: Live, t: Tables, key: Key, h: T.History, from: nat, now: int)
    requires Consistent(t) && Listed(live, t)
    ensures var u := M.Flush(M.Flushed(RowsOf(t.messages, key), t.nextId, []), h, from, now);
            var after := t.(messages := t.messages[key := u.rows], nextId := u.nextId);
            Consistent(after) && Listed(ApplyAll(live, MessageChanges(u.landed)), after)
  {
    hide Distinct, Shows, ShowsMessages, DistinctRows, M.Flush, ApplyAll, MessageChanges;
    var f := M.Flushed(RowsOf(t.messages, key), t.nextId, []);
    var u := M.Flush(f, h, from, now);
    FlushShows(live, t.messages, key, f, h, from, now);
    FlushRenews(t.messages, t.nextId, key, t.nextId, h, from, now);
    MessagesOnly(live, t, t.messages[key := u.rows], u.landed, u.nextId);
  }

  lemma {:induction false} UpsertedListed(live: Live, t: Tables, key: Key, h: T.History, from: nat, now: int)
    requires Consistent(t) && Listed(live, t)
    ensures var w := Upserted(t, key, h, from, now);
            Consistent(w.tables) && Listed(ApplyAll(live, w.changes), w.tables)
  {
    hide Shows, ShowsMessages, DistinctRows, M.Flush, ApplyAll, ApplyOne, MessageChanges;
    var e := if key in t.conversations then Bumped(t.conversations[key]) else Entry(t.nextId, 1, true, "");
    var c := EntryChange(Conversations, e, if e.version == 1 then Created else Changed);
    var mid := t.(conversations := t.conversations[key := e], nextId := t.nextId + 1);
    var u := M.Flush(M.Flushed(RowsOf(t.messages, key), t.nextId + 1, []), h, from, now);
    PutConversationListed(live, t, key, e, c.kind, t.nextId + 1);
    hide Consistent, Listed, Distinct;
    FlushListed(ApplyOne(live, c), mid, key, h, from, now);
    OneChange(live, c);
    ApplyConcat(live, [c], MessageChanges(u.landed));
  }

  lemma {:induction false} OneChange(live: Live, c: Change)
    ensures ApplyAll(live, [c]) == ApplyOne(live, c)
  {
    assert [c][..0] == [];
  }

  lemma {:induction false} TwoChanges(live: Live, c: Change, d: Change)
    ensures ApplyAll(live, [c, d]) == ApplyOne(ApplyOne(live, c), d)
  {
    OneChange(live, c);
    assert [c, d][..1] == [c];
  }

  lemma {:induction false} NoChange(live: Live)
    ensures ApplyAll(live, []) == live
  {
  }

  lemma {:induction false} OpenedListed(live: Live, t: Tables, key: Key, userSeq: nat, text: string, now: int)
    requires Consistent(t) && Listed(live, t)
    ensures var w := TurnOpened(t, key, userSeq, text, now);
            Consistent(w.tables) && Listed(ApplyAll(live, w.changes), w.tables)
  {
    hide Distinct, Shows, ShowsMessages, DistinctRows, ApplyAll, MessageChanges, W.OpenTurn;
    match W.OpenTurn(RowsOf(t.messages, key), userSeq, text, t.nextId, now)
    case Err(_) =>
      NoChange(live);
      NothingListed(live, t, t.nextId + 2);
    case Ok(rows) =>
      TurnRowsShown(live, t, key, userSeq, text, now);
      hide Consistent, Listed;
      MessagesOnly(live, t, t.messages[key := rows], [(t.nextId, false), (t.nextId + 1, false)], t.nextId + 2);
  }

  lemma {:induction false} NothingListed(live: Live, t: Tables, next: nat)
    requires Consistent(t) && Listed(live, t) && t.nextId <= next
    ensures Consistent(t.(nextId := next)) && Listed(live, t.(nextId := next))
  {
    hide DistinctRows, Shows, ShowsMessages;
    RowsLater(t.messages, t.nextId, next);
  }

  /** The opening rows are new, and they are what is announced. */
  lemma {:induction false} TurnRowsShown(live: Live, t: Tables, key: Key, userSeq: nat, text: string, now: int)
    requires Consistent(t) && Listed(live, t)
    requires W.OpenTurn(RowsOf(t.messages, key), userSeq, text, t.nextId, now).Ok?
    ensures var rows := W.OpenTurn(RowsOf(t.messages, key), userSeq, text, t.nextId, now).value;
            && DistinctRows(t.messages[key := rows], t.nextId + 2)
            && ShowsMessages(ApplyAll(live, MessageChanges([(t.nextId, false), (t.nextId + 1, false)])), t.messages[key := rows])
  {
    hide W.OpenTurn, HasId, LandedId, ApplyAll, MessageChanges, M.FreshIds, Renews, ShowsMessages, DistinctRows, Distinct, Shows;
    var before, landed := RowsOf(t.messages, key), [(t.nextId, false), (t.nextId + 1, false)];
    var rows := W.OpenTurn(before, userSeq, text, t.nextId, now).value;
    forall id ensures HasId(rows, id) <==> HasId(before, id) || LandedId(landed, id) {
      OpenedIds(before, userSeq, text, t.nextId, now, id);
    }
    RowsAreFresh(t.messages, t.nextId, key);
    OpenedFresh(before, userSeq, text, t.nextId, now);
    LandedShows(live, t.messages, key, rows, landed);
    RowsReplaced(t.messages, t.nextId, key, rows, t.nextId + 2);
  }

  lemma {:induction false} OpenedFresh(before: M.Rows, userSeq: nat, text: string, nextId: nat, now: int)
    requires W.OpenTurn(before, userSeq, text, nextId, now).Ok? && M.FreshIds(before, nextId)
    ensures var rows := W.OpenTurn(before, userSeq, text, nextId, now).value;
            M.FreshIds(rows, nextId + 2) && Renews(before, rows, nextId)
  {
  }

  lemma {:induction false} OpenedIds(before: M.Rows, userSeq: nat, text: string, nextId: nat, now: int, id: nat)
    requires W.OpenTurn(before, userSeq, text, nextId, now).Ok?
    ensures var rows := W.OpenTurn(before, userSeq, text, nextId, now).value;
            HasId(rows, id) <==> HasId(before, id) || LandedId([(nextId, false), (nextId + 1, false)], id)
  {
    var rows := W.OpenTurn(before, userSeq, text, nextId, now).value;
    var landed := [(nextId, false), (nextId + 1, false)];
    assert rows[userSeq].id == nextId && rows[userSeq + 1].id == nextId + 1;
    assert landed[0].0 == nextId && landed[1].0 == nextId + 1;
    if s :| s in before && before[s].id == id {
      assert rows[s].id == id;
    }
  }

  lemma {:induction false} ClosedListedExact(live: Live, t: Tables, op: Op)
    requires Consistent(t) && Listed(live, t) && op.CloseTurn?
    ensures var w := Apply(t, op);
            Consistent(w.tables) && (Listed(ApplyAll(live, w.changes), w.tables) <==> TellsTruth(t, op))
  {
    hide Distinct, Shows, ShowsMessages, DistinctRows, ApplyAll, ApplyOne, ClosesTruly, W.CloseTurn, ClosingChange;
    var c := ClosingChange(op.placeholder, op.assistant, op.finalText, op.turnStart, op.total);
    OneChange(live, c);
    ClosedStayDistinct(t, op);
    ClosingShowsExact(live, t.messages, t.nextId, op.key, op.placeholder, op.assistant, op.finalText, op.turnStart, op.total);
    ClosingLeavesOthers(live, op);
    OtherNoun(live, ApplyOne(live, c), MemoryEntries, t.memory);
    OtherNoun(live, ApplyOne(live, c), Conversations, t.conversations);
  }

  lemma {:induction false} ClosedStayDistinct(t: Tables, op: Op)
    requires DistinctRows(t.messages, t.nextId) && op.CloseTurn?
    ensures DistinctRows(Apply(t, op).tables.messages, t.nextId)
  {
    var before := RowsOf(t.messages, op.key);
    var rows := W.CloseTurn(before, op.placeholder, op.finalText, op.turnStart, op.total);
    RowsAreFresh(t.messages, t.nextId, op.key);
    hide DistinctRows;
    ClosedFresh(before, t.nextId, op.placeholder, op.finalText, op.turnStart, op.total);
    hide Renews, M.FreshIds, W.CloseTurn;
    RowsReplaced(t.messages, t.nextId, op.key, rows, t.nextId);
  }

  lemma {:induction false} ClosedFresh(before: M.Rows, nextId: nat, placeholder: nat, finalText: Option<string>,
                                       turnStart: nat, total: nat)
    requires M.FreshIds(before, nextId)
    ensures var rows := W.CloseTurn(before, placeholder, finalText, turnStart, total);
            M.FreshIds(rows, nextId) && Renews(before, rows, nextId)
  {
  }

  lemma {:induction false} ClosingLeavesOthers(live: Live, op: Op)
    requires op.CloseTurn?
    ensures forall id: Id :: id.noun != Messages ==>
              SameEntry(live, ApplyOne(live, ClosingChange(op.placeholder, op.assistant, op.finalText, op.turnStart, op.total)), id)
  {
  }

  lemma {:induction false} ConversationOpListed(live: Live, t: Tables, op: Op)
    requires Consistent(t) && Listed(live, t) && (op.Touch? || op.UpdateConversation?)
    ensures var w := Apply(t, op);
            Consistent(w.tables) && Listed(ApplyAll(live, w.changes), w.tables)
  {
    hide Listed, ApplyAll, ApplyOne, DistinctRows;
    var w := Apply(t, op);
    NoChange(live);
    if op.key in t.conversations {
      OneChange(live, w.changes[0]);
      PutConversationListed(live, t, op.key, w.tables.conversations[op.key], Changed, t.nextId);
    }
  }

  lemma {:induction false} MemoryOpListed(live: Live, t: Tables, op: Op)
    requires Consistent(t) && Listed(live, t) && (op.Write? || op.Forget? || op.Delete?)
    ensures var w := Apply(t, op);
            Consistent(w.tables) && Listed(ApplyAll(live, w.changes), w.tables)
  {
    hide Consistent, Listed, ApplyAll, ApplyOne;
    var w, key := Apply(t, op), op.entry;
    NoChange(live);
    EntryIdBelow(t, key);
    if w.changes != [] {
      OneChange(live, w.changes[0]);
    }
    if op.Write? {
      PutMemoryListed(live, t, key, w.tables.memory[key], w.changes[0].kind, t.nextId + 1);
    } else if key in t.memory && op.Forget? {
      PutMemoryListed(live, t, key, w.tables.memory[key], Changed, t.nextId);
    } else if key in t.memory {
      DropMemoryListed(live, t, key);
    }
  }

  /** Every transaction keeps the ids apart, and its change rows bring a listing of the tables before
      it to a listing of the tables after it if and only if it told the truth. */
  lemma {:induction false} AppliedListedExact(live: Live, t: Tables, op: Op)
    requires Consistent(t) && Listed(live, t)
    ensures var w := Apply(t, op);
            Consistent(w.tables) && (Listed(ApplyAll(live, w.changes), w.tables) <==> TellsTruth(t, op))
  {
    hide Consistent, Listed, ApplyAll, ApplyOne, Upserted, TurnOpened, Adopted, Without, ClosesTruly;
    match op
    case CreateConversation(key, history, now) =>
      NoChange(live);
      UpsertedListed(live, t, key, history, 0, now);
    case SaveConversation(key, history, from, now) => UpsertedListed(live, t, key, history, from, now);
    case AdoptEntry(source, owner) => AdoptedListed(live, t, source, owner);
    case PurgeAccount(account) =>
      NoChange(live);
      PurgedListedExact(live, t, account);
    case OpenTurn(key, userSeq, text, now) => OpenedListed(live, t, key, userSeq, text, now);
    case CloseTurn(_, _, _, _, _, _) => ClosedListedExact(live, t, op);
    case _ =>
      hide Apply;
      if op.Touch? || op.UpdateConversation? {
        ConversationOpListed(live, t, op);
      } else {
        MemoryOpListed(live, t, op);
      }
  }

  // ----- runs of the store -----------------------------------------------------------------------

  datatype Snapshot = Snapshot(tables: Tables, changes: seq<Change>)

  function Next(s: Snapshot, op: Op): Snapshot {
    var w := Apply(s.tables, op);
    Snapshot(w.tables, s.changes + w.changes)
  }

  function Run(ops: seq<Op>): Snapshot {
    if ops == [] then Snapshot(Tables(map[], map[], map[], 0), [])
    else Next(Run(ops[..|ops| - 1]), ops[|ops| - 1])
  }

  /** What an observer sees of the store: what it lists, and its ledger. */
  ghost function Seen(s: Snapshot): Box {
    Box(Listing(s.tables), s.changes)
  }

  /** One transaction is announced if and only if it told the truth. */
  lemma {:induction false} AnnouncedExact(s: Snapshot, op: Op)
    requires Consistent(s.tables)
    ensures Consistent(Next(s, op).tables)
    ensures Announced(Seen(s), Seen(Next(s, op))) <==> TellsTruth(s.tables, op)
  {
    hide Consistent, Listed, Listing, ApplyAll, Apply, TellsTruth;
    var w := Apply(s.tables, op);
    ListingExact(Listing(s.tables), s.tables);
    AppliedListedExact(Listing(s.tables), s.tables, op);
    ListingExact(ApplyAll(Listing(s.tables), w.changes), w.tables);
    assert (s.changes + w.changes)[|s.changes|..] == w.changes;
  }

  lemma {:induction false} RunConsistent(ops: seq<Op>)
    ensures Consistent(Run(ops).tables)
    decreases |ops|
  {
    if ops == [] {
    } else {
      hide Consistent, Apply;
      RunConsistent(ops[..|ops| - 1]);
      AnnouncedExact(Run(ops[..|ops| - 1]), ops[|ops| - 1]);
    }
  }

  /** Every moment of a run, from the empty store on. */
  ghost function Past(ops: seq<Op>): seq<Box> {
    seq(|ops| + 1, i requires 0 <= i <= |ops| => Seen(Run(ops[..i])))
  }

  /** Every transaction of the run told the truth when it was made. */
  ghost predicate Truthful(ops: seq<Op>) {
    forall i :: 0 <= i < |ops| ==> TellsTruth(Run(ops[..i]).tables, ops[i])
  }

  lemma {:induction false} StepOfRun(ops: seq<Op>, i: nat)
    requires i < |ops|
    ensures Announced(Past(ops)[i], Past(ops)[i + 1]) <==> TellsTruth(Run(ops[..i]).tables, ops[i])
  {
    hide Announced, Consistent, Seen, TellsTruth, Apply;
    RunConsistent(ops[..i]);
    AnnouncedExact(Run(ops[..i]), ops[i]);
    assert ops[..i + 1][..i] == ops[..i] && ops[..i + 1][i] == ops[i];
    assert Run(ops[..i + 1]) == Next(Run(ops[..i]), ops[i]);
  }

  /** The moments of a run are a timeline a mirror can follow if and only if every transaction of it
      told the truth. */
  lemma {:induction false} RunTimelineExact(ops: seq<Op>)
    ensures Timeline(Past(ops)) <==> Truthful(ops)
  {
    hide Announced, Seen, Run, TellsTruth;
    var past := Past(ops);
    forall i | 0 <= i < |ops| ensures Announced(past[i], past[i + 1]) <==> TellsTruth(Run(ops[..i]).tables, ops[i]) {
      StepOfRun(ops, i);
    }
    if Truthful(ops) {
      StepsMakeTimeline(past);
    } else {
      var i :| 0 <= i < |ops| && !TellsTruth(Run(ops[..i]).tables, ops[i]);
      assert !Announced(past[i], past[i + 1]);
    }
  }

  /** What the mirror of a run holds: head read at `h`, the nouns at `a`, `b` and `c`, then the polls. */
  ghost function Mirrored(ops: seq<Op>, h: nat, a: nat, b: nat, c: nat, polls: seq<Poll>): Mirror
    requires h <= |ops| && a <= |ops| && b <= |ops| && c <= |ops| && forall k :: 0 <= k < |polls| ==> polls[k].at <= |ops|
  {
    var past := Past(ops);
    Follow(past, Mirror(Inventory(past[a].live, past[b].live, past[c].live), LedgerHead(past[h].changes)), polls)
  }

  /** Whichever way a mirror of the run was started and fed, at the end of the ledger it holds what
      the store lists. */
  ghost predicate MirrorsAgree(ops: seq<Op>) {
    forall h: nat, a: nat, b: nat, c: nat, polls: seq<Poll>, t: nat ::
      Watching(ops, h, a, b, c, polls, t) && Mirrored(ops, h, a, b, c, polls).cursor == |Run(ops[..t]).changes|
      ==> Mirrored(ops, h, a, b, c, polls).live == Listing(Run(ops[..t]).tables)
  }

  ghost predicate Watching(ops: seq<Op>, h: nat, a: nat, b: nat, c: nat, polls: seq<Poll>, t: nat) {
    && h <= a <= t && h <= b <= t && h <= c <= t && t <= |ops|
    && InOrder(Past(ops), h, polls) && forall k :: 0 <= k < |polls| ==> polls[k].at <= t
  }

  /** Mirrors of a run can be trusted if and only if every transaction of it told the truth. */
  lemma {:induction false} MirrorsAgreeExact(ops: seq<Op>)
    ensures MirrorsAgree(ops) <==> Truthful(ops)
  {
    hide Timeline, InOrder, Follow, Listing, Inventory, TellsTruth, Run;
    RunTimelineExact(ops);
    if Truthful(ops) {
      forall h: nat, a: nat, b: nat, c: nat, polls: seq<Poll>, t: nat
        | Watching(ops, h, a, b, c, polls, t) && Mirrored(ops, h, a, b, c, polls).cursor == |Run(ops[..t]).changes|
        ensures Mirrored(ops, h, a, b, c, polls).live == Listing(Run(ops[..t]).tables)
      {
        MirrorConverges(Past(ops), h, a, b, c, polls, t);
      }
    } else {
      var i :| 0 <= i < |ops| && !TellsTruth(Run(ops[..i]).tables, ops[i]);
      MirrorMisled(ops, i);
    }
  }

  /** A mirror started just before an untrue transaction is wrong right after it. */
  lemma {:induction false} MirrorMisled(ops: seq<Op>, i: nat)
    requires i < |ops| && !TellsTruth(Run(ops[..i]).tables, ops[i])
    ensures var polls := [Poll(i + 1, |Run(ops[..i + 1]).changes|)];
            && Watching(ops, i, i, i, i, polls, i + 1)
            && Mirrored(ops, i, i, i, i, polls).cursor == |Run(ops[..i + 1]).changes|
            && Mirrored(ops, i, i, i, i, polls).live != Listing(Run(ops[..i + 1]).tables)
  {
    hide TellsTruth, Listing, Apply, ApplyAll;
    var past := Past(ops);
    StepOfRun(ops, i);
    var a, b := past[i], past[i + 1];
    assert ops[..i + 1][..i] == ops[..i] && ops[..i + 1][i] == ops[i];
    var w := Apply(Run(ops[..i]).tables, ops[i]);
    assert b.changes == a.changes + w.changes;
    var polls := [Poll(i + 1, |b.changes|)];
    OneInventory(a.live);
    var m := Mirror(a.live, |a.changes|);
    assert polls[..0] == [] && Follow(past, m, polls[..0]) == m;
    assert ChangesSince(b.changes, |a.changes|, |b.changes|) == b.changes[|a.changes|..];
    assert Follow(past, m, polls) == Take(m, b.changes, |b.changes|);
  }

  lemma {:induction false} OneInventory(live: Live)
    ensures Inventory(live, live, live) == live
  {
  }

  // ----- versions of a conversation ----------------------------------------------------------------

  predicate WritesConversation(op: Op, key: Key) {
    match op
    case SaveConversation(k, _, _, _) => k == key
    case Touch(k) => k == key
    case UpdateConversation(k, _) => k == key
    case _ => false
  }

  /** Every conversation keeps its id, and its version goes up whenever its row is written. */
  ghost predicate RaisesVersions(t: Tables, op: Op) {
    var after := Apply(t, op).tables.conversations;
    forall key :: key in t.conversations ==>
      && key in after && after[key].id == t.conversations[key].id
      && (if WritesConversation(op, key) then after[key].version > t.conversations[key].version
          else after[key] == t.conversations[key])
  }

  /** An update whose caller read the row before somebody else's write. */
  predicate Stale(t: Tables, op: Op) {
    op.UpdateConversation? && op.key in t.conversations && op.seen < t.conversations[op.key].version
  }

  /** A write raises the version it writes unless it is an update by a caller who had read an older one:
      that one announces a version the conversation already had. */
  lemma {:induction false} RaisesVersionsExact(t: Tables, op: Op)
    ensures RaisesVersions(t, op) <==> !Stale(t, op)
  {
    hide M.Flush, W.OpenTurn, W.CloseTurn, MessageChanges, Adopted, Without, RowsOf;
    AdoptedLeavesOthers(t, op);
    match op
    case UpdateConversation(key, seen) =>
      if key in t.conversations {
        assert Apply(t, op).tables.conversations[key].version == seen + 1;
      }
    case _ =>
  }

  lemma {:induction false} AdoptedLeavesOthers(t: Tables, op: Op)
    ensures op.AdoptEntry? ==> Apply(t, op).tables.conversations == t.conversations
    ensures op.OpenTurn? ==> Apply(t, op).tables.conversations == t.conversations
  {
  }

  ghost predicate NoneStale(ops: seq<Op>) {
    forall i :: 0 <= i < |ops| ==> !Stale(Run(ops[..i]).tables, ops[i])
  }

  /** Over a run without such updates no conversation goes away, changes its id, or goes back a version. */
  lemma {:induction false} VersionsGrow(ops: seq<Op>, i: nat, j: nat, key: Key)
    requires NoneStale(ops) && i <= j <= |ops| && key in Run(ops[..i]).tables.conversations
    ensures var before, after := Run(ops[..i]).tables.conversations, Run(ops[..j]).tables.conversations;
            && key in after && after[key].id == before[key].id && after[key].version >= before[key].version
            && (after[key].version == before[key].version ==> after[key] == before[key])
    decreases j
  {
    hide Apply, Stale;
    if i == j {
    } else {
      VersionsGrow(ops, i, j - 1, key);
      RaisesVersionsExact(Run(ops[..j - 1]).tables, ops[j - 1]);
      assert ops[..j][..j - 1] == ops[..j - 1] && ops[..j][j - 1] == ops[j - 1];
    }
  }

  // ----- what adopting loses -------------------------------------------------------------------------

  /** Adopting an entry keeps its text, and keeps every entry already there unless both names it could
      take are taken by another text: then that text is gone. */
  lemma {:induction false} AdoptKeepsExact(t: Tables, source: MemoryKey, owner: string)
    requires source in t.memory && SCHEDULED <= source.0 && !(SCHEDULED <= owner)
    ensures var after := Adopted(t, source, owner).tables.memory;
            var second := (owner, source.1 + "--" + source.0);
            && (exists k :: k in after && after[k].content == t.memory[source].content)
            && ((forall k :: k in t.memory && k != source ==> k in after && after[k].content == t.memory[k].content)
                <==> !((owner, source.1) in t.memory && second in t.memory
                       && t.memory[second].content != t.memory[source].content))
  {
    AdoptedElsewhere(t.memory, source, owner);
    var target := AdoptedAs(t.memory, source, owner);
    var after := Adopted(t, source, owner).tables.memory;
    assert target in after && after[target].content == t.memory[source].content;
  }
}
