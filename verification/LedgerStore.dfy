/**
  The store as the program runs it: each method is one write transaction, done row by row
  (conversation_store.py, `create`, `save` and `_record_conversation_change`;
  door/nouns/conversations.py, `_apply_update`; memory_store.py, `write_entry`, `forget_entry`,
  `delete_entry`, `adopt_scheduled_memories`; stores.py, `purge_account`; door/nouns/messages.py,
  `turn_started` and `turn_finished`).

  Every method leaves what `StoreTables.Next` says. What it promises besides its own effect is
  `Announced`: the inventory moves exactly as the change rows written with it say, so a timeline of
  these transactions is one a mirror can follow. `Close` and `PurgeAccount` promise it under the exact
  condition under which it holds.
 */
module LedgerStore {
  import opened Options
  import opened Ledger
  import opened StoreTables
  import T = Transcript
  import M = MessageStore
  import W = WatchedTurn

  class Store {
    var conversations: map<Key, Entry>
    var messages: map<Key, M.Rows>
    var memory: map<MemoryKey, Entry>
    var changes: seq<Change>
    var nextId: nat

    function Contents(): Tables
      reads this
    {
      Tables(conversations, messages, memory, nextId)
    }

    function State(): Snapshot
      reads this
    {
      Snapshot(Contents(), changes)
    }

    ghost predicate Valid()
      reads this
    {
      Consistent(Contents())
    }

    ghost function SeenNow(): Box
      reads this
    {
      Seen(State())
    }

    constructor ()
      ensures Valid() && State() == Run([])
    {
      conversations, messages, memory, changes, nextId := map[], map[], map[], [], 0;
    }

    /** Append one change row. */
    method Record(noun: Noun, n: nat, kind: Kind, version: Option<nat>)
      modifies this`changes
      ensures changes == old(changes) + [Change(noun, Id(noun, n), kind, version)]
    {
      changes := RecordChange(changes, noun, Id(noun, n), kind, version).value;
    }

    method RecordMessages(landed: seq<(nat, bool)>)
      modifies this`changes
      ensures changes == old(changes) + MessageChanges(landed)
    {
      for i := 0 to |landed|
        invariant changes == old(changes) + MessageChanges(landed[..i])
      {
        var c := MessageChange(landed[i]);
        assert landed[..i + 1][..i] == landed[..i];
        Record(Messages, landed[i].0, c.kind, c.version);
        assert MessageChanges(landed[..i + 1]) == MessageChanges(landed[..i]) + [c];
      }
      assert landed[..|landed|] == landed;
    }

    /** Write the messages of one conversation and announce the rows that landed. */
    method InsertMessages(key: Key, history: T.History, from: nat, now: int)
      requires Valid()
      modifies this`messages, this`changes, this`nextId
      ensures Valid() && Announced(old(SeenNow()), SeenNow())
      ensures key in messages && messages == old(messages)[key := messages[key]]
      ensures var u := M.Flush(M.Flushed(RowsOf(old(messages), key), old(nextId), []), history, from, now);
              messages[key] == u.rows && nextId == u.nextId && changes == old(changes) + MessageChanges(u.landed)
    {
      var u := M.Flush(M.Flushed(RowsOf(messages, key), nextId, []), history, from, now);
      FlushAnnounced(State(), key, history, from, now);
      messages := messages[key := u.rows];
      nextId := u.nextId;
      RecordMessages(u.landed);
      hide M.Flush, Announced, Consistent, MessageChanges;
    }

    /** The upsert both `create` and `save` come down to. */
    method Upsert(key: Key, history: T.History, from: nat, now: int)
      modifies this
      ensures var w := Upserted(old(Contents()), key, history, from, now);
              State() == Snapshot(w.tables, old(changes) + w.changes)
    {
      hide M.Flush, MessageChanges;
      var e := if key in conversations then Bumped(conversations[key]) else Entry(nextId, 1, true, "");
      var u := M.Flush(M.Flushed(RowsOf(messages, key), nextId + 1, []), history, from, now);
      conversations := conversations[key := e];
      messages := messages[key := u.rows];
      nextId := u.nextId;
      Record(Conversations, e.id, if e.version == 1 then Created else Changed, Some(e.version));
      RecordMessages(u.landed);
    }

    /** `create`: refused, with nothing written, when the key is taken. */
    method Create(key: Key, history: T.History, now: int) returns (ok: bool)
      requires Valid()
      modifies this
      ensures State() == Next(old(State()), CreateConversation(key, history, now))
      ensures Valid() && Announced(old(SeenNow()), SeenNow())
      ensures ok <==> key !in old(conversations)
      ensures !ok ==> State() == old(State())
      ensures ok ==> conversations == old(conversations)[key := Entry(old(nextId), 1, true, "")]
      ensures memory == old(memory)
    {
      hide Announced, Consistent, M.Flush, MessageChanges, Seen;
      ok := key !in conversations;
      AnnouncedExact(State(), CreateConversation(key, history, now));
      if ok {
        Upsert(key, history, 0, now);
      }
    }

    /** `save`: upsert the conversation row and write its messages, in one transaction. A new row is
        version 1 and `created`; an old one keeps its id, gains a version and is `changed`. */
    method Save(key: Key, history: T.History, from: nat, now: int)
      requires Valid()
      modifies this
      ensures State() == Next(old(State()), SaveConversation(key, history, from, now))
      ensures Valid() && Announced(old(SeenNow()), SeenNow())
      ensures key in conversations && conversations == old(conversations)[key := conversations[key]]
      ensures conversations[key].version == if key in old(conversations) then old(conversations)[key].version + 1 else 1
      ensures key in old(conversations) ==> conversations[key].id == old(conversations)[key].id
      ensures key in messages && messages == old(messages)[key := messages[key]]
      ensures messages[key] == M.Flush(M.Flushed(RowsOf(old(messages), key), old(nextId) + 1, []), history, from, now).rows
      ensures memory == old(memory)
    {
      hide Announced, Consistent, M.Flush, MessageChanges, Seen;
      AnnouncedExact(State(), SaveConversation(key, history, from, now));
      Upsert(key, history, from, now);
    }

    /** `_record_conversation_change`: an unknown key announces nothing. */
    method TouchConversation(key: Key)
      requires Valid()
      modifies this
      ensures State() == Next(old(State()), Touch(key))
      ensures Valid() && Announced(old(SeenNow()), SeenNow())
      ensures messages == old(messages) && memory == old(memory)
      ensures conversations == if key in old(conversations)
                then old(conversations)[key := old(conversations)[key].(version := old(conversations)[key].version + 1)]
                else old(conversations)
    {
      hide Announced, Consistent;
      AnnouncedExact(State(), Touch(key));
      if key in conversations {
        var e := conversations[key].(version := conversations[key].version + 1);
        conversations := conversations[key := e];
        Record(Conversations, e.id, Changed, Some(e.version));
      }
    }

    /** `_apply_update`: a new name or state, at the version after the one its caller had read. */
    method UpdateConversation(key: Key, seen: nat)
      requires Valid()
      modifies this`conversations, this`changes
      ensures State() == Next(old(State()), StoreTables.UpdateConversation(key, seen))
      ensures Valid() && Announced(old(SeenNow()), SeenNow())
      ensures conversations == if key in old(conversations)
                then old(conversations)[key := old(conversations)[key].(version := seen + 1)]
                else old(conversations)
    {
      hide Announced, Consistent;
      AnnouncedExact(State(), StoreTables.UpdateConversation(key, seen));
      if key in conversations {
        var e := conversations[key].(version := seen + 1);
        conversations := conversations[key := e];
        Record(Conversations, e.id, Changed, Some(e.version));
      }
    }

    /** `write_entry`: rewriting an entry updates it in place and brings a forgotten one back. */
    method WriteEntry(key: MemoryKey, content: string)
      requires Valid()
      modifies this
      ensures State() == Next(old(State()), Write(key, content))
      ensures Valid() && Announced(old(SeenNow()), SeenNow())
      ensures conversations == old(conversations) && messages == old(messages)
      ensures key in memory && memory == old(memory)[key := memory[key]]
      ensures memory[key].kept && memory[key].content == content
      ensures key in old(memory) ==>
                memory[key].id == old(memory)[key].id && memory[key].version == old(memory)[key].version + 1
      ensures key !in old(memory) ==> memory[key].version == 1
    {
      hide Announced, Consistent;
      AnnouncedExact(State(), Write(key, content));
      var e, kind := Entry(nextId, 1, true, content), Created;
      if key in memory {
        e, kind := Entry(memory[key].id, memory[key].version + 1, true, content), Changed;
      }
      memory := memory[key := e];
      nextId := nextId + 1;
      Record(MemoryEntries, e.id, kind, Some(e.version));
    }

    /** `forget_entry`: a state, not a deletion; an entry that is not there announces nothing. */
    method ForgetEntry(key: MemoryKey)
      requires Valid()
      modifies this
      ensures State() == Next(old(State()), Forget(key))
      ensures Valid() && Announced(old(SeenNow()), SeenNow())
      ensures conversations == old(conversations) && messages == old(messages)
      ensures memory == if key in old(memory)
                then old(memory)[key := old(memory)[key].(kept := false, version := old(memory)[key].version + 1)]
                else old(memory)
    {
      hide Announced, Consistent;
      AnnouncedExact(State(), Forget(key));
      if key in memory {
        var e := memory[key].(kept := false, version := memory[key].version + 1);
        memory := memory[key := e];
        Record(MemoryEntries, e.id, Changed, Some(e.version));
      }
    }

    /** `delete_entry`: the tombstone is written, then the row goes. */
    method DeleteEntry(key: MemoryKey)
      requires Valid()
      modifies this
      ensures State() == Next(old(State()), Delete(key))
      ensures Valid() && Announced(old(SeenNow()), SeenNow())
      ensures conversations == old(conversations) && messages == old(messages)
      ensures memory == old(memory) - {key}
      ensures key in old(memory) ==> Id(MemoryEntries, old(memory)[key].id) !in Listing(Contents())
    {
      hide Announced, Consistent, Listing, Seen, ClosesTruly;
      AnnouncedExact(State(), Delete(key));
      DeletedUnlisted(Contents(), key);
      if key in memory {
        Record(MemoryEntries, memory[key].id, Deleted, None);
        memory := memory - {key};
      }
    }

    /** `adopt_scheduled_memories`, one row of it: the entry appears with its owner and goes where it was,
        and both are announced. */
    method Adopt(source: MemoryKey, owner: string)
      requires Valid()
      modifies this`memory, this`changes, this`nextId
      ensures State() == Next(old(State()), AdoptEntry(source, owner))
      ensures Valid() && Announced(old(SeenNow()), SeenNow())
      ensures source in old(memory) && SCHEDULED <= source.0 && !(SCHEDULED <= owner) ==>
                source !in memory && AdoptedAs(old(memory), source, owner) in memory
                && memory[AdoptedAs(old(memory), source, owner)].content == old(memory)[source].content
    {
      hide Announced, Consistent, AdoptedAs;
      AnnouncedExact(State(), AdoptEntry(source, owner));
      if source in memory && SCHEDULED <= source.0 && !(SCHEDULED <= owner) {
        AdoptedElsewhere(memory, source, owner);
        var target, from := AdoptedAs(memory, source, owner), memory[source];
        var e := Entry(nextId, 1, from.kept, from.content);
        if target in memory {
          e := memory[target].(content := from.content, kept := from.kept);
        }
        memory := memory[target := e] - {source};
        nextId := nextId + 1;
        Record(MemoryEntries, e.id, Created, Some(e.version));
        Record(MemoryEntries, from.id, Deleted, None);
      }
    }

    /** `purge_account`: every entry of the account goes, and nothing is said. */
    method PurgeAccount(account: string)
      requires Valid()
      modifies this`memory
      ensures State() == Next(old(State()), StoreTables.PurgeAccount(account))
      ensures Valid() && memory == Without(old(memory), account)
      ensures Announced(old(SeenNow()), SeenNow()) <==> forall k :: k in old(memory) ==> k.0 != account
    {
      hide Announced, Consistent, Without;
      AnnouncedExact(State(), StoreTables.PurgeAccount(account));
      memory := Without(memory, account);
    }

    /** `turn_started`: the user's row and the placeholder, each announced, or nothing at all when one
        of their places is taken. `assistant` is the placeholder's id, minted either way. */
    method Open(key: Key, userSeq: nat, text: string, now: int) returns (assistant: nat)
      requires Valid()
      modifies this`messages, this`changes, this`nextId
      ensures State() == Next(old(State()), OpenTurn(key, userSeq, text, now))
      ensures Valid() && Announced(old(SeenNow()), SeenNow())
      ensures assistant == old(nextId) + 1
      ensures if userSeq in RowsOf(old(messages), key) || userSeq + 1 in RowsOf(old(messages), key)
              then messages == old(messages) && changes == old(changes)
              else userSeq in RowsOf(messages, key) && userSeq + 1 in messages[key] && messages[key][userSeq + 1].id == assistant
    {
      hide Announced, Consistent;
      AnnouncedExact(State(), OpenTurn(key, userSeq, text, now));
      var rows := RowsOf(messages, key);
      var userId := nextId;
      assistant := nextId + 1;
      nextId := nextId + 2;
      if userSeq !in rows && userSeq + 1 !in rows {
        messages := messages[key :=
          rows[userSeq := M.NewRow(T.UserMessage(text), userId, now)]
              [userSeq + 1 := M.NewRow(W.PlaceholderMessage(), assistant, now).(state := M.Streaming)]];
        RecordMessages([(userId, false), (assistant, false)]);
      }
    }

    /** `turn_finished`: the conditional statement of one of three branches, then, whatever it did, a
        change row for the placeholder. The row is right if and only if the closing was true. */
    method Close(key: Key, placeholder: nat, assistant: nat, finalText: Option<string>, turnStart: nat, total: nat)
      requires Valid()
      modifies this`messages, this`changes
      ensures State() == Next(old(State()), CloseTurn(key, placeholder, assistant, finalText, turnStart, total))
      ensures Valid()
      ensures Announced(old(SeenNow()), SeenNow())
              <==> ClosesTruly(old(messages), key, placeholder, assistant, finalText, turnStart, total)
    {
      hide Announced, Consistent, ClosesTruly;
      AnnouncedExact(State(), CloseTurn(key, placeholder, assistant, finalText, turnStart, total));
      var rows := RowsOf(messages, key);
      var streaming := placeholder in rows && rows[placeholder].state == M.Streaming;
      if finalText.Some? && total == placeholder + 1 {
        if streaming { rows := rows[placeholder := rows[placeholder].(content := finalText, state := M.Sent)]; }
        Record(Messages, assistant, Changed, Some(1));
      } else if total == turnStart + 1 {
        if streaming { rows := rows[placeholder := rows[placeholder].(state := M.Broken)]; }
        Record(Messages, assistant, Changed, Some(1));
      } else {
        if streaming { rows := rows - {placeholder}; }
        Record(Messages, assistant, Deleted, None);
      }
      messages := messages[key := rows];
    }
  }

  lemma {:induction false} FlushAnnounced(s: Snapshot, key: Key, h: T.History, from: nat, now: int)
    requires Consistent(s.tables)
    ensures var t := s.tables;
            var u := M.Flush(M.Flushed(RowsOf(t.messages, key), t.nextId, []), h, from, now);
            var after := t.(messages := t.messages[key := u.rows], nextId := u.nextId);
            Consistent(after) && Announced(Seen(s), Seen(Snapshot(after, s.changes + MessageChanges(u.landed))))
  {
    hide Consistent, Listed, Listing, ApplyAll, M.Flush, MessageChanges;
    var t := s.tables;
    var u := M.Flush(M.Flushed(RowsOf(t.messages, key), t.nextId, []), h, from, now);
    var after := t.(messages := t.messages[key := u.rows], nextId := u.nextId);
    ListingExact(Listing(t), t);
    FlushListed(Listing(t), t, key, h, from, now);
    ListingExact(ApplyAll(Listing(t), MessageChanges(u.landed)), after);
    assert (s.changes + MessageChanges(u.landed))[|s.changes|..] == MessageChanges(u.landed);
  }

  lemma {:induction false} DeletedUnlisted(t: Tables, key: MemoryKey)
    requires Consistent(t)
    ensures key in t.memory ==> Id(MemoryEntries, t.memory[key].id) !in Listing(Apply(t, Delete(key)).tables)
  {
    hide Consistent, Listed, Listing, ApplyAll, ApplyOne;
    if key in t.memory {
      ListingExact(Listing(t), t);
      DropMemoryListed(Listing(t), t, key);
      var c := Change(MemoryEntries, Id(MemoryEntries, t.memory[key].id), Deleted, None);
      ListingExact(ApplyOne(Listing(t), c), t.(memory := t.memory - {key}));
    }
  }
}
