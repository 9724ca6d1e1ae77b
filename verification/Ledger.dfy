/**
  The change feed and the mirror that follows it (ledger.py).

  A mirror reads the head of the ledger, then an inventory - each noun at its own later moment,
  with writers in between - then every change after that head, page by page. Some of those changes
  are already in the inventory and get applied a second time; the lemmas show the mirror ends where
  the store is all the same.
 */
module Ledger {
  import opened Options

  datatype Noun = Conversations | Messages | MemoryEntries

  // An id carries its noun, as its prefix does.
  datatype Id = Id(noun: Noun, n: nat)

  datatype Kind = Created | Changed | Deleted

  datatype Change = Change(noun: Noun, id: Id, kind: Kind, version: Option<nat>)

  /** What exists, and at which version. */
  type Live = map<Id, nat>

  // Everything an observer can see of the store. The cursor of a change is its position plus one.
  datatype Box = Box(live: Live, changes: seq<Change>)

  /** `record_change`: refuses an id of another noun. */
  function RecordChange(changes: seq<Change>, noun: Noun, id: Id, kind: Kind, version: Option<nat>): Result<seq<Change>> {
    if id.noun != noun then Err("not an id of this noun")
    else Ok(changes + [Change(noun, id, kind, version)])
  }

  function LedgerHead(changes: seq<Change>): nat {
    |changes|
  }

  function ChangesSince(changes: seq<Change>, cursor: nat, limit: nat): seq<Change> {
    if cursor >= |changes| then []
    else if cursor + limit <= |changes| then changes[cursor..cursor + limit]
    else changes[cursor..]
  }

  // ----- what a change does to a copy -------------------------------------------------------

  function ApplyOne(m: Live, c: Change): Live {
    if c.kind.Deleted? then m - {c.id}
    else m[c.id := if c.version.Some? then c.version.value else 0]
  }

  function ApplyAll(m: Live, cs: seq<Change>): Live {
    if cs == [] then m else ApplyOne(ApplyAll(m, cs[..|cs| - 1]), cs[|cs| - 1])
  }

  /** One transaction: what it changed is what it announced, in the order it announced it. */
  ghost predicate Announced(a: Box, b: Box) {
    a.changes <= b.changes && b.live == ApplyAll(a.live, b.changes[|a.changes|..])
  }

  lemma {:induction false} ApplyConcat(m: Live, a: seq<Change>, b: seq<Change>)
    ensures ApplyAll(m, a + b) == ApplyAll(ApplyAll(m, a), b)
    decreases |b|
  {
    if b == [] {
      assert a + b == a;
    } else {
      ApplyConcat(m, a, b[..|b| - 1]);
      assert (a + b)[..|a + b| - 1] == a + b[..|b| - 1];
    }
  }

  lemma {:induction false} AnnouncedTransitive(a: Box, b: Box, c: Box)
    requires Announced(a, b) && Announced(b, c)
    ensures Announced(a, c)
  {
    ApplyConcat(a.live, b.changes[|a.changes|..], c.changes[|b.changes|..]);
    assert c.changes[|a.changes|..] == b.changes[|a.changes|..] + c.changes[|b.changes|..];
  }

  ghost predicate Mentions(cs: seq<Change>, id: Id) {
    exists k :: 0 <= k < |cs| && cs[k].id == id
  }

  /** After the same changes, two copies agree on every id those changes mention, whatever they held
      before; on any other id each copy holds what it held. */
  lemma {:induction false} LastWriteWins(m: Live, n: Live, cs: seq<Change>, id: Id)
    ensures !Mentions(cs, id) ==>
              (id in ApplyAll(m, cs) <==> id in m) && (id in m ==> ApplyAll(m, cs)[id] == m[id])
    ensures Mentions(cs, id) ==>
              (id in ApplyAll(m, cs) <==> id in ApplyAll(n, cs))
              && (id in ApplyAll(m, cs) ==> ApplyAll(m, cs)[id] == ApplyAll(n, cs)[id])
    decreases |cs|
  {
    if cs == [] {
    } else {
      var front, last := cs[..|cs| - 1], cs[|cs| - 1];
      LastWriteWins(m, n, front, id);
      if Mentions(front, id) {
        var k :| 0 <= k < |front| && front[k].id == id;
        assert cs[k].id == id;
      } else if last.id == id {
        assert cs[|cs| - 1].id == id;
      } else {
        forall k | 0 <= k < |cs| ensures cs[k].id != id {
          assert k == |front| || front[k].id != id;
        }
      }
    }
  }

  // ----- a run of the store, and a mirror of it ----------------------------------------------

  /** Successive moments of one store, any number of transactions apart. */
  ghost predicate Timeline(past: seq<Box>) {
    forall i, j :: 0 <= i <= j < |past| ==> Announced(past[i], past[j])
  }

  /** Moments that are each one transaction after the one before form a timeline. */
  lemma {:induction false} StepsMakeTimeline(past: seq<Box>)
    requires forall i :: 0 <= i < |past| - 1 ==> Announced(past[i], past[i + 1])
    ensures Timeline(past)
  {
    forall i, j | 0 <= i <= j < |past| ensures Announced(past[i], past[j]) {
      AnnouncedAcross(past, i, j);
    }
  }

  lemma {:induction false} AnnouncedAcross(past: seq<Box>, i: nat, j: nat)
    requires forall k :: 0 <= k < |past| - 1 ==> Announced(past[k], past[k + 1])
    requires i <= j < |past|
    ensures Announced(past[i], past[j])
    decreases j - i
  {
    if i == j {
    } else {
      AnnouncedAcross(past, i, j - 1);
      AnnouncedTransitive(past[i], past[j - 1], past[j]);
    }
  }

  function OfNoun(m: Live, noun: Noun): Live {
    map id | id in m && id.noun == noun :: m[id]
  }

  /** `inventory`: one query per noun, each seeing the store as it is at that moment. */
  function Inventory(conversations: Live, messages: Live, memory: Live): Live {
    OfNoun(conversations, Conversations) + OfNoun(messages, Messages) + OfNoun(memory, MemoryEntries)
  }

  // One poll of the feed: when, and how many changes at most.
  datatype Poll = Poll(at: nat, limit: nat)

  datatype Mirror = Mirror(live: Live, cursor: nat)

  function Take(m: Mirror, changes: seq<Change>, limit: nat): Mirror {
    var page := ChangesSince(changes, m.cursor, limit);
    Mirror(ApplyAll(m.live, page), m.cursor + |page|)
  }

  ghost predicate InOrder(past: seq<Box>, from: nat, polls: seq<Poll>) {
    && (forall k :: 0 <= k < |polls| ==> from <= polls[k].at < |past|)
    && (forall j, k :: 0 <= j < k < |polls| ==> polls[j].at <= polls[k].at)
  }

  ghost function Follow(past: seq<Box>, m: Mirror, polls: seq<Poll>): Mirror
    requires forall k :: 0 <= k < |polls| ==> polls[k].at < |past|
  {
    if polls == [] then m
    else
      var p := polls[|polls| - 1];
      Take(Follow(past, m, polls[..|polls| - 1]), past[p.at].changes, p.limit)
  }

  /** A page taken from an earlier ledger is the same stretch of every later one. */
  lemma {:induction false} TakeApplies(m: Mirror, f: Mirror, early: seq<Change>, feed: seq<Change>, limit: nat)
    requires early <= feed && m.cursor <= f.cursor <= |early|
    requires f.live == ApplyAll(m.live, feed[m.cursor..f.cursor])
    ensures var g := Take(f, early, limit);
            m.cursor <= g.cursor <= |feed| && g.live == ApplyAll(m.live, feed[m.cursor..g.cursor])
  {
    hide ApplyAll, ChangesSince;
    var page := ChangesSince(early, f.cursor, limit);
    PageIs(early, feed, f.cursor, limit);
    ApplyConcat(m.live, feed[m.cursor..f.cursor], page);
    Stretches(feed, m.cursor, f.cursor, f.cursor + |page|);
  }

  lemma {:induction false} PageIs(early: seq<Change>, feed: seq<Change>, cursor: nat, limit: nat)
    requires early <= feed && cursor <= |early|
    ensures var page := ChangesSince(early, cursor, limit);
            cursor + |page| <= |feed| && page == feed[cursor..cursor + |page|]
  {
  }

  lemma {:induction false} Stretches<T>(s: seq<T>, i: nat, j: nat, k: nat)
    requires i <= j <= k <= |s|
    ensures s[i..j] + s[j..k] == s[i..k]
  {
  }

  lemma {:induction false} SlicesAgree<T>(a: seq<T>, b: seq<T>, i: nat, j: nat)
    requires a <= b && i <= j <= |a|
    ensures a[i..j] == b[i..j]
  {
  }

  /** However the feed is cut into pages, and however it grows between polls, a mirror has applied
      exactly the changes from where it started to its cursor. */
  lemma {:induction false} FollowApplies(past: seq<Box>, m: Mirror, polls: seq<Poll>, from: nat, t: nat)
    requires Timeline(past) && from <= t < |past| && InOrder(past, from, polls)
    requires forall k :: 0 <= k < |polls| ==> polls[k].at <= t
    requires m.cursor <= |past[from].changes|
    ensures var f := Follow(past, m, polls);
            && m.cursor <= f.cursor <= |past[t].changes|
            && f.live == ApplyAll(m.live, past[t].changes[m.cursor..f.cursor])
    decreases |polls|
  {
    if polls == [] {
      assert Announced(past[from], past[t]);
    } else {
      var front, p := polls[..|polls| - 1], polls[|polls| - 1];
      FollowApplies(past, m, front, from, p.at);
      var f := Follow(past, m, front);
      assert past[p.at].changes <= past[t].changes by { assert Announced(past[p.at], past[t]); }
      SlicesAgree(past[p.at].changes, past[t].changes, m.cursor, f.cursor);
      hide Timeline, InOrder, ApplyAll;
      TakeApplies(m, f, past[p.at].changes, past[t].changes, p.limit);
    }
  }

  /** Read the head at moment `h`, the three nouns at moments `a`, `b`, `c` not before it, then follow
      the feed from that head with any polls at all. Whenever the cursor has reached the end of the
      ledger, the mirror holds exactly what the store holds: same ids, same versions, nothing that
      was deleted. */
  lemma {:induction false} MirrorConverges(past: seq<Box>, h: nat, a: nat, b: nat, c: nat,
                                           polls: seq<Poll>, t: nat)
    requires Timeline(past) && h <= a <= t && h <= b <= t && h <= c <= t && t < |past|
    requires InOrder(past, h, polls) && forall k :: 0 <= k < |polls| ==> polls[k].at <= t
    requires var m := Mirror(Inventory(past[a].live, past[b].live, past[c].live), LedgerHead(past[h].changes));
             Follow(past, m, polls).cursor == LedgerHead(past[t].changes)
    ensures var m := Mirror(Inventory(past[a].live, past[b].live, past[c].live), LedgerHead(past[h].changes));
            Follow(past, m, polls).live == past[t].live
  {
    hide Inventory, Timeline, InOrder, Announced, Follow, ApplyAll, SameEntry;
    var start := Inventory(past[a].live, past[b].live, past[c].live);
    var m := Mirror(start, LedgerHead(past[h].changes));
    FollowApplies(past, m, polls, h, t);
    var cs := past[t].changes[m.cursor..];
    assert past[t].changes[m.cursor..|past[t].changes|] == cs;
    forall id: Id ensures SameEntry(ApplyAll(start, cs), past[t].live, id) {
      var r := match id.noun case Conversations => a case Messages => b case MemoryEntries => c;
      InventoryReads(past[a].live, past[b].live, past[c].live, id);
      ReadLaterIsFine(past, h, r, t, start, id);
    }
    SameMaps(ApplyAll(start, cs), past[t].live);
  }

  lemma {:induction false} InventoryReads(conversations: Live, messages: Live, memory: Live, id: Id)
    ensures SameEntry(Inventory(conversations, messages, memory),
                      match id.noun case Conversations => conversations case Messages => messages case MemoryEntries => memory,
                      id)
  {
  }

  ghost predicate SameEntry(m: Live, n: Live, id: Id) {
    (id in m <==> id in n) && (id in m ==> m[id] == n[id])
  }

  lemma {:induction false} SameMaps(m: Live, n: Live)
    requires forall id :: SameEntry(m, n, id)
    ensures m == n
  {
    forall id ensures (id in m <==> id in n) && (id in m ==> m[id] == n[id]) {
      assert SameEntry(m, n, id);
    }
  }

  /** An entry read at moment `r` and brought forward with the changes since `h <= r` is right at `t`. */
  lemma {:induction false} ReadLaterIsFine(past: seq<Box>, h: nat, r: nat, t: nat, start: Live, id: Id)
    requires Timeline(past) && h <= r <= t < |past|
    requires SameEntry(start, past[r].live, id)
    ensures |past[h].changes| <= |past[t].changes|
    ensures SameEntry(ApplyAll(start, past[t].changes[|past[h].changes|..]), past[t].live, id)
  {
    assert Announced(past[h], past[t]) && Announced(past[h], past[r]) && Announced(past[r], past[t]);
    var cs := past[t].changes[|past[h].changes|..];
    var early := past[r].changes[|past[h].changes|..];
    LastWriteWins(start, past[h].live, cs, id);
    LastWriteWins(past[h].live, start, cs, id);
    if !Mentions(cs, id) {
      forall k | 0 <= k < |early| ensures early[k].id != id {
        assert cs[k] == early[k];
      }
      LastWriteWins(past[h].live, start, early, id);
    }
  }

  lemma {:induction false} PageExtends(changes: seq<Change>, from: nat, cursor: nat, limit: nat)
    requires from <= cursor <= |changes|
    ensures var page := ChangesSince(changes, cursor, limit);
            cursor + |page| <= |changes| && changes[from..cursor + |page|] == changes[from..cursor] + page
  {
  }

  /** Polling with a limit of at least one, once writers pause, reaches the end of the ledger. */
  method CatchUp(changes: seq<Change>, mirror: Mirror, limit: nat) returns (caught: Mirror)
    requires limit >= 1 && mirror.cursor <= |changes|
    ensures caught.cursor == LedgerHead(changes)
    ensures caught.live == ApplyAll(mirror.live, changes[mirror.cursor..])
  {
    caught := mirror;
    assert changes[mirror.cursor..mirror.cursor] == [];
    var page := ChangesSince(changes, caught.cursor, limit);
    while page != []
      invariant mirror.cursor <= caught.cursor <= |changes|
      invariant caught.live == ApplyAll(mirror.live, changes[mirror.cursor..caught.cursor])
      invariant page == ChangesSince(changes, caught.cursor, limit)
      decreases |changes| - caught.cursor
    {
      var next := caught.cursor + |page|;
      hide ApplyAll, ChangesSince;
      PageExtends(changes, mirror.cursor, caught.cursor, limit);
      ApplyConcat(mirror.live, changes[mirror.cursor..caught.cursor], page);
      caught := Mirror(ApplyAll(caught.live, page), next);
      page := ChangesSince(changes, caught.cursor, limit);
    }
    assert changes[mirror.cursor..caught.cursor] == changes[mirror.cursor..];
  }
}
