/** Shortening a history without splitting a tool round (conversation.py, `find_compaction_boundary`
    and `compact`). */
module Compaction {
  import opened Arithmetic
  import opened Options
  import opened Transcript

  /** A cut that leaves no tool row at the head of what is kept. */
  predicate SafeCut(h: History, k: int) {
    k == 0 || k >= |h| || (0 < k && !h[k].role.Tool?)
  }

  /** The latest safe cut at or before `len - keep`; a negative `keep` asks for a cut past the end
      and gets it. */
  ghost predicate IsBoundary(h: History, keep: int, k: int) {
    && 0 <= k <= Max(0, |h| - keep)
    && SafeCut(h, k)
    && (forall j :: k < j <= Max(0, |h| - keep) ==> !SafeCut(h, j))
  }

  method FindCompactionBoundary(h: History, keep: int) returns (index: nat)
    ensures IsBoundary(h, keep, index)
  {
    index := Max(0, |h| - keep);
    while 0 < index < |h| && h[index].role.Tool?
      invariant index <= Max(0, |h| - keep)
      invariant forall j :: index < j <= Max(0, |h| - keep) ==> !SafeCut(h, j)
      decreases index
    {
      index := index - 1;
    }
  }

  function Tail(h: History, from: nat): History {
    if from <= |h| then h[from..] else []
  }

  function SummaryMessage(text: string): Message {
    Message(User, Some(text), [], None, true)
  }

  function Compact(h: History, tailStart: nat, text: string): History {
    [SummaryMessage(text)] + Tail(h, tailStart)
  }

  // ----- a cut is safe exactly when the rounds survive it ---------------------------------

  /** The rounds of the tail are the rounds of the history, from a cut that heads no answer. */
  lemma {:induction false} TailKeepsRounds(h: History, k: nat, n: nat, s: Message)
    requires Paired(h) && k <= n <= |h| && SafeCut(h, k)
    requires s.role.User?
    ensures Paired([s] + h[k..n])
    ensures Pending([s] + h[k..n]) == if k == n then {} else Pending(h[..n])
    decreases n
  {
    var g := [s] + h[k..n];
    if k == n {
      assert g == [s];
      assert g[..0] == [];
      assert LastAsk(g) == -1;
    } else {
      var p := [s] + h[k..n - 1];
      var m := h[n - 1];
      TailKeepsRounds(h, k, n - 1, s);
      assert g == p + [m];
      assert h[..n] == h[..n - 1] + [m];
      assert h == h[..n] + h[n..];
      PairedPrefixOf(h, n);
      PairedPrefix(h[..n - 1], m);
      PairedMeansAccepted(h[..n - 1], m);
      PendingSnoc(p, m);
      PendingSnoc(h[..n - 1], m);
      if k == n - 1 {
        EmptyTailCut(h, k);
      }
      AcceptedKeepsPaired(p, m);
    }
  }

  lemma {:induction false} PairedPrefixOf(h: History, n: nat)
    requires Paired(h) && n <= |h|
    ensures Paired(h[..n])
    decreases |h|
  {
    if n < |h| {
      var last := |h| - 1;
      assert h == h[..last] + [h[last]];
      PairedPrefix(h[..last], h[last]);
      PairedPrefixOf(h[..last], n);
      assert h[..last][..n] == h[..n];
    } else {
      assert h[..n] == h;
    }
  }

  /** A safe cut in front of a row is a place where nothing is pending. */
  lemma {:induction false} EmptyTailCut(h: History, k: nat)
    requires Paired(h) && k < |h| && SafeCut(h, k)
    ensures Pending(h[..k]) == {} && !h[k].role.Tool?
  {
    assert h[..k + 1] == h[..k] + [h[k]];
    PairedPrefixOf(h, k + 1);
    PairedPrefixOf(h, k);
    PairedMeansAccepted(h[..k], h[k]);
    if k == 0 {
      assert h[..k] == [];
    }
  }

  /** A compacted history is paired exactly when the cut was safe. */
  lemma {:induction false} CompactExact(h: History, k: nat, text: string)
    requires Paired(h)
    ensures Paired(Compact(h, k, text)) <==> SafeCut(h, k)
  {
    var s := SummaryMessage(text);
    if k >= |h| {
      assert Tail(h, k) == h[|h|..];
      TailKeepsRounds(h, |h|, |h|, s);
    } else if SafeCut(h, k) {
      TailKeepsRounds(h, k, |h|, s);
      assert h[k..|h|] == h[k..];
    } else {
      var g := Compact(h, k, text);
      assert g[1] == h[k] && g[0] == s;
      assert forall c :: !Answers(g, c, 1);
    }
  }

  /** Compacting at the boundary keeps at least `min(keep, len)` messages word for word, is again
      well formed, and for a `keep` of at least one leaves the same calls waiting. */
  lemma {:induction false} CompactAtBoundary(h: History, keep: int, k: nat, text: string)
    requires WellFormed(h) && IsBoundary(h, keep, k)
    ensures WellFormed(Compact(h, k, text))
    ensures Compact(h, k, text)[0] == SummaryMessage(text)
    ensures Min(keep, |h|) <= |Compact(h, k, text)| - 1 <= |h|
    ensures h[..Min(k, |h|)] + Compact(h, k, text)[1..] == h
    ensures keep >= 1 && h != [] ==> Pending(Compact(h, k, text)) == Pending(h)
    ensures Pending(h) == {} ==> Pending(Compact(h, k, text)) == {}
  {
    hide Paired, Pending;
    CompactExact(h, k, text);
    CompactPending(h, k, text);
  }

  /** What is pending after a safe cut: what was pending before, unless nothing is kept. */
  lemma {:induction false} CompactPending(h: History, k: nat, text: string)
    requires Paired(h) && SafeCut(h, k)
    ensures Pending(Compact(h, k, text)) == if k < |h| then Pending(h) else {}
  {
    hide Paired, Pending;
    var s := SummaryMessage(text);
    if k < |h| {
      TailKeepsRounds(h, k, |h|, s);
      assert h[k..|h|] == h[k..] && h[..|h|] == h;
    } else {
      assert Tail(h, k) == h[|h|..];
      TailKeepsRounds(h, |h|, |h|, s);
      assert Compact(h, k, text) == [s] + h[|h|..|h|];
    }
  }
}
