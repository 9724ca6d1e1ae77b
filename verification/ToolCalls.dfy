/** Giving every tool call of one reply its own id, and dropping repeated calls (conversation.py,
    `uniquify_tool_call_ids` and `_deduplicate_tool_calls`). */
module ToolCalls {
  import Decimal
  import opened Sets
  import opened Transcript

  function Suffixed(id: CallId, n: nat): CallId {
    id + "_d" + Decimal.Show(n)
  }

  lemma {:induction false} SuffixedInjective(id: CallId, m: nat, n: nat)
    requires Suffixed(id, m) == Suffixed(id, n)
    ensures m == n
  {
    var k := |id| + 2;
    assert Suffixed(id, m)[k..] == Decimal.Show(m);
    assert Suffixed(id, n)[k..] == Decimal.Show(n);
    Decimal.ShowInjective(m, n);
  }

  /** The id a call gets once the ids in `taken` are gone: its own if free, otherwise the first free
      suffixed one, counting from 2. */
  ghost predicate IsFreshId(wanted: CallId, taken: set<CallId>, id: CallId) {
    if wanted !in taken then id == wanted
    else id !in taken && exists n: nat :: FirstFree(wanted, taken, n) && id == Suffixed(wanted, n)
  }

  ghost predicate FirstFree(wanted: CallId, taken: set<CallId>, n: nat) {
    2 <= n && Suffixed(wanted, n) !in taken && forall k: nat :: 2 <= k < n ==> Suffixed(wanted, k) in taken
  }

  /** `out` is `calls` with ids made unique, first come first served. */
  ghost predicate Uniquified(calls: seq<ToolCall>, out: seq<ToolCall>) {
    && |out| == |calls|
    && (forall i :: 0 <= i < |calls| ==> out[i] == calls[i].(id := out[i].id))
    && (forall i :: 0 <= i < |calls| ==> IsFreshId(calls[i].id, Declared(out[..i]), out[i].id))
  }

  /** The search for a free suffix stops: each number tried and rejected used up a different taken
      id, so there are never more rejections than taken ids. */
  method FreeSuffix(id: CallId, seen: set<CallId>) returns (n: nat)
    ensures FirstFree(id, seen, n)
  {
    n := 2;
    ghost var tried: set<CallId> := {};
    while Suffixed(id, n) in seen
      invariant 2 <= n
      invariant forall k: nat :: 2 <= k < n ==> Suffixed(id, k) in tried
      invariant forall t :: t in tried ==> exists k: nat :: 2 <= k < n && t == Suffixed(id, k)
      invariant tried <= seen && |tried| == n - 2
      decreases |seen| - |tried|
    {
      ghost var next := Suffixed(id, n);
      if next in tried {
        var k: nat :| 2 <= k < n && next == Suffixed(id, k);
        SuffixedInjective(id, k, n);
      }
      SubsetSize(tried + {next}, seen);
      tried := tried + {next};
      n := n + 1;
    }
  }

  method Uniquify(calls: seq<ToolCall>) returns (out: seq<ToolCall>)
    ensures Uniquified(calls, out)
  {
    var seen: set<CallId> := {};
    out := [];
    for i := 0 to |calls|
      invariant |out| == i
      invariant seen == Declared(out)
      invariant Uniquified(calls[..i], out)
    {
      var call := calls[i];
      if call.id in seen {
        var n := FreeSuffix(call.id, seen);
        call := call.(id := Suffixed(call.id, n));
      }
      seen := seen + {call.id};
      assert (out + [call])[..i] == out;
      UniquifiedSnoc(calls, i, out, out + [call]);
      out := out + [call];
    }
    assert calls[..|calls|] == calls;
  }

  lemma {:induction false} UniquifiedSnoc(calls: seq<ToolCall>, i: nat, before: seq<ToolCall>, out: seq<ToolCall>)
    requires i < |calls| && Uniquified(calls[..i], before)
    requires |out| == i + 1 && out[..i] == before
    requires out[i] == calls[i].(id := out[i].id) && IsFreshId(calls[i].id, Declared(before), out[i].id)
    ensures Uniquified(calls[..i + 1], out)
    ensures Declared(out) == Declared(before) + {out[i].id}
  {
    assert out == before + [out[i]];
    hide IsFreshId;
    forall k | 0 <= k < i
      ensures IsFreshId(calls[k].id, Declared(out[..k]), out[k].id) && out[k] == calls[k].(id := out[k].id)
    {
      assert out[..k] == before[..k] && calls[..i][k] == calls[k] && before[k] == out[k];
      hide Declared;
      assert IsFreshId(calls[..i][k].id, Declared(before[..k]), before[k].id);
      assert before[k] == calls[..i][k].(id := before[k].id);
    }
  }

  // ----- what unique ids give -------------------------------------------------------------

  lemma {:induction false} FreshIdUnique(wanted: CallId, taken: set<CallId>, a: CallId, b: CallId)
    requires IsFreshId(wanted, taken, a) && IsFreshId(wanted, taken, b)
    ensures a == b
  {
  }

  /** Uniquified calls have pairwise distinct ids. */
  lemma {:induction false} UniquifiedDistinct(calls: seq<ToolCall>, out: seq<ToolCall>)
    requires Uniquified(calls, out)
    ensures DistinctIds(out)
  {
  }

  lemma {:induction false} NextSame(calls: seq<ToolCall>, a: seq<ToolCall>, b: seq<ToolCall>, n: nat)
    requires Uniquified(calls, a) && Uniquified(calls, b) && n < |calls| && a[..n] == b[..n]
    ensures a[n] == b[n]
  {
  }

  lemma {:induction false} SameLength(calls: seq<ToolCall>, out: seq<ToolCall>)
    requires Uniquified(calls, out)
    ensures |out| == |calls|
  {
  }

  /** The rule leaves no choice: there is one way to make a reply's ids unique. */
  lemma {:induction false} UniquifiedDeterministic(calls: seq<ToolCall>, a: seq<ToolCall>, b: seq<ToolCall>, n: nat)
    requires Uniquified(calls, a) && Uniquified(calls, b) && n <= |calls| && n <= |a| && n <= |b|
    ensures a[..n] == b[..n]
    decreases n
  {
    hide *;
    if n == 0 {
    } else {
      UniquifiedDeterministic(calls, a, b, n - 1);
      SameLength(calls, a);
      SameLength(calls, b);
      NextSame(calls, a, b, n - 1);
      TakeOneMore(a, b, n - 1);
    }
  }

  lemma {:induction false} TakeOneMore(a: seq<ToolCall>, b: seq<ToolCall>, n: nat)
    requires n < |a| && n < |b| && a[..n] == b[..n] && a[n] == b[n]
    ensures a[..n + 1] == b[..n + 1]
  {
  }

  /** Calls whose ids are distinct are left as they are, so doing it twice changes nothing. */
  lemma {:induction false} UniquifiedIdentity(calls: seq<ToolCall>, out: seq<ToolCall>)
    requires Uniquified(calls, out)
    ensures DistinctIds(calls) <==> out == calls
  {
    if DistinctIds(calls) {
      forall i | 0 <= i < |calls| ensures IsFreshId(calls[i].id, Declared(calls[..i]), calls[i].id) {
        forall c | c in calls[..i] ensures c.id != calls[i].id {
          var k :| 0 <= k < i && calls[..i][k] == c;
        }
      }
      assert Uniquified(calls, calls);
      UniquifiedDeterministic(calls, out, calls, |calls|);
      assert out[..|calls|] == out && calls[..|calls|] == calls;
    } else {
      UniquifiedDistinct(calls, out);
    }
  }

  /** Every reply can be made unique, whatever its ids: with `UniquifiedDeterministic`, in one way. */
  lemma {:induction false} UniquifiedExists(calls: seq<ToolCall>) returns (out: seq<ToolCall>)
    ensures Uniquified(calls, out)
    decreases |calls|
  {
    if calls == [] {
      out := [];
    } else {
      var n := |calls| - 1;
      var front := UniquifiedExists(calls[..n]);
      var id := calls[n].id;
      if id in Declared(front) {
        var k := FreeSuffixExists(id, Declared(front), 2, {});
        id := Suffixed(id, k);
      }
      out := front + [calls[n].(id := id)];
      assert out[..n] == front && calls[..n + 1] == calls;
      UniquifiedSnoc(calls, n, front, out);
    }
  }

  lemma {:induction false} FreeSuffixExists(id: CallId, taken: set<CallId>, n: nat, tried: set<CallId>) returns (free: nat)
    requires 2 <= n && tried <= taken && |tried| == n - 2
    requires forall k: nat :: 2 <= k < n ==> Suffixed(id, k) in tried
    requires forall t :: t in tried ==> exists k: nat :: 2 <= k < n && t == Suffixed(id, k)
    ensures FirstFree(id, taken, free)
    decreases |taken| - |tried|
  {
    var next := Suffixed(id, n);
    if next !in taken {
      free := n;
    } else {
      if next in tried {
        var k: nat :| 2 <= k < n && next == Suffixed(id, k);
        SuffixedInjective(id, k, n);
      }
      SubsetSize(tried + {next}, taken);
      free := FreeSuffixExists(id, taken, n + 1, tried + {next});
    }
  }

  /** A call keeps the id it came with exactly when no earlier result took that id. */
  lemma {:induction false} KeepsIdExact(calls: seq<ToolCall>, out: seq<ToolCall>, i: nat)
    requires Uniquified(calls, out) && i < |calls|
    ensures out[i].id == calls[i].id <==> calls[i].id !in Declared(out[..i])
  {
  }

  // ----- does the first call to carry an id keep it? ---------------------------------------

  predicate FirstCarrier(calls: seq<ToolCall>, i: nat)
    requires i < |calls|
  {
    forall j :: 0 <= j < i ==> calls[j].id != calls[i].id
  }

  ghost predicate FirstCarriersKeep(calls: seq<ToolCall>, out: seq<ToolCall>) {
    |out| == |calls| && forall i :: 0 <= i < |calls| && FirstCarrier(calls, i) ==> out[i].id == calls[i].id
  }

  /** One id reads like another with a suffix the search could give. */
  ghost predicate Clash(a: CallId, b: CallId) {
    exists n: nat :: n >= 2 && b == Suffixed(a, n)
  }

  /** A first carrier keeps its id unless an earlier call's id, suffixed, reads the same. */
  lemma {:induction false} UnclashedKeeps(calls: seq<ToolCall>, out: seq<ToolCall>, i: nat)
    requires Uniquified(calls, out) && i < |calls| && FirstCarrier(calls, i)
    requires forall j :: 0 <= j < i ==> !Clash(calls[j].id, calls[i].id)
    ensures out[i].id == calls[i].id
  {
    forall j | 0 <= j < i ensures out[j].id != calls[i].id {
      assert IsFreshId(calls[j].id, Declared(out[..j]), out[j].id);
      if calls[j].id in Declared(out[..j]) {
        var n: nat :| FirstFree(calls[j].id, Declared(out[..j]), n) && out[j].id == Suffixed(calls[j].id, n);
        assert !Clash(calls[j].id, calls[i].id);
      }
    }
    forall c | c in out[..i] ensures c.id != calls[i].id {
      var j :| 0 <= j < i && out[..i][j] == c;
    }
    assert IsFreshId(calls[i].id, Declared(out[..i]), out[i].id);
  }

  function CallWith(id: CallId): ToolCall {
    ToolCall(id, "", "")
  }

  /** The same call n times over. */
  function Repeated(id: CallId, n: nat): seq<ToolCall> {
    seq(n, _ => CallWith(id))
  }

  /** Calls that all carry one id get it, and then its suffixes from 2 on. */
  lemma {:induction false} RepeatedIds(a: CallId, n: nat, calls: seq<ToolCall>, out: seq<ToolCall>, k: nat)
    requires n <= |calls| && Uniquified(calls, out) && calls[..n] == Repeated(a, n) && k <= n
    ensures |out| == |calls|
    ensures forall j :: 0 <= j < k ==> out[j].id == if j == 0 then a else Suffixed(a, j + 1)
    decreases k
  {
    if k == 0 {
    } else {
      RepeatedIds(a, n, calls, out, k - 1);
      var taken := Declared(out[..k - 1]);
      assert calls[k - 1] == calls[..n][k - 1] && calls[k - 1].id == a;
      assert IsFreshId(a, taken, out[k - 1].id);
      if k > 1 {
        assert out[..k - 1][0].id == a && a in taken;
        var m: nat :| FirstFree(a, taken, m) && out[k - 1].id == Suffixed(a, m);
        forall j: nat | 2 <= j < k ensures Suffixed(a, j) in taken {
          assert out[..k - 1][j - 1].id == Suffixed(a, j);
        }
        SuffixFree(a, out[..k - 1], k);
        assert m == k;
      }
    }
  }

  lemma {:induction false} SuffixFree(a: CallId, before: seq<ToolCall>, k: nat)
    requires |before| == k - 1 && k >= 2
    requires forall j :: 0 <= j < k - 1 ==> before[j].id == if j == 0 then a else Suffixed(a, j + 1)
    ensures Suffixed(a, k) !in Declared(before)
  {
    forall c | c in before ensures c.id != Suffixed(a, k) {
      var j :| 0 <= j < |before| && before[j] == c;
      if j > 0 && c.id == Suffixed(a, k) {
        SuffixedInjective(a, j + 1, k);
      }
    }
  }

  /** The reply that breaks a clash: `a` as often as the suffix says, then the id that reads like it. */
  function ClashingReply(a: CallId, n: nat, b: CallId): seq<ToolCall> {
    Repeated(a, n) + [CallWith(b)]
  }

  lemma {:induction false} ClashBreaks(a: CallId, n: nat, out: seq<ToolCall>)
    requires n >= 2 && Uniquified(ClashingReply(a, n, Suffixed(a, n)), out)
    ensures !FirstCarriersKeep(ClashingReply(a, n, Suffixed(a, n)), out)
  {
    var b := Suffixed(a, n);
    var calls := ClashingReply(a, n, b);
    assert calls[..n] == Repeated(a, n) && calls[n] == CallWith(b);
    RepeatedIds(a, n, calls, out, n);
    assert out[..n][n - 1].id == b;
    KeepsIdExact(calls, out, n);
    assert |b| > |a|;
    assert FirstCarrier(calls, n);
  }

  /** The first call to carry an id keeps it, in every reply whose ids come from `ids`, if and only if
      no id among them reads like another one with a suffix. */
  lemma {:induction false} FirstCarriersKeepExact(ids: set<CallId>)
    ensures (forall calls, out :: Uniquified(calls, out) && Declared(calls) <= ids ==> FirstCarriersKeep(calls, out))
            <==> forall a, b :: a in ids && b in ids ==> !Clash(a, b)
  {
    if forall a, b :: a in ids && b in ids ==> !Clash(a, b) {
      forall calls, out | Uniquified(calls, out) && Declared(calls) <= ids ensures FirstCarriersKeep(calls, out) {
        UnclashedKeepAll(ids, calls, out);
      }
    } else {
      var a, b :| a in ids && b in ids && Clash(a, b);
      var n: nat :| n >= 2 && b == Suffixed(a, n);
      var calls := ClashingReply(a, n, b);
      var out := UniquifiedExists(calls);
      ClashBreaks(a, n, out);
      assert Declared(calls) <= ids by {
        forall c | c in calls ensures c.id in ids { }
      }
    }
  }

  lemma {:induction false} UnclashedKeepAll(ids: set<CallId>, calls: seq<ToolCall>, out: seq<ToolCall>)
    requires forall a, b :: a in ids && b in ids ==> !Clash(a, b)
    requires Uniquified(calls, out) && Declared(calls) <= ids
    ensures FirstCarriersKeep(calls, out)
  {
    forall i | 0 <= i < |calls| && FirstCarrier(calls, i) ensures out[i].id == calls[i].id {
      forall j | 0 <= j <= i ensures calls[j].id in ids {
        assert calls[j] in calls && calls[j].id in Declared(calls);
      }
      hide Clash, IsFreshId;
      UnclashedKeeps(calls, out, i);
    }
  }

  /** The smallest such reply. */
  lemma {:induction false} FirstCarrierMayLoseItsId(x: ToolCall, y: ToolCall, out: seq<ToolCall>)
    requires x.id == "a" && y.id == "a_d2"
    requires Uniquified([x, x, y], out)
    ensures out[1].id == "a_d2" && out[2].id == "a_d2_d2"
  {
    var calls := [x, x, y];
    assert Decimal.Show(2) == "2";
    assert Suffixed("a", 2) == "a_d2" && Suffixed("a_d2", 2) == "a_d2_d2";
    assert IsFreshId("a", Declared(out[..0]), out[0].id);
    assert out[..1] == [out[0]] && out[..2] == [out[0], out[1]];
    assert Declared(out[..1]) == {"a"};
    assert FirstFree("a", {"a"}, 2);
    assert IsFreshId("a", {"a"}, "a_d2");
    FreshIdUnique("a", {"a"}, out[1].id, "a_d2");
    assert Declared(out[..2]) == {"a", "a_d2"};
    assert FirstFree("a_d2", {"a", "a_d2"}, 2);
    assert IsFreshId("a_d2", {"a", "a_d2"}, "a_d2_d2");
    FreshIdUnique("a_d2", {"a", "a_d2"}, out[2].id, "a_d2_d2");
  }

  // ----- dropping repeated calls ----------------------------------------------------------

  type CallKey = (string, string)

  function Key(call: ToolCall): CallKey {
    (call.name, call.arguments)
  }

  ghost predicate Mentions(calls: seq<ToolCall>, key: CallKey) {
    exists c :: c in calls && Key(c) == key
  }

  /** The calls whose name and arguments no earlier call has, in order. */
  function FirstOfEach(calls: seq<ToolCall>): seq<ToolCall> {
    if calls == [] then []
    else
      var last := calls[|calls| - 1];
      var front := calls[..|calls| - 1];
      if exists c :: c in front && Key(c) == Key(last) then FirstOfEach(front)
      else FirstOfEach(front) + [last]
  }

  method Deduplicate(calls: seq<ToolCall>) returns (unique: seq<ToolCall>)
    ensures unique == FirstOfEach(calls)
  {
    var seen: set<CallKey> := {};
    unique := [];
    for i := 0 to |calls|
      invariant unique == FirstOfEach(calls[..i])
      invariant seen == set c | c in calls[..i] :: Key(c)
    {
      assert calls[..i + 1] == calls[..i] + [calls[i]];
      assert calls[..i + 1][..i] == calls[..i];
      if Key(calls[i]) !in seen {
        seen := seen + {Key(calls[i])};
        unique := unique + [calls[i]];
      }
    }
    assert calls[..|calls|] == calls;
  }

  lemma {:induction false} FirstOfEachIsPart(calls: seq<ToolCall>)
    ensures forall c :: c in FirstOfEach(calls) ==> c in calls
    ensures calls != [] ==> FirstOfEach(calls) != [] && FirstOfEach(calls)[0] == calls[0]
    decreases |calls|
  {
    if calls == [] {
    } else {
      assert calls == calls[..|calls| - 1] + [calls[|calls| - 1]];
      FirstOfEachIsPart(calls[..|calls| - 1]);
    }
  }

  lemma {:induction false} FirstOfEachCovers(calls: seq<ToolCall>)
    ensures forall c :: c in calls ==> Mentions(FirstOfEach(calls), Key(c))
    decreases |calls|
  {
    if calls == [] {
    } else {
      var front, last := calls[..|calls| - 1], calls[|calls| - 1];
      FirstOfEachCovers(front);
      forall c | c in calls ensures Mentions(FirstOfEach(calls), Key(c)) {
        assert c in front || c == last;
        if d :| d in front && Key(d) == Key(c) {
          var e :| e in FirstOfEach(front) && Key(e) == Key(d);
          assert e in FirstOfEach(calls);
        } else {
          assert last in FirstOfEach(calls);
        }
      }
    }
  }

  lemma {:induction false} FirstOfEachDistinct(calls: seq<ToolCall>)
    ensures forall i, j :: 0 <= i < j < |FirstOfEach(calls)| ==>
              Key(FirstOfEach(calls)[i]) != Key(FirstOfEach(calls)[j])
    ensures DistinctIds(calls) ==> DistinctIds(FirstOfEach(calls))
    decreases |calls|
  {
    if calls == [] {
    } else {
      var front, last := calls[..|calls| - 1], calls[|calls| - 1];
      FirstOfEachDistinct(front);
      FirstOfEachIsPart(front);
      var out := FirstOfEach(front);
      forall i | 0 <= i < |out| ensures DistinctIds(calls) ==> out[i].id != last.id {
        assert out[i] in front;
        var k :| 0 <= k < |front| && front[k] == out[i];
        assert calls[k] == front[k];
      }
      forall i | 0 <= i < |out| ensures out[i] in front {
        assert out[i] in out;
      }
    }
  }

  /** Every distinct request survives, once, with the id of its first occurrence; nothing is made
      up, and a reply that asked for something still asks for something. */
  lemma {:induction false} FirstOfEachFacts(calls: seq<ToolCall>)
    ensures forall c :: c in FirstOfEach(calls) ==> c in calls
    ensures forall c :: c in calls ==> Mentions(FirstOfEach(calls), Key(c))
    ensures forall i, j :: 0 <= i < j < |FirstOfEach(calls)| ==>
              Key(FirstOfEach(calls)[i]) != Key(FirstOfEach(calls)[j])
    ensures DistinctIds(calls) ==> DistinctIds(FirstOfEach(calls))
    ensures calls != [] ==> FirstOfEach(calls) != [] && FirstOfEach(calls)[0] == calls[0]
  {
    FirstOfEachIsPart(calls);
    FirstOfEachCovers(calls);
    FirstOfEachDistinct(calls);
  }
}
