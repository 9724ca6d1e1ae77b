/** Searching and splitting text, as Python's `partition`, `split` and `join` do. */
module Text {
  const HEX_DIGITS := "0123456789abcdef"

  /** Where the first `c` is, or the length when there is none. */
  function Find(s: string, c: char): (k: nat)
    ensures k <= |s| && (k < |s| ==> s[k] == c && c in s) && c !in s[..k]
  {
    if s == [] || s[0] == c then 0
    else
      var k := Find(s[1..], c) + 1;
      assert s[..k] == [s[0]] + s[1..][..k - 1];
      k
  }

  function Before(s: string, c: char): string {
    s[..Find(s, c)]
  }

  /** What follows the first `c`; nothing when there is none. */
  function Behind(s: string, c: char): string {
    if Find(s, c) == |s| then "" else s[Find(s, c) + 1..]
  }

  function Split(s: string, c: char): (pieces: seq<string>)
    ensures pieces != []
    decreases |s|
  {
    if Find(s, c) == |s| then [s] else [Before(s, c)] + Split(Behind(s, c), c)
  }

  function Join(pieces: seq<string>, separator: string): string {
    if pieces == [] then ""
    else if |pieces| == 1 then pieces[0]
    else pieces[0] + separator + Join(pieces[1..], separator)
  }

  lemma {:induction false} FindAfter(head: string, c: char, tail: string)
    requires c !in head
    ensures Find(head + [c] + tail, c) == |head|
  {
    if head == [] {
    } else {
      FindAfter(head[1..], c, tail);
      assert (head + [c] + tail)[1..] == head[1..] + [c] + tail;
    }
  }

  /** Splitting undoes joining when no piece holds the separator. */
  lemma {:induction false} SplitJoin(pieces: seq<string>, c: char)
    requires pieces != [] && forall p :: p in pieces ==> c !in p
    ensures Split(Join(pieces, [c]), c) == pieces
  {
    var s := Join(pieces, [c]);
    if |pieces| == 1 {
      assert Find(s, c) == |s|;
    } else {
      var rest := Join(pieces[1..], [c]);
      FindAfter(pieces[0], c, rest);
      assert s[|pieces[0]| + 1..] == rest && s[..|pieces[0]|] == pieces[0];
      SplitJoin(pieces[1..], c);
    }
  }
}
