/**
  Identities that sort by when they were made (ids.py): UUIDs of version 7 (section 5.7 of RFC 9562)
  with a counter beside the clock (section 6.2, method 1), under a clock that may go backwards.
 */
module Ids {
  import opened Arithmetic
  import opened Options
  import opened Text

  const PREFIXES: set<string> := {
    "hrn", "conv", "msg", "run", "trc", "spn", "appr", "sch", "agt", "tmpl", "mem", "rub", "art", "plg",
    "wfl", "node", "tool", "prv", "bdg", "intg", "sec", "op", "insp"
  }

  const COUNTER_MAX := 4095

  const MS_LIMIT := 0x1_0000_0000_0000    // 48 bits

  // ----- the clock and the counter ---------------------------------------------------------------

  datatype Tick = Tick(ms: int, counter: int)

  const NEVER := Tick(-1, 0)

  function Advance(last: Tick, now: int): Tick {
    if now > last.ms then Tick(now, 0)
    else if last.counter >= COUNTER_MAX then Tick(last.ms + 1, 0)
    else Tick(last.ms, last.counter + 1)
  }

  predicate Fits(t: Tick) {
    0 <= t.counter <= COUNTER_MAX
  }

  /** Position in the order of all ticks. */
  function Rank(t: Tick): int {
    t.ms * (COUNTER_MAX + 1) + t.counter
  }

  /** An advance takes the very next tick, or the first of the clock's millisecond if that is later. */
  lemma {:induction false} AdvanceExact(last: Tick, now: int)
    requires Fits(last)
    ensures Fits(Advance(last, now))
    ensures Rank(Advance(last, now)) == if now * (COUNTER_MAX + 1) > Rank(last) then now * (COUNTER_MAX + 1) else Rank(last) + 1
  {
  }

  /** Where a process stands after minting once at each reading of its clock. */
  function After(readings: seq<int>): (t: Tick)
    ensures Fits(t)
  {
    if readings == [] then NEVER
    else Advance(After(readings[..|readings| - 1]), readings[|readings| - 1])
  }

  /** The whole run in closed form: the last tick is the furthest that any reading, counted on by one
      for each mint after it, gets to. Backward readings cannot pull it back. */
  lemma {:induction false} RunExact(readings: seq<int>)
    requires readings != [] && forall i :: 0 <= i < |readings| ==> readings[i] >= 0
    ensures forall i :: 0 <= i < |readings| ==> ReachedBy(readings, i) <= Rank(After(readings))
    ensures exists i :: 0 <= i < |readings| && ReachedBy(readings, i) == Rank(After(readings))
    decreases |readings|
  {
    var n := |readings|;
    var front, now := readings[..n - 1], readings[n - 1];
    AdvanceExact(After(front), now);
    if front == [] {
      assert ReachedBy(readings, 0) == Rank(After(readings));
    } else {
      RunExact(front);
      forall i | 0 <= i < n - 1 ensures ReachedBy(readings, i) == ReachedBy(front, i) + 1 {
      }
      assert ReachedBy(readings, n - 1) == now * (COUNTER_MAX + 1);
      if now * (COUNTER_MAX + 1) <= Rank(After(front)) {
        var i :| 0 <= i < n - 1 && ReachedBy(front, i) == Rank(After(front));
        assert ReachedBy(readings, i) == Rank(After(readings));
      }
    }
  }

  function ReachedBy(readings: seq<int>, i: nat): int
    requires i < |readings|
  {
    readings[i] * (COUNTER_MAX + 1) + (|readings| - 1 - i)
  }

  /** After n mints the stored millisecond is at most (n - 1) / 4096 ahead of the largest reading. */
  lemma {:induction false} AheadBound(readings: seq<int>, latest: int)
    requires readings != [] && forall i :: 0 <= i < |readings| ==> 0 <= readings[i] <= latest
    ensures 0 <= After(readings).ms <= latest + (|readings| - 1) / (COUNTER_MAX + 1)
  {
    RunExact(readings);
    var i :| 0 <= i < |readings| && ReachedBy(readings, i) == Rank(After(readings));
    assert ReachedBy(readings, 0) <= Rank(After(readings));
  }

  /** A later mint stands strictly later, whatever the clock did in between. */
  lemma {:induction false} RunIncreases(readings: seq<int>, i: nat, j: nat)
    requires i < j <= |readings|
    ensures Rank(After(readings[..i])) < Rank(After(readings[..j]))
    decreases j
  {
    assert readings[..j][..j - 1] == readings[..j - 1];
    AdvanceExact(After(readings[..j - 1]), readings[j - 1]);
    if i >= j - 1 {
    } else {
      RunIncreases(readings, i, j - 1);
    }
  }

  // ----- bits ------------------------------------------------------------------------------------

  function Pow2(k: nat): (p: nat)
    ensures p >= 1
  {
    if k == 0 then 1 else 2 * Pow2(k - 1)
  }

  function Or(a: nat, b: nat): nat {
    if a == 0 then b else if b == 0 then a
    else 2 * Or(a / 2, b / 2) + (if a % 2 == 1 || b % 2 == 1 then 1 else 0)
  }

  function And(a: nat, b: nat): nat {
    if a == 0 || b == 0 then 0
    else 2 * And(a / 2, b / 2) + (if a % 2 == 1 && b % 2 == 1 then 1 else 0)
  }

  lemma {:induction false} OrDisjoint(high: nat, k: nat, low: nat)
    requires low < Pow2(k)
    ensures high * Pow2(k) >= 0 && Or(high * Pow2(k), low) == high * Pow2(k) + low
    decreases k
  {
    if k == 0 {
    } else {
      var half := high * Pow2(k - 1);
      assert high * Pow2(k) == 2 * half;
      OrDisjoint(high, k - 1, low / 2);
    }
  }

  lemma {:induction false} AndMask(a: nat, k: nat)
    ensures And(a, Pow2(k) - 1) == a % Pow2(k)
    decreases k
  {
    if k == 0 {
    } else {
      AndMask(a / 2, k - 1);
      ModDouble(a, Pow2(k - 1));
    }
  }

  lemma {:induction false} ModDouble(a: nat, m: nat)
    requires m >= 1
    ensures a % (2 * m) == 2 * ((a / 2) % m) + a % 2
  {
    var q, r := (a / 2) / m, (a / 2) % m;
    assert a / 2 == q * m + r;
    assert a == q * (2 * m) + (2 * r + a % 2);
    Quotient(a, 2 * m, q, 2 * r + a % 2);
  }

  // where each field starts, counted from the least significant bit
  const VARIANT_SHIFT := 62
  const COUNTER_SHIFT := 64
  const VERSION_SHIFT := 76
  const TIME_SHIFT := 80

  lemma {:induction false} Pow2Sum(j: nat, k: nat)
    ensures Pow2(j + k) == Pow2(j) * Pow2(k)
  {
    if k == 0 {
    } else {
      Pow2Sum(j, k - 1);
    }
  }

  lemma {:induction false} Shifts()
    ensures Pow2(VARIANT_SHIFT) == 0x4000_0000_0000_0000
    ensures Pow2(COUNTER_SHIFT) == 0x1_0000_0000_0000_0000
    ensures Pow2(VERSION_SHIFT) == 0x1000_0000_0000_0000_0000
    ensures Pow2(TIME_SHIFT) == 0x1_0000_0000_0000_0000_0000
  {
    assert Pow2(2) == 4 && Pow2(4) == 16;
    hide Pow2;
    assert Pow2(8) == 256 by { Pow2Sum(4, 4); }
    assert Pow2(12) == 4096 by { Pow2Sum(8, 4); }
    assert Pow2(16) == 0x1_0000 by { Pow2Sum(8, 8); }
    assert Pow2(32) == 0x1_0000_0000 by { Pow2Sum(16, 16); }
    assert Pow2(64) == 0x1_0000_0000_0000_0000 by { Pow2Sum(32, 32); }
    assert Pow2(76) == 0x1000_0000_0000_0000_0000 by { Pow2Sum(64, 12); }
    assert Pow2(80) == 0x1_0000_0000_0000_0000_0000 by { Pow2Sum(64, 16); }
    assert Pow2(62) == 0x4000_0000_0000_0000 by { Pow2Sum(62, 2); }
  }

  /** The 62 low bits of what the system handed over. */
  function RandomBits(random: nat): (r: nat)
    ensures r < 0x4000_0000_0000_0000
  {
    random % 0x4000_0000_0000_0000
  }

  function Shifted(a: nat, k: nat): nat {
    a * Pow2(k)
  }

  /** The number a UUID is, field by field as it is put together. */
  function Uuid7(t: Tick, random: nat): nat
    requires t.ms >= 0 && Fits(t)
  {
    var stamped := Or(Shifted(t.ms, TIME_SHIFT), Shifted(7, VERSION_SHIFT));
    Or(Or(Or(stamped, Shifted(t.counter, COUNTER_SHIFT)), Shifted(2, VARIANT_SHIFT)), And(random, Pow2(VARIANT_SHIFT) - 1))
  }

  /** No field spills into another: 48 bits of time, the version, the counter, the variant, and 62
      random bits, most significant first. */
  lemma {:induction false} Layout(t: Tick, random: nat)
    requires t.ms >= 0 && Fits(t)
    ensures Uuid7(t, random)
            == t.ms * 0x1_0000_0000_0000_0000_0000 + 0x7000_0000_0000_0000_0000 + t.counter * 0x1_0000_0000_0000_0000
               + 0x8000_0000_0000_0000 + RandomBits(random)
  {
    hide Or, And, Pow2;
    Shifts();
    AndMask(random, VARIANT_SHIFT);
    OrDisjoint(t.ms, TIME_SHIFT, Shifted(7, VERSION_SHIFT));
    OrDisjoint(t.ms * 16 + 7, VERSION_SHIFT, Shifted(t.counter, COUNTER_SHIFT));
    OrDisjoint((t.ms * 16 + 7) * 4096 + t.counter, COUNTER_SHIFT, Shifted(2, VARIANT_SHIFT));
    OrDisjoint(((t.ms * 16 + 7) * 4096 + t.counter) * 4 + 2, VARIANT_SHIFT, random % Pow2(VARIANT_SHIFT));
  }

  lemma {:induction false} LaterIsLarger(t: Tick, random: nat, u: Tick, other: nat)
    requires t.ms >= 0 && u.ms >= 0 && Fits(t) && Fits(u) && Rank(t) < Rank(u)
    ensures Uuid7(t, random) < Uuid7(u, other)
  {
    assert t.ms < u.ms || (t.ms == u.ms && t.counter < u.counter);
    hide Uuid7;
    Layout(t, random);
    Layout(u, other);
  }

  // ----- hexadecimal -----------------------------------------------------------------------------

  function Hex(v: nat): (h: string)
    ensures h != []
  {
    if v < 16 then [HEX_DIGITS[v]] else Hex(v / 16) + [HEX_DIGITS[v % 16]]
  }

  function Zeros(n: nat): string {
    seq(n, _ => '0')
  }

  /** At least 32 digits, with leading zeros. */
  function Padded(v: nat): string {
    var h := Hex(v);
    if |h| < 32 then Zeros(32 - |h|) + h else h
  }

  /** Exactly n digits. */
  function Fixed(v: nat, n: nat): (h: string)
    ensures |h| == n
  {
    if n == 0 then [] else Fixed(v / 16, n - 1) + [HEX_DIGITS[v % 16]]
  }

  function Pow16(n: nat): (p: nat)
    ensures p >= 1
  {
    if n == 0 then 1 else 16 * Pow16(n - 1)
  }

  lemma {:induction false} FixedZero(n: nat)
    ensures Fixed(0, n) == Zeros(n)
  {
    if n == 0 {
    } else {
      FixedZero(n - 1);
    }
  }

  lemma {:induction false} HexIsFixed(v: nat, n: nat)
    ensures |Hex(v)| <= n + 1 <==> v < Pow16(n + 1)
    ensures v < Pow16(n + 1) ==> Fixed(v, n + 1) == Zeros(n + 1 - |Hex(v)|) + Hex(v)
    decreases v
  {
    if v < 16 {
      FixedZero(n);
      assert Pow16(n + 1) >= 16;
    } else if n > 0 {
      HexIsFixed(v / 16, n - 1);
      assert v < Pow16(n + 1) <==> v / 16 < Pow16(n);
      if v < Pow16(n + 1) {
        assert Fixed(v, n + 1) == Zeros(n + 1 - |Hex(v)|) + Hex(v / 16) + [HEX_DIGITS[v % 16]];
      }
    }
  }

  predicate HexDigit(c: char) {
    '0' <= c <= '9' || 'a' <= c <= 'f'
  }

  lemma {:induction false} HexDigits(v: nat)
    ensures forall c :: c in Hex(v) ==> HexDigit(c)
  {
    if v < 16 {
    } else {
      HexDigits(v / 16);
    }
  }

  lemma {:induction false} PaddedExact(v: nat)
    ensures |Padded(v)| >= 32 && (|Padded(v)| == 32 <==> v < Pow16(ALL_PLACES))
    ensures v < Pow16(ALL_PLACES) ==> Padded(v) == Fixed(v, ALL_PLACES)
    ensures forall c :: c in Padded(v) ==> HexDigit(c)
  {
    HexIsFixed(v, ALL_PLACES - 1);
    HexDigits(v);
  }

  /** How strings compare: by the first character that differs, a prefix coming first. */
  predicate LexLess(a: string, b: string) {
    b != [] && (a == [] || a[0] < b[0] || (a[0] == b[0] && LexLess(a[1..], b[1..])))
  }

  lemma {:induction false} LexAfter(p: string, a: string, b: string)
    ensures LexLess(p + a, p + b) <==> LexLess(a, b)
  {
    if p == [] {
      assert p + a == a && p + b == b;
    } else {
      LexAfter(p[1..], a, b);
      assert (p + a)[1..] == p[1..] + a && (p + b)[1..] == p[1..] + b;
    }
  }

  lemma {:induction false} LexBefore(a: string, b: string, s: string, t: string)
    requires |a| == |b| && LexLess(a, b)
    ensures LexLess(a + s, b + t)
  {
    if a[0] != b[0] {
    } else {
      LexBefore(a[1..], b[1..], s, t);
      assert (a + s)[1..] == a[1..] + s && (b + t)[1..] == b[1..] + t;
    }
  }

  lemma {:induction false} FixedOrder(v: nat, w: nat, n: nat)
    requires v < w < Pow16(n)
    ensures LexLess(Fixed(v, n), Fixed(w, n))
    decreases n
  {
    var a, b := [HEX_DIGITS[v % 16]], [HEX_DIGITS[w % 16]];
    if v / 16 < w / 16 {
      FixedOrder(v / 16, w / 16, n - 1);
      LexBefore(Fixed(v / 16, n - 1), Fixed(w / 16, n - 1), a, b);
    } else {
      LastDigitOrder(v % 16, w % 16);
      LexAfter(Fixed(v / 16, n - 1), a, b);
    }
    hide LexLess;
  }

  lemma {:induction false} LastDigitOrder(v: nat, w: nat)
    requires v < w < 16
    ensures LexLess([HEX_DIGITS[v]], [HEX_DIGITS[w]])
  {
  }

  lemma {:induction false} FixedAt(v: nat, n: nat, i: nat)
    requires i < n
    ensures Fixed(v, n)[i] == HEX_DIGITS[(v / Pow16(n - 1 - i)) % 16]
    decreases n
  {
    if i >= n - 1 {
    } else {
      FixedAt(v / 16, n - 1, i);
      DivDiv(v, Pow16(n - 2 - i));
    }
  }

  lemma {:induction false} DivDiv(v: nat, m: nat)
    requires m >= 1
    ensures v / 16 / m == v / (16 * m)
  {
    var q, r := v / 16 / m, v / 16 % m;
    assert v / 16 == q * m + r;
    assert v == q * (16 * m) + (16 * r + v % 16);
    Quotient(v, 16 * m, q, 16 * r + v % 16);
  }

  // ----- the two written forms -------------------------------------------------------------------

  function Dash(a: string, rest: string): string {
    a + "-" + rest
  }

  /** The canonical dashed form. */
  function Dashed(h: string): string
    requires |h| >= 32
  {
    Dash(h[..8], Dash(h[8..12], Dash(h[12..16], Dash(h[16..20], h[20..]))))
  }

  function StripDashes(s: string): string {
    if s == [] then [] else if s[0] == '-' then StripDashes(s[1..]) else [s[0]] + StripDashes(s[1..])
  }

  lemma {:induction false} StripPlain(a: string, rest: string)
    requires '-' !in a
    ensures StripDashes(a + rest) == a + StripDashes(rest)
  {
    if a == [] {
      assert a + rest == rest;
    } else {
      assert (a + rest)[1..] == a[1..] + rest;
      StripPlain(a[1..], rest);
    }
  }

  lemma {:induction false} StripDash(a: string, rest: string)
    requires '-' !in a
    ensures StripDashes(Dash(a, rest)) == a + StripDashes(rest)
  {
    assert Dash(a, rest) == a + (['-'] + rest);
    StripPlain(a, ['-'] + rest);
    assert (['-'] + rest)[1..] == rest;
  }

  lemma {:induction false} StripAll(a: string)
    requires '-' !in a
    ensures StripDashes(a) == a
  {
    StripPlain(a, []);
    assert a + [] == a;
  }

  lemma {:induction false} DashedAt(h: string)
    requires |h| >= 32
    ensures var d := Dashed(h);
            && |d| == |h| + 4 && d[8] == d[13] == d[18] == d[23] == '-' && d[14] == h[12] && d[19] == h[16]
  {
  }

  lemma {:induction false} StripUndoesDashed(h: string)
    requires |h| >= 32 && '-' !in h
    ensures StripDashes(Dashed(h)) == h
  {
    hide StripDashes, Dash;
    var e, d := h[20..], Dash(h[16..20], h[20..]);
    StripAll(e);
    StripDash(h[16..20], e);
    StripDash(h[12..16], d);
    StripDash(h[8..12], Dash(h[12..16], d));
    StripDash(h[..8], Dash(h[8..12], Dash(h[12..16], d)));
  }

  function IdText(prefix: string, t: Tick, random: nat): string
    requires t.ms >= 0 && Fits(t)
  {
    prefix + "_" + Padded(Uuid7(t, random))
  }

  // ----- reading an id ---------------------------------------------------------------------------

  predicate Hex32(tail: string) {
    |tail| == 32 && forall c :: c in tail ==> HexDigit(c)
  }

  /** The hexadecimal half of an id of this kind; anything else, a missing value included, is `None`. */
  function ParseId(prefix: string, s: Option<string>): Result<Option<string>> {
    if prefix !in PREFIXES then Err("not a registered id prefix")
    else if s.None? then Ok(None)
    else
      var k := Find(s.value, '_');
      if k == |s.value| || s.value[..k] != prefix || !Hex32(s.value[k + 1..]) then Ok(None)
      else Ok(Some(s.value[k + 1..]))
  }

  lemma {:induction false} PrefixesArePlain(prefix: string)
    requires prefix in PREFIXES
    ensures '_' !in prefix
  {
  }

  /** Reading accepts exactly the strings of the written form, and returns the part after the prefix. */
  lemma {:induction false} ParseExact(prefix: string, s: string, tail: string)
    requires prefix in PREFIXES
    ensures ParseId(prefix, Some(s)) == Ok(Some(tail)) <==> s == prefix + "_" + tail && Hex32(tail)
    ensures ParseId(prefix, Some(s)).Ok?
  {
    PrefixesArePlain(prefix);
    var k := Find(s, '_');
    if s == prefix + "_" + tail {
      FindAfter(prefix, '_', tail);
      assert s[..|prefix|] == prefix && s[|prefix| + 1..] == tail;
    } else if k < |s| {
      assert s == s[..k] + "_" + s[k + 1..];
    }
  }

  /** No string is an id of two kinds. */
  lemma {:induction false} OneKindPerId(prefix: string, other: string, s: string)
    requires prefix in PREFIXES && other in PREFIXES
    requires ParseId(prefix, Some(s)).value.Some? && ParseId(other, Some(s)).value.Some?
    ensures prefix == other
  {
  }

  /** What was made reads back, exactly as long as the time fits its 48 bits. */
  lemma {:induction false} MadeIdParses(prefix: string, t: Tick, random: nat)
    requires prefix in PREFIXES && t.ms >= 0 && Fits(t)
    ensures var hex := Padded(Uuid7(t, random));
            && (ParseId(prefix, Some(IdText(prefix, t, random))) == Ok(Some(hex)) <==> t.ms < MS_LIMIT)
            && (t.ms >= MS_LIMIT ==> ParseId(prefix, Some(IdText(prefix, t, random))) == Ok(None))
  {
    var v := Uuid7(t, random);
    ThirtyTwoDigits(t, random);
    PaddedExact(v);
    var s := IdText(prefix, t, random);
    ParseExact(prefix, s, Padded(v));
    if t.ms >= MS_LIMIT {
      if ParseId(prefix, Some(s)).value.Some? {
        ParseExact(prefix, s, ParseId(prefix, Some(s)).value.value);
      }
    }
  }

  // 16^15, 16^19 and 16^32, for the digits that carry the version and the variant
  const VARIANT_PLACE := 15
  const VERSION_PLACE := 19
  const ALL_PLACES := 32

  lemma {:induction false} Pow16Sum(j: nat, k: nat)
    ensures Pow16(j + k) == Pow16(j) * Pow16(k)
  {
    if k == 0 {
    } else {
      Pow16Sum(j, k - 1);
    }
  }

  lemma {:induction false} Places()
    ensures Pow16(VARIANT_PLACE) == 0x1000_0000_0000_0000
    ensures Pow16(VERSION_PLACE) == 0x1000_0000_0000_0000_0000
    ensures Pow16(ALL_PLACES) == 0x1_0000_0000_0000_0000_0000_0000_0000_0000
  {
    assert Pow16(1) == 16 && Pow16(3) == 4096;
    hide Pow16;
    Pow16Sum(3, 1);
    Pow16Sum(4, 4);
    Pow16Sum(8, 4);
    Pow16Sum(12, 3);
    Pow16Sum(15, 4);
    Pow16Sum(8, 8);
    Pow16Sum(16, 16);
  }

  lemma {:induction false} DigitOf(v: nat, m: nat, high: nat, digit: nat, rest: nat)
    requires rest < m && digit < 16 && v == (high * 16 + digit) * m + rest
    ensures (v / m) % 16 == digit
  {
    Quotient(v, m, high * 16 + digit, rest);
  }

  lemma {:induction false} VersionDigit(t: Tick, random: nat)
    requires 0 <= t.ms && Fits(t)
    ensures (Uuid7(t, random) / 0x1000_0000_0000_0000_0000) % 16 == 7
  {
    Layout(t, random);
    hide Uuid7, RandomBits;
    var rest := t.counter * 0x1_0000_0000_0000_0000 + 0x8000_0000_0000_0000 + RandomBits(random);
    DigitOf(Uuid7(t, random), 0x1000_0000_0000_0000_0000, t.ms, 7, rest);
  }

  lemma {:induction false} VariantDigit(t: Tick, random: nat)
    requires 0 <= t.ms && Fits(t)
    ensures 8 <= (Uuid7(t, random) / 0x1000_0000_0000_0000) % 16 < 12
  {
    Layout(t, random);
    hide Uuid7, RandomBits;
    var r := RandomBits(random);
    var k: nat := if r < 0x1000_0000_0000_0000 then 0 else if r < 0x2000_0000_0000_0000 then 1
                  else if r < 0x3000_0000_0000_0000 then 2 else 3;
    DigitOf(Uuid7(t, random), 0x1000_0000_0000_0000, (t.ms * 16 + 7) * 4096 + t.counter, 8 + k, r - k * 0x1000_0000_0000_0000);
  }

  /** The number fits 128 bits exactly as long as the time fits its 48. */
  lemma {:induction false} ThirtyTwoDigits(t: Tick, random: nat)
    requires t.ms >= 0 && Fits(t)
    ensures Uuid7(t, random) < Pow16(ALL_PLACES) <==> t.ms < MS_LIMIT
  {
    Layout(t, random);
    Places();
    hide Uuid7, RandomBits, Pow16;
  }

  /** The version digit is 7 and the variant digit starts with the bits 10, in the dashed form too. */
  lemma {:induction false} VersionAndVariant(t: Tick, random: nat)
    requires 0 <= t.ms < MS_LIMIT && Fits(t)
    ensures var d := Dashed(Padded(Uuid7(t, random)));
            && |d| == 36 && d[8] == d[13] == d[18] == d[23] == '-'
            && d[14] == '7' && d[19] in "89ab"
  {
    var v := Uuid7(t, random);
    ThirtyTwoDigits(t, random);
    PaddedExact(v);
    VersionDigit(t, random);
    VariantDigit(t, random);
    hide Uuid7, Fixed, Padded, Dashed, Fits, Hex32;
    VersionDigitAt(v);
    VariantDigitAt(v);
    DashedAt(Padded(v));
  }

  lemma {:induction false} VersionDigitAt(v: nat)
    requires (v / 0x1000_0000_0000_0000_0000) % 16 == 7
    ensures Fixed(v, ALL_PLACES)[12] == '7'
  {
    Places();
    hide Fixed, Pow16;
    FixedAt(v, ALL_PLACES, 12);
    assert HEX_DIGITS[7] == '7';
  }

  lemma {:induction false} VariantDigitAt(v: nat)
    requires 8 <= (v / 0x1000_0000_0000_0000) % 16 < 12
    ensures Fixed(v, ALL_PLACES)[16] in "89ab"
  {
    Places();
    hide Fixed, Pow16;
    FixedAt(v, ALL_PLACES, 16);
    assert HEX_DIGITS[8] == '8' && HEX_DIGITS[9] == '9' && HEX_DIGITS[10] == 'a' && HEX_DIGITS[11] == 'b';
  }

  /** Ids of one kind sort, as plain text, in the order they were minted: for every sequence of clock
      readings, backward ones included, and all random bits. */
  lemma {:induction false} IdsSortByMint(prefix: string, readings: seq<int>, i: nat, j: nat, random: nat, other: nat)
    requires 0 < i < j <= |readings| && forall k :: 0 <= k < |readings| ==> readings[k] >= 0
    requires After(readings[..j]).ms < MS_LIMIT
    ensures After(readings[..i]).ms >= 0
    ensures Uuid7(After(readings[..i]), random) < Uuid7(After(readings[..j]), other)
    ensures LexLess(IdText(prefix, After(readings[..i]), random), IdText(prefix, After(readings[..j]), other))
  {
    var t, u := After(readings[..i]), After(readings[..j]);
    RunExact(readings[..i]);
    assert ReachedBy(readings[..i], 0) <= Rank(t);
    RunIncreases(readings, i, j);
    LaterIsLarger(t, random, u, other);
    var v, w := Uuid7(t, random), Uuid7(u, other);
    ThirtyTwoDigits(u, other);
    PaddedExact(v);
    PaddedExact(w);
    FixedOrder(v, w, ALL_PLACES);
    LexAfter(prefix + "_", Padded(v), Padded(w));
  }

  lemma {:induction false} DashedForm(t: Tick, random: nat)
    requires t.ms >= 0 && Fits(t)
    ensures |Padded(Uuid7(t, random))| >= 32
    ensures StripDashes(Dashed(Padded(Uuid7(t, random)))) == Padded(Uuid7(t, random))
  {
    PaddedExact(Uuid7(t, random));
    hide Padded, Uuid7, Dashed, StripDashes;
    StripUndoesDashed(Padded(Uuid7(t, random)));
  }

  lemma {:induction false} AfterSnoc(readings: seq<int>, now: int)
    requires now >= 0 && forall i :: 0 <= i < |readings| ==> readings[i] >= 0
    ensures After(readings + [now]) == Advance(After(readings), now) && After(readings + [now]).ms >= 0
  {
  }

  // ----- the module's state ----------------------------------------------------------------------

  /** The clock's last tick, kept under the lock. */
  class Minter {
    var last: Tick
    ghost var readings: seq<int>

    constructor ()
      ensures Valid() && readings == []
    {
      last, readings := NEVER, [];
    }

    ghost predicate Valid()
      reads this
    {
      last == After(readings) && forall i :: 0 <= i < |readings| ==> readings[i] >= 0
    }

    /** One UUID. */
    method Mint(now: int, random: nat) returns (uuid: string)
      requires Valid() && now >= 0
      modifies this
      ensures Valid() && readings == old(readings) + [now]
      ensures last.ms >= 0 && uuid == Dashed(Padded(Uuid7(last, random))) && StripDashes(uuid) == Padded(Uuid7(last, random))
    {
      AfterSnoc(readings, now);
      last := Advance(last, now);
      readings := readings + [now];
      hide After, Advance, Padded, Uuid7, Dashed, StripDashes, Rank, HexDigit;
      DashedForm(last, random);
      uuid := Dashed(Padded(Uuid7(last, random)));
    }

    /** An id of a registered kind; an unregistered one is refused before anything is minted. */
    method MakeId(prefix: string, now: int, random: nat) returns (id: Result<string>)
      requires Valid() && now >= 0
      modifies this
      ensures Valid() && (id.Err? <==> prefix !in PREFIXES)
      ensures id.Err? ==> readings == old(readings)
      ensures id.Ok? ==> readings == old(readings) + [now] && last.ms >= 0 && id.value == IdText(prefix, last, random)
    {
      if prefix !in PREFIXES {
        return Err("not a registered id prefix");
      }
      var uuid := Mint(now, random);
      id := Ok(prefix + "_" + StripDashes(uuid));
    }
  }
}
