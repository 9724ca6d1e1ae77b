/** Reading a five-field cron expression (cron.py, `_parse_field` and `parse`). */
module CronFields {
  import opened Arithmetic
  import Decimal
  import opened Options
  import opened Text

  /** The values a field matches; `None` is no restriction. */
  type Field = Option<set<int>>

  datatype Cron = Cron(minute: Field, hour: Field, dayOfMonth: Field, month: Field, dayOfWeek: Field)

  predicate Allows(f: Field, x: int) {
    f.None? || x in f.value
  }

  predicate Bounded(f: Field, lo: int, hi: int) {
    f.Some? ==> (exists x :: x in f.value) && (forall x :: x in f.value ==> lo <= x <= hi)
  }

  /** What reading guarantees: every restriction is met by something, and by nothing out of range. */
  predicate Ranged(c: Cron) {
    && Bounded(c.minute, 0, 59) && Bounded(c.hour, 0, 23) && Bounded(c.dayOfMonth, 1, 31)
    && Bounded(c.month, 1, 12) && Bounded(c.dayOfWeek, 0, 6)
  }

  // ----- text --------------------------------------------------------------------------------------

  predicate IsDigits(s: string) {
    s != "" && forall c :: c in s ==> '0' <= c <= '9'
  }

  // ----- one field ---------------------------------------------------------------------------------

  datatype Item = Item(first: int, last: int, step: int)

  function ReadStep(text: string): Result<int> {
    if text == "" then Ok(1)
    else if !IsDigits(text) || Decimal.Read(text) <= 0 then Err("bad step")
    else Ok(Decimal.Read(text))
  }

  function ReadBase(base: string, lo: int, hi: int): Result<(int, int)> {
    if base == "*" then Ok((lo, hi))
    else if '-' in base then
      var first, last := Before(base, '-'), Behind(base, '-');
      if !IsDigits(first) || !IsDigits(last) then Err("bad range")
      else if Decimal.Read(first) > Decimal.Read(last) then Err("counts down, not up")
      else Ok((Decimal.Read(first), Decimal.Read(last)))
    else if !IsDigits(base) then Err("not a number")
    else Ok((Decimal.Read(base), Decimal.Read(base)))
  }

  function ReadItem(part: string, lo: int, hi: int): Result<Item> {
    if part == "" then Err("empty item")
    else
      var step := ReadStep(Behind(part, '/'));
      if step.Err? then Err(step.error)
      else
        var base := ReadBase(Before(part, '/'), lo, hi);
        if base.Err? then Err(base.error)
        else if base.value.0 < lo || base.value.1 > hi then Err("outside")
        else Ok(Item(base.value.0, base.value.1, step.value))
  }

  predicate Selects(i: Item, x: int)
    requires i.step > 0
  {
    i.first <= x <= i.last && (x - i.first) % i.step == 0
  }

  lemma {:induction false} ItemShape(part: string, lo: int, hi: int)
    requires lo <= hi && ReadItem(part, lo, hi).Ok?
    ensures var i := ReadItem(part, lo, hi).value;
            i.step >= 1 && lo <= i.first <= i.last <= hi && Selects(i, i.first)
  {
  }

  /** The numbers `first`, `first + step`, … up to `last`. */
  method Range(item: Item) returns (values: set<int>)
    requires item.step > 0
    ensures forall x :: x in values <==> Selects(item, x)
  {
    values := {};
    ghost var k := 0;
    var next := item.first;
    while next <= item.last
      invariant next == item.first + k * item.step && k >= 0
      invariant forall x :: x in values <==> Selects(item, x) && x < next
    {
      RangeStep(item, k, values);
      values := values + {next};
      k := k + 1;
      next := next + item.step;
    }
  }

  lemma {:induction false} RangeStep(item: Item, k: nat, values: set<int>)
    requires item.step > 0 && item.first + k * item.step <= item.last
    requires forall x :: x in values <==> Selects(item, x) && x < item.first + k * item.step
    ensures var next := item.first + k * item.step;
            forall x :: x in values + {next} <==> Selects(item, x) && x < next + item.step
  {
    var next := item.first + k * item.step;
    forall x ensures x in values + {next} <==> Selects(item, x) && x < next + item.step {
      if next <= x < next + item.step {
        assert k * item.step >= 0;
        Quotient(x - item.first, item.step, k, x - next);
      }
    }
  }

  ghost predicate ItemsRead(parts: seq<string>, lo: int, hi: int) {
    forall p :: p in parts ==> ReadItem(p, lo, hi).Ok?
  }

  ghost predicate SelectedBy(parts: seq<string>, lo: int, hi: int, x: int)
    requires lo <= hi && ItemsRead(parts, lo, hi)
  {
    exists p :: p in parts && (ItemShape(p, lo, hi); Selects(ReadItem(p, lo, hi).value, x))
  }

  ghost predicate Readable(text: string, lo: int, hi: int) {
    text == "*" || ItemsRead(Split(text, ','), lo, hi)
  }

  /** The field says what its text says, within bounds, and something at all. */
  ghost predicate FieldIs(text: string, lo: int, hi: int, f: Field)
    requires lo <= hi && Readable(text, lo, hi)
  {
    && Bounded(f, lo, hi) && (f.None? <==> text == "*")
    && (f.Some? ==> forall x :: x in f.value <==> SelectedBy(Split(text, ','), lo, hi, x))
  }

  /** One field: refused exactly when one of its comma-separated parts is malformed or out of range,
      otherwise just the numbers some part selects. That is never an empty set, so the last check the
      code makes cannot fail. */
  method ParseField(text: string, lo: int, hi: int) returns (field: Result<Field>)
    requires lo <= hi
    ensures field.Ok? <==> Readable(text, lo, hi)
    ensures field.Ok? ==> FieldIs(text, lo, hi, field.value)
  {
    if text == "*" {
      return Ok(None);
    }
    hide Split, Gathered, ItemsRead, SelectedBy;
    var values := Gather(Split(text, ','), lo, hi);
    if values.Err? {
      return Err(values.error);
    }
    GatheredAll(Split(text, ','), lo, hi, values.value);
    field := Ok(Some(values.value));
  }

  method Gather(parts: seq<string>, lo: int, hi: int) returns (values: Result<set<int>>)
    requires lo <= hi
    ensures values.Ok? <==> ItemsRead(parts, lo, hi)
    ensures values.Ok? ==> Gathered(parts, lo, hi, values.value)
  {
    hide ReadItem, Selects, Gathered;
    var all: set<int> := {};
    GatheredNone(lo, hi);
    for i := 0 to |parts|
      invariant Gathered(parts[..i], lo, hi, all)
    {
      var item := ReadItem(parts[i], lo, hi);
      if item.Err? {
        return Err(item.error);
      }
      assert parts[..i + 1] == parts[..i] + [parts[i]];
      ItemShape(parts[i], lo, hi);
      var more := Range(item.value);
      GatheredSnoc(parts[..i], parts[i], lo, hi, all, more);
      all := all + more;
    }
    assert parts[..|parts|] == parts;
    GatheredRead(parts, lo, hi, all);
    values := Ok(all);
  }

  lemma {:induction false} GatheredRead(parts: seq<string>, lo: int, hi: int, values: set<int>)
    requires lo <= hi && Gathered(parts, lo, hi, values)
    ensures ItemsRead(parts, lo, hi)
  {
  }

  /** What the parts read so far select. */
  ghost predicate Gathered(parts: seq<string>, lo: int, hi: int, values: set<int>)
    requires lo <= hi
  {
    && ItemsRead(parts, lo, hi) && (parts != [] ==> exists x :: x in values)
    && forall x :: x in values <==> SelectedBy(parts, lo, hi, x)
  }

  lemma {:induction false} GatheredNone(lo: int, hi: int)
    requires lo <= hi
    ensures Gathered([], lo, hi, {})
  {
  }

  lemma {:induction false} GatheredSnoc(parts: seq<string>, part: string, lo: int, hi: int, values: set<int>, more: set<int>)
    requires lo <= hi && Gathered(parts, lo, hi, values)
    requires ReadItem(part, lo, hi).Ok? && ReadItem(part, lo, hi).value.step > 0
    requires forall x :: x in more <==> Selects(ReadItem(part, lo, hi).value, x)
    ensures Gathered(parts + [part], lo, hi, values + more)
  {
    ItemShape(part, lo, hi);
    hide ReadItem, Selects;
    assert ReadItem(part, lo, hi).value.first in more;
    forall x ensures x in values + more <==> SelectedBy(parts + [part], lo, hi, x) {
      if x in more {
        assert part in parts + [part];
      }
    }
  }

  lemma {:induction false} GatheredAll(parts: seq<string>, lo: int, hi: int, values: set<int>)
    requires lo <= hi && parts != [] && Gathered(parts, lo, hi, values)
    ensures ItemsRead(parts, lo, hi) && Bounded(Some(values), lo, hi)
    ensures forall x :: x in values <==> SelectedBy(parts, lo, hi, x)
  {
    hide ReadItem;
    SelectedInRange(parts, lo, hi);
  }

  lemma {:induction false} SelectedInRange(parts: seq<string>, lo: int, hi: int)
    requires lo <= hi && ItemsRead(parts, lo, hi)
    ensures forall x :: SelectedBy(parts, lo, hi, x) ==> lo <= x <= hi
  {
  }

  // ----- the expression ----------------------------------------------------------------------------

  ghost predicate AllReadable(parts: seq<string>) {
    && |parts| == 5 && Readable(parts[0], 0, 59) && Readable(parts[1], 0, 23) && Readable(parts[2], 1, 31)
    && Readable(parts[3], 1, 12) && Readable(parts[4], 0, 6)
  }

  /** Five fields, each in its own range; refused exactly when there are not five or one cannot be read. */
  method Parse(parts: seq<string>) returns (cron: Result<Cron>)
    ensures cron.Ok? <==> AllReadable(parts)
    ensures cron.Ok? ==>
              && Ranged(cron.value) && FieldIs(parts[0], 0, 59, cron.value.minute) && FieldIs(parts[1], 0, 23, cron.value.hour)
              && FieldIs(parts[2], 1, 31, cron.value.dayOfMonth) && FieldIs(parts[3], 1, 12, cron.value.month)
              && FieldIs(parts[4], 0, 6, cron.value.dayOfWeek)
  {
    if |parts| != 5 {
      return Err("expected 5 fields");
    }
    hide Readable, SelectedBy;
    var minute := ParseField(parts[0], 0, 59);
    if minute.Err? { return Err(minute.error); }
    var hour := ParseField(parts[1], 0, 23);
    if hour.Err? { return Err(hour.error); }
    var dayOfMonth := ParseField(parts[2], 1, 31);
    if dayOfMonth.Err? { return Err(dayOfMonth.error); }
    var month := ParseField(parts[3], 1, 12);
    if month.Err? { return Err(month.error); }
    var dayOfWeek := ParseField(parts[4], 0, 6);
    if dayOfWeek.Err? { return Err(dayOfWeek.error); }
    cron := Ok(Cron(minute.value, hour.value, dayOfMonth.value, month.value, dayOfWeek.value));
  }
}
