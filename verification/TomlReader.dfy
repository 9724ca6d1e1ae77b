/**
  A reader for the part of TOML v1.0.0 a plugin file is written in: blank lines, tables, arrays of
  tables, and pairs of a bare key with a basic string, a one-line array of them, or a boolean. It
  refuses what the rest of TOML would add, and, as TOML does, a key or a table given twice.
 */
module TomlReader {
  import opened Options
  import opened Text
  import opened TomlStrings

  datatype Value = Str(text: string) | Strs(items: seq<string>) | Bool(flag: bool)

  type Table = map<string, Value>

  datatype Line = Blank | Header(name: string) | ArrayHeader(name: string) | Pair(key: string, value: Value)

  /** Where the next pair goes. */
  datatype Place = Root | InTable(name: string) | InArray(name: string)

  datatype Doc = Doc(root: Table, tables: map<string, Table>, arrays: map<string, seq<Table>>, place: Place)

  const EMPTY := Doc(map[], map[], map[], Root)

  // ----- one line ------------------------------------------------------------------------------------

  function SkipSpaces(s: string): (r: string)
    ensures |r| <= |s|
  {
    if s != [] && (s[0] == ' ' || s[0] == '\t') then SkipSpaces(s[1..]) else s
  }

  predicate BareChar(c: char) {
    'a' <= c <= 'z' || 'A' <= c <= 'Z' || '0' <= c <= '9' || c == '-' || c == '_'
  }

  /** How many characters of a bare key the text starts with. */
  function BareLength(s: string): (n: nat)
    ensures n <= |s|
  {
    if s != [] && BareChar(s[0]) then 1 + BareLength(s[1..]) else 0
  }

  /** Nothing but spaces and a comment may end a line. */
  predicate Ends(s: string) {
    SkipSpaces(s) == [] || SkipSpaces(s)[0] == '#'
  }

  /** The items of an array after its opening bracket, and what follows its closing one. */
  function ReadItems(s: string): (r: Option<(seq<string>, string)>)
    decreases |s|
  {
    var t := SkipSpaces(s);
    if t == [] then None
    else if t[0] == ']' then Some(([], t[1..]))
    else if t[0] != QUOTE then None
    else
      var item := ReadChars(t[1..]);
      if item.None? then None
      else
        var u := SkipSpaces(item.value.1);
        if u == [] then None
        else if u[0] == ']' then Some(([item.value.0], u[1..]))
        else if u[0] != ',' then None
        else
          var more := ReadItems(u[1..]);
          if more.None? then None else Some(([item.value.0] + more.value.0, more.value.1))
  }

  function ReadValue(s: string): Option<(Value, string)> {
    if s == [] then None
    else if s[0] == QUOTE then
      var r := ReadChars(s[1..]);
      if r.None? then None else Some((Str(r.value.0), r.value.1))
    else if s[0] == '[' then
      var r := ReadItems(s[1..]);
      if r.None? then None else Some((Strs(r.value.0), r.value.1))
    else if "true" <= s then Some((Bool(true), s[4..]))
    else if "false" <= s then Some((Bool(false), s[5..]))
    else None
  }

  function ReadPair(line: string): Option<Line> {
    var n := BareLength(line);
    var rest := SkipSpaces(line[n..]);
    if n == 0 || rest == [] || rest[0] != '=' then None
    else
      var value := ReadValue(SkipSpaces(rest[1..]));
      if value.None? || !Ends(value.value.1) then None else Some(Pair(line[..n], value.value.0))
  }

  function ReadHeader(inside: string, close: string, many: bool): Option<Line> {
    var s := SkipSpaces(inside);
    var n := BareLength(s);
    var rest := SkipSpaces(s[n..]);
    if n == 0 || !(close <= rest) || !Ends(rest[|close|..]) then None
    else Some(if many then ArrayHeader(s[..n]) else Header(s[..n]))
  }

  function ReadLine(line: string): Option<Line> {
    var s := SkipSpaces(line);
    if Ends(s) then Some(Blank)
    else if "[[" <= s then ReadHeader(s[2..], "]]", true)
    else if s[0] == '[' then ReadHeader(s[1..], "]", false)
    else ReadPair(s)
  }

  // ----- the whole text --------------------------------------------------------------------------

  function Put(t: Table, key: string, value: Value): Option<Table> {
    if key in t then None else Some(t[key := value])
  }

  predicate Taken(d: Doc, name: string) {
    name in d.root || name in d.tables || name in d.arrays
  }

  function Tables(d: Doc, name: string): seq<Table> {
    if name in d.arrays then d.arrays[name] else []
  }

  function Take(d: Doc, line: Line): Option<Doc> {
    match line
    case Blank => Some(d)
    case Header(name) =>
      if Taken(d, name) then None else Some(d.(tables := d.tables[name := map[]], place := InTable(name)))
    case ArrayHeader(name) =>
      if name in d.root || name in d.tables then None
      else Some(d.(arrays := d.arrays[name := Tables(d, name) + [map[]]], place := InArray(name)))
    case Pair(key, value) =>
      match d.place
      case Root =>
        var t := Put(d.root, key, value);
        if t.None? then None else Some(d.(root := t.value))
      case InTable(name) =>
        if name !in d.tables then None
        else
          var t := Put(d.tables[name], key, value);
          if t.None? then None else Some(d.(tables := d.tables[name := t.value]))
      case InArray(name) =>
        var rows := Tables(d, name);
        if rows == [] then None
        else
          var t := Put(rows[|rows| - 1], key, value);
          if t.None? then None else Some(d.(arrays := d.arrays[name := rows[..|rows| - 1] + [t.value]]))
  }

  function TakeText(d: Doc, line: string): Option<Doc> {
    var read := ReadLine(line);
    if read.None? then None else Take(d, read.value)
  }

  function ReadLines(d: Doc, lines: seq<string>): Option<Doc>
    decreases |lines|
  {
    if lines == [] then Some(d)
    else
      var next := TakeText(d, lines[0]);
      if next.None? then None else ReadLines(next.value, lines[1..])
  }

  function ReadToml(text: string): Option<Doc> {
    ReadLines(EMPTY, Split(text, '\n'))
  }

  lemma {:induction false} ReadLinesJoin(d: Doc, a: seq<string>, b: seq<string>)
    ensures ReadLines(d, a + b) == if ReadLines(d, a).None? then None else ReadLines(ReadLines(d, a).value, b)
    decreases |a|
  {
    if a == [] {
      assert a + b == b;
    } else {
      assert (a + b)[1..] == a[1..] + b;
      var next := TakeText(d, a[0]);
      if next.Some? {
        ReadLinesJoin(next.value, a[1..], b);
      }
    }
  }

  // ----- reading back what was written -------------------------------------------------------------

  predicate BareKey(key: string) {
    key != [] && forall c :: c in key ==> BareChar(c)
  }

  lemma {:induction false} BareLengthIs(key: string, rest: string)
    requires forall c :: c in key ==> BareChar(c)
    requires rest == [] || !BareChar(rest[0])
    ensures BareLength(key + rest) == |key|
  {
    if key == [] {
      assert key + rest == rest;
    } else {
      assert (key + rest)[1..] == key[1..] + rest;
      BareLengthIs(key[1..], rest);
    }
  }

  function PairLine(key: string, value: string): string {
    key + " = " + value
  }

  /** A pair with a single value to its end of line is read as that pair. */
  lemma {:induction false} PairBack(key: string, printed: string, value: Value)
    requires BareKey(key) && printed != [] && printed[0] != ' ' && printed[0] != '\t'
    requires ReadValue(printed) == Some((value, ""))
    ensures ReadLine(PairLine(key, printed)) == Some(Pair(key, value))
  {
    var line := PairLine(key, printed);
    assert line == key + (" = " + printed);
    BareLengthIs(key, " = " + printed);
    KeyStartsPair(line);
    hide ReadValue, BareLength, ReadLine;
    assert line[|key|..] == " = " + printed && line[..|key|] == key;
    AroundEquals(printed);
  }

  lemma {:induction false} AroundEquals(printed: string)
    requires printed != [] && printed[0] != ' ' && printed[0] != '\t'
    ensures SkipSpaces(" = " + printed) == "= " + printed && SkipSpaces(("= " + printed)[1..]) == printed
  {
  }

  lemma {:induction false} KeyStartsPair(line: string)
    requires line != [] && BareChar(line[0])
    ensures ReadLine(line) == ReadPair(line)
  {
  }

  lemma {:induction false} StrPairBack(key: string, text: string)
    requires BareKey(key)
    ensures ReadLine(PairLine(key, TomlString(text))) == Some(Pair(key, Str(text)))
  {
    StringBack(text, "");
    assert TomlString(text) + "" == TomlString(text);
    hide ReadLine, TomlString;
    PairBack(key, TomlString(text), Str(text));
  }

  lemma {:induction false} BoolPairBack(key: string, flag: bool)
    requires BareKey(key)
    ensures ReadLine(PairLine(key, if flag then "true" else "false")) == Some(Pair(key, Bool(flag)))
  {
    var printed := if flag then "true" else "false";
    assert printed[|printed|..] == "";
    PairBack(key, printed, Bool(flag));
  }

  function Quoted(items: seq<string>): seq<string> {
    if items == [] then [] else [TomlString(items[0])] + Quoted(items[1..])
  }

  function PrintItems(items: seq<string>): string {
    "[" + Join(Quoted(items), ", ") + "]"
  }

  lemma {:induction false} SkipsNothing(s: string)
    requires s == [] || (s[0] != ' ' && s[0] != '\t')
    ensures SkipSpaces(s) == s
  {
  }

  lemma {:induction false} ItemsBack(items: seq<string>, rest: string)
    requires items != []
    ensures ReadItems(Join(Quoted(items), ", ") + "]" + rest) == Some((items, rest))
    ensures ReadItems(" " + Join(Quoted(items), ", ") + "]" + rest) == Some((items, rest))
    decreases |items|
  {
    if |items| == 1 {
      assert items == [items[0]];
      OneItem(items[0], rest);
    } else {
      ItemsBack(items[1..], rest);
      MoreItems(items, rest);
    }
  }

  lemma {:induction false} OneItem(item: string, rest: string)
    ensures ReadItems(Join(Quoted([item]), ", ") + "]" + rest) == Some(([item], rest))
    ensures ReadItems(" " + Join(Quoted([item]), ", ") + "]" + rest) == Some(([item], rest))
  {
    var s := TomlString(item) + "]" + rest;
    LastItem(item, rest);
    assert Quoted([item]) == [TomlString(item)];
    LeadingSpace(s);
    assert " " + TomlString(item) + "]" + rest == " " + s;
  }

  lemma {:induction false} MoreItems(items: seq<string>, rest: string)
    requires |items| >= 2 && ReadItems(" " + Join(Quoted(items[1..]), ", ") + "]" + rest) == Some((items[1..], rest))
    ensures ReadItems(Join(Quoted(items), ", ") + "]" + rest) == Some((items, rest))
    ensures ReadItems(" " + Join(Quoted(items), ", ") + "]" + rest) == Some((items, rest))
  {
    var tail := " " + Join(Quoted(items[1..]), ", ") + "]" + rest;
    JoinStep(items, rest);
    hide *;
    var s := TomlString(items[0]) + "," + tail;
    NextItem(items[0], tail);
    assert items == [items[0]] + items[1..];
    LeadingSpace(s);
    SpaceFirst(Join(Quoted(items), ", "), rest);
  }

  lemma {:induction false} JoinStep(items: seq<string>, rest: string)
    requires |items| >= 2
    ensures Join(Quoted(items), ", ") + "]" + rest
            == TomlString(items[0]) + "," + (" " + Join(Quoted(items[1..]), ", ") + "]" + rest)
  {
  }

  lemma {:induction false} SpaceFirst(s: string, rest: string)
    ensures " " + s + "]" + rest == " " + (s + "]" + rest)
  {
  }

  lemma {:induction false} LeadingSpace(s: string)
    requires s != [] && s[0] == QUOTE
    ensures ReadItems(" " + s) == ReadItems(s)
  {
  }

  lemma {:induction false} LastItem(item: string, rest: string)
    ensures TomlString(item) != [] && TomlString(item)[0] == QUOTE
    ensures ReadItems(TomlString(item) + "]" + rest) == Some(([item], rest))
  {
    var s := TomlString(item) + "]" + rest;
    assert s == TomlString(item) + ("]" + rest);
    StringBack(item, "]" + rest);
    assert ("]" + rest)[1..] == rest;
    hide ReadChars, TomlString;
    SkipsNothing(s);
    SkipsNothing("]" + rest);
  }

  lemma {:induction false} NextItem(item: string, tail: string)
    requires ReadItems(tail).Some?
    ensures TomlString(item) != [] && TomlString(item)[0] == QUOTE
    ensures ReadItems(TomlString(item) + "," + tail)
            == Some(([item] + ReadItems(tail).value.0, ReadItems(tail).value.1))
  {
    var s := TomlString(item) + "," + tail;
    assert s == TomlString(item) + ("," + tail);
    StringBack(item, "," + tail);
    assert ("," + tail)[1..] == tail;
    hide ReadChars, TomlString;
    SkipsNothing(s);
    SkipsNothing("," + tail);
  }

  lemma {:induction false} StrsPairBack(key: string, items: seq<string>)
    requires BareKey(key) && items != []
    ensures ReadLine(PairLine(key, PrintItems(items))) == Some(Pair(key, Strs(items)))
  {
    hide ReadItems, ReadLine, Join, Quoted, BareKey;
    ItemsBack(items, "");
    BracketTail(Join(Quoted(items), ", "));
    PairBack(key, PrintItems(items), Strs(items));
  }

  lemma {:induction false} BracketTail(inside: string)
    ensures ("[" + inside + "]")[0] == '[' && ("[" + inside + "]")[1..] == inside + "]" + ""
  {
  }

  lemma {:induction false} HeaderBack(name: string)
    requires BareKey(name)
    ensures ReadLine("[" + name + "]") == Some(Header(name))
    ensures ReadLine("[[" + name + "]]") == Some(ArrayHeader(name))
  {
    BareLengthIs(name, "]");
    BareLengthIs(name, "]]");
    var one, two := "[" + name + "]", "[[" + name + "]]";
    assert one[1..] == name + "]" && (name + "]")[|name|..] == "]" && (name + "]")[..|name|] == name;
    assert two[2..] == name + "]]" && (name + "]]")[|name|..] == "]]" && (name + "]]")[..|name|] == name;
    assert one[1] == name[0] && BareChar(name[0]);
  }
}
