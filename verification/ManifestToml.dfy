/** A plugin's manifest as a file, and the file read back (plugins.py, `manifest_to_toml` and `_parse_manifest`). */
module ManifestToml {
  import opened Options
  import opened Text
  import opened Manifests
  import opened TomlStrings
  import opened TomlReader

  function KindWord(k: NodeKind): string {
    match k
    case Compute => "compute"
    case Ask => "ask"
    case Route => "route"
    case Stop => "stop"
    case Call => "call"
    case Each => "each"
    case Wait => "wait"
    case Other(word) => word
  }

  function KindOf(word: string): NodeKind {
    if word == "compute" then Compute
    else if word == "ask" then Ask
    else if word == "route" then Route
    else if word == "stop" then Stop
    else if word == "call" then Call
    else if word == "each" then Each
    else if word == "wait" then Wait
    else Other(word)
  }

  /** `Other` holds only words that are no kind. */
  predicate Canonical(n: Node) {
    KindOf(KindWord(n.kind)) == n.kind
  }

  // ----- printing ----------------------------------------------------------------------------------

  type Pairs = seq<(string, Value)>

  function PrintValue(v: Value): string {
    match v
    case Str(text) => TomlString(text)
    case Strs(items) => PrintItems(items)
    case Bool(flag) => if flag then "true" else "false"
  }

  function PairLines(pairs: Pairs): seq<string> {
    if pairs == [] then []
    else PairLines(pairs[..|pairs| - 1]) + [PairLine(pairs[|pairs| - 1].0, PrintValue(pairs[|pairs| - 1].1))]
  }

  function Optional(key: string, text: Option<string>): Pairs {
    if text.None? then [] else [(key, Str(text.value))]
  }

  function Ports(ports: seq<string>): Pairs {
    if ports == [] then [] else [("ports", Strs(ports))]
  }

  function PluginPairs(m: Manifest): Pairs {
    [("name", Str(m.name)), ("version", Str(m.version)), ("description", Str(m.description))]
  }

  function EntryPairs(e: Entry): Pairs {
    [("tool", Str(e.tool)), ("purpose", Str(e.purpose)), ("parameters", Str(e.parameters)), ("start", Str(e.start))]
  }

  function NodePairs(n: Node): Pairs {
    [("name", Str(n.name)), ("kind", Str(KindWord(n.kind)))]
    + Optional("body", n.body) + Optional("skill", n.skill) + Optional("next", n.next) + Ports(n.ports)
  }

  function SettingPairs(s: Setting): Pairs {
    [("name", Str(s.name)), ("purpose", Str(s.purpose)), ("secret", Bool(s.secret))]
  }

  /** One element of an array of tables. */
  function RowLines(name: string, pairs: Pairs): seq<string> {
    ["", "[[" + name + "]]"] + PairLines(pairs)
  }

  function RowsLines(name: string, rows: seq<Pairs>): seq<string> {
    if rows == [] then [] else RowsLines(name, rows[..|rows| - 1]) + RowLines(name, rows[|rows| - 1])
  }

  function EntryRows(entries: seq<Entry>): seq<Pairs> {
    seq(|entries|, i requires 0 <= i < |entries| => EntryPairs(entries[i]))
  }

  function NodeRows(nodes: seq<Node>): seq<Pairs> {
    seq(|nodes|, i requires 0 <= i < |nodes| => NodePairs(nodes[i]))
  }

  function SettingRows(settings: seq<Setting>): seq<Pairs> {
    seq(|settings|, i requires 0 <= i < |settings| => SettingPairs(settings[i]))
  }

  function ManifestLines(m: Manifest): seq<string> {
    ["[plugin]"] + PairLines(PluginPairs(m)) + RowsLines("entry", EntryRows(m.entries))
    + RowsLines("node", NodeRows(m.nodes)) + RowsLines("setting", SettingRows(m.settings))
  }

  function ManifestToToml(m: Manifest): string {
    Join(ManifestLines(m), "\n") + "\n"
  }

  // ----- parsing -----------------------------------------------------------------------------------

  function StrAt(t: Table, key: string): Option<string> {
    if key in t && t[key].Str? then Some(t[key].text) else None
  }

  /** An absent field is None; a field that is not a string is an error. */
  function OptionalAt(t: Table, key: string): Result<Option<string>> {
    if key !in t then Ok(None) else if t[key].Str? then Ok(Some(t[key].text)) else Err("not a string")
  }

  function PortsAt(t: Table): Result<seq<string>> {
    if "ports" !in t then Ok([]) else if t["ports"].Strs? then Ok(t["ports"].items) else Err("not a list")
  }

  function ParseEntry(t: Table): Result<Entry> {
    var tool, purpose, parameters, start := StrAt(t, "tool"), StrAt(t, "purpose"), StrAt(t, "parameters"), StrAt(t, "start");
    if tool.None? || purpose.None? || parameters.None? || start.None? then Err("entry")
    else Ok(Entry(tool.value, purpose.value, parameters.value, start.value))
  }

  function ParseNode(t: Table): Result<Node> {
    var name, kind := StrAt(t, "name"), StrAt(t, "kind");
    var body, skill, next, ports := OptionalAt(t, "body"), OptionalAt(t, "skill"), OptionalAt(t, "next"), PortsAt(t);
    if name.None? || kind.None? || body.Err? || skill.Err? || next.Err? || ports.Err? then Err("node")
    else Ok(Node(name.value, KindOf(kind.value), body.value, skill.value, next.value, ports.value))
  }

  function ParseSetting(t: Table): Result<Setting> {
    var name, purpose := StrAt(t, "name"), StrAt(t, "purpose");
    if name.None? || purpose.None? || "secret" !in t || !t["secret"].Bool? then Err("setting")
    else Ok(Setting(name.value, purpose.value, t["secret"].flag))
  }

  function ParseAll<T>(rows: seq<Table>, parse: Table -> Result<T>): Result<seq<T>> {
    if rows == [] then Ok([])
    else
      var front, last := ParseAll(rows[..|rows| - 1], parse), parse(rows[|rows| - 1]);
      if front.Err? || last.Err? then Err("row") else Ok(front.value + [last.value])
  }

  /** The elements of an array of tables, none when it is absent; a plain table of that name is an error. */
  function Rows(d: Doc, name: string): Result<seq<Table>> {
    if name in d.root || name in d.tables then Err("not an array of tables") else Ok(Tables(d, name))
  }

  function ParseDoc(d: Doc): Result<Manifest> {
    if "plugin" !in d.tables then Err("no plugin table")
    else
      var t := d.tables["plugin"];
      var name, version, description := StrAt(t, "name"), StrAt(t, "version"), StrAt(t, "description");
      var entryRows, nodeRows, settingRows := Rows(d, "entry"), Rows(d, "node"), Rows(d, "setting");
      if entryRows.Err? || nodeRows.Err? || settingRows.Err? then Err("not an array of tables")
      else
        var entries := ParseAll(entryRows.value, ParseEntry);
        var nodes := ParseAll(nodeRows.value, ParseNode);
        var settings := ParseAll(settingRows.value, ParseSetting);
        if name.None? || version.None? || description.None? || entries.Err? || nodes.Err? || settings.Err? then Err("field")
        else Ok(Manifest(name.value, version.value, description.value, entries.value, nodes.value, settings.value))
  }

  function ParseManifest(text: string): Result<Manifest> {
    var d := ReadToml(text);
    if d.None? then Err("not TOML") else ParseDoc(d.value)
  }

  // ----- one table read back -----------------------------------------------------------------------

  function TableOf(pairs: Pairs): Table {
    if pairs == [] then map[]
    else TableOf(pairs[..|pairs| - 1])[pairs[|pairs| - 1].0 := pairs[|pairs| - 1].1]
  }

  /** Bare keys from `keys`, each once, and no empty array. */
  ghost predicate Tidy(pairs: Pairs, keys: set<string>) {
    && (forall p :: p in pairs ==> p.0 in keys && BareKey(p.0) && (p.1.Strs? ==> p.1.items != []))
    && (forall i, j :: 0 <= i < j < |pairs| ==> pairs[i].0 != pairs[j].0)
  }

  lemma {:induction false} TidySnoc(pairs: Pairs, keys: set<string>, key: string, value: Value)
    requires Tidy(pairs, keys) && key !in keys && BareKey(key) && (value.Strs? ==> value.items != [])
    ensures Tidy(pairs + [(key, value)], keys + {key})
    ensures TableOf(pairs + [(key, value)]) == TableOf(pairs)[key := value]
  {
  }

  lemma {:induction false} TidyMore(pairs: Pairs, keys: set<string>, more: set<string>)
    requires Tidy(pairs, keys)
    ensures Tidy(pairs, keys + more)
  {
  }

  lemma {:induction false} TableKeys(pairs: Pairs, keys: set<string>)
    requires Tidy(pairs, keys)
    ensures TableOf(pairs).Keys <= keys
    ensures forall k :: k in TableOf(pairs) ==> exists p :: p in pairs && p.0 == k
    decreases |pairs|
  {
    if pairs == [] {
    } else {
      var front, last := pairs[..|pairs| - 1], pairs[|pairs| - 1];
      assert pairs == front + [last];
      TableKeys(front, keys);
    }
  }

  lemma {:induction false} ValueBack(key: string, value: Value)
    requires BareKey(key) && (value.Strs? ==> value.items != [])
    ensures ReadLine(PairLine(key, PrintValue(value))) == Some(Pair(key, value))
  {
    hide ReadLine, TomlString, PrintItems;
    match value
    case Str(text) => StrPairBack(key, text);
    case Strs(items) => StrsPairBack(key, items);
    case Bool(flag) => BoolPairBack(key, flag);
  }

  /** The document with one more pair in the table being filled. */
  function Filled(d: Doc, t: Table): Doc {
    match d.place
    case Root => d
    case InTable(name) => d.(tables := d.tables[name := t])
    case InArray(name) =>
      var rows := Tables(d, name);
      if rows == [] then d else d.(arrays := d.arrays[name := rows[..|rows| - 1] + [t]])
  }

  /** A table was just opened and is still empty. */
  predicate Opened(d: Doc) {
    match d.place
    case Root => false
    case InTable(name) => name in d.tables && d.tables[name] == map[]
    case InArray(name) => Tables(d, name) != [] && Tables(d, name)[|Tables(d, name)| - 1] == map[]
  }

  lemma {:induction false} FillStep(d: Doc, t: Table, key: string, value: Value)
    requires Opened(d) && key !in t
    ensures Take(Filled(d, t), Pair(key, value)) == Some(Filled(d, t[key := value]))
  {
    match d.place
    case Root =>
    case InTable(name) =>
      assert d.tables[name := t][name := t[key := value]] == d.tables[name := t[key := value]];
    case InArray(name) =>
      var rows := Tables(d, name);
      assert (rows[..|rows| - 1] + [t])[..|rows| - 1] == rows[..|rows| - 1];
      var next := rows[..|rows| - 1] + [t[key := value]];
      assert d.arrays[name := rows[..|rows| - 1] + [t]][name := next] == d.arrays[name := next];
  }

  lemma {:induction false} FilledEmpty(d: Doc)
    requires Opened(d)
    ensures Filled(d, map[]) == d
  {
    match d.place
    case Root =>
    case InTable(name) => assert d.tables[name := map[]] == d.tables;
    case InArray(name) =>
      var rows := Tables(d, name);
      assert rows[..|rows| - 1] + [map[]] == rows;
      assert d.arrays[name := rows] == d.arrays;
  }

  lemma {:induction false} PairsBack(d: Doc, pairs: Pairs, keys: set<string>)
    requires Opened(d) && Tidy(pairs, keys)
    ensures ReadLines(d, PairLines(pairs)) == Some(Filled(d, TableOf(pairs)))
    decreases |pairs|
  {
    if pairs == [] {
      FilledEmpty(d);
    } else {
      var front, last := pairs[..|pairs| - 1], pairs[|pairs| - 1];
      assert pairs == front + [last];
      PairsBack(d, front, keys);
      TableKeys(front, keys);
      LastKeyIsNew(front, last, keys);
      var line := PairLine(last.0, PrintValue(last.1));
      ValueBack(last.0, last.1);
      FillStep(d, TableOf(front), last.0, last.1);
      hide Filled, Take, ReadLine, PairLine, PrintValue, Tidy, Opened;
      ReadLinesJoin(d, PairLines(front), [line]);
      assert [line][1..] == [];
    }
  }

  lemma {:induction false} LastKeyIsNew(front: Pairs, last: (string, Value), keys: set<string>)
    requires Tidy(front + [last], keys) && Tidy(front, keys)
    ensures last.0 !in TableOf(front) && BareKey(last.0) && (last.1.Strs? ==> last.1.items != [])
  {
    TableKeys(front, keys);
    var pairs := front + [last];
    assert pairs[|front|] in pairs;
    forall p | p in front ensures p.0 != last.0 {
      var i :| 0 <= i < |front| && front[i] == p;
      assert pairs[i].0 != pairs[|front|].0;
    }
  }

  /** The document with more elements in one of its arrays. */
  function Grown(d: Doc, name: string, rows: seq<Table>): Doc {
    if rows == [] then d else d.(arrays := d.arrays[name := Tables(d, name) + rows], place := InArray(name))
  }

  function TablesOf(rows: seq<Pairs>): seq<Table> {
    seq(|rows|, i requires 0 <= i < |rows| => TableOf(rows[i]))
  }

  lemma {:induction false} OneLine(d: Doc, line: string)
    ensures ReadLines(d, [line]) == TakeText(d, line)
  {
  }

  lemma {:induction false} BlankTaken(d: Doc)
    ensures TakeText(d, "") == Some(d)
  {
  }

  lemma {:induction false} HeaderTaken(d: Doc, name: string)
    requires BareKey(name) && name !in d.root && name !in d.tables
    ensures ReadLines(d, ["", "[[" + name + "]]"])
            == Some(d.(arrays := d.arrays[name := Tables(d, name) + [map[]]], place := InArray(name)))
  {
    var header := "[[" + name + "]]";
    HeaderBack(name);
    BlankTaken(d);
    hide ReadLine;
    OneLine(d, "");
    OneLine(d, header);
    ReadLinesJoin(d, [""], [header]);
    assert [""] + [header] == ["", header];
  }

  lemma {:induction false} FilledIsGrown(d: Doc, name: string, t: Table)
    ensures var open := d.(arrays := d.arrays[name := Tables(d, name) + [map[]]], place := InArray(name));
            Filled(open, t) == Grown(d, name, [t])
  {
  }

  lemma {:induction false} RowBack(d: Doc, name: string, pairs: Pairs, keys: set<string>)
    requires BareKey(name) && name !in d.root && name !in d.tables && Tidy(pairs, keys)
    ensures ReadLines(d, RowLines(name, pairs)) == Some(Grown(d, name, [TableOf(pairs)]))
  {
    var open := d.(arrays := d.arrays[name := Tables(d, name) + [map[]]], place := InArray(name));
    var header := "[[" + name + "]]";
    HeaderTaken(d, name);
    PairsBack(open, pairs, keys);
    ReadLinesJoin(d, ["", header], PairLines(pairs));
    hide ReadLines, TableOf, PairLines;
    FilledIsGrown(d, name, TableOf(pairs));
  }

  lemma {:induction false} RowsBack(d: Doc, name: string, rows: seq<Pairs>, keys: set<string>)
    requires BareKey(name) && name !in d.root && name !in d.tables && forall r :: r in rows ==> Tidy(r, keys)
    ensures ReadLines(d, RowsLines(name, rows)) == Some(Grown(d, name, TablesOf(rows)))
    decreases |rows|
  {
    if rows == [] {
    } else {
      var front, last := rows[..|rows| - 1], rows[|rows| - 1];
      RowsBack(d, name, front, keys);
      var middle := Grown(d, name, TablesOf(front));
      TablesSnoc(rows);
      assert middle.root == d.root && middle.tables == d.tables;
      hide ReadLines, RowLines, TableOf, TablesOf, Grown, Tidy, BareKey;
      RowBack(middle, name, last, keys);
      ReadLinesJoin(d, RowsLines(name, front), RowLines(name, last));
      GrownTwice(d, name, TablesOf(front), TableOf(last));
    }
  }

  lemma {:induction false} TablesSnoc(rows: seq<Pairs>)
    requires rows != []
    ensures TablesOf(rows) == TablesOf(rows[..|rows| - 1]) + [TableOf(rows[|rows| - 1])]
  {
    hide TableOf;
  }

  lemma {:induction false} GrownTwice(d: Doc, name: string, rows: seq<Table>, row: Table)
    ensures Grown(Grown(d, name, rows), name, [row]) == Grown(d, name, rows + [row])
  {
    if rows == [] {
      assert rows + [row] == [row];
    } else {
      assert Tables(d, name) + rows + [row] == Tables(d, name) + (rows + [row]);
    }
  }

  // ----- the rows of a manifest --------------------------------------------------------------------

  function With(t: Table, key: string, text: Option<string>): Table {
    if text.None? then t else t[key := Str(text.value)]
  }

  function WithPorts(t: Table, ports: seq<string>): Table {
    if ports == [] then t else t["ports" := Strs(ports)]
  }

  lemma {:induction false} TidyNone()
    ensures Tidy([], {}) && TableOf([]) == map[]
  {
  }

  lemma {:induction false} KeysAreBare()
    ensures BareKey("plugin") && BareKey("entry") && BareKey("node") && BareKey("setting")
    ensures BareKey("name") && BareKey("version") && BareKey("description") && BareKey("purpose") && BareKey("secret")
    ensures BareKey("tool") && BareKey("parameters") && BareKey("start") && BareKey("kind")
    ensures BareKey("body") && BareKey("skill") && BareKey("next") && BareKey("ports")
  {
    hide *;
    HeaderKeysAreBare();
    PluginKeysAreBare();
    SettingKeysAreBare();
    EntryKeysAreBare();
    NodeKeysAreBare();
  }

  lemma {:induction false} HeaderKeysAreBare()
    ensures BareKey("plugin") && BareKey("entry") && BareKey("node") && BareKey("setting")
  {
  }

  lemma {:induction false} PluginKeysAreBare()
    ensures BareKey("name") && BareKey("version") && BareKey("description")
  {
  }

  lemma {:induction false} SettingKeysAreBare()
    ensures BareKey("purpose") && BareKey("secret")
  {
  }

  lemma {:induction false} EntryKeysAreBare()
    ensures BareKey("tool") && BareKey("parameters") && BareKey("start") && BareKey("kind")
  {
  }

  lemma {:induction false} NodeKeysAreBare()
    ensures BareKey("body") && BareKey("skill") && BareKey("next") && BareKey("ports")
  {
  }

  lemma {:induction false} EntryBack(e: Entry)
    ensures Tidy(EntryPairs(e), {"tool", "purpose", "parameters", "start"})
    ensures ParseEntry(TableOf(EntryPairs(e))) == Ok(e)
  {
    KeysAreBare();
    TidyNone();
    hide Tidy, TableOf, BareKey;
    var a: Pairs := [];
    TidySnoc(a, {}, "tool", Str(e.tool));
    var b := a + [("tool", Str(e.tool))];
    TidySnoc(b, {"tool"}, "purpose", Str(e.purpose));
    var c := b + [("purpose", Str(e.purpose))];
    TidySnoc(c, {"tool", "purpose"}, "parameters", Str(e.parameters));
    var d := c + [("parameters", Str(e.parameters))];
    TidySnoc(d, {"tool", "purpose", "parameters"}, "start", Str(e.start));
    assert d + [("start", Str(e.start))] == EntryPairs(e);
    assert {"tool", "purpose", "parameters"} + {"start"} == {"tool", "purpose", "parameters", "start"};
  }

  lemma {:induction false} SettingBack(s: Setting)
    ensures Tidy(SettingPairs(s), {"name", "purpose", "secret"})
    ensures ParseSetting(TableOf(SettingPairs(s))) == Ok(s)
  {
    KeysAreBare();
    TidyNone();
    hide Tidy, TableOf, BareKey;
    var a: Pairs := [];
    TidySnoc(a, {}, "name", Str(s.name));
    var b := a + [("name", Str(s.name))];
    TidySnoc(b, {"name"}, "purpose", Str(s.purpose));
    var c := b + [("purpose", Str(s.purpose))];
    TidySnoc(c, {"name", "purpose"}, "secret", Bool(s.secret));
    assert c + [("secret", Bool(s.secret))] == SettingPairs(s);
    assert {"name", "purpose"} + {"secret"} == {"name", "purpose", "secret"};
  }

  lemma {:induction false} PluginBack(m: Manifest)
    ensures Tidy(PluginPairs(m), {"name", "version", "description"})
    ensures var t := TableOf(PluginPairs(m));
            && StrAt(t, "name") == Some(m.name) && StrAt(t, "version") == Some(m.version)
            && StrAt(t, "description") == Some(m.description)
  {
    KeysAreBare();
    TidyNone();
    hide Tidy, TableOf, BareKey;
    var a: Pairs := [];
    TidySnoc(a, {}, "name", Str(m.name));
    var b := a + [("name", Str(m.name))];
    TidySnoc(b, {"name"}, "version", Str(m.version));
    var c := b + [("version", Str(m.version))];
    TidySnoc(c, {"name", "version"}, "description", Str(m.description));
    assert c + [("description", Str(m.description))] == PluginPairs(m);
    assert {"name", "version"} + {"description"} == {"name", "version", "description"};
  }

  lemma {:induction false} OptionalStep(pairs: Pairs, keys: set<string>, key: string, text: Option<string>)
    requires Tidy(pairs, keys) && key !in keys && BareKey(key)
    ensures Tidy(pairs + Optional(key, text), keys + {key})
    ensures TableOf(pairs + Optional(key, text)) == With(TableOf(pairs), key, text)
  {
    if text.None? {
      assert pairs + Optional(key, text) == pairs;
      TidyMore(pairs, keys, {key});
    } else {
      TidySnoc(pairs, keys, key, Str(text.value));
    }
  }

  lemma {:induction false} PortsStep(pairs: Pairs, keys: set<string>, ports: seq<string>)
    requires Tidy(pairs, keys) && "ports" !in keys
    ensures Tidy(pairs + Ports(ports), keys + {"ports"})
    ensures TableOf(pairs + Ports(ports)) == WithPorts(TableOf(pairs), ports)
  {
    if ports == [] {
      assert pairs + Ports(ports) == pairs;
      TidyMore(pairs, keys, {"ports"});
    } else {
      KeysAreBare();
      hide BareKey;
      TidySnoc(pairs, keys, "ports", Strs(ports));
    }
  }

  function NodeStartPairs(n: Node): Pairs {
    [("name", Str(n.name)), ("kind", Str(KindWord(n.kind)))]
  }

  lemma {:induction false} NodeStart(n: Node)
    ensures Tidy(NodeStartPairs(n), {"name", "kind"})
    ensures TableOf(NodeStartPairs(n)) == map["name" := Str(n.name), "kind" := Str(KindWord(n.kind))]
  {
    KeysAreBare();
    TidyNone();
    hide Tidy, TableOf, BareKey, KindWord;
    var a: Pairs := [];
    TidySnoc(a, {}, "name", Str(n.name));
    var b := a + [("name", Str(n.name))];
    TidySnoc(b, {"name"}, "kind", Str(KindWord(n.kind)));
    assert b + [("kind", Str(KindWord(n.kind)))] == NodeStartPairs(n);
    assert {"name"} + {"kind"} == {"name", "kind"};
  }

  function NodeTable(n: Node): Table {
    var t := map["name" := Str(n.name), "kind" := Str(KindWord(n.kind))];
    WithPorts(With(With(With(t, "body", n.body), "skill", n.skill), "next", n.next), n.ports)
  }

  lemma {:induction false} NodeTableIs(n: Node)
    ensures Tidy(NodePairs(n), {"name", "kind", "body", "skill", "next", "ports"})
    ensures TableOf(NodePairs(n)) == NodeTable(n)
  {
    NodeStart(n);
    KeysAreBare();
    hide Tidy, TableOf, KindOf, KindWord, With, WithPorts, BareKey, NodeStartPairs, Optional, Ports;
    var a := NodeStartPairs(n);
    OptionalStep(a, {"name", "kind"}, "body", n.body);
    var b := a + Optional("body", n.body);
    assert {"name", "kind"} + {"body"} == {"name", "kind", "body"};
    OptionalStep(b, {"name", "kind", "body"}, "skill", n.skill);
    var c := b + Optional("skill", n.skill);
    assert {"name", "kind", "body"} + {"skill"} == {"name", "kind", "body", "skill"};
    OptionalStep(c, {"name", "kind", "body", "skill"}, "next", n.next);
    var d := c + Optional("next", n.next);
    assert {"name", "kind", "body", "skill"} + {"next"} == {"name", "kind", "body", "skill", "next"};
    PortsStep(d, {"name", "kind", "body", "skill", "next"}, n.ports);
    assert {"name", "kind", "body", "skill", "next"} + {"ports"} == {"name", "kind", "body", "skill", "next", "ports"};
    NodePairsAre(n);
  }

  lemma {:induction false} NodePairsAre(n: Node)
    ensures NodePairs(n)
            == NodeStartPairs(n) + Optional("body", n.body) + Optional("skill", n.skill) + Optional("next", n.next)
               + Ports(n.ports)
  {
  }

  /** A field set, or left out, is found again, and setting it disturbs no other. */
  lemma {:induction false} WithAt(t: Table, key: string, text: Option<string>, other: string)
    requires key !in t && key != other && key != "ports"
    ensures OptionalAt(With(t, key, text), key) == Ok(text)
    ensures OptionalAt(With(t, key, text), other) == OptionalAt(t, other) && StrAt(With(t, key, text), other) == StrAt(t, other)
    ensures other in With(t, key, text) <==> other in t
  {
  }

  lemma {:induction false} WithPortsAt(t: Table, ports: seq<string>, other: string)
    requires "ports" !in t && other != "ports"
    ensures PortsAt(WithPorts(t, ports)) == Ok(ports)
    ensures OptionalAt(WithPorts(t, ports), other) == OptionalAt(t, other) && StrAt(WithPorts(t, ports), other) == StrAt(t, other)
  {
  }

  lemma {:induction false} NodeBack(n: Node)
    requires Canonical(n)
    ensures Tidy(NodePairs(n), {"name", "kind", "body", "skill", "next", "ports"})
    ensures ParseNode(TableOf(NodePairs(n))) == Ok(n)
  {
    NodeTableIs(n);
    hide Tidy, TableOf, With, WithPorts, KindOf, KindWord, NodePairs;
    var a: Table := map["name" := Str(n.name), "kind" := Str(KindWord(n.kind))];
    assert StrAt(a, "name") == Some(n.name) && StrAt(a, "kind") == Some(KindWord(n.kind));
    assert "body" !in a && "skill" !in a && "next" !in a && "ports" !in a;
    hide StrAt, OptionalAt, PortsAt;
    WithAt(a, "body", n.body, "name");
    WithAt(a, "body", n.body, "kind");
    WithAt(a, "body", n.body, "skill");
    WithAt(a, "body", n.body, "next");
    WithAt(a, "body", n.body, "ports");
    var b := With(a, "body", n.body);
    WithAt(b, "skill", n.skill, "name");
    WithAt(b, "skill", n.skill, "kind");
    WithAt(b, "skill", n.skill, "body");
    WithAt(b, "skill", n.skill, "next");
    WithAt(b, "skill", n.skill, "ports");
    var c := With(b, "skill", n.skill);
    WithAt(c, "next", n.next, "name");
    WithAt(c, "next", n.next, "kind");
    WithAt(c, "next", n.next, "body");
    WithAt(c, "next", n.next, "skill");
    WithAt(c, "next", n.next, "ports");
    var d := With(c, "next", n.next);
    WithPortsAt(d, n.ports, "name");
    WithPortsAt(d, n.ports, "kind");
    WithPortsAt(d, n.ports, "body");
    WithPortsAt(d, n.ports, "skill");
    WithPortsAt(d, n.ports, "next");
  }

  // ----- the whole file ----------------------------------------------------------------------------

  /** What a reader of TOML makes of the printed file. */
  function Printed(m: Manifest): Doc {
    var d := EMPTY.(tables := map["plugin" := TableOf(PluginPairs(m))], place := InTable("plugin"));
    Grown(Grown(Grown(d, "entry", TablesOf(EntryRows(m.entries))), "node", TablesOf(NodeRows(m.nodes))),
          "setting", TablesOf(SettingRows(m.settings)))
  }

  lemma {:induction false} PluginHeaderTaken()
    ensures ReadLines(EMPTY, ["[plugin]"]) == Some(EMPTY.(tables := map["plugin" := map[]], place := InTable("plugin")))
  {
    KeysAreBare();
    HeaderBack("plugin");
    assert "[" + "plugin" + "]" == "[plugin]";
    hide ReadLine, BareKey;
    OneLine(EMPTY, "[plugin]");
  }

  lemma {:induction false} PluginRead(m: Manifest)
    ensures ReadLines(EMPTY, ["[plugin]"] + PairLines(PluginPairs(m)))
            == Some(EMPTY.(tables := map["plugin" := TableOf(PluginPairs(m))], place := InTable("plugin")))
  {
    var open := EMPTY.(tables := map["plugin" := map[]], place := InTable("plugin"));
    PluginHeaderTaken();
    PluginBack(m);
    hide ReadLines, PairLines, PluginPairs, TableOf, Tidy;
    PairsBack(open, PluginPairs(m), {"name", "version", "description"});
    assert map["plugin" := map[]]["plugin" := TableOf(PluginPairs(m))] == map["plugin" := TableOf(PluginPairs(m))];
    ReadLinesJoin(EMPTY, ["[plugin]"], PairLines(PluginPairs(m)));
  }

  lemma {:induction false} LinesBack(m: Manifest)
    requires forall n :: n in m.nodes ==> Canonical(n)
    ensures ReadLines(EMPTY, ManifestLines(m)) == Some(Printed(m))
  {
    var head := ["[plugin]"] + PairLines(PluginPairs(m));
    var entries, nodes, settings := EntryRows(m.entries), NodeRows(m.nodes), SettingRows(m.settings);
    PluginRead(m);
    KeysAreBare();
    RowsAreTidy(m);
    var a := ReadLines(EMPTY, head).value;
    hide ReadLines, RowsLines, PairLines, EntryRows, NodeRows, SettingRows, Tidy, BareKey, TableOf, TablesOf;
    RowsBack(a, "entry", entries, {"tool", "purpose", "parameters", "start"});
    ReadLinesJoin(EMPTY, head, RowsLines("entry", entries));
    var b := Grown(a, "entry", TablesOf(entries));
    RowsBack(b, "node", nodes, {"name", "kind", "body", "skill", "next", "ports"});
    ReadLinesJoin(EMPTY, head + RowsLines("entry", entries), RowsLines("node", nodes));
    var c := Grown(b, "node", TablesOf(nodes));
    RowsBack(c, "setting", settings, {"name", "purpose", "secret"});
    ReadLinesJoin(EMPTY, head + RowsLines("entry", entries) + RowsLines("node", nodes), RowsLines("setting", settings));
  }

  lemma {:induction false} RowsAreTidy(m: Manifest)
    requires forall n :: n in m.nodes ==> Canonical(n)
    ensures forall r :: r in EntryRows(m.entries) ==> Tidy(r, {"tool", "purpose", "parameters", "start"})
    ensures forall r :: r in NodeRows(m.nodes) ==> Tidy(r, {"name", "kind", "body", "skill", "next", "ports"})
    ensures forall r :: r in SettingRows(m.settings) ==> Tidy(r, {"name", "purpose", "secret"})
  {
    hide Tidy, NodePairs, EntryPairs, SettingPairs, Canonical;
    forall i | 0 <= i < |m.entries| ensures Tidy(EntryRows(m.entries)[i], {"tool", "purpose", "parameters", "start"}) {
      EntryBack(m.entries[i]);
    }
    forall i | 0 <= i < |m.nodes| ensures Tidy(NodeRows(m.nodes)[i], {"name", "kind", "body", "skill", "next", "ports"}) {
      NodeBack(m.nodes[i]);
    }
    forall i | 0 <= i < |m.settings| ensures Tidy(SettingRows(m.settings)[i], {"name", "purpose", "secret"}) {
      SettingBack(m.settings[i]);
    }
  }

  lemma {:induction false} ParseAllSnoc<T>(rows: seq<Table>, row: Table, parse: Table -> Result<T>)
    requires ParseAll(rows, parse).Ok? && parse(row).Ok?
    ensures ParseAll(rows + [row], parse) == Ok(ParseAll(rows, parse).value + [parse(row).value])
  {
  }

  lemma {:induction false} EntriesParse(entries: seq<Entry>)
    ensures ParseAll(TablesOf(EntryRows(entries)), ParseEntry) == Ok(entries)
    decreases |entries|
  {
    if entries == [] {
    } else {
      var front, last := entries[..|entries| - 1], entries[|entries| - 1];
      EntriesParse(front);
      EntryBack(last);
      hide *;
      assert entries == front + [last];
      EntryRowsSnoc(front, last);
      ParseAllSnoc(TablesOf(EntryRows(front)), TableOf(EntryPairs(last)), ParseEntry);
    }
  }

  lemma {:induction false} EntryRowsSnoc(front: seq<Entry>, last: Entry)
    ensures TablesOf(EntryRows(front + [last])) == TablesOf(EntryRows(front)) + [TableOf(EntryPairs(last))]
  {
  }

  lemma {:induction false} NoRows()
    ensures ParseAll(TablesOf(NodeRows([])), ParseNode) == Ok([])
  {
  }

  lemma {:induction false} NodesParse(nodes: seq<Node>)
    requires forall n :: n in nodes ==> Canonical(n)
    ensures ParseAll(TablesOf(NodeRows(nodes)), ParseNode) == Ok(nodes)
    decreases |nodes|
  {
    hide *;
    if nodes == [] {
      NoRows();
    } else {
      var front, last := nodes[..|nodes| - 1], nodes[|nodes| - 1];
      NodesParse(front);
      NodeBack(last);
      assert nodes == front + [last];
      NodeRowsSnoc(front, last);
      ParseAllSnoc(TablesOf(NodeRows(front)), TableOf(NodePairs(last)), ParseNode);
    }
  }

  lemma {:induction false} NodeRowsSnoc(front: seq<Node>, last: Node)
    ensures TablesOf(NodeRows(front + [last])) == TablesOf(NodeRows(front)) + [TableOf(NodePairs(last))]
  {
  }

  lemma {:induction false} SettingsParse(settings: seq<Setting>)
    ensures ParseAll(TablesOf(SettingRows(settings)), ParseSetting) == Ok(settings)
    decreases |settings|
  {
    if settings == [] {
    } else {
      var front, last := settings[..|settings| - 1], settings[|settings| - 1];
      SettingsParse(front);
      SettingBack(last);
      hide *;
      assert settings == front + [last];
      SettingRowsSnoc(front, last);
      ParseAllSnoc(TablesOf(SettingRows(front)), TableOf(SettingPairs(last)), ParseSetting);
    }
  }

  lemma {:induction false} SettingRowsSnoc(front: seq<Setting>, last: Setting)
    ensures TablesOf(SettingRows(front + [last])) == TablesOf(SettingRows(front)) + [TableOf(SettingPairs(last))]
  {
  }

  lemma {:induction false} DocBack(m: Manifest)
    requires forall n :: n in m.nodes ==> Canonical(n)
    ensures ParseDoc(Printed(m)) == Ok(m)
  {
    hide ParseAll, TableOf, TablesOf, EntryRows, NodeRows, SettingRows, ParseEntry, ParseNode, ParseSetting;
    hide PluginPairs, Canonical, StrAt, Rows, Printed, Tidy;
    EntriesParse(m.entries);
    NodesParse(m.nodes);
    SettingsParse(m.settings);
    PluginBack(m);
    RowsOfPrinted(m);
  }

  /** An array grows by what was added to it, and nothing else changes. */
  lemma {:induction false} GrownAt(d: Doc, name: string, rows: seq<Table>, other: string)
    requires other != name
    ensures Tables(Grown(d, name, rows), name) == Tables(d, name) + rows
    ensures Tables(Grown(d, name, rows), other) == Tables(d, other)
    ensures Grown(d, name, rows).root == d.root && Grown(d, name, rows).tables == d.tables
  {
  }

  lemma {:induction false} RowsOfPrinted(m: Manifest)
    ensures Rows(Printed(m), "entry") == Ok(TablesOf(EntryRows(m.entries)))
    ensures Rows(Printed(m), "node") == Ok(TablesOf(NodeRows(m.nodes)))
    ensures Rows(Printed(m), "setting") == Ok(TablesOf(SettingRows(m.settings)))
    ensures "plugin" in Printed(m).tables && Printed(m).tables["plugin"] == TableOf(PluginPairs(m))
  {
    var d := EMPTY.(tables := map["plugin" := TableOf(PluginPairs(m))], place := InTable("plugin"));
    assert Tables(d, "entry") == Tables(d, "node") == Tables(d, "setting") == [];
    assert "entry" !in d.tables && "node" !in d.tables && "setting" !in d.tables;
    hide TableOf, TablesOf, EntryRows, NodeRows, SettingRows, PluginPairs, Grown, Tables;
    var entries, nodes := TablesOf(EntryRows(m.entries)), TablesOf(NodeRows(m.nodes));
    var settings := TablesOf(SettingRows(m.settings));
    GrownAt(d, "entry", entries, "node");
    GrownAt(d, "entry", entries, "setting");
    var a := Grown(d, "entry", entries);
    GrownAt(a, "node", nodes, "entry");
    GrownAt(a, "node", nodes, "setting");
    var b := Grown(a, "node", nodes);
    GrownAt(b, "setting", settings, "entry");
    GrownAt(b, "setting", settings, "node");
    assert [] + entries == entries && [] + nodes == nodes && [] + settings == settings;
  }

  // ----- lines -------------------------------------------------------------------------------------

  lemma {:induction false} ItemsStay(items: seq<string>)
    ensures '\n' !in Join(Quoted(items), ", ")
  {
    if items == [] {
    } else {
      StaysOnItsLine(items[0]);
      hide TomlString;
      ItemsStay(items[1..]);
      assert Quoted(items)[1..] == Quoted(items[1..]);
    }
  }

  lemma {:induction false} PairsStay(pairs: Pairs, keys: set<string>)
    requires Tidy(pairs, keys)
    ensures forall l :: l in PairLines(pairs) ==> '\n' !in l
    decreases |pairs|
  {
    if pairs == [] {
    } else {
      var front, last := pairs[..|pairs| - 1], pairs[|pairs| - 1];
      assert pairs == front + [last];
      PairsStay(front, keys);
      ValueStays(last.1);
      assert '\n' !in last.0;
    }
  }

  lemma {:induction false} ValueStays(v: Value)
    ensures '\n' !in PrintValue(v)
  {
    match v
    case Str(text) => StaysOnItsLine(text);
    case Strs(items) => ItemsStay(items);
    case Bool(_) =>
  }

  lemma {:induction false} RowsStay(name: string, rows: seq<Pairs>, keys: set<string>)
    requires BareKey(name) && forall r :: r in rows ==> Tidy(r, keys)
    ensures forall l :: l in RowsLines(name, rows) ==> '\n' !in l
    decreases |rows|
  {
    if rows == [] {
    } else {
      RowsStay(name, rows[..|rows| - 1], keys);
      PairsStay(rows[|rows| - 1], keys);
    }
  }

  lemma {:induction false} LinesStay(m: Manifest)
    requires forall n :: n in m.nodes ==> Canonical(n)
    ensures forall l :: l in ManifestLines(m) ==> '\n' !in l
  {
    RowsAreTidy(m);
    PluginBack(m);
    KeysAreBare();
    hide Tidy, BareKey, EntryRows, NodeRows, SettingRows;
    PairsStay(PluginPairs(m), {"name", "version", "description"});
    RowsStay("entry", EntryRows(m.entries), {"tool", "purpose", "parameters", "start"});
    RowsStay("node", NodeRows(m.nodes), {"name", "kind", "body", "skill", "next", "ports"});
    RowsStay("setting", SettingRows(m.settings), {"name", "purpose", "secret"});
    hide PairLines, RowsLines, PluginPairs;
  }

  lemma {:induction false} JoinSnoc(lines: seq<string>)
    requires lines != []
    ensures Join(lines + [""], "\n") == Join(lines, "\n") + "\n"
  {
    if |lines| == 1 {
      assert (lines + [""])[1..] == [""];
    } else {
      JoinSnoc(lines[1..]);
      assert (lines + [""])[1..] == lines[1..] + [""];
    }
  }

  /** Every manifest survives being written and read again: absent fields come back absent, empty ports
      empty, and every character of every string unchanged. */
  lemma {:induction false} RoundTrip(m: Manifest)
    requires forall n :: n in m.nodes ==> Canonical(n)
    ensures ParseManifest(ManifestToToml(m)) == Ok(m)
  {
    var lines := ManifestLines(m);
    assert lines != [];
    LinesBack(m);
    LinesStay(m);
    DocBack(m);
    hide ManifestLines, ParseDoc, Printed, ReadLine, Canonical;
    JoinSnoc(lines);
    SplitJoin(lines + [""], '\n');
    assert Split(ManifestToToml(m), '\n') == lines + [""];
    ReadLinesJoin(EMPTY, lines, [""]);
    EndBlank(Printed(m));
  }

  lemma {:induction false} EndBlank(d: Doc)
    ensures ReadLines(d, [""]) == Some(d)
  {
  }

  /** Two manifests are never written the same way. */
  lemma {:induction false} PrintInjective(a: Manifest, b: Manifest)
    requires (forall n :: n in a.nodes ==> Canonical(n)) && (forall n :: n in b.nodes ==> Canonical(n))
    requires ManifestToToml(a) == ManifestToToml(b)
    ensures a == b
  {
    RoundTrip(a);
    RoundTrip(b);
  }

  /** The printer, appending to a list of lines. */
  method PrintManifest(m: Manifest) returns (text: string)
    ensures text == ManifestToToml(m)
  {
    hide PairLines, PluginPairs, RowsLines, EntryRows, NodeRows, SettingRows, Join;
    var lines := ["[plugin]"] + PairLines(PluginPairs(m));
    lines := AddRows(lines, "entry", EntryRows(m.entries));
    lines := AddRows(lines, "node", NodeRows(m.nodes));
    lines := AddRows(lines, "setting", SettingRows(m.settings));
    text := Join(lines, "\n") + "\n";
  }

  method AddRows(before: seq<string>, name: string, rows: seq<Pairs>) returns (lines: seq<string>)
    ensures lines == before + RowsLines(name, rows)
  {
    hide RowLines;
    lines := before;
    for i := 0 to |rows|
      invariant lines == before + RowsLines(name, rows[..i])
    {
      RowsSnoc(name, rows, i);
      lines := lines + RowLines(name, rows[i]);
    }
    assert rows[..|rows|] == rows;
  }

  lemma {:induction false} RowsSnoc(name: string, rows: seq<Pairs>, i: nat)
    requires i < |rows|
    ensures RowsLines(name, rows[..i + 1]) == RowsLines(name, rows[..i]) + RowLines(name, rows[i])
  {
    assert rows[..i + 1][..i] == rows[..i];
  }
}
