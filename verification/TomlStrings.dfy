/**
  Basic strings of TOML v1.0.0: how `toml_string` (plugins.py) writes one, and how a reader takes it
  back. A Dafny `char` is a Unicode scalar value, so the lone surrogates `toml_string` refuses cannot
  be written down here.
 */
module TomlStrings {
  import opened Options
  import opened Text

  const DELETE: char := '\U{7F}'

  const QUOTE: char := '"'

  const BACKSLASH: char := '\\'

  // ----- writing -----------------------------------------------------------------------------------

  /** One character as a JSON string spells it, non-ASCII characters being left alone. */
  function JsonChar(c: char): string {
    var n := c as int;
    if c == QUOTE || c == BACKSLASH then [BACKSLASH, c]
    else if n == 8 then [BACKSLASH, 'b']
    else if n == 9 then [BACKSLASH, 't']
    else if n == 10 then [BACKSLASH, 'n']
    else if n == 12 then [BACKSLASH, 'f']
    else if n == 13 then [BACKSLASH, 'r']
    else if n < 32 then [BACKSLASH, 'u', '0', '0', HEX_DIGITS[n / 16], HEX_DIGITS[n % 16]]
    else [c]
  }

  function JsonChars(s: string): string {
    if s == [] then [] else JsonChar(s[0]) + JsonChars(s[1..])
  }

  function JsonString(s: string): string {
    [QUOTE] + JsonChars(s) + [QUOTE]
  }

  /** Every U+007F replaced by its escape: JSON allows it as it is, TOML does not. */
  function EscapeDelete(s: string): string {
    if s == [] then []
    else (if s[0] == DELETE then [BACKSLASH, 'u', '0', '0', '7', 'F'] else [s[0]]) + EscapeDelete(s[1..])
  }

  function TomlString(s: string): string {
    EscapeDelete(JsonString(s))
  }

  // ----- reading -----------------------------------------------------------------------------------

  function HexValue(c: char): Option<int> {
    if '0' <= c <= '9' then Some(c as int - '0' as int)
    else if 'a' <= c <= 'f' then Some(c as int - 'a' as int + 10)
    else if 'A' <= c <= 'F' then Some(c as int - 'A' as int + 10)
    else None
  }

  /** The number n hexadecimal digits spell, and what follows them. */
  function ReadHex(s: string, n: nat): (r: Option<(int, string)>)
    ensures r.Some? ==> |r.value.1| <= |s| && r.value.0 >= 0
    decreases n
  {
    if n == 0 then Some((0, s))
    else if |s| < n || HexValue(s[n - 1]).None? then None
    else
      var front := ReadHex(s[..n - 1], n - 1);
      if front.None? then None else Some((front.value.0 * 16 + HexValue(s[n - 1]).value, s[n..]))
  }

  /** Only a Unicode scalar value may be spelled by its number. */
  function ScalarOf(code: int): Option<char> {
    if 0 <= code < 0xD800 || 0xE000 <= code < 0x11_0000 then Some(code as char) else None
  }

  /** What follows a backslash. */
  function ReadEscape(s: string): (r: Option<(char, string)>)
    ensures r.Some? ==> |r.value.1| < |s|
  {
    if s == [] then None
    else if s[0] == QUOTE || s[0] == BACKSLASH then Some((s[0], s[1..]))
    else if s[0] == 'b' then Some(('\U{8}', s[1..]))
    else if s[0] == 't' then Some(('\t', s[1..]))
    else if s[0] == 'n' then Some(('\n', s[1..]))
    else if s[0] == 'f' then Some(('\U{C}', s[1..]))
    else if s[0] == 'r' then Some(('\r', s[1..]))
    else if s[0] == 'u' || s[0] == 'U' then
      var hex := ReadHex(s[1..], if s[0] == 'u' then 4 else 8);
      if hex.None? || ScalarOf(hex.value.0).None? then None else Some((ScalarOf(hex.value.0).value, hex.value.1))
    else None
  }

  /** Control characters other than a tab must not stand in a basic string. */
  predicate Forbidden(c: char) {
    (c as int < 32 && c != '\t') || c == DELETE
  }

  /** The rest of a basic string after its opening quote, and what follows its closing one. */
  function ReadChars(s: string): (r: Option<(string, string)>)
    ensures r.Some? ==> |r.value.1| < |s|
    decreases |s|
  {
    if s == [] then None
    else if s[0] == QUOTE then Some(("", s[1..]))
    else if s[0] == BACKSLASH then
      var escape := ReadEscape(s[1..]);
      if escape.None? then None else Prefixed(escape.value.0, ReadChars(escape.value.1))
    else if Forbidden(s[0]) then None
    else Prefixed(s[0], ReadChars(s[1..]))
  }

  function Prefixed(c: char, r: Option<(string, string)>): Option<(string, string)> {
    if r.None? then None else Some(([c] + r.value.0, r.value.1))
  }

  // ----- the round trip ----------------------------------------------------------------------------

  lemma {:induction false} EscapeDeleteJoins(a: string, b: string)
    ensures EscapeDelete(a + b) == EscapeDelete(a) + EscapeDelete(b)
  {
    if a == [] {
      assert a + b == b;
    } else {
      assert (a + b)[1..] == a[1..] + b;
      EscapeDeleteJoins(a[1..], b);
    }
  }

  lemma {:induction false} EscapeDeleteKeeps(a: string)
    requires DELETE !in a
    ensures EscapeDelete(a) == a
  {
    if a == [] {
    } else {
      EscapeDeleteKeeps(a[1..]);
    }
  }

  /** The character as `toml_string` finally spells it. */
  function TomlChar(c: char): string {
    if c == DELETE then [BACKSLASH, 'u', '0', '0', '7', 'F'] else JsonChar(c)
  }

  function TomlChars(s: string): string {
    if s == [] then [] else TomlChar(s[0]) + TomlChars(s[1..])
  }

  lemma {:induction false} EscapedChar(c: char)
    ensures EscapeDelete(JsonChar(c)) == TomlChar(c)
  {
    if c == DELETE {
      assert JsonChar(c) == [c];
      assert [c][1..] == [];
    } else {
      assert forall d :: d in HEX_DIGITS ==> d != DELETE;
      assert DELETE !in JsonChar(c);
      EscapeDeleteKeeps(JsonChar(c));
    }
  }

  lemma {:induction false} EscapedChars(s: string)
    ensures EscapeDelete(JsonChars(s)) == TomlChars(s)
  {
    if s == [] {
    } else {
      EscapeDeleteJoins(JsonChar(s[0]), JsonChars(s[1..]));
      EscapedChar(s[0]);
      EscapedChars(s[1..]);
    }
  }

  lemma {:induction false} TomlStringIs(s: string)
    ensures TomlString(s) == [QUOTE] + TomlChars(s) + [QUOTE]
  {
    EscapeDeleteJoins([QUOTE] + JsonChars(s), [QUOTE]);
    EscapeDeleteJoins([QUOTE], JsonChars(s));
    EscapeDeleteKeeps([QUOTE]);
    EscapedChars(s);
  }

  lemma {:induction false} HexDigitBack(n: int)
    requires 0 <= n < 16
    ensures HexValue(HEX_DIGITS[n]) == Some(n)
  {
  }

  lemma {:induction false} FourDigits(a: char, b: char, rest: string)
    requires HexValue(a).Some? && HexValue(b).Some?
    ensures ReadHex(['0', '0', a, b] + rest, 4) == Some((HexValue(a).value * 16 + HexValue(b).value, rest))
  {
    var s := ['0', '0', a, b] + rest;
    assert s[..3] == ['0', '0', a] && s[4..] == rest;
    assert ['0', '0', a][..2] == ['0', '0'] && ['0', '0'][..1] == ['0'] && ['0'][..0] == [];
    assert ReadHex(['0'], 1).value.0 == 0;
    assert ReadHex(['0', '0'], 2).value.0 == 0;
    assert ReadHex(['0', '0', a], 3).value.0 == HexValue(a).value;
  }

  lemma {:induction false} UnicodeEscapeBack(a: char, b: char, rest: string)
    requires HexValue(a).Some? && HexValue(b).Some?
    ensures ReadEscape(['u', '0', '0', a, b] + rest)
            == Some(((HexValue(a).value * 16 + HexValue(b).value) as char, rest))
  {
    FourDigits(a, b, rest);
    var s := ['u', '0', '0', a, b] + rest;
    assert s[1..] == ['0', '0', a, b] + rest;
    hide ReadHex;
  }

  /** One character is taken back, whatever follows. */
  lemma {:induction false} CharBack(c: char, rest: string)
    ensures ReadChars(TomlChar(c) + rest) == Prefixed(c, ReadChars(rest))
  {
    var s := TomlChar(c) + rest;
    var n := c as int;
    hide ReadChars, Prefixed;
    if c == DELETE {
      UnicodeEscapeBack('7', 'F', rest);
      assert HexValue('7') == Some(7) && HexValue('F') == Some(15) && 127 as char == c;
      assert TomlChar(c) == [BACKSLASH] + ['u', '0', '0', '7', 'F'];
      EscapeTaken(c, ['u', '0', '0', '7', 'F'], rest);
    } else if n < 32 && !(n in {8, 9, 10, 12, 13}) {
      HexDigitBack(n / 16);
      HexDigitBack(n % 16);
      UnicodeEscapeBack(HEX_DIGITS[n / 16], HEX_DIGITS[n % 16], rest);
      assert (n / 16 * 16 + n % 16) as char == c;
      assert TomlChar(c) == [BACKSLASH] + ['u', '0', '0', HEX_DIGITS[n / 16], HEX_DIGITS[n % 16]];
      EscapeTaken(c, ['u', '0', '0', HEX_DIGITS[n / 16], HEX_DIGITS[n % 16]], rest);
    } else if c == QUOTE || c == BACKSLASH || n < 32 {
      var mark := TomlChar(c)[1];
      assert TomlChar(c) == [BACKSLASH] + [mark];
      assert ([mark] + rest)[1..] == rest;
      EscapeTaken(c, [mark], rest);
    } else {
      assert s[1..] == rest;
      PlainTaken(c, rest);
    }
  }

  lemma {:induction false} EscapeTaken(c: char, escape: string, rest: string)
    requires ReadEscape(escape + rest) == Some((c, rest))
    ensures ReadChars([BACKSLASH] + escape + rest) == Prefixed(c, ReadChars(rest))
  {
    assert ([BACKSLASH] + escape + rest)[1..] == escape + rest;
  }

  lemma {:induction false} PlainTaken(c: char, rest: string)
    requires c != QUOTE && c != BACKSLASH && !Forbidden(c)
    ensures ReadChars([c] + rest) == Prefixed(c, ReadChars(rest))
  {
  }

  lemma {:induction false} CharsBack(s: string, rest: string)
    ensures ReadChars(TomlChars(s) + [QUOTE] + rest) == Some((s, rest))
  {
    if s == [] {
      assert ([QUOTE] + rest)[1..] == rest;
      assert TomlChars(s) + [QUOTE] + rest == [QUOTE] + rest;
    } else {
      FirstCharOff(s, rest);
      hide ReadChars, TomlChars, TomlChar;
      CharsBack(s[1..], rest);
      CharBack(s[0], TomlChars(s[1..]) + [QUOTE] + rest);
      assert s == [s[0]] + s[1..];
    }
  }

  lemma {:induction false} FirstCharOff(s: string, rest: string)
    requires s != []
    ensures TomlChars(s) + [QUOTE] + rest == TomlChar(s[0]) + (TomlChars(s[1..]) + [QUOTE] + rest)
  {
    hide TomlChar;
  }

  /** Every string of Unicode scalar values survives, and the reader stops right behind it. */
  lemma {:induction false} StringBack(s: string, rest: string)
    ensures TomlString(s) != [] && TomlString(s)[0] == QUOTE
    ensures ReadChars((TomlString(s) + rest)[1..]) == Some((s, rest))
  {
    hide *;
    TomlStringIs(s);
    CharsBack(s, rest);
    assert (TomlString(s) + rest)[1..] == TomlChars(s) + [QUOTE] + rest;
  }

  /** Why U+007F is escaped by hand: JSON's own spelling is readable as TOML exactly when the text does
      not hold that character. */
  lemma {:induction false} JsonAloneExact(s: string)
    ensures ReadChars(JsonString(s)[1..]) == Some((s, "")) <==> DELETE !in s
  {
    var body := JsonString(s)[1..];
    assert body == JsonChars(s) + [QUOTE];
    JsonCharsBack(s);
  }

  lemma {:induction false} JsonCharsBack(s: string)
    ensures ReadChars(JsonChars(s) + [QUOTE]) == if DELETE in s then None else Some((s, ""))
  {
    if s == [] {
      assert JsonChars(s) + [QUOTE] == [QUOTE];
      assert [QUOTE][1..] == "";
    } else {
      FirstJsonCharOff(s);
      JsonCharsBack(s[1..]);
      assert s == [s[0]] + s[1..];
      if s[0] == DELETE {
        BareDelete(JsonChars(s[1..]) + [QUOTE]);
      } else {
        hide ReadChars, JsonChars, JsonChar;
        CharBack(s[0], JsonChars(s[1..]) + [QUOTE]);
      }
    }
  }

  lemma {:induction false} FirstJsonCharOff(s: string)
    requires s != []
    ensures JsonChars(s) + [QUOTE] == JsonChar(s[0]) + (JsonChars(s[1..]) + [QUOTE])
    ensures s[0] != DELETE ==> JsonChar(s[0]) == TomlChar(s[0])
  {
    hide JsonChar;
  }

  lemma {:induction false} BareDelete(rest: string)
    ensures ReadChars(JsonChar(DELETE) + rest) == None
  {
    assert JsonChar(DELETE) == [DELETE];
  }

  /** No printed string breaks its line. */
  lemma {:induction false} StaysOnItsLine(s: string)
    ensures '\n' !in TomlString(s)
  {
    TomlStringIs(s);
    CharsStayOnTheirLine(s);
  }

  lemma {:induction false} CharStaysOnItsLine(c: char)
    ensures '\n' !in TomlChar(c)
  {
    hide HEX_DIGITS;
    var n := c as int;
    if n < 32 {
      HexDigitsStay(n / 16);
      HexDigitsStay(n % 16);
    }
  }

  lemma {:induction false} HexDigitsStay(n: nat)
    requires n < 16
    ensures |HEX_DIGITS| == 16 && HEX_DIGITS[n] != '\n'
  {
  }

  lemma {:induction false} CharsStayOnTheirLine(s: string)
    ensures '\n' !in TomlChars(s)
  {
    if s == [] {
    } else {
      CharsStayOnTheirLine(s[1..]);
      CharStaysOnItsLine(s[0]);
      hide TomlChar;
    }
  }
}
