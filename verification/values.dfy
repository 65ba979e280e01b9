/**
 * The JavaScript values the configuration code inspects: option settings,
 * plugin descriptor fields and rule fields. Only the distinctions the source
 * makes are kept: `undefined`, booleans, strings, arrays of strings, regular
 * expressions, and other objects (functions included) by identity.
 */
module JsValues {
  import opened Wrappers
  import opened Strings

  datatype Value =
    | Undefined
    | Bool(b: bool)
    | Str(s: string)
    | Strs(items: seq<string>)
    | Regex(source: string)
    | Obj(id: nat)

  /** A plain object of named settings; a missing key reads as `undefined`. */
  type Options = map<string, Value>

  /** `m[key]` in JavaScript: `undefined` for a missing key. */
  function Get(m: Options, key: string): Value {
    if key in m then m[key] else Undefined
  }

  /** JavaScript truthiness: `if (v)`. */
  predicate Truthy(v: Value) {
    match v
    case Undefined => false
    case Bool(b) => b
    case Str(s) => s != ""
    case Strs(_) => true
    case Regex(_) => true
    case Obj(_) => true
  }

  /** `String(v)`, the conversion `RegExp.prototype.test` applies to its argument. */
  function ToJsString(v: Value): string {
    match v
    case Undefined => "undefined"
    case Bool(b) => if b then "true" else "false"
    case Str(s) => s
    case Strs(items) => Join(items, ",")
    case Regex(source) => "/" + source + "/"
    case Obj(_) => "[object Object]"
  }

  /** A fresh empty object `{}`, used where the source writes `x || {}`. */
  const EmptyObject: Value := Obj(0)

  /** `a || b`. */
  function Or(a: Value, b: Value): (r: Value)
    ensures Truthy(a) ==> r == a
    ensures !Truthy(a) ==> r == b
  {
    if Truthy(a) then a else b
  }

  /**
   * `JSON.stringify(s)` for a string (QuoteJSONString, section 25.5.2.3 of
   * ECMA-262): the text in double quotes, every character escaped as
   * `EscapeChar` says. A `string` holds Unicode scalar values, so the escape of
   * lone surrogates never applies.
   */
  function JsonString(s: string): (r: string)
    ensures |r| >= 2 && r[0] == '"' && r[|r| - 1] == '"'
    ensures r[1..|r| - 1] == JsonEscape(s)
  {
    "\"" + JsonEscape(s) + "\""
  }

  /** The letter of the two-character escape of `c`, if `JSON.stringify` has one for it. */
  function ShortEscape(c: char): Option<char> {
    if c == '"' then Some('"')
    else if c == '\\' then Some('\\')
    else if c as int == 8 then Some('b')
    else if c as int == 9 then Some('t')
    else if c as int == 10 then Some('n')
    else if c as int == 12 then Some('f')
    else if c as int == 13 then Some('r')
    else None
  }

  /** The character a two-character escape `\\x` stands for when JSON text is read. */
  function ShortUnescape(x: char): Option<char> {
    if x == '"' then Some('"')
    else if x == '\\' then Some('\\')
    else if x == '/' then Some('/')
    else if x == 'b' then Some(8 as char)
    else if x == 't' then Some(9 as char)
    else if x == 'n' then Some(10 as char)
    else if x == 'f' then Some(12 as char)
    else if x == 'r' then Some(13 as char)
    else None
  }

  /** A lower-case hexadecimal digit, as `JSON.stringify` writes them. */
  function HexDigit(n: nat): (c: char)
    requires n < 16
    ensures IsHex(c) && HexValue(c) == n
  {
    if n < 10 then ('0' as int + n) as char else ('a' as int + n - 10) as char
  }

  predicate IsHex(c: char) {
    '0' <= c <= '9' || 'a' <= c <= 'f' || 'A' <= c <= 'F'
  }

  /** The value of a hexadecimal digit of either case. */
  function HexValue(c: char): (n: nat)
    requires IsHex(c)
    ensures n < 16
  {
    if '0' <= c <= '9' then c as int - '0' as int
    else if 'a' <= c <= 'f' then c as int - 'a' as int + 10
    else c as int - 'A' as int + 10
  }

  /**
   * How `JSON.stringify` writes one character inside a string literal: the
   * two-character escapes for `"`, `\\` and the five named control characters,
   * `\\u00xx` for the other characters below U+0020, the character itself otherwise.
   */
  function EscapeChar(c: char): (r: string)
    ensures forall i :: 0 <= i < |r| ==> r[i] as int >= 0x20
    ensures |r| >= 1 && (r[0] == '\\' || r == [c])
  {
    match ShortEscape(c)
    case Some(x) => ['\\', x]
    case None =>
      if c as int < 0x20 then ['\\', 'u', '0', '0', HexDigit(c as int / 16), HexDigit(c as int % 16)]
      else [c]
  }

  /** The body of the JSON string literal for `s`; it carries no raw control character. */
  function JsonEscape(s: string): (r: string)
    ensures |r| >= |s|
    ensures forall i :: 0 <= i < |r| ==> r[i] as int >= 0x20
  {
    if |s| == 0 then "" else EscapeChar(s[0]) + JsonEscape(s[1..])
  }

  /** The code unit four hexadecimal digits stand for. */
  function HexQuad(a: char, b: char, c: char, d: char): (n: nat)
    requires IsHex(a) && IsHex(b) && IsHex(c) && IsHex(d)
    ensures n < 0x10000
  {
    var ab := HexValue(a) * 16 + HexValue(b);
    var abc := ab * 16 + HexValue(c);
    assert ab < 256;
    assert abc < 4096;
    abc * 16 + HexValue(d)
  }

  /** `c` in front of a decoded text; a decoding failure stays a failure. */
  function Prepend(c: char, o: Option<string>): (r: Option<string>)
    ensures r.Some? <==> o.Some?
    ensures r.Some? ==> r.value == [c] + o.value
  {
    match o
    case None => None
    case Some(t) => Some([c] + t)
  }

  /**
   * Reading the body of a JSON string literal (section 7 of RFC 8259): `None`
   * for a raw `"` or control character, an unknown escape, or a `\\u` escape
   * of a surrogate half.
   */
  function JsonDecode(t: string): (r: Option<string>)
    decreases |t|
  {
    if |t| == 0 then Some("")
    else if t[0] == '\\' then
      if |t| >= 2 && ShortUnescape(t[1]).Some? then Prepend(ShortUnescape(t[1]).value, JsonDecode(t[2..]))
      else if |t| >= 6 && t[1] == 'u' && IsHex(t[2]) && IsHex(t[3]) && IsHex(t[4]) && IsHex(t[5]) then
        var n := HexQuad(t[2], t[3], t[4], t[5]);
        if 0xD800 <= n < 0xE000 then None else Prepend(n as char, JsonDecode(t[6..]))
      else None
    else if t[0] == '"' || t[0] as int < 0x20 then None
    else Prepend(t[0], JsonDecode(t[1..]))
  }

  /** `JSON.parse` of a JSON text that should be a string literal. */
  function JsonParseString(d: string): (r: Option<string>) {
    if |d| >= 2 && d[0] == '"' && d[|d| - 1] == '"' then JsonDecode(d[1..|d| - 1]) else None
  }

  /** Decoding undoes the escape of one character. */
  lemma DecodeEscapedChar(c: char, rest: string)
    ensures JsonDecode(EscapeChar(c) + rest) == Prepend(c, JsonDecode(rest))
  {
    if ShortEscape(c).Some? {
      DecodeShortEscape(c, rest);
    } else if c as int < 0x20 {
      DecodeUnicodeEscape(c, rest);
    } else {
      assert (EscapeChar(c) + rest)[1..] == rest;
    }
  }

  lemma DecodeShortEscape(c: char, rest: string)
    requires ShortEscape(c).Some?
    ensures JsonDecode(EscapeChar(c) + rest) == Prepend(c, JsonDecode(rest))
  {
    var x := ShortEscape(c).value;
    var t := ['\\', x] + rest;
    assert EscapeChar(c) + rest == t;
    assert t[1] == x && t[2..] == rest;
    assert ShortUnescape(x) == Some(c);
  }

  lemma DecodeUnicodeEscape(c: char, rest: string)
    requires ShortEscape(c).None? && c as int < 0x20
    ensures JsonDecode(EscapeChar(c) + rest) == Prepend(c, JsonDecode(rest))
  {
    var hi, lo := HexDigit(c as int / 16), HexDigit(c as int % 16);
    var t := ['\\', 'u', '0', '0', hi, lo] + rest;
    assert EscapeChar(c) + rest == t;
    assert t[1] == 'u' && t[2] == '0' && t[3] == '0' && t[4] == hi && t[5] == lo && t[6..] == rest;
    assert ShortUnescape('u').None?;
    assert HexQuad('0', '0', hi, lo) == c as int;
  }

  /** The escaped text decodes to the string it was built from. */
  lemma {:induction false} JsonEscapeRoundTrip(s: string)
    ensures JsonDecode(JsonEscape(s)) == Some(s)
  {
    if |s| > 0 {
      JsonEscapeRoundTrip(s[1..]);
      DecodeEscapedChar(s[0], JsonEscape(s[1..]));
      assert [s[0]] + s[1..] == s;
    }
  }

  /** `JSON.parse(JSON.stringify(s))` is `s`. */
  lemma JsonStringReadsBack(s: string)
    ensures JsonParseString(JsonString(s)) == Some(s)
  {
    JsonEscapeRoundTrip(s);
  }

  /** A newline in a string is written as the two characters `\n`. */
  lemma NewlineEscaped()
    ensures JsonString("en\n") == "\"en\\n\""
  {
    assert JsonEscape("\n") == EscapeChar('\n') + JsonEscape("");
    assert JsonEscape("n\n") == EscapeChar('n') + JsonEscape("\n");
    assert JsonEscape("en\n") == EscapeChar('e') + JsonEscape("n\n");
  }
}
