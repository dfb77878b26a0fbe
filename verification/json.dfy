/**
 * `JSON.stringify` applied to a string and to the one-key object `{ _id: id }`,
 * together with the JSON reader that inverts them.
 */
module Json {
  import opened Wrappers

  function HexChar(d: int): char
    requires 0 <= d < 16
  {
    if d < 10 then ('0' as int + d) as char else ('a' as int + d - 10) as char
  }

  predicate IsHexChar(c: char) {
    '0' <= c <= '9' || 'a' <= c <= 'f' || 'A' <= c <= 'F'
  }

  function HexValue(c: char): (v: int)
    requires IsHexChar(c)
    ensures 0 <= v < 16
  {
    if '0' <= c <= '9' then c as int - '0' as int
    else if 'a' <= c <= 'f' then c as int - 'a' as int + 10
    else c as int - 'A' as int + 10
  }

  lemma HexRoundTrip(d: int)
    requires 0 <= d < 16
    ensures IsHexChar(HexChar(d)) && HexValue(HexChar(d)) == d
  {
  }

  /** How `JSON.stringify` writes one character inside a string literal. */
  function EscapeChar(c: char): (r: string)
    ensures r != []
  {
    if c == '"' then "\\\""
    else if c == '\\' then "\\\\"
    else if c == '\U{8}' then "\\b"
    else if c == '\t' then "\\t"
    else if c == '\n' then "\\n"
    else if c == '\U{C}' then "\\f"
    else if c == '\r' then "\\r"
    else if c < ' ' then ['\\', 'u', '0', '0', HexChar(c as int / 16), HexChar(c as int % 16)]
    else [c]
  }

  /** The body of the string literal `JSON.stringify` writes for `s`. */
  function Escape(s: string): string {
    if s == [] then [] else EscapeChar(s[0]) + Escape(s[1..])
  }

  /** `JSON.stringify(s)` for a string `s`. */
  function Quote(s: string): string {
    "\"" + Escape(s) + "\""
  }

  /** Reads the body of a JSON string literal: the escapes of section 7 of RFC 8259
      (surrogate escapes excepted); None for malformed text. */
  function Unescape(t: string): (r: Option<string>)
    decreases |t|
  {
    if t == [] then Some([])
    else if t[0] == '"' || t[0] < ' ' then None
    else if t[0] != '\\' then Prepend(t[0], Unescape(t[1..]))
    else if |t| < 2 then None
    else if t[1] == 'u' then
      if |t| >= 6 && IsHexChar(t[2]) && IsHexChar(t[3]) && IsHexChar(t[4]) && IsHexChar(t[5]) then
        var v := 4096 * HexValue(t[2]) + 256 * HexValue(t[3]) + 16 * HexValue(t[4]) + HexValue(t[5]);
        if 0xD800 <= v < 0xE000 then None else Prepend(v as char, Unescape(t[6..]))
      else None
    else
      match SimpleEscape(t[1])
      case Some(c) => Prepend(c, Unescape(t[2..]))
      case None => None
  }

  /** The character a two-character escape `\x` stands for. */
  function SimpleEscape(x: char): Option<char> {
    if x == '"' then Some('"')
    else if x == '\\' then Some('\\')
    else if x == '/' then Some('/')
    else if x == 'b' then Some('\U{8}')
    else if x == 'f' then Some('\U{C}')
    else if x == 'n' then Some('\n')
    else if x == 'r' then Some('\r')
    else if x == 't' then Some('\t')
    else None
  }

  function Prepend(c: char, r: Option<string>): Option<string> {
    match r
    case Some(s) => Some([c] + s)
    case None => None
  }

  /** One escaped character is read back as that character, whatever follows it. */
  lemma UnescapeChar(c: char, rest: string)
    ensures Unescape(EscapeChar(c) + rest) == Prepend(c, Unescape(rest))
  {
    var t := EscapeChar(c) + rest;
    if c < ' ' && c != '\U{8}' && c != '\t' && c != '\n' && c != '\U{C}' && c != '\r' {
      var hi, lo := c as int / 16, c as int % 16;
      HexRoundTrip(hi);
      HexRoundTrip(lo);
      assert t[2] == '0' && t[3] == '0' && t[4] == HexChar(hi) && t[5] == HexChar(lo);
      assert t[6..] == rest;
      assert (4096 * 0 + 256 * 0 + 16 * hi + lo) as char == c;
    } else if |EscapeChar(c)| == 2 {
      assert t[2..] == rest;
    } else {
      assert t[1..] == rest;
    }
  }

  /** Reading back what `JSON.stringify` wrote gives the original string. */
  lemma {:induction false} EscapeRoundTrip(s: string)
    ensures Unescape(Escape(s)) == Some(s)
  {
    if s != [] {
      UnescapeChar(s[0], Escape(s[1..]));
      EscapeRoundTrip(s[1..]);
      assert [s[0]] + s[1..] == s;
    }
  }

  /** `JSON.stringify({ _id: id })`. */
  function IdFilter(id: string): string {
    "{\"_id\":" + Quote(id) + "}"
  }

  /** Reads a filter of the form `{"_id":"..."}` back to its id. */
  function ParseIdFilter(f: string): Option<string> {
    if |f| >= 10 && f[..8] == "{\"_id\":\"" && f[|f| - 2..] == "\"}" then Unescape(f[8..|f| - 2])
    else None
  }

  /** The filter the detail pages send names exactly the record's id. */
  lemma IdFilterRoundTrip(id: string)
    ensures ParseIdFilter(IdFilter(id)) == Some(id)
  {
    var f := IdFilter(id);
    var e := Escape(id);
    assert f == "{\"_id\":\"" + e + "\"}";
    assert f[8..|f| - 2] == e;
    EscapeRoundTrip(id);
  }
}
