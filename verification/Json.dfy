/**
 * JSON values and the texts that `json.dumps(value, sort_keys=True, ...)` gives them (sections 4 and 7 of RFC 8259):
 * compact with ASCII escapes, and spaced with plain characters.
 */
module Json {
  import opened Text

  /** What `json.loads` returns. A float is represented by the text `float.__repr__` gives it. */
  datatype Json =
    | Null
    | Bool(b: bool)
    | Int(n: int)
    | Float(repr: string)
    | Str(s: string)
    | Arr(items: seq<Json>)
    | Obj(fields: map<string, Json>)

  // ---------------------------------------------------------------- the values json.loads can return

  predicate IsNumberChar(c: char) {
    IsDigit(c) || c in "-+.eNaInfity"
  }

  /** A float's text is made of number characters, cannot be mistaken for an integer, and does not start like a word. */
  predicate FloatText(repr: string) {
    && repr != "" && (IsDigit(repr[0]) || repr[0] in "-NI")
    && (forall c <- repr :: IsNumberChar(c))
    && (exists c <- repr :: !IsDigit(c) && c != '-')
  }

  predicate WellFormed(j: Json)
    decreases j
  {
    match j
    case Float(repr) => FloatText(repr)
    case Arr(items) => forall i | 0 <= i < |items| :: WellFormed(items[i])
    case Obj(fields) => forall k | k in fields :: WellFormed(fields[k])
    case _ => true
  }

  // ---------------------------------------------------------------- the printer

  /** `ensure_ascii` and `separators`. */
  datatype Style = Style(ascii: bool, comma: string, colon: string)

  const COMPACT := Style(true, ",", ":")
  const SPACED := Style(false, ", ", ": ")

  function HexChar(d: nat): char
    requires d < 16
  {
    if d < 10 then ('0' as int + d) as char else ('a' as int + d - 10) as char
  }

  function Hex4(n: nat): string
    requires n < 0x1_0000
  {
    [HexChar(n / 4096), HexChar(n / 256 % 16), HexChar(n / 16 % 16), HexChar(n % 16)]
  }

  function Unit(n: nat): string
    requires n < 0x1_0000
  {
    "\\u" + Hex4(n)
  }

  /** The short escapes, which both styles know. */
  function ShortEscape(c: char): Option<string> {
    if c == '"' then Some("\\\"")
    else if c == '\\' then Some("\\\\")
    else if c == '\n' then Some("\\n")
    else if c == '\r' then Some("\\r")
    else if c == '\t' then Some("\\t")
    else if c as int == 12 then Some("\\f")
    else if c as int == 8 then Some("\\b")
    else None
  }

  /**
   * Control characters are escaped in both styles; with ASCII escapes so is all that is not printable ASCII, and a
   * character beyond the basic plane becomes a surrogate pair.
   */
  function EscapeChar(st: Style, c: char): string {
    match ShortEscape(c)
    case Some(escape) => escape
    case None =>
      if ' ' <= c <= '~' || (!st.ascii && c > '~') then [c]
      else if (c as int) < 0x1_0000 then Unit(c as int)
      else
        var v := c as int - 0x1_0000;
        Unit(0xd800 + v / 1024) + Unit(0xdc00 + v % 1024)
  }

  function Escape(st: Style, s: string): string {
    if s == "" then "" else EscapeChar(st, s[0]) + Escape(st, s[1..])
  }

  function Quote(st: Style, s: string): string {
    "\"" + (Escape(st, s) + "\"")
  }

  function PrintIn(st: Style, j: Json): string
    decreases j, 1, 0
  {
    match j
    case Null => "null"
    case Bool(b) => if b then "true" else "false"
    case Int(n) => Decimal(n)
    case Float(repr) => repr
    case Str(s) => Quote(st, s)
    case Arr(items) => "[" + (if items == [] then "]" else PrintItems(st, items))
    case Obj(fields) => "{" + (if fields == map[] then "}" else PrintMembers(st, j, SortSet(fields.Keys)))
  }

  /** The items, their separators and the closing bracket. */
  function PrintItems(st: Style, items: seq<Json>): string
    requires items != []
    decreases items, 0, 0
  {
    PrintIn(st, items[0]) + (if |items| == 1 then "]" else st.comma + PrintItems(st, items[1..]))
  }

  function PrintMembers(st: Style, j: Json, keys: seq<string>): string
    requires j.Obj? && keys != [] && forall k :: k in keys ==> k in j.fields
    decreases j, 0, |keys|
  {
    Quote(st, keys[0]) + (st.colon + (PrintIn(st, j.fields[keys[0]]) +
      (if |keys| == 1 then "}" else st.comma + PrintMembers(st, j, keys[1..]))))
  }

  /** The canonical text behind the validator's digest. */
  function Print(j: Json): string { PrintIn(COMPACT, j) }
}
