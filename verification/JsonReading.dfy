/** A reader for JSON texts (RFC 8259), and the proof that it reads back what was printed, in either style. */
module JsonReading {
  import opened Text
  import opened Json

  // ---------------------------------------------------------------- the reader

  function SkipSpaces(s: string): (r: string)
    ensures |r| <= |s|
  {
    if s != "" && s[0] == ' ' then SkipSpaces(s[1..]) else s
  }

  function HexValue(c: char): Option<nat> {
    if '0' <= c <= '9' then Some(c as int - '0' as int)
    else if 'a' <= c <= 'f' then Some(c as int - 'a' as int + 10)
    else if 'A' <= c <= 'F' then Some(c as int - 'A' as int + 10)
    else None
  }

  /** The code unit that four hexadecimal digits name. */
  function ReadUnit(s: string): (r: Option<nat>)
    ensures r.Some? ==> |s| >= 4 && r.value < 0x1_0000
  {
    if |s| < 4 then None
    else
      match (HexValue(s[0]), HexValue(s[1]), HexValue(s[2]), HexValue(s[3]))
      case (Some(a), Some(b), Some(c), Some(d)) =>
        if a < 16 && b < 16 && c < 16 && d < 16 then Some(((a * 16 + b) * 16 + c) * 16 + d) else None
      case _ => None
  }

  function CharOf(n: nat): Option<char> {
    if n < 0xd800 || 0xe000 <= n < 0x11_0000 then Some(n as char) else None
  }

  /** What follows `\\u`: one code unit, or a surrogate pair. */
  function ReadUnicode(s: string): (r: Option<(char, string)>)
    ensures r.Some? ==> |r.value.1| < |s|
  {
    match ReadUnit(s)
    case None => None
    case Some(high) =>
      if 0xd800 <= high < 0xdc00 then
        if "\\u" <= s[4..] then
          match ReadUnit(s[6..])
          case Some(low) =>
            if 0xdc00 <= low < 0xe000 then
              match CharOf(0x1_0000 + (high - 0xd800) * 1024 + (low - 0xdc00))
              case Some(c) => Some((c, s[10..]))
              case None => None
            else None
          case None => None
        else None
      else
        match CharOf(high)
        case Some(c) => Some((c, s[4..]))
        case None => None
  }

  /** What follows a backslash. */
  function ReadEscape(s: string): (r: Option<(char, string)>)
    ensures r.Some? ==> |r.value.1| < |s|
  {
    if s == "" then None
    else if s[0] == 'u' then ReadUnicode(s[1..])
    else if s[0] in "\"\\/" then Some((s[0], s[1..]))
    else if s[0] == 'n' then Some(('\n', s[1..]))
    else if s[0] == 'r' then Some(('\r', s[1..]))
    else if s[0] == 't' then Some(('\t', s[1..]))
    else if s[0] == 'f' then Some((12 as char, s[1..]))
    else if s[0] == 'b' then Some((8 as char, s[1..]))
    else None
  }

  /** A string, from behind its opening quote. */
  function ReadString(s: string): (r: Option<(string, string)>)
    ensures r.Some? ==> |r.value.1| < |s|
    decreases |s|
  {
    if s == "" then None
    else if s[0] == '"' then Some(("", s[1..]))
    else
      var first := if s[0] == '\\' then ReadEscape(s[1..]) else Some((s[0], s[1..]));
      match first
      case Some((c, rest)) => Prepended(c, ReadString(rest))
      case None => None
  }

  function Prepended(c: char, r: Option<(string, string)>): Option<(string, string)> {
    match r
    case Some((x, rest)) => Some(([c] + x, rest))
    case None => None
  }

  /** How many number characters a text starts with. */
  function RunLength(u: string): (n: nat)
    ensures n <= |u| && forall i :: 0 <= i < n ==> IsNumberChar(u[i])
  {
    if u != "" && IsNumberChar(u[0]) then 1 + RunLength(u[1..]) else 0
  }

  predicate AllDigits(s: string) { s != "" && forall c <- s :: IsDigit(c) }

  function ReadNumber(s: string): (r: Option<(Json, string)>)
    ensures r.Some? ==> |r.value.1| < |s|
  {
    var n := RunLength(s);
    var token := s[..n];
    if AllDigits(token) then Some((Int(Reading(token)), s[n..]))
    else if token != "" && token[0] == '-' && AllDigits(token[1..]) then Some((Int(0 - Reading(token[1..])), s[n..]))
    else if FloatText(token) then Some((Float(token), s[n..]))
    else None
  }

  function ReadValue(s: string): (r: Option<(Json, string)>)
    ensures r.Some? ==> |r.value.1| < |s|
    decreases |s|, 1
  {
    var t := SkipSpaces(s);
    if t == "" then None
    else if t[0] == '"' then
      match ReadString(t[1..])
      case Some((x, rest)) => Some((Str(x), rest))
      case None => None
    else if "null" <= t then Some((Null, t[4..]))
    else if "true" <= t then Some((Bool(true), t[4..]))
    else if "false" <= t then Some((Bool(false), t[5..]))
    else if t[0] == '[' then
      var u := SkipSpaces(t[1..]);
      if "]" <= u then Some((Arr([]), u[1..]))
      else
        match ReadItems(t[1..])
        case Some((items, rest)) => Some((Arr(items), rest))
        case None => None
    else if t[0] == '{' then
      var u := SkipSpaces(t[1..]);
      if "}" <= u then Some((Obj(map[]), u[1..]))
      else
        match ReadMembers(t[1..])
        case Some((fields, rest)) => Some((Obj(fields), rest))
        case None => None
    else ReadNumber(t)
  }

  /** One item at least, and the closing bracket. */
  function ReadItems(s: string): (r: Option<(seq<Json>, string)>)
    ensures r.Some? ==> |r.value.1| < |s|
    decreases |s|, 2
  {
    match ReadValue(s)
    case None => None
    case Some((x, rest)) =>
      var u := SkipSpaces(rest);
      if "]" <= u then Some(([x], u[1..]))
      else if "," <= u then
        match ReadItems(u[1..])
        case Some((more, end)) => Some(([x] + more, end))
        case None => None
      else None
  }

  /** One member at least, and the closing brace; of two members with one name the later one counts. */
  function ReadMembers(s: string): (r: Option<(map<string, Json>, string)>)
    ensures r.Some? ==> |r.value.1| < |s|
    decreases |s|, 2
  {
    var t := SkipSpaces(s);
    if !("\"" <= t) then None
    else
      match ReadString(t[1..])
      case None => None
      case Some((k, rest)) =>
        var u := SkipSpaces(rest);
        if !(":" <= u) then None
        else
          match ReadValue(u[1..])
          case None => None
          case Some((x, after)) =>
            var w := SkipSpaces(after);
            if "}" <= w then Some((map[k := x], w[1..]))
            else if "," <= w then
              match ReadMembers(w[1..])
              case Some((more, end)) => Some((map[k := x] + more, end))
              case None => None
            else None
  }

  // ---------------------------------------------------------------- strings read back

  lemma HexReadsBack(d: nat)
    requires d < 16
    ensures HexValue(HexChar(d)) == Some(d)
  {
  }

  lemma UnitReadsBack(n: nat, s: string)
    requires n < 0x1_0000
    ensures ReadUnit(Hex4(n) + s) == Some(n) && (Hex4(n) + s)[4..] == s
  {
    HexReadsBack(n / 4096);
    HexReadsBack(n / 256 % 16);
    HexReadsBack(n / 16 % 16);
    HexReadsBack(n % 16);
    assert n / 256 == n / 16 / 16 && n / 4096 == n / 16 / 16 / 16;
  }

  /** A character of the basic plane, written as its code unit. */
  lemma PlainUnitReadsBack(c: char, s: string)
    requires (c as int) < 0x1_0000
    ensures ReadUnicode(Hex4(c as int) + s) == Some((c, s))
  {
    UnitReadsBack(c as int, s);
  }

  /** A character beyond it, written as a surrogate pair. */
  lemma PairReadsBack(c: char, s: string)
    requires (c as int) >= 0x1_0000
    ensures var v := c as int - 0x1_0000;
      ReadUnicode(Hex4(0xd800 + v / 1024) + ("\\u" + (Hex4(0xdc00 + v % 1024) + s))) == Some((c, s))
  {
    var v := c as int - 0x1_0000;
    var high, low := 0xd800 + v / 1024, 0xdc00 + v % 1024;
    var rest := "\\u" + (Hex4(low) + s);
    UnitReadsBack(high, rest);
    UnitReadsBack(low, s);
    var text := Hex4(high) + rest;
    assert "\\u" <= text[4..] && text[6..] == Hex4(low) + s && text[10..] == s;
  }

  lemma ShortReadsBack(c: char, s: string)
    requires ShortEscape(c).Some?
    ensures ReadString(ShortEscape(c).value + s) == Prepended(c, ReadString(s))
  {
    var text := ShortEscape(c).value + s;
    assert text[0] == '\\' && text[1..][1..] == s;
    assert ReadEscape(text[1..]) == Some((c, s));
  }

  lemma ItselfReadsBack(c: char, s: string)
    requires c != '"' && c != '\\'
    ensures ReadString([c] + s) == Prepended(c, ReadString(s))
  {
    assert ([c] + s)[1..] == s;
  }

  lemma UnicodeReadsBack(c: char, rest: string, s: string)
    requires ReadUnicode(rest) == Some((c, s))
    ensures ReadString("\\u" + rest) == Prepended(c, ReadString(s))
  {
    var text := "\\u" + rest;
    assert text[1..][0] == 'u' && text[1..][1..] == rest;
  }

  /** An escaped character in front of a text is read as that character. */
  lemma CharReadsBack(st: Style, c: char, s: string)
    ensures ReadString(EscapeChar(st, c) + s) == Prepended(c, ReadString(s))
  {
    if ShortEscape(c).Some? {
      ShortReadsBack(c, s);
    } else if ' ' <= c <= '~' || (!st.ascii && c > '~') {
      ItselfReadsBack(c, s);
    } else if (c as int) < 0x1_0000 {
      UnitEscapeReadsBack(c, s);
    } else {
      PairEscapeReadsBack(c, s);
    }
  }

  lemma UnitEscapeReadsBack(c: char, s: string)
    requires (c as int) < 0x1_0000
    ensures ReadString(Unit(c as int) + s) == Prepended(c, ReadString(s))
  {
    PlainUnitReadsBack(c, s);
    UnicodeReadsBack(c, Hex4(c as int) + s, s);
    Regroup("\\u", Hex4(c as int), s);
  }

  lemma PairEscapeReadsBack(c: char, s: string)
    requires (c as int) >= 0x1_0000
    ensures var v := c as int - 0x1_0000;
      ReadString(Unit(0xd800 + v / 1024) + Unit(0xdc00 + v % 1024) + s) == Prepended(c, ReadString(s))
  {
    var v := c as int - 0x1_0000;
    var high, low := Hex4(0xd800 + v / 1024), Hex4(0xdc00 + v % 1024);
    var rest := high + ("\\u" + (low + s));
    PairReadsBack(c, s);
    UnicodeReadsBack(c, rest, s);
    PairText("\\u", high, low, s);
  }

  lemma PairText(u: string, high: string, low: string, s: string)
    ensures (u + high) + (u + low) + s == u + (high + (u + (low + s)))
  {
    Regroup(u + high, u + low, s);
    Regroup(u, high, (u + low) + s);
    Regroup(u, low, s);
  }

  /** An escaped text and its closing quote are read back to the text and what follows. */
  lemma {:induction false} StringReadsBack(st: Style, x: string, s: string)
    ensures ReadString(Escape(st, x) + "\"" + s) == Some((x, s))
  {
    if x == "" {
      assert Escape(st, x) + "\"" + s == "\"" + s;
    } else {
      StringReadsBack(st, x[1..], s);
      CharReadsBack(st, x[0], Escape(st, x[1..]) + "\"" + s);
      assert Escape(st, x) + "\"" + s == EscapeChar(st, x[0]) + (Escape(st, x[1..]) + "\"" + s);
      assert x == [x[0]] + x[1..];
    }
  }

  lemma QuoteReadsBack(st: Style, x: string, s: string)
    ensures (Quote(st, x) + s)[0] == '"' && ReadString((Quote(st, x) + s)[1..]) == Some((x, s))
  {
    StringReadsBack(st, x, s);
    assert (Quote(st, x) + s)[1..] == Escape(st, x) + "\"" + s;
  }

  // ---------------------------------------------------------------- numbers read back

  /** What can follow a value: nothing, or something that cannot go on with a number. */
  predicate Stops(s: string) {
    s == "" || !IsNumberChar(s[0])
  }

  lemma {:induction false} RunEnds(x: string, s: string)
    requires (forall c <- x :: IsNumberChar(c)) && Stops(s)
    ensures RunLength(x + s) == |x|
  {
    if x == "" {
      assert x + s == s;
    } else {
      assert (x + s)[1..] == x[1..] + s;
      RunEnds(x[1..], s);
    }
  }

  predicate IsNumber(j: Json) { j.Int? || j.Float? }

  lemma NumberText(st: Style, j: Json)
    requires IsNumber(j) && WellFormed(j)
    ensures PrintIn(st, j) != "" && (forall c <- PrintIn(st, j) :: IsNumberChar(c))
    ensures IsDigit(PrintIn(st, j)[0]) || PrintIn(st, j)[0] in "-NI"
  {
  }

  lemma TokenIs(token: string, s: string)
    requires (forall c <- token :: IsNumberChar(c)) && Stops(s)
    ensures var text := token + s;
      RunLength(text) == |token| && text[..RunLength(text)] == token && text[RunLength(text)..] == s
  {
    RunEnds(token, s);
  }

  lemma IntReadsBack(n: int, s: string)
    requires Stops(s)
    ensures ReadNumber(Decimal(n) + s) == Some((Int(n), s))
  {
    DecimalReadsBack(n);
    TokenIs(Decimal(n), s);
    if n < 0 {
      assert AllDigits(Decimal(n)[1..]);
      assert !IsDigit(Decimal(n)[0]);
    }
  }

  lemma FloatIsNoInteger(repr: string)
    requires FloatText(repr)
    ensures !AllDigits(repr) && (repr[0] == '-' ==> !AllDigits(repr[1..]))
  {
    var c :| c in repr && !IsDigit(c) && c != '-';
    if repr[0] == '-' { assert repr == [repr[0]] + repr[1..] && c in repr[1..]; }
  }

  lemma FloatReadsBack(repr: string, s: string)
    requires FloatText(repr) && Stops(s)
    ensures ReadNumber(repr + s) == Some((Float(repr), s))
  {
    TokenIs(repr, s);
    FloatIsNoInteger(repr);
  }

  lemma NumberReadsBack(st: Style, j: Json, s: string)
    requires IsNumber(j) && WellFormed(j) && Stops(s)
    ensures ReadNumber(PrintIn(st, j) + s) == Some((j, s))
  {
    if j.Int? { IntReadsBack(j.n, s); } else { FloatReadsBack(j.repr, s); }
  }

  // ---------------------------------------------------------------- values read back

  /** Separators are a comma and a colon, each perhaps with spaces behind it. */
  ghost predicate Fair(st: Style) {
    && Separates(st.comma, ',') && Separates(st.colon, ':')
  }

  ghost predicate Separates(separator: string, c: char) {
    separator != "" && separator[0] == c && forall i :: 0 < i < |separator| ==> separator[i] == ' '
  }

  lemma StylesAreFair()
    ensures Fair(COMPACT) && Fair(SPACED)
  {
  }

  lemma {:induction false} SpacesSkipped(spaces: string, s: string)
    requires forall i :: 0 <= i < |spaces| ==> spaces[i] == ' '
    ensures SkipSpaces(spaces + s) == SkipSpaces(s)
  {
    if spaces == "" {
      assert spaces + s == s;
    } else {
      assert (spaces + s)[1..] == spaces[1..] + s;
      SpacesSkipped(spaces[1..], s);
    }
  }

  /** Reading does not mind spaces in front. */
  lemma ValueAfterSpaces(separator: string, c: char, s: string)
    requires Separates(separator, c) && c != ' '
    ensures SkipSpaces(separator + s) == separator + s && (separator + s)[0] == c
    ensures SkipSpaces((separator + s)[1..]) == SkipSpaces(s)
    ensures |(separator + s)[1..]| >= |s|
  {
    assert (separator + s)[1..] == separator[1..] + s;
    SpacesSkipped(separator[1..], s);
  }

  /** The readers depend only on what is left when spaces in front are skipped. */
  lemma SameAfterSpaces(s: string, t: string)
    requires SkipSpaces(s) == SkipSpaces(t)
    ensures ReadValue(s) == ReadValue(t)
    ensures ReadItems(s) == ReadItems(t) && ReadMembers(s) == ReadMembers(t)
  {
  }

  /** How the text of a value starts. */
  lemma FirstChar(st: Style, j: Json)
    requires WellFormed(j)
    ensures PrintIn(st, j) != ""
    ensures var c := PrintIn(st, j)[0];
      && (j.Null? <==> c == 'n') && (j.Bool? <==> c in "tf") && (j.Str? <==> c == '"')
      && (j.Arr? <==> c == '[') && (j.Obj? <==> c == '{') && (IsNumber(j) <==> IsDigit(c) || c in "-NI")
  {
    if IsNumber(j) { NumberText(st, j); }
  }

  lemma BracketRead(rest: string, items: seq<Json>, s: string)
    requires rest != "" && rest[0] !in " ]" && ReadItems(rest) == Some((items, s))
    ensures ReadValue("[" + rest) == Some((Arr(items), s))
  {
    var text := "[" + rest;
    assert text[0] == '[' && text[1..] == rest && SkipSpaces(text) == text && SkipSpaces(rest) == rest;
  }

  lemma BraceRead(rest: string, fields: map<string, Json>, s: string)
    requires rest != "" && rest[0] == '"' && ReadMembers(rest) == Some((fields, s))
    ensures ReadValue("{" + rest) == Some((Obj(fields), s))
  {
    var text := "{" + rest;
    assert text[0] == '{' && text[1..] == rest && SkipSpaces(text) == text && SkipSpaces(rest) == rest;
  }

  lemma ItemsStart(st: Style, items: seq<Json>, s: string)
    requires items != [] && WellFormed(items[0])
    ensures PrintItems(st, items) != "" && PrintItems(st, items)[0] !in " ]"
  {
    FirstChar(st, items[0]);
    var text := PrintIn(st, items[0]);
    assert PrintItems(st, items)[0] == text[0];
  }

  /** A list is read back when its items are. */
  lemma ListReadsBack(st: Style, items: seq<Json>, s: string)
    requires items != [] && WellFormed(items[0])
    requires ReadItems(PrintItems(st, items) + s) == Some((items, s))
    ensures ReadValue(PrintIn(st, Arr(items)) + s) == Some((Arr(items), s))
  {
    ItemsStart(st, items, s);
    BracketRead(PrintItems(st, items) + s, items, s);
    Regroup("[", PrintItems(st, items), s);
  }

  /** An object is read back when its members are. */
  lemma ObjectReadsBack(st: Style, fields: map<string, Json>, keys: seq<string>, s: string)
    requires fields != map[] && keys == SortSet(fields.Keys) && keys != []
    requires ReadMembers(PrintMembers(st, Obj(fields), keys) + s) == Some((fields, s))
    ensures ReadValue(PrintIn(st, Obj(fields)) + s) == Some((Obj(fields), s))
  {
    var members := PrintMembers(st, Obj(fields), keys);
    assert members != "" && members[0] == '"';
    BraceRead(members + s, fields, s);
    Regroup("{", members, s);
  }

  lemma EmptyReadBack(s: string)
    ensures ReadValue("[" + "]" + s) == Some((Arr([]), s))
    ensures ReadValue("{" + "}" + s) == Some((Obj(map[]), s))
  {
    assert ("[" + "]" + s)[1..] == "]" + s && ("{" + "}" + s)[1..] == "}" + s;
    assert ("]" + s)[1..] == s && ("}" + s)[1..] == s;
  }

  lemma WordsReadBack(s: string)
    ensures ReadValue("null" + s) == Some((Null, s))
    ensures ReadValue("true" + s) == Some((Bool(true), s)) && ReadValue("false" + s) == Some((Bool(false), s))
  {
    assert ("null" + s)[4..] == s && ("true" + s)[4..] == s && ("false" + s)[5..] == s;
    assert ("null" + s)[0] == 'n' && ("true" + s)[0] == 't' && ("false" + s)[0] == 'f';
  }

  lemma PlainReadsBack(st: Style, j: Json, s: string)
    requires WellFormed(j) && Stops(s) && !j.Arr? && !j.Obj?
    ensures ReadValue(PrintIn(st, j) + s) == Some((j, s))
  {
    var text := PrintIn(st, j) + s;
    FirstChar(st, j);
    assert text[0] == PrintIn(st, j)[0] && SkipSpaces(text) == text;
    if IsNumber(j) {
      NumberReadsBack(st, j, s);
    } else if j.Str? {
      QuoteReadsBack(st, j.s, s);
    } else {
      WordsReadBack(s);
    }
  }

  /** A printed value in front of a text that stops it is read back to the value and that text. */
  lemma {:induction false} ValueReadsBack(st: Style, j: Json, s: string)
    requires Fair(st) && WellFormed(j) && Stops(s)
    ensures ReadValue(PrintIn(st, j) + s) == Some((j, s))
    decreases j, 1, 0
  {
    if j.Arr? && j.items != [] {
      ItemsReadBack(st, j.items, s);
      ListReadsBack(st, j.items, s);
    } else if j.Obj? && j.fields != map[] {
      var keys := SortSet(j.fields.Keys);
      assert keys != [] by { var k :| k in j.fields; assert k in keys; }
      MembersReadBack(st, j, keys, s);
      assert Restricted(j.fields, keys) == j.fields;
      ObjectReadsBack(st, j.fields, keys, s);
    } else if j.Arr? || j.Obj? {
      EmptyReadBack(s);
    } else {
      PlainReadsBack(st, j, s);
    }
  }

  lemma {:induction false} ItemsReadBack(st: Style, items: seq<Json>, s: string)
    requires Fair(st) && items != [] && (forall i | 0 <= i < |items| :: WellFormed(items[i])) && Stops(s)
    ensures ReadItems(PrintItems(st, items) + s) == Some((items, s))
    decreases items, 0, 0
  {
    CloserStops("]", s);
    if |items| == 1 {
      ValueReadsBack(st, items[0], "]" + s);
      LastItem(st, items, s);
    } else {
      CommaStops(st, PrintItems(st, items[1..]) + s);
      ValueReadsBack(st, items[0], st.comma + (PrintItems(st, items[1..]) + s));
      ItemsReadBack(st, items[1..], s);
      NextItem(st, items, s);
    }
  }

  lemma CloserStops(closer: string, s: string)
    requires closer == "]" || closer == "}"
    ensures Stops(closer + s)
  {
    assert (closer + s)[0] == closer[0];
  }

  lemma CommaStops(st: Style, s: string)
    requires Fair(st)
    ensures Stops(st.comma + s)
  {
    assert (st.comma + s)[0] == ',';
  }

  lemma LastItem(st: Style, items: seq<Json>, s: string)
    requires |items| == 1 && ReadValue(PrintIn(st, items[0]) + ("]" + s)) == Some((items[0], "]" + s))
    ensures ReadItems(PrintItems(st, items) + s) == Some((items, s))
  {
    Regroup(PrintIn(st, items[0]), "]", s);
    assert SkipSpaces("]" + s) == "]" + s && ("]" + s)[1..] == s;
    assert items == [items[0]];
  }

  lemma NextItem(st: Style, items: seq<Json>, s: string)
    requires Fair(st) && |items| > 1
    requires var more := PrintItems(st, items[1..]) + s;
      && ReadValue(PrintIn(st, items[0]) + (st.comma + more)) == Some((items[0], st.comma + more))
      && ReadItems(more) == Some((items[1..], s))
    ensures ReadItems(PrintItems(st, items) + s) == Some((items, s))
  {
    var more := PrintItems(st, items[1..]) + s;
    CommaItem(st, PrintIn(st, items[0]), items[0], more, items[1..], s);
    ItemsText(st, items, s);
    assert items == [items[0]] + items[1..];
  }

  lemma CommaItem(st: Style, value: string, x: Json, more: string, xs: seq<Json>, s: string)
    requires Fair(st)
    requires ReadValue(value + (st.comma + more)) == Some((x, st.comma + more)) && ReadItems(more) == Some((xs, s))
    ensures ReadItems(value + (st.comma + more)) == Some(([x] + xs, s))
  {
    CommaThen(st, more);
  }

  lemma ItemsText(st: Style, items: seq<Json>, s: string)
    requires |items| > 1
    ensures PrintItems(st, items) + s == PrintIn(st, items[0]) + (st.comma + (PrintItems(st, items[1..]) + s))
  {
    Regroup(PrintIn(st, items[0]), st.comma + PrintItems(st, items[1..]), s);
    Regroup(st.comma, PrintItems(st, items[1..]), s);
  }

  /** The members of these keys alone. */
  function Restricted(fields: map<string, Json>, keys: seq<string>): map<string, Json> {
    map k | k in keys && k in fields :: fields[k]
  }

  lemma {:induction false} MembersReadBack(st: Style, j: Json, keys: seq<string>, s: string)
    requires Fair(st) && WellFormed(j) && Stops(s)
    requires j.Obj? && keys != [] && forall k :: k in keys ==> k in j.fields
    ensures ReadMembers(PrintMembers(st, j, keys) + s) == Some((Restricted(j.fields, keys), s))
    decreases j, 0, |keys|
  {
    var k, x := keys[0], j.fields[keys[0]];
    if |keys| == 1 {
      ValueReadsBack(st, x, "}" + s);
      LastMember(st, k, x, s);
      OneKey(j.fields, keys);
    } else {
      var rest := PrintMembers(st, j, keys[1..]);
      ValueReadsBack(st, x, st.comma + (rest + s));
      MembersReadBack(st, j, keys[1..], s);
      NextMember(st, k, x, Restricted(j.fields, keys[1..]), rest, s);
      MoreKeys(j.fields, keys);
    }
  }

  lemma OneKey(fields: map<string, Json>, keys: seq<string>)
    requires |keys| == 1 && keys[0] in fields
    ensures Restricted(fields, keys) == map[keys[0] := fields[keys[0]]]
  {
  }

  lemma MoreKeys(fields: map<string, Json>, keys: seq<string>)
    requires keys != [] && keys[0] in fields
    ensures Restricted(fields, keys) == map[keys[0] := fields[keys[0]]] + Restricted(fields, keys[1..])
  {
  }

  lemma MemberText(q: string, c: string, v: string, tail: string, s: string)
    ensures q + (c + (v + tail)) + s == q + (c + (v + (tail + s)))
  {
    Regroup(q, c + (v + tail), s);
    Regroup(c, v + tail, s);
    Regroup(v, tail, s);
  }

  /** Name and value of a member. */
  lemma MemberHead(st: Style, k: string, x: Json, tail: string)
    requires Fair(st) && ReadValue(PrintIn(st, x) + tail) == Some((x, tail))
    ensures var text := Quote(st, k) + (st.colon + (PrintIn(st, x) + tail));
      && SkipSpaces(text) == text && text[0] == '"'
      && ReadString(text[1..]) == Some((k, st.colon + (PrintIn(st, x) + tail)))
    ensures var rest := st.colon + (PrintIn(st, x) + tail);
      SkipSpaces(rest) == rest && rest[0] == ':' && ReadValue(rest[1..]) == Some((x, tail))
  {
    var value := PrintIn(st, x) + tail;
    QuoteReadsBack(st, k, st.colon + value);
    ValueAfterSpaces(st.colon, ':', value);
    SameAfterSpaces((st.colon + value)[1..], value);
  }

  lemma LastMember(st: Style, k: string, x: Json, s: string)
    requires Fair(st) && ReadValue(PrintIn(st, x) + ("}" + s)) == Some((x, "}" + s))
    ensures ReadMembers(Quote(st, k) + (st.colon + (PrintIn(st, x) + "}")) + s) == Some((map[k := x], s))
  {
    MemberHead(st, k, x, "}" + s);
    assert SkipSpaces("}" + s) == "}" + s && ("}" + s)[1..] == s;
    MemberText(Quote(st, k), st.colon, PrintIn(st, x), "}", s);
  }

  lemma NextMember(st: Style, k: string, x: Json, xs: map<string, Json>, rest: string, s: string)
    requires Fair(st) && ReadMembers(rest + s) == Some((xs, s))
    requires ReadValue(PrintIn(st, x) + (st.comma + (rest + s))) == Some((x, st.comma + (rest + s)))
    ensures ReadMembers(Quote(st, k) + (st.colon + (PrintIn(st, x) + (st.comma + rest))) + s) ==
      Some((map[k := x] + xs, s))
  {
    var more := rest + s;
    MemberHead(st, k, x, st.comma + more);
    CommaThen(st, more);
    MemberRead(Quote(st, k) + (st.colon + (PrintIn(st, x) + (st.comma + more))), k,
      st.colon + (PrintIn(st, x) + (st.comma + more)), x, st.comma + more, xs, s);
    Regroup(st.comma, rest, s);
    MemberText(Quote(st, k), st.colon, PrintIn(st, x), st.comma + rest, s);
  }

  lemma MemberRead(
    text: string, k: string, value: string, x: Json, rest: string, xs: map<string, Json>, s: string)
    requires SkipSpaces(text) == text && text != "" && text[0] == '"' && ReadString(text[1..]) == Some((k, value))
    requires SkipSpaces(value) == value && value != "" && value[0] == ':' && ReadValue(value[1..]) == Some((x, rest))
    requires SkipSpaces(rest) == rest && rest != "" && rest[0] == ',' && ReadMembers(rest[1..]) == Some((xs, s))
    ensures ReadMembers(text) == Some((map[k := x] + xs, s))
  {
  }

  lemma CommaThen(st: Style, more: string)
    requires Fair(st)
    ensures SkipSpaces(st.comma + more) == st.comma + more && (st.comma + more)[0] == ','
    ensures ReadItems((st.comma + more)[1..]) == ReadItems(more)
    ensures ReadMembers((st.comma + more)[1..]) == ReadMembers(more)
  {
    ValueAfterSpaces(st.comma, ',', more);
    SameAfterSpaces((st.comma + more)[1..], more);
  }

  // ---------------------------------------------------------------- the two styles

  /** The room that each character takes; with `CharReadsBack` this leaves open only the case of hexadecimal digits. */
  lemma EscapeSizes(c: char)
    ensures var short := c in "\"\\\n\r\t" || c as int == 8 || c as int == 12;
      && |EscapeChar(SPACED, c)| == (if short then 2 else if c < ' ' then 6 else 1)
      && |EscapeChar(COMPACT, c)| ==
         (if short then 2 else if ' ' <= c <= '~' then 1 else if c as int < 0x1_0000 then 6 else 12)
  {
  }

  lemma CompactColon(k: string, x: Json)
    ensures Print(Obj(map[k := x])) == "{" + (Quote(COMPACT, k) + (":" + (Print(x) + "}")))
  {
    var fields := map[k := x];
    SortedUnique(SortSet(fields.Keys), [k]);
    assert fields != map[] && PrintMembers(COMPACT, Obj(fields), [k]) == Quote(COMPACT, k) + (":" + (Print(x) + "}"));
  }

  lemma CompactComma(x: Json, y: Json)
    ensures Print(Arr([x, y])) == "[" + (Print(x) + ("," + (Print(y) + "]")))
  {
    assert [x, y][1..] == [y];
    assert PrintItems(COMPACT, [y]) == Print(y) + "]";
    assert PrintItems(COMPACT, [x, y]) == Print(x) + ("," + (Print(y) + "]"));
  }

  // ---------------------------------------------------------------- so texts determine values

  /** Equal texts, followed by stops, come from equal values and leave equal rests. */
  lemma PrintPrefix(a: Json, b: Json, s: string, t: string)
    requires WellFormed(a) && WellFormed(b)
    requires Stops(s) && Stops(t) && Print(a) + s == Print(b) + t
    ensures a == b && s == t
  {
    StylesAreFair();
    ValueReadsBack(COMPACT, a, s);
    ValueReadsBack(COMPACT, b, t);
  }

  lemma PrintInjective(a: Json, b: Json)
    requires WellFormed(a) && WellFormed(b) && Print(a) == Print(b)
    ensures a == b
  {
    assert Print(a) + "" == Print(b) + "";
    PrintPrefix(a, b, "", "");
  }
}
