/** JSON values, the escaping of json_puts_escaped(), and a parser whose
    language lies within RFC 8259 (its sections 4 to 7, without insignificant
    white space, fractions and exponents; bytes from 0x80 up stand for themselves). */
module Json {
  import opened Common
  import opened Digits

  datatype Json = Str(s: string) | Num(n: int) | Arr(items: seq<Json>) | Obj(members: seq<Member>)

  datatype Member = Member(key: string, value: Json)

  // ----- Printing -----

  function HexDigit(d: nat): (c: char)
    requires d < 16
    ensures IsHex(c) && Digit(c) == d
  {
    CHARS[d]
  }

  function EscapeChar(c: char): string {
    if c == '"' then "\\\""
    else if c == '\\' then "\\\\"
    else if c as int == 8 then "\\b"
    else if c as int == 12 then "\\f"
    else if c == '\n' then "\\n"
    else if c == '\r' then "\\r"
    else if c == '\t' then "\\t"
    else if c < ' ' then ['\\', 'u', '0', '0', HexDigit(c as int / 16), HexDigit(c as int % 16)]
    else [c]
  }

  /** What json_print_char() writes for a signed character: its own quotes and
      backslashes aside, it has only the numeric form. */
  function CharEscape(c: char): string {
    if c == '"' then "\\\""
    else if c == '\\' then "\\\\"
    else if c < ' ' || c as int >= 0x80 then ['\\', 'u', '0', '0', HexDigit(c as int / 16 % 16), HexDigit(c as int % 16)]
    else [c]
  }

  function Escape(s: string): string {
    if s == "" then "" else EscapeChar(s[0]) + Escape(s[1..])
  }

  function Quote(s: string): string {
    ['"'] + Escape(s) + ['"']
  }

  function Number(n: int): string {
    if n >= 0 then Text(n, 10) else "-" + Text(-n, 10)
  }

  function Comma(sep: bool): string {
    if sep then "," else ""
  }

  function Print(v: Json): string
    decreases v, 0
  {
    match v
    case Str(s) => Quote(s)
    case Num(n) => Number(n)
    case Arr(items) => ['['] + PrintItems(false, items) + [']']
    case Obj(ms) => ['{'] + PrintMembers(false, ms) + ['}']
  }

  /** Items after a separator state: a comma comes first when `sep` is set. */
  function PrintItems(sep: bool, items: seq<Json>): string
    decreases items, 1
  {
    if items == [] then "" else Comma(sep) + Print(items[0]) + PrintItems(true, items[1..])
  }

  function PrintMembers(sep: bool, ms: seq<Member>): string
    decreases ms, 1
  {
    if ms == [] then ""
    else Comma(sep) + PrintMember(ms[0]) + PrintMembers(true, ms[1..])
  }

  function PrintMember(m: Member): string
    decreases m, 0
  {
    Quote(m.key) + [':'] + Print(m.value)
  }

  // ----- Parsing -----

  function HexValue(s: string): Option<nat> {
    if |s| == 4 && forall c | c in s :: IsHex(c) then Some(Value(s, 16, 0)) else None
  }

  /** One character of a string, and what is left. */
  function ParseChar(s: string): (r: Option<(char, string)>)
    requires s != ""
    ensures r.Some? ==> |r.value.1| < |s|
  {
    if s[0] < ' ' || s[0] == '"' then None
    else if s[0] != '\\' then Some((s[0], s[1..]))
    else if |s| < 2 then None
    else
      var t := s[2..];
      match s[1]
      case '"' => Some(('"', t))
      case '\\' => Some(('\\', t))
      case '/' => Some(('/', t))
      case 'b' => Some((8 as char, t))
      case 'f' => Some((12 as char, t))
      case 'n' => Some(('\n', t))
      case 'r' => Some(('\r', t))
      case 't' => Some(('\t', t))
      case 'u' =>
        if |t| < 4 then None
        else
          (match HexValue(t[..4])
           case None => None
           case Some(n) => if n < 0x80 then Some((n as char, t[4..])) else None)
      case _ => None
  }

  /** The rest of a string and its closing quotation mark. */
  function ParseString(s: string): (r: Option<(string, string)>)
    ensures r.Some? ==> |r.value.1| < |s|
    decreases |s|
  {
    if s == "" then None
    else if s[0] == '"' then Some(("", s[1..]))
    else
      match ParseChar(s)
      case None => None
      case Some((c, t)) =>
        match ParseString(t)
        case None => None
        case Some((u, rest)) => Some(([c] + u, rest))
  }

  predicate Follows(rest: string) {
    rest == "" || rest[0] in {',', ']', '}', '\n'}
  }

  function ParseDigits(s: string): (r: Option<(nat, string)>)
    ensures r.Some? ==> |r.value.1| < |s|
  {
    var k := Run(s);
    if k == 0 || (k > 1 && s[0] == '0') || !Follows(s[k..]) then None
    else Some((Value(s[..k], 10, 0), s[k..]))
  }

  function ParseValue(s: string): (r: Option<(Json, string)>)
    ensures r.Some? ==> |r.value.1| < |s|
    decreases |s|, 0
  {
    if s == "" then None
    else if s[0] == '"' then
      match ParseString(s[1..])
      case None => None
      case Some((u, rest)) => Some((Str(u), rest))
    else if s[0] == '[' then
      match ParseItems(true, s[1..])
      case None => None
      case Some((items, rest)) => Some((Arr(items), rest))
    else if s[0] == '{' then
      match ParseMembers(true, s[1..])
      case None => None
      case Some((ms, rest)) => Some((Obj(ms), rest))
    else if s[0] == '-' then
      match ParseDigits(s[1..])
      case None => None
      case Some((n, rest)) => Some((Num(-(n as int)), rest))
    else
      match ParseDigits(s)
      case None => None
      case Some((n, rest)) => Some((Num(n), rest))
  }

  /** The items of an array up to its bracket: after the first, each has a comma. */
  function ParseItems(first: bool, s: string): (r: Option<(seq<Json>, string)>)
    ensures r.Some? ==> |r.value.1| < |s|
    decreases |s|, 1
  {
    if s == "" then None
    else if s[0] == ']' then Some(([], s[1..]))
    else if !first && s[0] != ',' then None
    else
      match ParseValue(if first then s else s[1..])
      case None => None
      case Some((v, t)) =>
        match ParseItems(false, t)
        case None => None
        case Some((vs, rest)) => Some(([v] + vs, rest))
  }

  function ParseMembers(first: bool, s: string): (r: Option<(seq<Member>, string)>)
    ensures r.Some? ==> |r.value.1| < |s|
    decreases |s|, 1
  {
    if s == "" then None
    else if s[0] == '}' then Some(([], s[1..]))
    else if !first && s[0] != ',' then None
    else
      match ParseMember(if first then s else s[1..])
      case None => None
      case Some((m, t)) =>
        match ParseMembers(false, t)
        case None => None
        case Some((ms, rest)) => Some(([m] + ms, rest))
  }

  function ParseMember(s: string): (r: Option<(Member, string)>)
    ensures r.Some? ==> |r.value.1| < |s|
    decreases |s|, 0
  {
    if s == "" || s[0] != '"' then None
    else
      match ParseString(s[1..])
      case None => None
      case Some((k, t)) =>
        if t == "" || t[0] != ':' then None
        else
          match ParseValue(t[1..])
          case None => None
          case Some((v, rest)) => Some((Member(k, v), rest))
  }

  // ----- Everything printed parses back -----

  lemma HexBack(a: nat, b: nat)
    requires a < 16 && b < 16
    ensures HexValue(['0', '0', HexDigit(a), HexDigit(b)]) == Some(16 * a + b)
  {
    var x, y := HexDigit(a), HexDigit(b);
    assert ['0'] == "" + ['0'] && ['0', '0'] == ['0'] + ['0'];
    assert ['0', '0', x] == ['0', '0'] + [x] && ['0', '0', x, y] == ['0', '0', x] + [y];
    ValueSnoc("", '0', 16, 0);
    ValueSnoc(['0'], '0', 16, 0);
    ValueSnoc(['0', '0'], x, 16, 0);
    ValueSnoc(['0', '0', x], y, 16, 0);
  }

  lemma CharBack(c: char, rest: string)
    ensures EscapeChar(c) != "" && (EscapeChar(c) + rest)[0] != '"'
    ensures ParseChar(EscapeChar(c) + rest) == Some((c, rest))
  {
    var s := EscapeChar(c) + rest;
    if |EscapeChar(c)| == 1 {
      assert s[1..] == rest;
    } else if |EscapeChar(c)| == 2 {
      assert s[2..] == rest;
    } else {
      var a, b := c as int / 16, c as int % 16;
      assert s[2..] == ['0', '0', HexDigit(a), HexDigit(b)] + rest;
      assert s[2..][..4] == ['0', '0', HexDigit(a), HexDigit(b)] && s[2..][4..] == rest;
      HexBack(a, b);
    }
  }

  /** A single ASCII character decodes to itself in either form. */
  lemma CharEscapeBack(c: char, rest: string)
    requires c as int < 0x80
    ensures ParseString(CharEscape(c) + ['"'] + rest) == Some(([c], rest))
    ensures c >= ' ' ==> CharEscape(c) == EscapeChar(c)
  {
    var t := ['"'] + rest;
    var s := CharEscape(c) + t;
    assert CharEscape(c) + ['"'] + rest == s && t[1..] == rest;
    if c >= ' ' {
      assert CharEscape(c) == EscapeChar(c);
      CharBack(c, t);
    } else {
      UnicodeBack(c, t);
    }
    assert ParseString(t) == Some(("", rest)) && [c] + "" == [c];
  }

  lemma UnicodeBack(c: char, t: string)
    requires c < ' '
    ensures ParseChar(CharEscape(c) + t) == Some((c, t)) && CharEscape(c)[0] != '"'
  {
    var s, a, b := CharEscape(c) + t, c as int / 16, c as int % 16;
    assert s[2..] == ['0', '0', HexDigit(a), HexDigit(b)] + t;
    assert s[2..][..4] == ['0', '0', HexDigit(a), HexDigit(b)] && s[2..][4..] == t;
    HexBack(a, b);
  }

  lemma {:induction false} StringBack(u: string, rest: string)
    ensures ParseString(Escape(u) + ['"'] + rest) == Some((u, rest))
  {
    var s := Escape(u) + ['"'] + rest;
    if u == "" {
      assert s[1..] == rest;
    } else {
      var t := Escape(u[1..]) + ['"'] + rest;
      assert s == EscapeChar(u[0]) + t;
      CharBack(u[0], t);
      StringBack(u[1..], rest);
      assert [u[0]] + u[1..] == u;
    }
  }

  lemma DigitsBack(n: nat, rest: string)
    requires Follows(rest)
    ensures ParseDigits(Text(n, 10) + rest) == Some((n, rest)) && IsDec(Text(n, 10)[0])
  {
    var s, k := Text(n, 10) + rest, |Text(n, 10)|;
    RunUnique(s, k);
    assert s[..k] == Text(n, 10) && s[k..] == rest;
    NoLeadingZero(n, 10);
    RoundTrip(n, 10, 0);
  }

  lemma NumberBack(n: int, rest: string)
    requires Follows(rest)
    ensures ParseValue(Number(n) + rest) == Some((Num(n), rest))
  {
    hide ParseDigits, ParseItems, ParseMembers, ParseString, Text;
    var s := Number(n) + rest;
    DigitsBack(if n >= 0 then n else -n, rest);
    if n < 0 { assert s[1..] == Text(-n, 10) + rest; }
  }

  lemma {:induction false} ValueBack(v: Json, rest: string)
    requires Follows(rest)
    ensures ParseValue(Print(v) + rest) == Some((v, rest))
    decreases v, 0
  {
    hide ParseDigits, ParseItems, ParseMembers, ParseString, PrintItems, PrintMembers, Number, Escape;
    var s := Print(v) + rest;
    match v
    case Str(u) =>
      assert s[1..] == Escape(u) + ['"'] + rest;
      StringBack(u, rest);
    case Num(n) =>
      NumberBack(n, rest);
    case Arr(items) =>
      assert s[1..] == PrintItems(false, items) + [']'] + rest;
      ItemsBack(true, items, rest);
    case Obj(ms) =>
      assert s[1..] == PrintMembers(false, ms) + ['}'] + rest;
      MembersBack(true, ms, rest);
  }

  lemma PrintHead(v: Json)
    ensures Print(v) != "" && Print(v)[0] != ']' && Print(v)[0] != '}' && Print(v)[0] != ',' && Print(v)[0] != '\n'
  {
    if v.Num? && v.n >= 0 {
      assert Text(v.n, 10)[0] in Text(v.n, 10);
    }
  }

  lemma ItemsFollow(items: seq<Json>, rest: string)
    ensures Follows(PrintItems(true, items) + [']'] + rest)
  {
  }

  lemma MembersFollow(ms: seq<Member>, rest: string)
    ensures Follows(PrintMembers(true, ms) + ['}'] + rest)
  {
  }

  lemma {:induction false} ItemsBack(first: bool, items: seq<Json>, rest: string)
    ensures ParseItems(first, PrintItems(!first, items) + [']'] + rest) == Some((items, rest))
    decreases items, 1
  {
    hide ParseValue, Print;
    var s := PrintItems(!first, items) + [']'] + rest;
    if items == [] {
      assert s[1..] == rest;
    } else {
      var t := PrintItems(true, items[1..]) + [']'] + rest;
      var u := Print(items[0]) + t;
      PrintHead(items[0]);
      assert s == Comma(!first) + u && (if first then s else s[1..]) == u;
      ItemsFollow(items[1..], rest);
      ValueBack(items[0], t);
      ItemsBack(false, items[1..], rest);
      assert [items[0]] + items[1..] == items;
    }
  }

  lemma MemberHead(m: Member)
    ensures PrintMember(m) != "" && PrintMember(m)[0] == '"'
  {
  }

  lemma {:induction false} MemberBack(m: Member, rest: string)
    requires Follows(rest)
    ensures ParseMember(PrintMember(m) + rest) == Some((m, rest))
    decreases m, 0
  {
    hide ParseValue, Print, ParseString;
    var s, t := PrintMember(m) + rest, [':'] + (Print(m.value) + rest);
    assert s[1..] == Escape(m.key) + ['"'] + t && t[1..] == Print(m.value) + rest;
    StringBack(m.key, t);
    ValueBack(m.value, rest);
  }

  lemma {:induction false} MembersBack(first: bool, ms: seq<Member>, rest: string)
    ensures ParseMembers(first, PrintMembers(!first, ms) + ['}'] + rest) == Some((ms, rest))
    decreases ms, 1
  {
    hide ParseMember, PrintMember;
    var s := PrintMembers(!first, ms) + ['}'] + rest;
    if ms == [] {
      assert s[1..] == rest;
    } else {
      var t := PrintMembers(true, ms[1..]) + ['}'] + rest;
      var u := PrintMember(ms[0]) + t;
      assert s == Comma(!first) + u && (if first then s else s[1..]) == u;
      MemberHead(ms[0]);
      MembersFollow(ms[1..], rest);
      MemberBack(ms[0], t);
      MembersBack(false, ms[1..], rest);
      assert [ms[0]] + ms[1..] == ms;
    }
  }
}
