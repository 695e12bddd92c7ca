/**
 The helper's JSON (native/windows/roost-win-helper.cpp: json and JsonParser; sections 6 and 7 of
 RFC 8259): numbers are unsigned 64-bit integers, strings are bytes of valid UTF-8.

 A reader takes the text still unread and gives what it read and the text behind it.
 */
module Json {

  import opened Basics
  import opened Utf
  import opened Numerals

  datatype Value =
    | Null
    | Bool(flag: bool)
    | Number(number: nat)
    | String(bytes: Bytes)
    | Array(items: seq<Value>)
    | Object(members: map<Bytes, Value>)

  const QUOTE: Byte := 0x22
  const BACKSLASH: Byte := 0x5C
  const SLASH: Byte := 0x2F
  const COMMA: Byte := 0x2C
  const COLON: Byte := 0x3A
  const OPEN_LIST: Byte := 0x5B
  const CLOSE_LIST: Byte := 0x5D
  const OPEN_RECORD: Byte := 0x7B
  const CLOSE_RECORD: Byte := 0x7D

  // ---------------------------------------------------------------------------------------------
  // Printing strings
  // ---------------------------------------------------------------------------------------------

  function HexDigit(n: nat): Byte
    requires n < 16
  {
    if n < 10 then (0x30 + n) as Byte else (0x57 + n) as Byte
  }

  function EscapeByte(b: Byte): (e: Bytes)
    ensures e != []
  {
    if b == QUOTE || b == BACKSLASH then [BACKSLASH, b]
    else if b == 0x08 then [BACKSLASH, 0x62]
    else if b == 0x0C then [BACKSLASH, 0x66]
    else if b == 0x0A then [BACKSLASH, 0x6E]
    else if b == 0x0D then [BACKSLASH, 0x72]
    else if b == 0x09 then [BACKSLASH, 0x74]
    else if b < 0x20 then [BACKSLASH, 0x75, 0x30, 0x30, HexDigit(b / 16), HexDigit(b % 16)]
    else [b]
  }

  function EscapeAll(b: Bytes): Bytes {
    if b == [] then [] else EscapeByte(b[0]) + EscapeAll(b[1..])
  }

  function Quoted(b: Bytes): (q: Bytes)
    ensures q != [] && q[0] == QUOTE
  {
    [QUOTE] + EscapeAll(b) + [QUOTE]
  }

  method QuoteBytes(value: Bytes) returns (out: Bytes)
    ensures out == Quoted(value)
  {
    out := [QUOTE];
    for i := 0 to |value|
      invariant out + EscapeAll(value[i..]) == [QUOTE] + EscapeAll(value)
    {
      assert value[i..][1..] == value[i + 1..];
      out := out + EscapeByte(value[i]);
    }
    out := out + [QUOTE];
  }

  // ---------------------------------------------------------------------------------------------
  // Reading strings
  // ---------------------------------------------------------------------------------------------

  predicate IsBlank(b: Byte) {
    b == 0x20 || b == 0x09 || b == 0x0D || b == 0x0A
  }

  function Skip(s: Bytes): (rest: Bytes)
    ensures |rest| <= |s|
    ensures rest != [] ==> !IsBlank(rest[0])
  {
    if s != [] && IsBlank(s[0]) then Skip(s[1..]) else s
  }

  /** Takes one expected character after blanks. */
  function Take(s: Bytes, c: Byte): (rest: Option<Bytes>)
    ensures rest.Some? ==> |rest.value| < |s|
  {
    var t := Skip(s);
    if t != [] && t[0] == c then Some(t[1..]) else None
  }

  function HexValue(b: Byte): (v: Option<nat>)
    ensures v.Some? ==> v.value < 16
  {
    var n: nat := b;
    if 0x30 <= n <= 0x39 then Some(n - 0x30)
    else if 0x61 <= n <= 0x66 then Some(n - 0x57)
    else if 0x41 <= n <= 0x46 then Some(n - 0x37)
    else None
  }

  /** Four hexadecimal digits. */
  function Hex4(s: Bytes): (v: Option<nat>)
    ensures v.Some? ==> |s| >= 4 && v.value < 0x1_0000
  {
    if |s| < 4 then None
    else
      var (a, b, c, d) := (HexValue(s[0]), HexValue(s[1]), HexValue(s[2]), HexValue(s[3]));
      if a.None? || b.None? || c.None? || d.None? then None
      else Some(((a.value * 16 + b.value) * 16 + c.value) * 16 + d.value)
  }

  /** What follows `\u`: one unit, or two that pair, as UTF-8. */
  function ReadUnicode(s: Bytes): (r: Option<(Bytes, Bytes)>)
    ensures r.Some? ==> |r.value.1| < |s|
  {
    var code := Hex4(s);
    if code.None? then None
    else if IsHigh(code.value) then
      var t := s[4..];
      if |t| < 2 || t[0] != BACKSLASH || t[1] != 0x75 then None
      else
        var low := Hex4(t[2..]);
        if low.None? || !IsLow(low.value) then None
        else Some((EncodePoint(PairOf(code.value, low.value)), t[6..]))
    else if IsLow(code.value) then None
    else Some((EncodePoint(code.value), s[4..]))
  }

  function ReadEscape(c: Byte, s: Bytes): (r: Option<(Bytes, Bytes)>)
    ensures r.Some? ==> |r.value.1| <= |s|
  {
    if c == QUOTE || c == BACKSLASH || c == SLASH then Some(([c], s))
    else if c == 0x62 then Some(([0x08], s))
    else if c == 0x66 then Some(([0x0C], s))
    else if c == 0x6E then Some(([0x0A], s))
    else if c == 0x72 then Some(([0x0D], s))
    else if c == 0x74 then Some(([0x09], s))
    else if c == 0x75 then ReadUnicode(s)
    else None
  }

  /** One character of a string, escaped or not. */
  function ReadCharacter(s: Bytes): (r: Option<(Bytes, Bytes)>)
    requires s != []
    ensures r.Some? ==> |r.value.1| < |s|
  {
    if s[0] < 0x20 then None
    else if s[0] != BACKSLASH then Some(([s[0]], s[1..]))
    else if |s| < 2 then None
    else ReadEscape(s[1], s[2..])
  }

  /** The bytes up to the closing quote, and what follows it. */
  function Unescape(s: Bytes): (r: Option<(Bytes, Bytes)>)
    ensures r.Some? ==> |r.value.1| < |s|
    decreases |s|
  {
    if s == [] then None
    else if s[0] == QUOTE then Some(([], s[1..]))
    else if ReadCharacter(s).None? then None
    else
      var (bytes, rest) := ReadCharacter(s).value;
      var more := Unescape(rest);
      if more.None? then None else Some((bytes + more.value.0, more.value.1))
  }

  function ReadString(s: Bytes): (r: Option<(Bytes, Bytes)>)
    ensures r.Some? ==> |r.value.1| < |s|
  {
    var t := Take(s, QUOTE);
    if t.None? then None
    else
      var r := Unescape(t.value);
      if r.None? || FromUtf8(r.value.0).None? then None else r
  }

  // ---------------------------------------------------------------------------------------------
  // Numbers
  // ---------------------------------------------------------------------------------------------

  /** Digits onto an accumulator, refused where a 64-bit one would overflow. */
  function ReadDigits(s: Bytes, number: nat): (r: Option<(nat, Bytes)>)
    ensures r.Some? ==> |r.value.1| <= |s|
  {
    if s == [] || !IsDigit(s[0]) then Some((number, s))
    else if number > (UINT64_MAX - DigitOf(s[0])) / 10 then None
    else ReadDigits(s[1..], number * 10 + DigitOf(s[0]))
  }

  /** A fraction or an exponent. */
  predicate StartsFraction(s: Bytes) {
    s != [] && (s[0] == 0x2E || s[0] == 0x65 || s[0] == 0x45)
  }

  function ReadNumber(s: Bytes): (r: Option<(nat, Bytes)>)
    ensures r.Some? ==> |r.value.1| < |s|
  {
    if s == [] || !IsDigit(s[0]) || (s[0] == 0x30 && |s| > 1 && IsDigit(s[1])) then None
    else
      var first := DigitOf(s[0]);
      var r := ReadDigits(s[1..], first);
      if r.None? || StartsFraction(r.value.1) then None else r
  }

  // ---------------------------------------------------------------------------------------------
  // Values
  // ---------------------------------------------------------------------------------------------

  function ReadLiteral(s: Bytes, word: Bytes, v: Value): (r: Option<(Value, Bytes)>)
    requires word != []
    ensures r.Some? ==> |r.value.1| < |s|
  {
    if word <= s then Some((v, s[|word|..])) else None
  }

  const TRUE: Bytes := [0x74, 0x72, 0x75, 0x65]
  const FALSE: Bytes := [0x66, 0x61, 0x6C, 0x73, 0x65]
  const NULL: Bytes := [0x6E, 0x75, 0x6C, 0x6C]

  function ReadValue(s: Bytes): (r: Option<(Value, Bytes)>)
    ensures r.Some? ==> |r.value.1| < |s|
    decreases |s|, 1
  {
    var t := Skip(s);
    if t == [] then None
    else if t[0] == QUOTE then
      var r := ReadString(t);
      if r.None? then None else Some((String(r.value.0), r.value.1))
    else if t[0] == OPEN_RECORD then
      if Take(t[1..], CLOSE_RECORD).Some? then Some((Object(map[]), Take(t[1..], CLOSE_RECORD).value))
      else
        var r := ReadMembers(t[1..], map[]);
        if r.None? then None else Some((Object(r.value.0), r.value.1))
    else if t[0] == OPEN_LIST then
      if Take(t[1..], CLOSE_LIST).Some? then Some((Array([]), Take(t[1..], CLOSE_LIST).value))
      else
        var r := ReadItems(t[1..]);
        if r.None? then None else Some((Array(r.value.0), r.value.1))
    else if t[0] == 0x74 then ReadLiteral(t, TRUE, Bool(true))
    else if t[0] == 0x66 then ReadLiteral(t, FALSE, Bool(false))
    else if t[0] == 0x6E then ReadLiteral(t, NULL, Null)
    else
      var r := ReadNumber(t);
      if r.None? then None else Some((Number(r.value.0), r.value.1))
  }

  /** The rest of a list, from an item on. */
  function ReadItems(s: Bytes): (r: Option<(seq<Value>, Bytes)>)
    ensures r.Some? ==> |r.value.1| < |s|
    decreases |s|, 2
  {
    var v := ReadValue(s);
    if v.None? then None
    else
      var (item, t) := v.value;
      if Take(t, COMMA).Some? then
        var r := ReadItems(Take(t, COMMA).value);
        if r.None? then None else Some(([item] + r.value.0, r.value.1))
      else if Take(t, CLOSE_LIST).Some? then Some(([item], Take(t, CLOSE_LIST).value))
      else None
  }

  /** The rest of an object, from a key on; a repeated key is refused. */
  function ReadMembers(s: Bytes, before: map<Bytes, Value>): (r: Option<(map<Bytes, Value>, Bytes)>)
    ensures r.Some? ==> |r.value.1| < |s|
    decreases |s|, 2
  {
    var k := ReadString(s);
    if k.None? || Take(k.value.1, COLON).None? then None
    else
      var v := ReadValue(Take(k.value.1, COLON).value);
      if v.None? || k.value.0 in before then None
      else
        var members := before[k.value.0 := v.value.0];
        if Take(v.value.1, COMMA).Some? then ReadMembers(Take(v.value.1, COMMA).value, members)
        else if Take(v.value.1, CLOSE_RECORD).Some? then Some((members, Take(v.value.1, CLOSE_RECORD).value))
        else None
  }

  /** A whole document. */
  function Parse(s: Bytes): Option<Value> {
    var r := ReadValue(s);
    if r.None? || Skip(r.value.1) != [] then None else Some(r.value.0)
  }

}
