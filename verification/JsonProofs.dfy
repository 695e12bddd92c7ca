/**
 Reading back what was printed: string escapes on all bytes, `\u` escapes of all scalar values, decimal
 numbers up to the 64-bit limit and no further, and whole documents.
 */
module JsonProofs {

  import opened Basics
  import opened Utf
  import opened Json
  import opened Numerals

  // ---------------------------------------------------------------------------------------------
  // Strings
  // ---------------------------------------------------------------------------------------------

  lemma HexReadsBack(n: nat)
    requires n < 16
    ensures HexValue(HexDigit(n)) == Some(n)
  {
  }

  /** A control character without a short escape. */
  lemma LongEscapeReadsBack(b: Byte, rest: Bytes)
    requires b < 0x20
    ensures ReadUnicode([0x30, 0x30, HexDigit(b / 16), HexDigit(b % 16)] + rest) == Some(([b], rest))
  {
    var digits := [0x30, 0x30, HexDigit(b / 16), HexDigit(b % 16)];
    var s := digits + rest;
    HexReadsBack(b / 16);
    HexReadsBack(b % 16);
    assert Hex4(s) == Some(b as nat);
    assert s[4..] == rest;
  }

  lemma CharacterReadsBack(b: Byte, rest: Bytes)
    ensures ReadCharacter(EscapeByte(b) + rest) == Some(([b], rest))
  {
    var e := EscapeByte(b);
    var s := e + rest;
    if e == [b] {
      assert s[1..] == rest;
    } else {
      assert s[0] == BACKSLASH && s[1] == e[1] && s[2..] == e[2..] + rest;
      if |e| == 2 {
        assert s[2..] == rest;
      } else {
        LongEscapeReadsBack(b, rest);
        assert e[2..] == [0x30, 0x30, HexDigit(b / 16), HexDigit(b % 16)];
      }
    }
  }

  lemma UnescapeStep(b: Byte, s: Bytes)
    ensures Unescape(EscapeByte(b) + s) ==
      (var r := Unescape(s); if r.None? then None else Some(([b] + r.value.0, r.value.1)))
  {
    CharacterReadsBack(b, s);
    assert (EscapeByte(b) + s)[0] != QUOTE;
  }

  lemma EscapeAllSplit(b: Bytes, tail: Bytes)
    requires b != []
    ensures EscapeAll(b) + tail == EscapeByte(b[0]) + (EscapeAll(b[1..]) + tail)
  {
    Regroup(EscapeByte(b[0]), EscapeAll(b[1..]), tail);
  }

  lemma Regroup(a: Bytes, b: Bytes, c: Bytes)
    ensures (a + b) + c == a + (b + c)
  {
  }

  /** Unescaping undoes escaping on every byte string. */
  lemma {:induction false} UnescapesBack(b: Bytes, rest: Bytes)
    ensures Unescape(EscapeAll(b) + ([QUOTE] + rest)) == Some((b, rest))
  {
    var tail := [QUOTE] + rest;
    if b == [] {
      assert EscapeAll(b) + tail == tail && tail[1..] == rest;
    } else {
      UnescapesBack(b[1..], rest);
      UnescapeStep(b[0], EscapeAll(b[1..]) + tail);
      EscapeAllSplit(b, tail);
      assert [b[0]] + b[1..] == b;
    }
  }

  /** Every valid string reads back; bytes that are not UTF-8 are refused. */
  lemma StringReadsBackIff(b: Bytes, rest: Bytes)
    ensures ReadString(Quoted(b) + rest) == if FromUtf8(b).Some? then Some((b, rest)) else None
  {
    var body := EscapeAll(b) + ([QUOTE] + rest);
    UnescapesBack(b, rest);
    BracketsSplit([QUOTE], EscapeAll(b), [QUOTE], rest);
    TakesFirst(QUOTE, body);
  }

  function HexUnit(unit: nat): Bytes
    requires unit < 0x1_0000
  {
    [HexDigit(unit / 0x1000), HexDigit(unit / 0x100 % 16), HexDigit(unit / 16 % 16), HexDigit(unit % 16)]
  }

  /** A scalar value as one or two `\u` escapes. */
  function UnicodeEscape(p: Point): Bytes {
    var w := UnitsOf(p);
    [BACKSLASH, 0x75] + HexUnit(w[0]) + (if |w| == 2 then [BACKSLASH, 0x75] + HexUnit(w[1]) else [])
  }

  lemma UnitReadsBack(unit: nat, rest: Bytes)
    requires unit < 0x1_0000
    ensures Hex4(HexUnit(unit) + rest) == Some(unit) && (HexUnit(unit) + rest)[4..] == rest
  {
    DigitsReadBack(unit / 0x1000, unit / 0x100 % 16, unit / 16 % 16, unit % 16, rest);
    UnitIsItsDigits(unit);
  }

  lemma DigitsReadBack(a: nat, b: nat, c: nat, d: nat, rest: Bytes)
    requires a < 16 && b < 16 && c < 16 && d < 16
    ensures var s := [HexDigit(a), HexDigit(b), HexDigit(c), HexDigit(d)] + rest;
      Hex4(s) == Some(((a * 16 + b) * 16 + c) * 16 + d) && s[4..] == rest
  {
    HexReadsBack(a);
    HexReadsBack(b);
    HexReadsBack(c);
    HexReadsBack(d);
  }

  lemma UnitIsItsDigits(unit: nat)
    ensures ((unit / 0x1000 * 16 + unit / 0x100 % 16) * 16 + unit / 16 % 16) * 16 + unit % 16 == unit
  {
    assert unit / 0x1000 * 16 + unit / 0x100 % 16 == unit / 0x100;
    assert unit / 0x100 * 16 + unit / 16 % 16 == unit / 16;
  }

  lemma PairReadsBack(p: Point, rest: Bytes)
    requires p >= 0x1_0000
    ensures ReadUnicode(UnicodeEscape(p)[2..] + rest) == Some((EncodePoint(p), rest))
  {
    var w := UnitsOf(p);
    UnitsSplit(p);
    var second := HexUnit(w[1]) + rest;
    var t := [BACKSLASH, 0x75] + second;
    UnitReadsBack(w[0], t);
    UnitReadsBack(w[1], rest);
    assert UnicodeEscape(p)[2..] + rest == HexUnit(w[0]) + t;
    assert t[2..] == second && t[6..] == second[4..];
  }

  /** `\u` escapes of any scalar value, paired or not, give its UTF-8 bytes. */
  lemma UnicodeEscapeReadsBack(p: Point, rest: Bytes)
    ensures ReadCharacter(UnicodeEscape(p) + rest) == Some((EncodePoint(p), rest))
  {
    var e := UnicodeEscape(p);
    var s := e + rest;
    assert s[2..] == e[2..] + rest;
    if p >= 0x1_0000 {
      PairReadsBack(p, rest);
    } else {
      UnitReadsBack(p, rest);
      assert s[2..] == HexUnit(p) + rest;
    }
  }

  // ---------------------------------------------------------------------------------------------
  // Numbers
  // ---------------------------------------------------------------------------------------------

  /** What may follow a number. */
  predicate EndsNumber(s: Bytes) {
    s == [] || (!IsDigit(s[0]) && !StartsFraction(s))
  }

  /** The overflow check is exact. */
  lemma OverflowIsExact(number: nat, digit: nat)
    requires digit < 10
    ensures number > (UINT64_MAX - digit) / 10 <==> number * 10 + digit > UINT64_MAX
  {
  }

  /** One more digit on an accumulator. */
  function Step(number: nat, digit: Byte): Option<nat>
    requires IsDigit(digit)
  {
    var next := number * 10 + DigitOf(digit);
    if next > UINT64_MAX then None else Some(next)
  }

  lemma DigitsStep(digit: Byte, rest: Bytes, number: nat)
    requires IsDigit(digit)
    ensures ReadDigits([digit] + rest, number) == if Step(number, digit).None? then None
      else ReadDigits(rest, Step(number, digit).value)
  {
    OverflowIsExact(number, DigitOf(digit));
    assert ([digit] + rest)[1..] == rest;
  }

  /** Reading the decimal form of a number onto nothing accumulates that number, or overflows. */
  lemma {:induction false} DecimalAccumulates(n: nat, rest: Bytes)
    ensures ReadDigits(Decimal(n) + rest, 0) == if n > UINT64_MAX then None else ReadDigits(rest, n)
  {
    if n < 10 {
      DigitsStep(Digit(n), rest, 0);
    } else {
      var last := Digit(n % 10);
      DecimalAccumulates(n / 10, [last] + rest);
      assert Decimal(n) + rest == Decimal(n / 10) + ([last] + rest);
      DigitsStep(last, rest, n / 10);
      assert n / 10 * 10 + n % 10 == n;
    }
  }

  lemma NumberIsItsDigits(s: Bytes)
    requires s != [] && IsDigit(s[0])
    ensures ReadDigits(s, 0) == ReadDigits(s[1..], DigitOf(s[0]))
  {
  }

  /** Exactly the numbers that fit 64 bits read back; larger ones are refused, not truncated. */
  lemma NumberReadsBackIff(n: nat, rest: Bytes)
    requires EndsNumber(rest)
    ensures ReadNumber(Decimal(n) + rest) == if n > UINT64_MAX then None else Some((n, rest))
  {
    var s := Decimal(n) + rest;
    assert s[0] == Decimal(n)[0] && (|Decimal(n)| > 1 ==> s[1] == Decimal(n)[1]);
    DecimalAccumulates(n, rest);
    NumberIsItsDigits(s);
    assert ReadDigits(rest, n) == Some((n, rest));
    if s[0] == 0x30 { assert s == [0x30] + rest; }
  }

  // ---------------------------------------------------------------------------------------------
  // Documents
  // ---------------------------------------------------------------------------------------------

  /** A document as a printer lays it out: members in order. */
  datatype Doc =
    | Text(bytes: Bytes)
    | Count(number: nat)
    | List(items: seq<Doc>)
    | Record(members: seq<Member>)

  datatype Member = Member(key: Bytes, doc: Doc)

  function Print(d: Doc): (s: Bytes)
    ensures s != [] && !IsBlank(s[0]) && s[0] != CLOSE_LIST
  {
    match d
    case Text(bytes) => Quoted(bytes)
    case Count(number) => Decimal(number)
    case List(items) => [OPEN_LIST] + PrintItems(items) + [CLOSE_LIST]
    case Record(members) => [OPEN_RECORD] + PrintMembers(members) + [CLOSE_RECORD]
  }

  function PrintItems(items: seq<Doc>): Bytes {
    if items == [] then []
    else Print(items[0]) + (if |items| == 1 then [] else [COMMA] + PrintItems(items[1..]))
  }

  function PrintMember(m: Member): Bytes {
    Quoted(m.key) + [COLON] + Print(m.doc)
  }

  function PrintMembers(members: seq<Member>): Bytes {
    if members == [] then []
    else PrintMember(members[0]) + (if |members| == 1 then [] else [COMMA] + PrintMembers(members[1..]))
  }

  /** What a document means. */
  function ValueOf(d: Doc): Value {
    match d
    case Text(bytes) => String(bytes)
    case Count(number) => Number(number)
    case List(items) => Array(ValuesOf(items))
    case Record(members) => Object(MembersOf(members, map[]))
  }

  function ValuesOf(items: seq<Doc>): seq<Value> {
    if items == [] then [] else [ValueOf(items[0])] + ValuesOf(items[1..])
  }

  function MembersOf(members: seq<Member>, before: map<Bytes, Value>): map<Bytes, Value> {
    if members == [] then before else MembersOf(members[1..], before[members[0].key := ValueOf(members[0].doc)])
  }

  /** Strings are UTF-8, numbers fit 64 bits and keys differ. */
  predicate Printable(d: Doc) {
    match d
    case Text(bytes) => FromUtf8(bytes).Some?
    case Count(number) => number <= UINT64_MAX
    case List(items) => AllPrintable(items)
    case Record(members) => MembersPrintable(members, {})
  }

  predicate AllPrintable(items: seq<Doc>) {
    items == [] || (Printable(items[0]) && AllPrintable(items[1..]))
  }

  predicate MembersPrintable(members: seq<Member>, before: set<Bytes>) {
    if members == [] then true
    else
      && members[0].key !in before && FromUtf8(members[0].key).Some? && Printable(members[0].doc)
      && MembersPrintable(members[1..], before + {members[0].key})
  }

  lemma TakesFirst(c: Byte, rest: Bytes)
    requires !IsBlank(c)
    ensures Take([c] + rest, c) == Some(rest)
  {
    assert ([c] + rest)[1..] == rest;
  }

  lemma TakesOnly(s: Bytes, c: Byte)
    requires s != [] && !IsBlank(s[0]) && s[0] != c
    ensures Take(s, c) == None
  {
  }

  /** How a value that starts with a bracket or a quote is read. */
  lemma ReadsText(b: Bytes, rest: Bytes)
    requires FromUtf8(b).Some?
    ensures ReadValue(Quoted(b) + rest) == Some((String(b), rest))
  {
    StringReadsBackIff(b, rest);
    assert (Quoted(b) + rest)[0] == QUOTE;
  }

  lemma ReadsCount(n: nat, rest: Bytes)
    requires n <= UINT64_MAX && EndsNumber(rest)
    ensures ReadValue(Decimal(n) + rest) == Some((Number(n), rest))
  {
    NumberReadsBackIff(n, rest);
    var s := Decimal(n) + rest;
    assert s[0] == Decimal(n)[0] && IsDigit(s[0]);
    assert Skip(s) == s;
  }

  lemma ReadsList(s: Bytes)
    requires s != [] && !IsBlank(s[0]) && s[0] != CLOSE_LIST
    ensures ReadValue([OPEN_LIST] + s) ==
      (var r := ReadItems(s); if r.None? then None else Some((Array(r.value.0), r.value.1)))
  {
    var t := [OPEN_LIST] + s;
    assert Skip(t) == t && t[1..] == s;
    TakesOnly(s, CLOSE_LIST);
  }

  lemma ReadsEmpty(rest: Bytes)
    ensures ReadValue([OPEN_LIST] + ([CLOSE_LIST] + rest)) == Some((Array([]), rest))
    ensures ReadValue([OPEN_RECORD] + ([CLOSE_RECORD] + rest)) == Some((Object(map[]), rest))
  {
    TakesFirst(CLOSE_LIST, rest);
    TakesFirst(CLOSE_RECORD, rest);
    var list, record := [OPEN_LIST] + ([CLOSE_LIST] + rest), [OPEN_RECORD] + ([CLOSE_RECORD] + rest);
    assert list[1..] == [CLOSE_LIST] + rest && record[1..] == [CLOSE_RECORD] + rest;
  }

  lemma ReadsRecord(s: Bytes)
    requires s != [] && !IsBlank(s[0]) && s[0] != CLOSE_RECORD
    ensures ReadValue([OPEN_RECORD] + s) ==
      (var r := ReadMembers(s, map[]); if r.None? then None else Some((Object(r.value.0), r.value.1)))
  {
    var t := [OPEN_RECORD] + s;
    assert Skip(t) == t && t[1..] == s;
    TakesOnly(s, CLOSE_RECORD);
  }

  lemma ReadsLastItem(first: Bytes, v: Value, rest: Bytes)
    requires ReadValue(first + ([CLOSE_LIST] + rest)) == Some((v, [CLOSE_LIST] + rest))
    ensures ReadItems(first + ([CLOSE_LIST] + rest)) == Some(([v], rest))
  {
    TakesOnly([CLOSE_LIST] + rest, COMMA);
    TakesFirst(CLOSE_LIST, rest);
  }

  lemma ReadsItem(first: Bytes, v: Value, more: Bytes, values: seq<Value>, rest: Bytes)
    requires ReadValue(first + ([COMMA] + more)) == Some((v, [COMMA] + more)) && ReadItems(more) == Some((values, rest))
    ensures ReadItems(first + ([COMMA] + more)) == Some(([v] + values, rest))
  {
    TakesFirst(COMMA, more);
  }

  /** A member's key, and what follows its colon. */
  lemma ReadsKey(k: Bytes, s: Bytes)
    requires FromUtf8(k).Some?
    ensures var r := ReadString(Quoted(k) + ([COLON] + s));
      r == Some((k, [COLON] + s)) && Take(r.value.1, COLON) == Some(s)
  {
    StringReadsBackIff(k, [COLON] + s);
    TakesFirst(COLON, s);
  }

  lemma ReadsLastMember(k: Bytes, first: Bytes, v: Value, rest: Bytes, before: map<Bytes, Value>)
    requires FromUtf8(k).Some? && k !in before
    requires ReadValue(first + ([CLOSE_RECORD] + rest)) == Some((v, [CLOSE_RECORD] + rest))
    ensures ReadMembers(Quoted(k) + ([COLON] + (first + ([CLOSE_RECORD] + rest))), before) ==
      Some((before[k := v], rest))
  {
    ReadsKey(k, first + ([CLOSE_RECORD] + rest));
    TakesOnly([CLOSE_RECORD] + rest, COMMA);
    TakesFirst(CLOSE_RECORD, rest);
  }

  lemma ReadsMember(k: Bytes, first: Bytes, v: Value, more: Bytes, before: map<Bytes, Value>)
    requires FromUtf8(k).Some? && k !in before
    requires ReadValue(first + ([COMMA] + more)) == Some((v, [COMMA] + more))
    ensures ReadMembers(Quoted(k) + ([COLON] + (first + ([COMMA] + more))), before) == ReadMembers(more, before[k := v])
  {
    ReadsKey(k, first + ([COMMA] + more));
    TakesFirst(COMMA, more);
  }

  // Where the printed text splits.

  lemma ItemsSplit(items: seq<Doc>, tail: Bytes)
    requires items != []
    ensures PrintItems(items) + tail ==
      Print(items[0]) + (if |items| == 1 then tail else [COMMA] + (PrintItems(items[1..]) + tail))
  {
    var more := if |items| == 1 then [] else [COMMA] + PrintItems(items[1..]);
    Associative(Print(items[0]), more, tail);
    if |items| == 1 {
      assert more + tail == tail;
    } else {
      Associative([COMMA], PrintItems(items[1..]), tail);
    }
  }

  lemma MembersSplit(members: seq<Member>, tail: Bytes)
    requires members != []
    ensures var after := if |members| == 1 then tail else [COMMA] + (PrintMembers(members[1..]) + tail);
      PrintMembers(members) + tail == Quoted(members[0].key) + ([COLON] + (Print(members[0].doc) + after))
  {
    var m := members[0];
    var more := if |members| == 1 then [] else [COMMA] + PrintMembers(members[1..]);
    Associative(PrintMember(m), more, tail);
    if |members| == 1 {
      assert more + tail == tail;
    } else {
      Associative([COMMA], PrintMembers(members[1..]), tail);
    }
    BracketsSplit(Quoted(m.key), [COLON], Print(m.doc), more + tail);
  }

  lemma Associative(a: Bytes, b: Bytes, c: Bytes)
    ensures (a + b) + c == a + (b + c)
  {
  }

  lemma BracketsSplit(open: Bytes, body: Bytes, close: Bytes, rest: Bytes)
    ensures (open + body + close) + rest == open + (body + (close + rest))
  {
  }

  /** Printing a document and reading it gives the document's value, and stops where the document ends. */
  lemma {:induction false} DocumentReadsBack(d: Doc, rest: Bytes)
    requires Printable(d) && EndsNumber(rest)
    ensures ReadValue(Print(d) + rest) == Some((ValueOf(d), rest))
    decreases d
  {
    match d
    case Text(bytes) => ReadsText(bytes, rest);
    case Count(number) => ReadsCount(number, rest);
    case List(items) =>
      BracketsSplit([OPEN_LIST], PrintItems(items), [CLOSE_LIST], rest);
      ListReadsBack(items, rest);
    case Record(members) =>
      BracketsSplit([OPEN_RECORD], PrintMembers(members), [CLOSE_RECORD], rest);
      RecordReadsBack(members, rest);
  }

  lemma {:induction false} ListReadsBack(items: seq<Doc>, rest: Bytes)
    requires AllPrintable(items)
    ensures ReadValue([OPEN_LIST] + (PrintItems(items) + ([CLOSE_LIST] + rest))) == Some((Array(ValuesOf(items)), rest))
    decreases items, 1
  {
    var tail := [CLOSE_LIST] + rest;
    if items == [] {
      ReadsEmpty(rest);
      assert PrintItems(items) + tail == tail;
    } else {
      ItemsReadBack(items, rest);
      var s := PrintItems(items) + tail;
      assert s[0] == Print(items[0])[0];
      ReadsList(s);
    }
  }

  lemma {:induction false} RecordReadsBack(members: seq<Member>, rest: Bytes)
    requires MembersPrintable(members, {})
    ensures ReadValue([OPEN_RECORD] + (PrintMembers(members) + ([CLOSE_RECORD] + rest))) ==
      Some((Object(MembersOf(members, map[])), rest))
    decreases members, 1
  {
    var tail := [CLOSE_RECORD] + rest;
    if members == [] {
      ReadsEmpty(rest);
      assert PrintMembers(members) + tail == tail;
    } else {
      var none: map<Bytes, Value> := map[];
      assert none.Keys == {};
      MembersReadBack(members, none, rest);
      var s := PrintMembers(members) + tail;
      assert s[0] == QUOTE;
      ReadsRecord(s);
    }
  }

  lemma {:induction false} ItemsReadBack(items: seq<Doc>, rest: Bytes)
    requires AllPrintable(items) && items != []
    ensures ReadItems(PrintItems(items) + ([CLOSE_LIST] + rest)) == Some((ValuesOf(items), rest))
    decreases items, 0
  {
    var tail := [CLOSE_LIST] + rest;
    var first, v := Print(items[0]), ValueOf(items[0]);
    ItemsSplit(items, tail);
    if |items| == 1 {
      DocumentReadsBack(items[0], tail);
      ReadsLastItem(first, v, rest);
      assert items[1..] == [] && [v] + ValuesOf(items[1..]) == [v];
    } else {
      var more := PrintItems(items[1..]) + tail;
      ItemsReadBack(items[1..], rest);
      DocumentReadsBack(items[0], [COMMA] + more);
      ReadsItem(first, v, more, ValuesOf(items[1..]), rest);
    }
  }

  lemma {:induction false} MembersReadBack(members: seq<Member>, before: map<Bytes, Value>, rest: Bytes)
    requires MembersPrintable(members, before.Keys) && members != []
    ensures ReadMembers(PrintMembers(members) + ([CLOSE_RECORD] + rest), before) ==
      Some((MembersOf(members, before), rest))
    decreases members, 0
  {
    var tail := [CLOSE_RECORD] + rest;
    var k, d := members[0].key, members[0].doc;
    var v := ValueOf(d);
    MembersSplit(members, tail);
    if |members| == 1 {
      DocumentReadsBack(d, tail);
      ReadsLastMember(k, Print(d), v, rest, before);
      assert MembersOf(members[1..], before[k := v]) == before[k := v];
    } else {
      var more := PrintMembers(members[1..]) + tail;
      DocumentReadsBack(d, [COMMA] + more);
      ReadsMember(k, Print(d), v, more, before);
      assert before[k := v].Keys == before.Keys + {k};
      MembersReadBack(members[1..], before[k := v], rest);
    }
  }

  /** Every printable document parses back to its value. */
  lemma PrintedParses(d: Doc)
    requires Printable(d)
    ensures Parse(Print(d)) == Some(ValueOf(d))
  {
    DocumentReadsBack(d, []);
    assert Print(d) + [] == Print(d);
  }

}
