/** The helper's parser as it runs: one position moving through the input. */
module JsonParser {

  import opened Basics
  import opened Utf
  import opened Json
  import opened Numerals

  class Parser {
    const input: Bytes
    var position: nat

    constructor (input: Bytes)
      ensures this.input == input && position == 0 && Valid()
    {
      this.input := input;
      position := 0;
    }

    ghost predicate Valid()
      reads this
    {
      position <= |input|
    }

    /** The text not read yet. */
    ghost function Rest(): Bytes
      requires Valid()
      reads this
    {
      input[position..]
    }

    method Whitespace()
      requires Valid()
      modifies this`position
      ensures Valid() && position >= old(position) && Rest() == Skip(old(Rest()))
    {
      while position < |input| && IsBlank(input[position])
        invariant Valid() && position >= old(position) && Skip(Rest()) == Skip(old(Rest()))
        decreases |input| - position
      {
        assert Rest()[1..] == input[position + 1..];
        position := position + 1;
      }
    }

    /** Takes `c` after blanks, or only the blanks. */
    method TakeChar(c: Byte) returns (taken: bool)
      requires Valid()
      modifies this`position
      ensures Valid() && position >= old(position) && (taken ==> position > old(position))
      ensures taken == Take(old(Rest()), c).Some?
      ensures Rest() == if taken then Take(old(Rest()), c).value else Skip(old(Rest()))
    {
      Whitespace();
      taken := position < |input| && input[position] == c;
      if taken {
        assert Rest()[1..] == input[position + 1..];
        position := position + 1;
      }
    }

    method HexDigits() returns (code: Option<nat>)
      requires Valid()
      modifies this`position
      ensures Valid() && position >= old(position)
      ensures code == Hex4(old(Rest()))
      ensures code.Some? ==> position == old(position) + 4 && Rest() == old(Rest())[4..]
    {
      if position + 4 > |input| { return None; }
      var start := position;
      var digits := input[start..start + 4];
      assert forall k :: 0 <= k < 4 ==> digits[k] == old(Rest())[k];
      var value := 0;
      for i := 0 to 4
        invariant position == start + i && Valid()
        invariant forall k :: 0 <= k < i ==> HexValue(digits[k]).Some?
        invariant i == 0 ==> value == 0
        invariant i == 1 ==> value == HexValue(digits[0]).value
        invariant i == 2 ==> value == HexValue(digits[0]).value * 16 + HexValue(digits[1]).value
        invariant i == 3 ==>
          value == (HexValue(digits[0]).value * 16 + HexValue(digits[1]).value) * 16 + HexValue(digits[2]).value
        invariant i == 4 ==> Some(value) == Hex4(old(Rest()))
      {
        var digit := HexValue(input[position]);
        position := position + 1;
        assert digits[i] == input[start + i];
        if digit.None? { return None; }
        value := value * 16 + digit.value;
      }
      code := Some(value);
    }

    /** What follows `\u`. */
    method UnicodeEscape() returns (bytes: Option<Bytes>)
      requires Valid()
      modifies this`position
      ensures Valid() && position >= old(position)
      ensures bytes.Some? == ReadUnicode(old(Rest())).Some?
      ensures bytes.Some? ==> ReadUnicode(old(Rest())) == Some((bytes.value, Rest()))
    {
      var code := HexDigits();
      if code.None? { return None; }
      if !IsHigh(code.value) { return if IsLow(code.value) then None else Some(EncodePoint(code.value)); }
      if position + 2 > |input| || input[position] != BACKSLASH || input[position + 1] != 0x75 { return None; }
      ghost var t := Rest();
      position := position + 2;
      assert Rest() == t[2..];
      var low := HexDigits();
      if low.None? || !IsLow(low.value) { return None; }
      assert Rest() == t[6..];
      bytes := Some(EncodePoint(PairOf(code.value, low.value)));
    }

    /** One character of a string that is not its closing quote. */
    method Character() returns (bytes: Option<Bytes>)
      requires Valid() && position < |input|
      modifies this`position
      ensures Valid() && position > old(position)
      ensures bytes.Some? == ReadCharacter(old(Rest())).Some?
      ensures bytes.Some? ==> ReadCharacter(old(Rest())) == Some((bytes.value, Rest()))
    {
      var ch := input[position];
      position := position + 1;
      assert Rest() == old(Rest())[1..];
      if ch < 0x20 { return None; }
      if ch != BACKSLASH { return Some([ch]); }
      if position == |input| { return None; }
      var escaped := input[position];
      position := position + 1;
      assert Rest() == old(Rest())[2..];
      if escaped == QUOTE || escaped == BACKSLASH || escaped == SLASH { return Some([escaped]); }
      if escaped == 0x62 { return Some([0x08]); }
      if escaped == 0x66 { return Some([0x0C]); }
      if escaped == 0x6E { return Some([0x0A]); }
      if escaped == 0x72 { return Some([0x0D]); }
      if escaped == 0x74 { return Some([0x09]); }
      if escaped != 0x75 { return None; }
      bytes := UnicodeEscape();
    }

    /** What a string's remaining characters add to those already read. */
    static ghost function Onto(before: Bytes, r: Option<(Bytes, Bytes)>): Option<(Bytes, Bytes)> {
      if r.None? then None else Some((before + r.value.0, r.value.1))
    }

    static lemma OntoOneMore(before: Bytes, s: Bytes)
      requires s != [] && s[0] != QUOTE
      ensures Onto(before, Unescape(s)) ==
        if ReadCharacter(s).None? then None
        else Onto(before + ReadCharacter(s).value.0, Unescape(ReadCharacter(s).value.1))
    {
      if ReadCharacter(s).Some? {
        var (bytes, rest) := ReadCharacter(s).value;
        var more := Unescape(rest);
        if more.Some? { assert before + (bytes + more.value.0) == (before + bytes) + more.value.0; }
      }
    }

    method StringBody() returns (r: Option<Bytes>)
      requires Valid()
      modifies this`position
      ensures Valid() && position >= old(position)
      ensures r.Some? == Unescape(old(Rest())).Some?
      ensures r.Some? ==> Unescape(old(Rest())) == Some((r.value, Rest()))
    {
      var out: Bytes := [];
      ghost var whole := Unescape(Rest());
      if whole.Some? { assert [] + whole.value.0 == whole.value.0; }
      while position < |input|
        invariant Valid() && position >= old(position) && Onto(out, Unescape(Rest())) == whole
        decreases |input| - position
      {
        if input[position] == QUOTE {
          assert Rest()[1..] == input[position + 1..];
          assert out + [] == out;
          position := position + 1;
          return Some(out);
        }
        OntoOneMore(out, Rest());
        var bytes := Character();
        if bytes.None? { return None; }
        out := out + bytes.value;
      }
      r := None;
    }

    method ParseString() returns (r: Option<Bytes>)
      requires Valid()
      modifies this`position
      ensures Valid() && position >= old(position) && (r.Some? ==> position > old(position))
      ensures r.Some? == ReadString(old(Rest())).Some?
      ensures r.Some? ==> ReadString(old(Rest())) == Some((r.value, Rest()))
    {
      var taken := TakeChar(QUOTE);
      if !taken { return None; }
      r := StringBody();
      if r.Some? && FromUtf8(r.value).None? { r := None; }
    }

    method ParseNumber() returns (r: Option<nat>)
      requires Valid()
      modifies this`position
      ensures Valid() && position >= old(position) && (r.Some? ==> position > old(position))
      ensures r.Some? == ReadNumber(old(Rest())).Some?
      ensures r.Some? ==> ReadNumber(old(Rest())) == Some((r.value, Rest()))
    {
      if position == |input| || !IsDigit(input[position]) { return None; }
      if input[position] == 0x30 && position + 1 < |input| && IsDigit(input[position + 1]) { return None; }
      var number: nat := 0;
      ghost var whole := ReadDigits(Rest(), 0);
      assert whole == ReadDigits(Rest()[1..], DigitOf(input[position]));
      while position < |input| && IsDigit(input[position])
        invariant Valid() && position >= old(position) && ReadDigits(Rest(), number) == whole
        invariant position == old(position) ==> position < |input| && IsDigit(input[position])
        decreases |input| - position
      {
        var digit := DigitOf(input[position]);
        if number > (UINT64_MAX - digit) / 10 { return None; }
        assert Rest()[1..] == input[position + 1..];
        position := position + 1;
        number := number * 10 + digit;
      }
      if position < |input| && (input[position] == 0x2E || input[position] == 0x65 || input[position] == 0x45) {
        return None;
      }
      r := Some(number);
    }

    method Literal(word: Bytes) returns (found: bool)
      requires Valid() && word != []
      modifies this`position
      ensures Valid() && position >= old(position) && (found ==> position > old(position))
      ensures found == (word <= old(Rest()))
      ensures found ==> Rest() == old(Rest())[|word|..]
    {
      found := |word| <= |input| - position && input[position..position + |word|] == word;
      if found {
        assert word <= Rest();
        position := position + |word|;
      }
    }

    method ParseValue() returns (r: Option<Value>)
      requires Valid()
      modifies this`position
      ensures Valid() && position >= old(position) && (r.Some? ==> position > old(position))
      ensures r.Some? == ReadValue(old(Rest())).Some?
      ensures r.Some? ==> ReadValue(old(Rest())) == Some((r.value, Rest()))
      decreases |input| - position, 1
    {
      Whitespace();
      if position == |input| { return None; }
      var ch := input[position];
      if ch == QUOTE {
        var s := ParseString();
        return if s.None? then None else Some(String(s.value));
      }
      if ch == OPEN_RECORD {
        r := ParseRecord();
        return;
      }
      if ch == OPEN_LIST {
        r := ParseList();
        return;
      }
      if ch == 0x74 || ch == 0x66 || ch == 0x6E {
        var found := Literal(if ch == 0x74 then TRUE else if ch == 0x66 then FALSE else NULL);
        return if found then Some(if ch == 0x6E then Null else Bool(ch == 0x74)) else None;
      }
      var number := ParseNumber();
      r := if number.None? then None else Some(Number(number.value));
    }

    static lemma SkipTwice(s: Bytes)
      ensures Skip(Skip(s)) == Skip(s)
    {
    }

    static lemma SkippedString(s: Bytes)
      ensures ReadString(Skip(s)) == ReadString(s)
    {
      SkipTwice(s);
    }

    static lemma SkippedValue(s: Bytes)
      ensures ReadValue(Skip(s)) == ReadValue(s)
    {
      SkipTwice(s);
    }

    /** Blanks before an item or a key change nothing. */
    static lemma SkippedReadsAlike(s: Bytes)
      ensures ReadItems(Skip(s)) == ReadItems(s) && ReadMembers(Skip(s), map[]) == ReadMembers(s, map[])
    {
      SkippedString(s);
      SkippedValue(s);
    }

    method ParseRecord() returns (r: Option<Value>)
      requires Valid() && position < |input| && input[position] == OPEN_RECORD
      modifies this`position
      ensures Valid() && position > old(position)
      ensures r.Some? == ReadValue(old(Rest())).Some?
      ensures r.Some? ==> ReadValue(old(Rest())) == Some((r.value, Rest()))
      decreases |input| - position, 0
    {
      ghost var s := Rest();
      position := position + 1;
      assert Rest() == s[1..];
      SkippedReadsAlike(s[1..]);
      var closed := TakeChar(CLOSE_RECORD);
      if closed { return Some(Object(map[])); }
      var members := ParseMembers();
      r := if members.None? then None else Some(Object(members.value));
    }

    method ParseList() returns (r: Option<Value>)
      requires Valid() && position < |input| && input[position] == OPEN_LIST
      modifies this`position
      ensures Valid() && position > old(position)
      ensures r.Some? == ReadValue(old(Rest())).Some?
      ensures r.Some? ==> ReadValue(old(Rest())) == Some((r.value, Rest()))
      decreases |input| - position, 0
    {
      ghost var s := Rest();
      position := position + 1;
      assert Rest() == s[1..];
      SkippedReadsAlike(s[1..]);
      var closed := TakeChar(CLOSE_LIST);
      if closed { return Some(Array([])); }
      var items := ParseItems();
      r := if items.None? then None else Some(Array(items.value));
    }

    static ghost function ItemsOnto(before: seq<Value>, r: Option<(seq<Value>, Bytes)>): Option<(seq<Value>, Bytes)> {
      if r.None? then None else Some((before + r.value.0, r.value.1))
    }

    method ParseItems() returns (r: Option<seq<Value>>)
      requires Valid()
      modifies this`position
      ensures Valid() && position >= old(position)
      ensures r.Some? == ReadItems(old(Rest())).Some?
      ensures r.Some? ==> ReadItems(old(Rest())) == Some((r.value, Rest())) && position > old(position)
      decreases |input| - position, 2
    {
      var items: seq<Value> := [];
      ghost var whole := ReadItems(Rest());
      var more := true;
      if whole.Some? { assert [] + whole.value.0 == whole.value.0; }
      while more
        invariant Valid() && position >= old(position)
        invariant more ==> ItemsOnto(items, ReadItems(Rest())) == whole
        invariant !more ==>
          (position > old(position) && whole ==
            (var t := Take(Rest(), CLOSE_LIST); if t.None? then None else Some((items, t.value))))
        decreases more, |input| - position
      {
        ghost var s := Rest();
        var item := ParseValue();
        if item.None? { return None; }
        ghost var t := Rest();
        more := TakeChar(COMMA);
        ghost var rest := ReadItems(Rest());
        if more && rest.Some? { assert items + ([item.value] + rest.value.0) == (items + [item.value]) + rest.value.0; }
        items := items + [item.value];
        if !more { SkipTwice(t); }
      }
      var closed := TakeChar(CLOSE_LIST);
      r := if closed then Some(items) else None;
    }

    method ParseMembers() returns (r: Option<map<Bytes, Value>>)
      requires Valid()
      modifies this`position
      ensures Valid() && position >= old(position)
      ensures r.Some? == ReadMembers(old(Rest()), map[]).Some?
      ensures r.Some? ==> ReadMembers(old(Rest()), map[]) == Some((r.value, Rest())) && position > old(position)
      decreases |input| - position, 2
    {
      var members: map<Bytes, Value> := map[];
      ghost var whole := ReadMembers(Rest(), members);
      var more := true;
      while more
        invariant Valid() && position >= old(position)
        invariant more ==> ReadMembers(Rest(), members) == whole
        invariant !more ==>
          (position > old(position) && whole ==
            (var t := Take(Rest(), CLOSE_RECORD); if t.None? then None else Some((members, t.value))))
        decreases more, |input| - position
      {
        var key := ParseString();
        if key.None? { return None; }
        var colon := TakeChar(COLON);
        if !colon { return None; }
        var value := ParseValue();
        if value.None? || key.value in members { return None; }
        members := members[key.value := value.value];
        ghost var u := Rest();
        more := TakeChar(COMMA);
        if !more { SkipTwice(u); }
      }
      var closed := TakeChar(CLOSE_RECORD);
      r := if closed then Some(members) else None;
    }

    /** A whole document, with nothing behind it. */
    method ParseDocument() returns (r: Option<Value>)
      requires Valid() && position == 0
      modifies this`position
      ensures r == Parse(input)
    {
      assert Rest() == input;
      r := ParseValue();
      if r.None? { return; }
      Whitespace();
      if position != |input| { return None; }
    }
  }

}
