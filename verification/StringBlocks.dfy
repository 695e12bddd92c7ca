/**
 Lists of NUL-terminated strings (native/windows/roost-win-helper.cpp): `multiString` and the loop that
 reads such a list back, and `environmentBlock`. Case folding is Windows' own and is a parameter.
 */
module StringBlocks {

  import opened Basics

  type Text = seq<Wide>

  const NUL: Wide := 0
  const EQUALS: Wide := 0x3D

  // ---------------------------------------------------------------------------------------------
  // MULTI_SZ
  // ---------------------------------------------------------------------------------------------

  predicate Storable(value: Text) {
    value != [] && NUL !in value
  }

  predicate AllStorable(values: seq<Text>) {
    forall i :: 0 <= i < |values| ==> Storable(values[i])
  }

  function Terminated(values: seq<Text>): Text {
    if values == [] then [] else Terminated(values[..|values| - 1]) + values[|values| - 1] + [NUL]
  }

  /** Every item and its NUL, then one more NUL; the empty list has two. */
  function Block(values: seq<Text>): Text {
    Terminated(values) + [NUL] + (if values == [] then [NUL] else [])
  }

  method MultiString(values: seq<Text>) returns (r: Option<Text>)
    ensures r == if AllStorable(values) then Some(Block(values)) else None
  {
    var out: Text := [];
    for i := 0 to |values|
      invariant out == Terminated(values[..i]) && AllStorable(values[..i])
    {
      if values[i] == [] || NUL in values[i] {
        assert !Storable(values[i]);
        return None;
      }
      assert values[..i + 1][..i] == values[..i];
      out := out + values[i] + [NUL];
    }
    assert values[..|values|] == values;
    out := out + [NUL];
    if values == [] { out := out + [NUL]; } else { assert out + [] == out; }
    r := Some(out);
  }

  /** The characters before the first NUL. */
  function Length(data: Text): (n: nat)
    ensures n <= |data| && NUL !in data[..n] && (n < |data| ==> data[n] == NUL)
  {
    if data == [] || data[0] == NUL then 0 else 1 + Length(data[1..])
  }

  /** Reads items up to an empty one. */
  function Items(data: Text): seq<Text>
    decreases |data|
  {
    var n := Length(data);
    if n == 0 then [] else if n == |data| then [data] else [data[..n]] + Items(data[n + 1..])
  }

  /** The reading loop over a buffer that a NUL was added to. */
  method ReadItems(data: Text) returns (out: seq<Text>)
    requires data != [] && data[|data| - 1] == NUL
    ensures out == Items(data)
  {
    out := [];
    var rest := data;
    while rest[0] != NUL
      invariant rest != [] && rest[|rest| - 1] == NUL
      invariant out + Items(rest) == Items(data)
      decreases |rest|
    {
      var n := Length(rest);
      assert n < |rest| - 1 ==> rest[n + 1..] != [];
      out := out + [rest[..n]];
      if n + 1 == |rest| {
        assert Items(rest[n + 1..]) == [];
        return;
      }
      rest := rest[n + 1..];
    }
    assert out + [] == out;
  }

  lemma {:induction false} LengthOf(value: Text, rest: Text)
    requires NUL !in value
    ensures Length(value + [NUL] + rest) == |value|
  {
    var data := value + [NUL] + rest;
    if value != [] {
      LengthOf(value[1..], rest);
      assert data[1..] == value[1..] + [NUL] + rest;
    }
  }

  lemma ItemsCons(value: Text, rest: Text)
    requires Storable(value)
    ensures Items(value + [NUL] + rest) == [value] + Items(rest)
  {
    var data := value + [NUL] + rest;
    LengthOf(value, rest);
    assert data[..|value|] == value && data[|value| + 1..] == rest;
  }

  lemma Regroup(a: Text, b: Text, c: Text, d: Text)
    ensures (a + b + c) + d == a + (b + c + d)
  {
  }

  lemma Rejoin(init: seq<Text>, last: Text, rest: seq<Text>)
    ensures init + ([last] + rest) == (init + [last]) + rest
  {
  }

  lemma {:induction false} ItemsReadBack(values: seq<Text>, rest: Text)
    requires AllStorable(values)
    ensures Items(Terminated(values) + rest) == values + Items(rest)
    decreases |values|
  {
    if values == [] {
      assert Terminated(values) + rest == rest;
      assert values + Items(rest) == Items(rest);
    } else {
      var init, last := values[..|values| - 1], values[|values| - 1];
      ItemsReadBack(init, last + [NUL] + rest);
      ItemsCons(last, rest);
      Regroup(Terminated(init), last, [NUL], rest);
      Rejoin(init, last, Items(rest));
      assert init + [last] == values;
    }
  }

  /** A stored list reads back as itself, whatever follows it in the buffer. */
  lemma BlockReadsBack(values: seq<Text>, padding: Text)
    requires AllStorable(values)
    ensures Items(Block(values) + padding) == values
  {
    var rest := [NUL] + (if values == [] then [NUL] else []) + padding;
    ItemsReadBack(values, rest);
    assert Block(values) + padding == Terminated(values) + rest;
    assert rest[0] == NUL;
    assert values + [] == values;
  }

  // ---------------------------------------------------------------------------------------------
  // Environment blocks
  // ---------------------------------------------------------------------------------------------

  datatype Variable = Variable(key: Text, value: Text)

  /** The invariant-locale mapping to lower case. */
  type Lower = Text -> Text

  predicate Settable(v: Variable) {
    v.key != [] && EQUALS !in v.key && NUL !in v.key && NUL !in v.value
  }

  function Assignment(v: Variable): Text {
    v.key + [EQUALS] + v.value
  }

  function Assignments(vs: seq<Variable>): (texts: seq<Text>)
    ensures |texts| == |vs|
  {
    seq(|vs|, i requires 0 <= i < |vs| => Assignment(vs[i]))
  }

  function IndexOfEquals(text: Text): (n: nat)
    ensures n <= |text| && EQUALS !in text[..n] && (n < |text| ==> text[n] == EQUALS)
  {
    if text == [] || text[0] == EQUALS then 0 else 1 + IndexOfEquals(text[1..])
  }

  /** The variable an assignment sets: the text before the first equals sign, and after it. */
  function Parsed(text: Text): Variable {
    var n := IndexOfEquals(text);
    if n == |text| then Variable(text, []) else Variable(text[..n], text[n + 1..])
  }

  function ParsedAll(texts: seq<Text>): seq<Variable> {
    seq(|texts|, i requires 0 <= i < |texts| => Parsed(texts[i]))
  }

  /** The order of wide strings, character by character. */
  predicate Less(a: Text, b: Text) {
    b != [] && (a == [] || a[0] < b[0] || (a[0] == b[0] && Less(a[1..], b[1..])))
  }

  lemma {:induction false} LessOrEqualOrGreater(a: Text, b: Text)
    ensures Less(a, b) || a == b || Less(b, a)
  {
    if a != [] && b != [] && a[0] == b[0] {
      LessOrEqualOrGreater(a[1..], b[1..]);
      assert a == [a[0]] + a[1..] && b == [b[0]] + b[1..];
    }
  }

  lemma {:induction false} LessIsTransitive(a: Text, b: Text, c: Text)
    requires Less(a, b) && Less(b, c)
    ensures Less(a, c)
  {
    if a != [] && a[0] == b[0] == c[0] { LessIsTransitive(a[1..], b[1..], c[1..]); }
  }

  predicate Ordered(vs: seq<Variable>, lower: Lower) {
    forall i, j :: 0 <= i < j < |vs| ==> Less(lower(vs[i].key), lower(vs[j].key))
  }

  predicate DistinctKeys(vs: seq<Variable>, lower: Lower) {
    forall i, j :: 0 <= i < j < |vs| ==> lower(vs[i].key) != lower(vs[j].key)
  }

  function Insert(vs: seq<Variable>, v: Variable, lower: Lower): (r: seq<Variable>)
    ensures multiset(r) == multiset(vs) + multiset{v}
  {
    if vs == [] then [v]
    else
      var init, last := vs[..|vs| - 1], vs[|vs| - 1];
      assert vs == init + [last];
      if Less(lower(v.key), lower(last.key)) then Insert(init, v, lower) + [last] else vs + [v]
  }

  function Sort(vs: seq<Variable>, lower: Lower): (r: seq<Variable>)
    ensures multiset(r) == multiset(vs)
  {
    if vs == [] then []
    else
      var init, last := vs[..|vs| - 1], vs[|vs| - 1];
      assert vs == init + [last];
      Insert(Sort(init, lower), last, lower)
  }

  predicate Below(vs: seq<Variable>, key: Text, lower: Lower) {
    forall i :: 0 <= i < |vs| ==> Less(lower(vs[i].key), key)
  }

  lemma OrderedOneMore(vs: seq<Variable>, v: Variable, lower: Lower)
    ensures Ordered(vs + [v], lower) <==> Ordered(vs, lower) && Below(vs, lower(v.key), lower)
  {
    var all := vs + [v];
    if Ordered(all, lower) {
      forall i | 0 <= i < |vs|
        ensures Less(lower(vs[i].key), lower(v.key)) { assert all[i] == vs[i] && all[|vs|] == v; }
      forall i, j | 0 <= i < j < |vs|
        ensures Less(lower(vs[i].key), lower(vs[j].key)) { assert all[i] == vs[i] && all[j] == vs[j]; }
    }
  }

  lemma BelowOneMore(vs: seq<Variable>, v: Variable, key: Text, lower: Lower)
    requires Below(vs, key, lower) && Less(lower(v.key), key)
    ensures Below(vs + [v], key, lower)
  {
  }

  lemma {:induction false} InsertBelow(vs: seq<Variable>, v: Variable, key: Text, lower: Lower)
    requires Below(vs, key, lower) && Less(lower(v.key), key)
    ensures Below(Insert(vs, v, lower), key, lower)
  {
    if vs != [] && Less(lower(v.key), lower(vs[|vs| - 1].key)) {
      InsertBelow(vs[..|vs| - 1], v, key, lower);
      BelowOneMore(Insert(vs[..|vs| - 1], v, lower), vs[|vs| - 1], key, lower);
    } else {
      BelowOneMore(vs, v, key, lower);
      assert vs == [] ==> [v] == vs + [v];
    }
  }

  lemma BelowIsTransitive(vs: seq<Variable>, a: Text, b: Text, lower: Lower)
    requires Below(vs, a, lower) && Less(a, b)
    ensures Below(vs, b, lower)
  {
    forall i | 0 <= i < |vs| ensures Less(lower(vs[i].key), b) { LessIsTransitive(lower(vs[i].key), a, b); }
  }

  lemma {:induction false} InsertOrders(vs: seq<Variable>, v: Variable, lower: Lower)
    requires Ordered(vs, lower) && forall i :: 0 <= i < |vs| ==> lower(vs[i].key) != lower(v.key)
    ensures Ordered(Insert(vs, v, lower), lower)
  {
    if vs != [] {
      var init, last := vs[..|vs| - 1], vs[|vs| - 1];
      assert vs == init + [last];
      OrderedOneMore(init, last, lower);
      if Less(lower(v.key), lower(last.key)) {
        InsertOrders(init, v, lower);
        InsertBelow(init, v, lower(last.key), lower);
        OrderedOneMore(Insert(init, v, lower), last, lower);
      } else {
        LessOrEqualOrGreater(lower(v.key), lower(last.key));
        BelowIsTransitive(init, lower(last.key), lower(v.key), lower);
        assert Below(vs, lower(v.key), lower);
        OrderedOneMore(vs, v, lower);
      }
    }
  }

  lemma {:induction false} SortOrders(vs: seq<Variable>, lower: Lower)
    requires DistinctKeys(vs, lower)
    ensures Ordered(Sort(vs, lower), lower)
  {
    if vs != [] {
      var init, last := vs[..|vs| - 1], vs[|vs| - 1];
      SortOrders(init, lower);
      var sorted := Sort(init, lower);
      forall i | 0 <= i < |sorted| ensures lower(sorted[i].key) != lower(last.key) {
        assert sorted[i] in multiset(sorted);
        assert sorted[i] in init;
      }
      InsertOrders(sorted, last, lower);
    }
  }

  predicate Encodable(entries: seq<Variable>, lower: Lower) {
    (forall i :: 0 <= i < |entries| ==> Settable(entries[i])) && DistinctKeys(entries, lower)
  }

  ghost function LoweredKeys(vs: seq<Variable>, lower: Lower): set<Text> {
    if vs == [] then {} else LoweredKeys(vs[..|vs| - 1], lower) + {lower(vs[|vs| - 1].key)}
  }

  lemma {:induction false} LoweredKeysAre(vs: seq<Variable>, lower: Lower, key: Text)
    ensures key in LoweredKeys(vs, lower) <==> exists i :: 0 <= i < |vs| && lower(vs[i].key) == key
  {
    if vs != [] {
      var init := vs[..|vs| - 1];
      LoweredKeysAre(init, lower, key);
      if i :| 0 <= i < |init| && lower(init[i].key) == key { assert lower(vs[i].key) == key; }
      if i :| 0 <= i < |vs| && lower(vs[i].key) == key {
        if i < |init| { assert lower(init[i].key) == key; }
      }
    }
  }

  lemma EncodableOneMore(vs: seq<Variable>, v: Variable, lower: Lower)
    ensures Encodable(vs + [v], lower) <==>
      Encodable(vs, lower) && Settable(v) && lower(v.key) !in LoweredKeys(vs, lower)
  {
    var all := vs + [v];
    LoweredKeysAre(vs, lower, lower(v.key));
    assert all[|vs|] == v && forall i :: 0 <= i < |vs| ==> all[i] == vs[i];
  }

  lemma {:induction false} UnencodableStays(vs: seq<Variable>, i: nat, lower: Lower)
    requires i <= |vs| && !Encodable(vs[..i], lower)
    ensures !Encodable(vs, lower)
    decreases |vs|
  {
    if i < |vs| {
      var init := vs[..|vs| - 1];
      assert init[..i] == vs[..i] && vs == init + [vs[|vs| - 1]];
      UnencodableStays(init, i, lower);
      EncodableOneMore(init, vs[|vs| - 1], lower);
    } else {
      assert vs[..i] == vs;
    }
  }

  /** The check made before anything is written. */
  method CheckEntries(entries: seq<Variable>, lower: Lower) returns (sound: bool)
    ensures sound == Encodable(entries, lower)
  {
    var keys: set<Text> := {};
    for i := 0 to |entries|
      invariant Encodable(entries[..i], lower) && keys == LoweredKeys(entries[..i], lower)
    {
      var v := entries[i];
      assert entries[..i + 1] == entries[..i] + [v] && entries[..i + 1][..i] == entries[..i];
      EncodableOneMore(entries[..i], v, lower);
      if !Settable(v) || lower(v.key) in keys {
        UnencodableStays(entries, i + 1, lower);
        return false;
      }
      keys := keys + {lower(v.key)};
    }
    assert entries[..|entries|] == entries;
    return true;
  }

  lemma AppendAssignment(block: Text, v: Variable)
    ensures block + v.key + [EQUALS] + v.value + [NUL] == block + Assignment(v) + [NUL]
  {
  }

  method WriteAssignments(sorted: seq<Variable>) returns (block: Text)
    ensures block == Terminated(Assignments(sorted))
  {
    block := [];
    ghost var texts := Assignments(sorted);
    for i := 0 to |sorted|
      invariant block == Terminated(texts[..i])
    {
      assert texts[..i + 1][..i] == texts[..i];
      AppendAssignment(block, sorted[i]);
      block := block + sorted[i].key + [EQUALS] + sorted[i].value + [NUL];
    }
    assert texts[..|sorted|] == texts;
  }

  method EnvironmentBlock(entries: seq<Variable>, lower: Lower) returns (r: Option<Text>)
    ensures r == if Encodable(entries, lower) then Some(Block(Assignments(Sort(entries, lower)))) else None
  {
    var sound := CheckEntries(entries, lower);
    if !sound { return None; }
    var sorted := Sort(entries, lower);
    SameLength(entries, sorted);
    var block := WriteAssignments(sorted);
    block := block + [NUL];
    if entries == [] { block := block + [NUL]; } else { assert block + [] == block; }
    r := Some(block);
  }

  lemma SameLength(a: seq<Variable>, b: seq<Variable>)
    requires multiset(a) == multiset(b)
    ensures |a| == |b|
  {
    assert |multiset(a)| == |a| && |multiset(b)| == |b|;
  }

  lemma AssignmentParses(v: Variable)
    requires Settable(v)
    ensures Parsed(Assignment(v)) == v && Storable(Assignment(v))
  {
    EqualsAfterKey(v.key, v.value);
    var text := Assignment(v);
    assert text[..|v.key|] == v.key && text[|v.key| + 1..] == v.value;
  }

  lemma {:induction false} EqualsAfterKey(key: Text, value: Text)
    requires EQUALS !in key
    ensures IndexOfEquals(key + [EQUALS] + value) == |key|
  {
    var text := key + [EQUALS] + value;
    if key != [] {
      EqualsAfterKey(key[1..], value);
      assert text[1..] == key[1..] + [EQUALS] + value;
    }
  }

  /** The block decodes to the given variables, each once, in strictly increasing order of their lower-cased keys. */
  lemma EnvironmentReadsBack(entries: seq<Variable>, lower: Lower, padding: Text)
    requires Encodable(entries, lower)
    ensures var read := ParsedAll(Items(Block(Assignments(Sort(entries, lower))) + padding));
      multiset(read) == multiset(entries) && Ordered(read, lower)
  {
    var sorted := Sort(entries, lower);
    var texts := Assignments(sorted);
    forall i | 0 <= i < |sorted| ensures Parsed(texts[i]) == sorted[i] && Storable(texts[i]) {
      assert sorted[i] in multiset(sorted);
      assert sorted[i] in entries;
      AssignmentParses(sorted[i]);
    }
    BlockReadsBack(texts, padding);
    assert ParsedAll(texts) == sorted;
    SortOrders(entries, lower);
  }

}
