/**
 A snapshot reads back as the tree it was taken of, and an unchanged tree matches it object by object.
 */
module SecurityTreeProofs {

  import opened Basics
  import opened Utf
  import opened ArchivePath
  import Json
  import opened JsonProofs
  import opened SecurityTree

  // ---------------------------------------------------------------------------------------------
  // What a restore may expect of a tree, without any text in between
  // ---------------------------------------------------------------------------------------------

  /** The forms of a path as it was walked; the root's are empty. */
  function Forms(relative: Text, locale: Locale): Option<(Text, Text)> {
    if relative == [] then Some(([], []))
    else
      var n := NormalizeText(Slashed(relative), true, locale);
      if n.None? || n.value.directory then None else Some((n.value.display, n.value.canonical))
  }

  function Checked(e: Entry, locale: Locale): Option<Expected> {
    var forms := Forms(e.relative, locale);
    if forms.None? || e.linkCount == 0 || e.sddl == [] || |e.sddl| > MAX_SDDL then None
    else Some(Expected(forms.value.0, forms.value.1, e.sddl, e.directory, e.linkCount))
  }

  function CheckerIn(locale: Locale): Entry -> Option<Expected> {
    (e: Entry) => Checked(e, locale)
  }

  // ---------------------------------------------------------------------------------------------
  // Short strings
  // ---------------------------------------------------------------------------------------------

  lemma {:induction false} EscapingLengthens(b: Bytes)
    ensures |b| <= |Json.EscapeAll(b)|
  {
    if b != [] { EscapingLengthens(b[1..]); }
  }

  lemma EntryTextIsLonger(path: Bytes, directory: bool, linkCount: nat, sddl: Bytes)
    ensures var text := Print(Record(EntryMembers(path, directory, linkCount, sddl)));
      |path| <= |text| && |sddl| <= |text|
  {
    var m := EntryMembers(path, directory, linkCount, sddl);
    RecordOfFour(m[0], m[1], m[2], m[3]);
    EscapingLengthens(path);
    EscapingLengthens(sddl);
    assert |PrintMember(m[0])| >= |path| && |PrintMember(m[3])| >= |sddl|;
  }

  lemma {:induction false} BodyHolds(entries: seq<Entry>, head: Bytes, printer: Printer, i: nat)
    requires i < |entries| && Body(entries, head, printer).Some?
    ensures printer(entries[i]).Some? &&
      |printer(entries[i]).value| <= |Body(entries, head, printer).value| <= MAX_SNAPSHOT
  {
    var n := |entries| - 1;
    BodyEndsWith(entries, head, printer);
    if i < n { BodyHolds(entries[..n], head, printer, i); }
  }

  /** Both strings are short enough to be converted back. */
  predicate Short(e: Entry)
    requires Convertible(e)
  {
    |ToUtf8(e.relative).value| <= INT_MAX && |ToUtf8(e.sddl).value| <= INT_MAX
  }

  lemma SnapshotEntriesAreShort(entries: seq<Entry>, i: nat)
    requires i < |entries| && SnapshotText(entries).Some?
    ensures Convertible(entries[i]) && Short(entries[i])
  {
    BodyHolds(entries, HEAD, EntryPrinter(), i);
    var e := entries[i];
    EntryTextIsLonger(ToUtf8(e.relative).value, e.directory, e.linkCount, ToUtf8(e.sddl).value);
  }

  // ---------------------------------------------------------------------------------------------
  // The document
  // ---------------------------------------------------------------------------------------------

  predicate IsAscii(b: Bytes) {
    forall i :: 0 <= i < |b| ==> b[i] < 0x80
  }

  lemma {:induction false} AsciiDecodes(b: Bytes)
    requires IsAscii(b)
    ensures DecodeAll(b).Some?
  {
    if b != [] { AsciiDecodes(b[1..]); }
  }

  lemma AsciiIsUtf8(b: Bytes)
    requires IsAscii(b) && |b| <= INT_MAX
    ensures FromUtf8(b).Some?
  {
    AsciiDecodes(b);
  }

  lemma WordsAreUtf8()
    ensures FromUtf8(ENTRIES).Some? && FromUtf8(RELATIVE_PATH).Some? && FromUtf8(KIND).Some? &&
      FromUtf8(LINK_COUNT).Some?
    ensures FromUtf8(SDDL).Some? && FromUtf8(FILE).Some? && FromUtf8(DIRECTORY).Some?
  {
    AsciiIsUtf8(ENTRIES);
    AsciiIsUtf8(RELATIVE_PATH);
    AsciiIsUtf8(KIND);
    AsciiIsUtf8(LINK_COUNT);
    AsciiIsUtf8(SDDL);
    AsciiIsUtf8(FILE);
    AsciiIsUtf8(DIRECTORY);
  }

  lemma WordsDiffer()
    ensures RELATIVE_PATH != KIND && RELATIVE_PATH != LINK_COUNT && RELATIVE_PATH != SDDL
    ensures KIND != LINK_COUNT && KIND != SDDL && LINK_COUNT != SDDL && FILE != DIRECTORY
  {
    assert |RELATIVE_PATH| == 12 && |KIND| == 4 && |LINK_COUNT| == 9 && |SDDL| == 4 && |FILE| == 4 && |DIRECTORY| == 9;
    assert KIND[0] == 0x6B && SDDL[0] == 0x73;
  }

  lemma FourArePrintable(a: Member, b: Member, c: Member, d: Member)
    requires a.key != b.key && a.key != c.key && a.key != d.key && b.key != c.key && b.key != d.key && c.key != d.key
    requires FromUtf8(a.key).Some? && FromUtf8(b.key).Some? && FromUtf8(c.key).Some? && FromUtf8(d.key).Some?
    requires Printable(a.doc) && Printable(b.doc) && Printable(c.doc) && Printable(d.doc)
    ensures MembersPrintable([a, b, c, d], {})
    ensures MembersOf([a, b, c, d], map[]) ==
      map[a.key := ValueOf(a.doc), b.key := ValueOf(b.doc), c.key := ValueOf(c.doc), d.key := ValueOf(d.doc)]
  {
    var all := [a, b, c, d];
    assert all[1..] == [b, c, d] && [b, c, d][1..] == [c, d] && [c, d][1..] == [d] && [d][1..] == [];
    var keys := {a.key, b.key, c.key};
    assert MembersPrintable([d], keys);
    assert MembersPrintable([c, d], {a.key, b.key}) by { assert {a.key, b.key} + {c.key} == keys; }
    assert MembersPrintable([b, c, d], {a.key}) by { assert {a.key} + {b.key} == {a.key, b.key}; }
    assert {} + {a.key} == {a.key};
    var one: map<Bytes, Json.Value> := map[a.key := ValueOf(a.doc)];
    var two := one[b.key := ValueOf(b.doc)];
    var three := two[c.key := ValueOf(c.doc)];
    assert MembersOf([d], three) == three[d.key := ValueOf(d.doc)];
    assert MembersOf([c, d], two) == MembersOf([d], three);
    assert MembersOf([b, c, d], one) == MembersOf([c, d], two);
  }

  /** What a snapshot object holds. */
  lemma EntryIsPrintable(e: Entry)
    requires Convertible(e) && Short(e)
    ensures Printable(DocOf(e))
    ensures ValueOf(DocOf(e)) == Json.Object(map[
      RELATIVE_PATH := Json.String(ToUtf8(e.relative).value),
      KIND := Json.String(if e.directory then DIRECTORY else FILE),
      LINK_COUNT := Json.Number(e.linkCount), SDDL := Json.String(ToUtf8(e.sddl).value)])
  {
    WordsAreUtf8();
    WordsDiffer();
    TextSurvives(e.relative);
    TextSurvives(e.sddl);
    var m := EntryMembers(ToUtf8(e.relative).value, e.directory, e.linkCount, ToUtf8(e.sddl).value);
    FourArePrintable(m[0], m[1], m[2], m[3]);
  }

  lemma {:induction false} AllArePrintable(docs: seq<Doc>)
    requires forall i :: 0 <= i < |docs| ==> Printable(docs[i])
    ensures AllPrintable(docs)
    ensures |ValuesOf(docs)| == |docs| && forall i :: 0 <= i < |docs| ==> ValuesOf(docs)[i] == ValueOf(docs[i])
  {
    if docs != [] { AllArePrintable(docs[1..]); }
  }

  lemma OneMember(key: Bytes, doc: Doc)
    requires FromUtf8(key).Some? && Printable(doc)
    ensures Printable(Record([Member(key, doc)])) &&
      ValueOf(Record([Member(key, doc)])) == Json.Object(map[key := ValueOf(doc)])
  {
    assert [Member(key, doc)][1..] == [];
    assert MembersOf([], map[key := ValueOf(doc)]) == map[key := ValueOf(doc)];
  }

  /** Parsing a snapshot's text gives the list of its objects and nothing else. */
  lemma SnapshotParses(entries: seq<Entry>) returns (values: seq<Json.Value>)
    requires SnapshotText(entries).Some?
    ensures Json.Parse(SnapshotText(entries).value) == Some(Json.Object(map[ENTRIES := Json.Array(values)]))
    ensures |values| == |entries| && AllConvertible(entries)
    ensures forall i :: 0 <= i < |entries| ==> values[i] == ValueOf(DocOf(entries[i]))
  {
    SnapshotPrintsItsDocument(entries);
    var docs := DocsOf(entries);
    forall i | 0 <= i < |docs| ensures Printable(docs[i]) {
      SnapshotEntriesAreShort(entries, i);
      EntryIsPrintable(entries[i]);
    }
    AllArePrintable(docs);
    WordsAreUtf8();
    OneMember(ENTRIES, List(docs));
    PrintedParses(SnapshotDoc(entries));
    values := ValuesOf(docs);
  }

  // ---------------------------------------------------------------------------------------------
  // Reading it back
  // ---------------------------------------------------------------------------------------------

  lemma EmptyText(w: Text)
    requires ToUtf8(w).Some?
    ensures ToUtf8(w).value == [] <==> w == []
  {
    if w != [] { UnitsReadBack(w); }
  }

  lemma PathReadsBack(relative: Text, locale: Locale)
    requires ToUtf8(relative).Some? && |ToUtf8(relative).value| <= INT_MAX
    ensures ReadPath(ToUtf8(relative).value, locale) == Forms(relative, locale)
  {
    EmptyText(relative);
    TextSurvives(relative);
  }

  lemma FourMembers(v: Json.Value, path: Bytes, kind: Bytes, links: nat, sddl: Bytes)
    requires v == Json.Object(map[RELATIVE_PATH := Json.String(path), KIND := Json.String(kind),
      LINK_COUNT := Json.Number(links), SDDL := Json.String(sddl)])
    ensures |v.members| == 4 && StringMember(v, RELATIVE_PATH) == Some(path) && StringMember(v, KIND) == Some(kind)
    ensures NumberMember(v, LINK_COUNT) == Some(links) && StringMember(v, SDDL) == Some(sddl)
  {
    WordsDiffer();
    assert |map[RELATIVE_PATH := Json.String(path)]| == 1;
    assert |map[RELATIVE_PATH := Json.String(path), KIND := Json.String(kind)]| == 2;
    assert |map[RELATIVE_PATH := Json.String(path), KIND := Json.String(kind), LINK_COUNT := Json.Number(links)]| == 3;
  }

  lemma EntryReadsBack(e: Entry, locale: Locale)
    requires Convertible(e) && Short(e)
    ensures ReadExpected(ValueOf(DocOf(e)), locale) == Checked(e, locale)
  {
    EntryIsPrintable(e);
    FourMembers(ValueOf(DocOf(e)), ToUtf8(e.relative).value, if e.directory then DIRECTORY else FILE, e.linkCount,
      ToUtf8(e.sddl).value);
    PathReadsBack(e.relative, locale);
    TextSurvives(e.sddl);
    WordsDiffer();
  }

  lemma {:induction false} ReadAllAgrees<S, T>(left: seq<S>, right: seq<T>,
      readLeft: S -> Option<Expected>, readRight: T -> Option<Expected>)
    requires |left| == |right| && forall i :: 0 <= i < |left| ==> readLeft(left[i]) == readRight(right[i])
    ensures ReadAll(left, readLeft) == ReadAll(right, readRight)
  {
    if left != [] {
      var n := |left| - 1;
      ReadAllAgrees(left[..n], right[..n], readLeft, readRight);
      assert readLeft(left[n]) == readRight(right[n]);
    }
  }

  /**
   Reading a snapshot's text decides exactly what checking the walked tree itself would: the same
   objects in the same order, or the same refusal.
   */
  lemma SnapshotReadsBack(entries: seq<Entry>, locale: Locale)
    requires SnapshotText(entries).Some?
    ensures ReadSnapshot(SnapshotText(entries).value, locale) == ReadList(entries, CheckerIn(locale))
  {
    var values := SnapshotParses(entries);
    var read, check := ReaderIn(locale), CheckerIn(locale);
    forall i | 0 <= i < |entries| ensures read(values[i]) == check(entries[i]) {
      SnapshotEntriesAreShort(entries, i);
      EntryReadsBack(entries[i], locale);
    }
    ReadAllAgrees(values, entries, read, check);
    var v := Json.Object(map[ENTRIES := Json.Array(values)]);
    assert |v.members| == 1;
  }

  // ---------------------------------------------------------------------------------------------
  // Matching a tree
  // ---------------------------------------------------------------------------------------------

  /** The canonical path of an object found on disk. */
  function CanonicalOf(e: Entry, locale: Locale): Option<Text> {
    if e.relative == [] then Some([])
    else if ToUtf8(e.relative).None? then None
    else
      var n := Normalize(ToUtf8(e.relative).value, true, locale);
      if n.None? then None else Some(n.value.canonical)
  }

  function CanonicalIn(locale: Locale): Entry -> Option<Text> {
    (e: Entry) => CanonicalOf(e, locale)
  }

  /** The object found is the object expected. */
  predicate Counterpart(x: Expected, a: Entry, canonical: Entry -> Option<Text>) {
    canonical(a) == Some(x.canonical) && a.directory == x.directory && a.linkCount == x.linkCount
  }

  predicate Indexed(actual: seq<Entry>, canonical: Entry -> Option<Text>) {
    && (forall j :: 0 <= j < |actual| ==> canonical(actual[j]).Some?)
    && (forall j, k :: 0 <= j < k < |actual| ==> canonical(actual[j]) != canonical(actual[k]))
  }

  /** As many objects, at distinct paths, and everything expected is there with its kind and link count. */
  predicate Matches(expected: seq<Expected>, actual: seq<Entry>, canonical: Entry -> Option<Text>) {
    && |expected| == |actual| && Indexed(actual, canonical)
    && forall i :: 0 <= i < |expected| ==> Found(expected[i], actual, canonical)
  }

  predicate Found(x: Expected, actual: seq<Entry>, canonical: Entry -> Option<Text>) {
    exists j :: 0 <= j < |actual| && Counterpart(x, actual[j], canonical)
  }

  ghost predicate Indexes(byPath: map<Text, nat>, actual: seq<Entry>, canonical: Entry -> Option<Text>) {
    && (forall c :: c in byPath ==> byPath[c] < |actual| && canonical(actual[byPath[c]]) == Some(c))
    && (forall j :: 0 <= j < |actual| ==> canonical(actual[j]).Some? && canonical(actual[j]).value in byPath)
  }

  method IndexByPath(actual: seq<Entry>, canonical: Entry -> Option<Text>) returns (r: Option<map<Text, nat>>)
    ensures r.Some? <==> Indexed(actual, canonical)
    ensures r.Some? ==> Indexes(r.value, actual, canonical)
  {
    var byPath: map<Text, nat> := map[];
    for j := 0 to |actual|
      invariant Indexed(actual[..j], canonical) && Indexes(byPath, actual[..j], canonical)
    {
      var c := canonical(actual[j]);
      if c.None? { return None; }
      if c.value in byPath {
        assert canonical(actual[byPath[c.value]]) == canonical(actual[j]);
        return None;
      }
      assert actual[..j + 1] == actual[..j] + [actual[j]];
      byPath := byPath[c.value := j];
    }
    assert actual[..|actual|] == actual;
    r := Some(byPath);
  }

  /** Where each expected object was found. */
  method MatchTree(expected: seq<Expected>, actual: seq<Entry>, canonical: Entry -> Option<Text>)
      returns (r: Option<seq<nat>>)
    ensures r.Some? <==> Matches(expected, actual, canonical)
    ensures r.Some? ==> |r.value| == |expected|
    ensures r.Some? ==> forall i :: 0 <= i < |expected| ==>
      r.value[i] < |actual| && Counterpart(expected[i], actual[r.value[i]], canonical)
  {
    if |actual| != |expected| { return None; }
    var byPath := IndexByPath(actual, canonical);
    if byPath.None? { return None; }
    var places: seq<nat> := [];
    for i := 0 to |expected|
      invariant |places| == i
      invariant forall k :: 0 <= k < i ==>
        places[k] < |actual| && Counterpart(expected[k], actual[places[k]], canonical)
    {
      var x := expected[i];
      if x.canonical !in byPath.value || !Counterpart(x, actual[byPath.value[x.canonical]], canonical) {
        NotFound(x, actual, byPath.value, canonical);
        return None;
      }
      places := places + [byPath.value[x.canonical]];
    }
    r := Some(places);
  }

  lemma NotFound(x: Expected, actual: seq<Entry>, byPath: map<Text, nat>, canonical: Entry -> Option<Text>)
    requires Indexed(actual, canonical) && Indexes(byPath, actual, canonical)
    requires x.canonical !in byPath || !Counterpart(x, actual[byPath[x.canonical]], canonical)
    ensures !Found(x, actual, canonical)
  {
    forall j | 0 <= j < |actual| ensures !Counterpart(x, actual[j], canonical) {
      if canonical(actual[j]) == Some(x.canonical) {
        assert j == byPath[x.canonical];
      }
    }
  }

  ghost function Places(places: seq<nat>): set<nat> {
    if places == [] then {} else Places(places[..|places| - 1]) + {places[|places| - 1]}
  }

  lemma {:induction false} PlacesAre(places: seq<nat>, p: nat)
    ensures p in Places(places) <==> exists i :: 0 <= i < |places| && places[i] == p
  {
    if places != [] {
      var init := places[..|places| - 1];
      PlacesAre(init, p);
      if i :| 0 <= i < |init| && init[i] == p { assert places[i] == p; }
      if i :| 0 <= i < |places| && places[i] == p {
        if i < |init| { assert init[i] == p; }
      }
    }
  }

  lemma {:induction false} DistinctPlacesCount(places: seq<nat>)
    requires forall i, j :: 0 <= i < j < |places| ==> places[i] != places[j]
    ensures |Places(places)| == |places|
  {
    if places != [] {
      var n := |places| - 1;
      DistinctPlacesCount(places[..n]);
      PlacesAre(places[..n], places[n]);
    }
  }

  /** The numbers below a bound. */
  ghost function Below(bound: nat): set<nat> {
    if bound == 0 then {} else Below(bound - 1) + {bound - 1}
  }

  lemma {:induction false} BelowIs(bound: nat, j: nat)
    ensures j in Below(bound) <==> j < bound
  {
    if bound > 0 { BelowIs(bound - 1, j); }
  }

  lemma {:induction false} BelowCounts(bound: nat)
    ensures |Below(bound)| == bound
  {
    if bound > 0 {
      BelowCounts(bound - 1);
      BelowIs(bound - 1, bound - 1);
    }
  }

  lemma {:induction false} PlacesAreBelow(places: seq<nat>, bound: nat)
    requires forall i :: 0 <= i < |places| ==> places[i] < bound
    ensures Places(places) <= Below(bound)
  {
    if places != [] {
      PlacesAreBelow(places[..|places| - 1], bound);
      BelowIs(bound, places[|places| - 1]);
    }
  }

  /** A match of distinct expectations is a bijection: nothing on disk is left over or used twice. */
  lemma MatchIsABijection(expected: seq<Expected>, actual: seq<Entry>, canonical: Entry -> Option<Text>,
      places: seq<nat>, j: nat)
    requires |places| == |expected| == |actual| && j < |actual|
    requires forall i :: 0 <= i < |places| ==>
      places[i] < |actual| && Counterpart(expected[i], actual[places[i]], canonical)
    requires forall i, k :: 0 <= i < k < |expected| ==> expected[i].canonical != expected[k].canonical
    ensures exists i :: 0 <= i < |places| && places[i] == j
    ensures forall i, k :: 0 <= i < k < |places| ==> places[i] != places[k]
  {
    forall i, k | 0 <= i < k < |places| ensures places[i] != places[k] {
      assert Counterpart(expected[i], actual[places[i]], canonical) &&
        Counterpart(expected[k], actual[places[k]], canonical);
    }
    DistinctPlacesCount(places);
    PlacesAreBelow(places, |actual|);
    BelowCounts(|actual|);
    BelowIs(|actual|, j);
    assert |Below(|actual|) - Places(places)| == 0;
    PlacesAre(places, j);
  }

  lemma {:induction false} CanonicalsAre(expected: seq<Expected>, i: nat)
    requires i < |expected|
    ensures expected[i].canonical in Canonicals(expected)
  {
    var n := |expected| - 1;
    if i < n { CanonicalsAre(expected[..n], i); }
  }

  /** What was read has distinct canonical paths, and is the reading of each value. */
  lemma {:induction false} ReadAllIsDistinct<T>(values: seq<T>, read: T -> Option<Expected>)
    requires ReadAll(values, read).Some?
    ensures var all := ReadAll(values, read).value;
      && (forall i :: 0 <= i < |values| ==> read(values[i]) == Some(all[i]))
      && (forall i, j :: 0 <= i < j < |all| ==> all[i].canonical != all[j].canonical)
  {
    if values != [] {
      var n := |values| - 1;
      ReadAllIsDistinct(values[..n], read);
      var before := ReadAll(values[..n], read).value;
      forall i | 0 <= i < n ensures before[i].canonical != read(values[n]).value.canonical { CanonicalsAre(before, i); }
    }
  }

  lemma CheckedIsCounterpart(e: Entry, locale: Locale)
    requires Convertible(e) && Short(e) && Checked(e, locale).Some?
    ensures Counterpart(Checked(e, locale).value, e, CanonicalIn(locale))
    ensures Checked(e, locale).value.relative == Slashed(e.relative) && Checked(e, locale).value.sddl == e.sddl
  {
    TextSurvives(e.relative);
  }

  lemma CounterpartsMatch(expected: seq<Expected>, entries: seq<Entry>, canonical: Entry -> Option<Text>)
    requires |expected| == |entries|
    requires forall i :: 0 <= i < |entries| ==> Counterpart(expected[i], entries[i], canonical)
    requires forall i, j :: 0 <= i < j < |expected| ==> expected[i].canonical != expected[j].canonical
    ensures Matches(expected, entries, canonical)
  {
  }

  /** A tree that has not changed since its snapshot matches it, each object itself. */
  lemma UnchangedTreeMatches(entries: seq<Entry>, expected: seq<Expected>, locale: Locale)
    requires SnapshotText(entries).Some? && ReadSnapshot(SnapshotText(entries).value, locale) == Some(expected)
    ensures |expected| == |entries|
    ensures forall i :: 0 <= i < |entries| ==> Counterpart(expected[i], entries[i], CanonicalIn(locale))
    ensures forall i :: 0 <= i < |entries| ==>
      expected[i].relative == Slashed(entries[i].relative) && expected[i].sddl == entries[i].sddl
    ensures Matches(expected, entries, CanonicalIn(locale))
  {
    SnapshotReadsBack(entries, locale);
    ReadAllIsDistinct(entries, CheckerIn(locale));
    forall i | 0 <= i < |entries|
      ensures Counterpart(expected[i], entries[i], CanonicalIn(locale))
      ensures expected[i].relative == Slashed(entries[i].relative) && expected[i].sddl == entries[i].sddl
    {
      SnapshotEntriesAreShort(entries, i);
      CheckedIsCounterpart(entries[i], locale);
    }
    CounterpartsMatch(expected, entries, CanonicalIn(locale));
  }

  // ---------------------------------------------------------------------------------------------
  // The order of restoring
  // ---------------------------------------------------------------------------------------------

  /** The depth the helper sorts by: backslashes in the expected path. */
  function Backslashes(w: Text): nat {
    if w == [] then 0 else Backslashes(w[..|w| - 1]) + (if w[|w| - 1] == BACKSLASH then 1 else 0)
  }

  lemma {:induction false} NoBackslashes(w: Text)
    requires BACKSLASH !in w
    ensures Backslashes(w) == 0
  {
    if w != [] { NoBackslashes(w[..|w| - 1]); }
  }

  /** Normalised paths have no backslash, so every depth is zero. */
  lemma DepthIsAlwaysZero(v: Json.Value, locale: Locale)
    requires ReadExpected(v, locale).Some?
    ensures Backslashes(ReadExpected(v, locale).value.relative) == 0
  {
    var raw := StringMember(v, RELATIVE_PATH).value;
    if raw != [] { NormalizeIsIdempotent(raw, true, locale); }
    NoBackslashes(ReadExpected(v, locale).value.relative);
  }

  /** The order of the pairs of depth and position that restoring sorts. */
  predicate PairBefore(a: (nat, nat), b: (nat, nat)) {
    a.0 < b.0 || (a.0 == b.0 && a.1 < b.1)
  }

  function DepthAndPlace(expected: seq<Expected>, i: nat): (nat, nat)
    requires i < |expected|
  {
    (Backslashes(expected[i].relative), i)
  }

  /** So the pairs of every snapshot are sorted as they are: objects are restored in the snapshot's own order. */
  lemma RestoreOrderIsSnapshotOrder(values: seq<Json.Value>, locale: Locale, i: nat, j: nat)
    requires ReadAll(values, ReaderIn(locale)).Some? && i < j < |values|
    ensures var expected := ReadAll(values, ReaderIn(locale)).value;
      PairBefore(DepthAndPlace(expected, i), DepthAndPlace(expected, j))
  {
    ReadAllIsDistinct(values, ReaderIn(locale));
    DepthIsAlwaysZero(values[i], locale);
    DepthIsAlwaysZero(values[j], locale);
  }

}
