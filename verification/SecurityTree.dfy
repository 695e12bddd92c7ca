/**
 Security-tree snapshots (native/windows/roost-win-helper.cpp: snapshotFileSecurityTree and
 restoreFileSecurityTree): the text of a snapshot, what restoring reads out of it, and how it is matched
 against the tree found on disk. Walking the disk and setting descriptors are not part of this model.
 */
module SecurityTree {

  import opened Basics
  import opened Utf
  import opened ArchivePath
  import Json
  import opened JsonProofs
  import opened Numerals

  type Dword = n: nat | n < 0x1_0000_0000

  /** One object of a tree, as it is walked: relative path with backslashes, empty for the root. */
  datatype Entry = Entry(relative: Text, directory: bool, linkCount: Dword, sddl: Text)

  /** One object a restore expects to find. */
  datatype Expected = Expected(relative: Text, canonical: Text, sddl: Text, directory: bool, linkCount: Dword)

  const MAX_ENTRIES := 8192
  const MAX_SDDL := 32768
  const MAX_SNAPSHOT := 3 * 1024 * 1024

  function Ascii(s: string): Bytes {
    seq(|s|, i requires 0 <= i < |s| => (s[i] as int % 0x80) as Byte)
  }

  const ENTRIES := Ascii("entries")
  const RELATIVE_PATH := Ascii("relativePath")
  const KIND := Ascii("kind")
  const LINK_COUNT := Ascii("linkCount")
  const SDDL := Ascii("sddl")
  const FILE := Ascii("file")
  const DIRECTORY := Ascii("directory")

  // ---------------------------------------------------------------------------------------------
  // Taking a snapshot
  // ---------------------------------------------------------------------------------------------

  predicate Convertible(e: Entry) {
    ToUtf8(e.relative).Some? && ToUtf8(e.sddl).Some?
  }

  predicate AllConvertible(entries: seq<Entry>) {
    forall i :: 0 <= i < |entries| ==> Convertible(entries[i])
  }

  function EntryMembers(path: Bytes, directory: bool, linkCount: nat, sddl: Bytes): seq<Member> {
    [Member(RELATIVE_PATH, Doc.Text(path)), Member(KIND, Doc.Text(if directory then DIRECTORY else FILE)),
     Member(LINK_COUNT, Count(linkCount)), Member(SDDL, Doc.Text(sddl))]
  }

  function DocOf(e: Entry): Doc
    requires Convertible(e)
  {
    Record(EntryMembers(ToUtf8(e.relative).value, e.directory, e.linkCount, ToUtf8(e.sddl).value))
  }

  function DocsOf(entries: seq<Entry>): (docs: seq<Doc>)
    requires AllConvertible(entries)
    ensures |docs| == |entries|
  {
    seq(|entries|, i requires 0 <= i < |entries| => DocOf(entries[i]))
  }

  function SnapshotDoc(entries: seq<Entry>): Doc
    requires AllConvertible(entries)
  {
    Record([Member(ENTRIES, List(DocsOf(entries)))])
  }

  /** A key and its colon. */
  function Key(key: Bytes): Bytes {
    Json.Quoted(key) + [Json.COLON]
  }

  /** Two texts with a comma between them. */
  function Then(a: Bytes, b: Bytes): Bytes {
    a + ([Json.COMMA] + b)
  }

  lemma RecordOfFour(a: Member, b: Member, c: Member, d: Member)
    ensures PrintMembers([a, b, c, d]) ==
      Then(PrintMember(a), Then(PrintMember(b), Then(PrintMember(c), PrintMember(d))))
  {
    assert [a, b, c, d][1..] == [b, c, d] && [b, c, d][1..] == [c, d] && [c, d][1..] == [d];
    assert PrintMembers([d]) == PrintMember(d) + [] == PrintMember(d);
    assert PrintMembers([c, d]) == Then(PrintMember(c), PrintMembers([d]));
    assert PrintMembers([b, c, d]) == Then(PrintMember(b), PrintMembers([c, d]));
  }

  method PrintEntry(path: Bytes, directory: bool, linkCount: nat, sddl: Bytes) returns (out: Bytes)
    ensures out == Print(Record(EntryMembers(path, directory, linkCount, sddl)))
  {
    var quotedPath := Json.QuoteBytes(path);
    var kind := Json.QuoteBytes(if directory then DIRECTORY else FILE);
    var quotedSddl := Json.QuoteBytes(sddl);
    var first := Key(RELATIVE_PATH) + quotedPath;
    var second := Key(KIND) + kind;
    var third := Key(LINK_COUNT) + Decimal(linkCount);
    var fourth := Key(SDDL) + quotedSddl;
    var m := EntryMembers(path, directory, linkCount, sddl);
    RecordOfFour(m[0], m[1], m[2], m[3]);
    out := [Json.OPEN_RECORD] + Then(first, Then(second, Then(third, fourth))) + [Json.CLOSE_RECORD];
  }

  /** What one more item adds to a printed list. */
  function Added(items: seq<Doc>, last: Doc): Bytes {
    (if items == [] then [] else [Json.COMMA]) + Print(last)
  }

  lemma {:induction false} ItemsOneMore(items: seq<Doc>, last: Doc)
    ensures PrintItems(items + [last]) == PrintItems(items) + Added(items, last)
  {
    if items == [] {
      assert items + [last] == [last] && PrintItems([last]) == Print(last) + [];
      assert [] + Print(last) == Print(last);
    } else {
      var first, rest, all := Print(items[0]), items[1..], items + [last];
      assert all[0] == items[0] && all[1..] == rest + [last];
      ItemsOneMore(rest, last);
      if rest == [] {
        assert PrintItems(items) == first + [] == first;
        assert [] + Added(rest, last) == Print(last);
      } else {
        Associative([Json.COMMA], PrintItems(rest), Added(items, last));
        Associative(first, [Json.COMMA] + PrintItems(rest), Added(items, last));
      }
    }
  }

  const HEAD := [Json.OPEN_RECORD] + Key(ENTRIES) + [Json.OPEN_LIST]
  const TAIL := [Json.CLOSE_LIST, Json.CLOSE_RECORD]

  /** What one entry prints, unless its UTF-16 is broken. */
  type Printer = Entry -> Option<Bytes>

  function EntryText(e: Entry): Option<Bytes> {
    if Convertible(e) then Some(Print(DocOf(e))) else None
  }

  function EntryPrinter(): Printer {
    (e: Entry) => EntryText(e)
  }

  /** The text after `head` and every entry, refused as soon as it is too long. */
  function Body(entries: seq<Entry>, head: Bytes, printer: Printer): Option<Bytes> {
    if entries == [] then Some(head)
    else
      var init, last := entries[..|entries| - 1], entries[|entries| - 1];
      var before, text := Body(init, head, printer), printer(last);
      if before.None? || text.None? then None
      else
        var out := before.value + (if init == [] then [] else [Json.COMMA]) + text.value;
        if |out| > MAX_SNAPSHOT then None else Some(out)
  }

  function SnapshotText(entries: seq<Entry>): Option<Bytes> {
    var body := Body(entries, HEAD, EntryPrinter());
    if body.None? then None else Some(body.value + TAIL)
  }

  lemma {:induction false} BodyStaysRefused(entries: seq<Entry>, head: Bytes, printer: Printer, i: nat)
    requires i <= |entries| && Body(entries[..i], head, printer) == None
    ensures Body(entries, head, printer) == None
    decreases |entries|
  {
    if i < |entries| {
      assert entries[..|entries| - 1][..i] == entries[..i];
      BodyStaysRefused(entries[..|entries| - 1], head, printer, i);
    } else {
      assert entries[..i] == entries;
    }
  }

  method PrintBody(entries: seq<Entry>, head: Bytes, printer: Printer) returns (r: Option<Bytes>)
    ensures r == Body(entries, head, printer)
  {
    var out := head;
    for i := 0 to |entries|
      invariant Body(entries[..i], head, printer) == Some(out)
    {
      assert entries[..i + 1][..i] == entries[..i];
      if i > 0 { out := out + [Json.COMMA]; } else { assert out + [] == out; }
      var text := printer(entries[i]);
      if text.Some? { out := out + text.value; }
      if text.None? || |out| > MAX_SNAPSHOT {
        BodyStaysRefused(entries, head, printer, i + 1);
        return None;
      }
    }
    assert entries[..|entries|] == entries;
    r := Some(out);
  }

  method Snapshot(entries: seq<Entry>) returns (r: Option<Bytes>)
    ensures r == SnapshotText(entries)
  {
    var body := PrintBody(entries, HEAD, EntryPrinter());
    r := if body.None? then None else Some(body.value + TAIL);
  }

  /** Every entry converts, or there is no text. */
  lemma {:induction false} BodyIsConvertible(entries: seq<Entry>, head: Bytes)
    requires Body(entries, head, EntryPrinter()).Some?
    ensures AllConvertible(entries)
  {
    if entries != [] {
      var n := |entries| - 1;
      BodyIsConvertible(entries[..n], head);
      assert Convertible(entries[n]);
      forall i | 0 <= i < |entries| ensures Convertible(entries[i]) {
        if i < n { assert entries[..n][i] == entries[i]; }
      }
    }
  }

  lemma BodyOneMore(docs: seq<Doc>, doc: Doc, head: Bytes)
    ensures (head + PrintItems(docs)) + (if docs == [] then [] else [Json.COMMA]) + Print(doc) ==
      head + PrintItems(docs + [doc])
  {
    var comma := if docs == [] then [] else [Json.COMMA];
    ItemsOneMore(docs, doc);
    Associative(head + PrintItems(docs), comma, Print(doc));
    Associative(head, PrintItems(docs), comma + Print(doc));
  }

  lemma BodyEndsWith(entries: seq<Entry>, head: Bytes, printer: Printer)
    requires entries != [] && Body(entries, head, printer).Some?
    ensures var n := |entries| - 1;
      && Body(entries[..n], head, printer).Some? && printer(entries[n]).Some?
      && Body(entries, head, printer).value ==
           Body(entries[..n], head, printer).value +
             (if entries[..n] == [] then [] else [Json.COMMA]) + printer(entries[n]).value
  {
  }

  /** A printer that prints documents prints the list of them. */
  lemma {:induction false} BodyPrintsItems(entries: seq<Entry>, head: Bytes, printer: Printer, docs: seq<Doc>)
    requires |docs| == |entries| && forall i :: 0 <= i < |entries| ==> printer(entries[i]) == Some(Print(docs[i]))
    requires Body(entries, head, printer).Some?
    ensures Body(entries, head, printer).value == head + PrintItems(docs)
  {
    if entries == [] {
      assert head + PrintItems(docs) == head;
    } else {
      var n := |entries| - 1;
      BodyEndsWith(entries, head, printer);
      BodyPrintsItems(entries[..n], head, printer, docs[..n]);
      BodyOneMore(docs[..n], docs[n], head);
      assert docs[..n] + [docs[n]] == docs;
    }
  }

  lemma Layout(a: Bytes, k: Bytes, b: Bytes, x: Bytes, c: Bytes, d: Bytes)
    ensures a + (k + (b + x + c)) + d == (a + k + b) + x + (c + d)
  {
    var inner := b + x + c;
    assert a + (k + inner) + d == (a + k) + (inner + d);
    assert inner + d == b + (x + (c + d));
    assert (a + k) + (b + (x + (c + d))) == (a + k + b) + (x + (c + d));
    Associative(a + k + b, x, c + d);
  }

  lemma OneMemberLayout(key: Bytes, docs: seq<Doc>)
    ensures Print(Record([Member(key, List(docs))])) ==
      ([Json.OPEN_RECORD] + Key(key) + [Json.OPEN_LIST]) + PrintItems(docs) + TAIL
  {
    var m := Member(key, List(docs));
    assert PrintMembers([m]) == PrintMember(m) + [] == PrintMember(m);
    Layout([Json.OPEN_RECORD], Key(key), [Json.OPEN_LIST], PrintItems(docs), [Json.CLOSE_LIST], [Json.CLOSE_RECORD]);
    assert [Json.CLOSE_LIST] + [Json.CLOSE_RECORD] == TAIL;
  }

  /** The text is the printed form of the snapshot's document. */
  lemma SnapshotPrintsItsDocument(entries: seq<Entry>)
    requires SnapshotText(entries).Some?
    ensures AllConvertible(entries) && SnapshotText(entries).value == Print(SnapshotDoc(entries))
  {
    BodyIsConvertible(entries, HEAD);
    BodyPrintsItems(entries, HEAD, EntryPrinter(), DocsOf(entries));
    OneMemberLayout(ENTRIES, DocsOf(entries));
  }

  // ---------------------------------------------------------------------------------------------
  // Reading a snapshot
  // ---------------------------------------------------------------------------------------------

  function StringMember(v: Json.Value, key: Bytes): Option<Bytes> {
    if v.Object? && key in v.members && v.members[key].String? then Some(v.members[key].bytes) else None
  }

  function NumberMember(v: Json.Value, key: Bytes): Option<nat> {
    if v.Object? && key in v.members && v.members[key].Number? then Some(v.members[key].number) else None
  }

  /** The display and canonical forms of a snapshot path; the root's are empty. */
  function ReadPath(raw: Bytes, locale: Locale): Option<(Text, Text)> {
    if raw == [] then Some(([], []))
    else
      var n := Normalize(raw, true, locale);
      if n.None? || n.value.directory then None else Some((n.value.display, n.value.canonical))
  }

  function ReadExpected(v: Json.Value, locale: Locale): Option<Expected> {
    if !v.Object? || |v.members| != 4 then None
    else
      var path, kind := StringMember(v, RELATIVE_PATH), StringMember(v, KIND);
      var links, sddl := NumberMember(v, LINK_COUNT), StringMember(v, SDDL);
      if path.None? || kind.None? || links.None? || sddl.None? || (kind.value != FILE && kind.value != DIRECTORY)
        then None
      else if links.value == 0 || links.value > 0xffff_ffff then None
      else
        var forms, text := ReadPath(path.value, locale), FromUtf8(sddl.value);
        if forms.None? || text.None? || text.value == [] || |text.value| > MAX_SDDL then None
        else Some(Expected(forms.value.0, forms.value.1, text.value, kind.value == DIRECTORY, links.value))
  }

  function Canonicals(expected: seq<Expected>): set<Text> {
    if expected == [] then {} else Canonicals(expected[..|expected| - 1]) + {expected[|expected| - 1].canonical}
  }

  function ReaderIn(locale: Locale): Json.Value -> Option<Expected> {
    (v: Json.Value) => ReadExpected(v, locale)
  }

  /** Reads every value; two with one canonical path are refused. */
  function ReadAll<T>(values: seq<T>, read: T -> Option<Expected>): (r: Option<seq<Expected>>)
    ensures r.Some? ==> |r.value| == |values|
  {
    if values == [] then Some([])
    else
      var before := ReadAll(values[..|values| - 1], read);
      var last := read(values[|values| - 1]);
      if before.None? || last.None? || last.value.canonical in Canonicals(before.value) then None
      else Some(before.value + [last.value])
  }

  /** The first object with an empty path is a directory. */
  predicate RootIsDirectory(expected: seq<Expected>) {
    expected != [] && if expected[0].relative == [] then expected[0].directory else RootIsDirectory(expected[1..])
  }

  /** Between one and 8192 values, all readable, with a directory for root. */
  function ReadList<T>(values: seq<T>, read: T -> Option<Expected>): Option<seq<Expected>> {
    if values == [] || |values| > MAX_ENTRIES then None
    else
      var all := ReadAll(values, read);
      if all.None? || !RootIsDirectory(all.value) then None else all
  }

  function ReadEntries(v: Json.Value, locale: Locale): Option<seq<Expected>> {
    if !v.Object? || |v.members| != 1 || ENTRIES !in v.members || !v.members[ENTRIES].Array? then None
    else ReadList(v.members[ENTRIES].items, ReaderIn(locale))
  }

  function ReadSnapshot(text: Bytes, locale: Locale): Option<seq<Expected>> {
    var v := Json.Parse(text);
    if v.None? then None else ReadEntries(v.value, locale)
  }

  method ReadValues<T>(values: seq<T>, read: T -> Option<Expected>) returns (r: Option<seq<Expected>>)
    ensures r == ReadAll(values, read)
  {
    var expected: seq<Expected>, seen: set<Text> := [], {};
    for i := 0 to |values|
      invariant ReadAll(values[..i], read) == Some(expected)
      invariant seen == Canonicals(expected)
    {
      assert values[..i + 1][..i] == values[..i];
      var one := read(values[i]);
      if one.None? || one.value.canonical in seen {
        StaysRefused(values, i + 1, read);
        return None;
      }
      var more := expected + [one.value];
      assert more[..|more| - 1] == expected;
      expected, seen := more, seen + {one.value.canonical};
    }
    assert values[..|values|] == values;
    r := Some(expected);
  }

  lemma {:induction false} StaysRefused<T>(values: seq<T>, i: nat, read: T -> Option<Expected>)
    requires i <= |values| && ReadAll(values[..i], read) == None
    ensures ReadAll(values, read) == None
    decreases |values|
  {
    if i < |values| {
      assert values[..|values| - 1][..i] == values[..i];
      StaysRefused(values[..|values| - 1], i, read);
    } else {
      assert values[..i] == values;
    }
  }

}
