/**
 The whole inspection (native/windows/roost-win-helper.cpp: parseManifest, then inspectZip with zipName and
 normalizeArchivePath): from the manifest's items and the archive's bytes to the entries that may be extracted.
 */
module ZipArchive {

  import opened Basics
  import opened ZipFormat
  import opened ZipProofs
  import opened ZipMatching
  import opened ZipInspector
  import Utf
  import ArchivePath
  import Json

  // ---------------------------------------------------------------------------------------------
  // Names, as the helper reads them
  // ---------------------------------------------------------------------------------------------

  /** Windows' decoding of code page 437, as UTF-8. */
  type CodePage = Bytes -> Option<Bytes>

  function NormalPathOf(raw: Bytes, locale: ArchivePath.Locale): Parsed<Path> {
    var n := ArchivePath.Normalize(raw, true, locale);
    if n.None? then Refused else Ok(Path(n.value.canonical, n.value.directory))
  }

  /** `zipName`: NUL is refused; a flagged name must be UTF-8, any other is in code page 437. */
  function ZipName(stored: Bytes, utf8: bool, locale: ArchivePath.Locale, codePage: CodePage): Parsed<Path> {
    if 0 in stored then Refused
    else if utf8 then NormalPathOf(stored, locale)
    else if codePage(stored).None? then Refused
    else NormalPathOf(codePage(stored).value, locale)
  }

  function ZipNames(locale: ArchivePath.Locale, codePage: CodePage): NameReader {
    (stored: Bytes, utf8: bool) => ZipName(stored, utf8, locale, codePage)
  }

  function ManifestPaths(locale: ArchivePath.Locale): PathReader {
    (raw: Bytes) => NormalPathOf(raw, locale)
  }

  // ---------------------------------------------------------------------------------------------
  // Agreement with the items themselves
  // ---------------------------------------------------------------------------------------------

  /** Item `k` is this file, at its path and with its size. */
  ghost predicate IsItem(e: ZipEntry, items: seq<Item>, paths: PathReader, k: int) {
    0 <= k < |items| && FileOf(items[k], paths) == ManifestFile(e.path.canonical, e.uncompressed)
  }

  /** The directory is on the way to item `k`. */
  ghost predicate LeadsTo(e: ZipEntry, items: seq<Item>, paths: PathReader, k: int) {
    0 <= k < |items| && e.path.canonical in Parents(FileOf(items[k], paths).canonical)
  }

  ghost predicate KnownItem(e: ZipEntry, items: seq<Item>, paths: PathReader) {
    if e.path.directory then e.compressed == 0 && e.uncompressed == 0 && exists k :: LeadsTo(e, items, paths, k)
    else exists k :: IsItem(e, items, paths, k)
  }

  /** What the archive promises about the items, said without index, counter or sort. */
  ghost predicate ItemsAgree(entries: seq<ZipEntry>, items: seq<Item>, paths: PathReader) {
    && Distinct(entries)
    && (forall i :: 0 <= i < |entries| ==> KnownItem(entries[i], items, paths))
    && (forall k :: 0 <= k < |items| ==> Present(entries, FileOf(items[k], paths)))
    && NoSharedData(entries)
  }

  lemma {:induction false} AllParentsAre(files: seq<ManifestFile>, path: Text)
    ensures path in AllParents(files) <==> exists k :: 0 <= k < |files| && path in Parents(files[k].canonical)
  {
    if files != [] {
      var init := files[..|files| - 1];
      AllParentsAre(init, path);
      if k :| 0 <= k < |init| && path in Parents(init[k].canonical) { assert path in Parents(files[k].canonical); }
      if k :| 0 <= k < |files| && path in Parents(files[k].canonical) {
        if k < |init| { assert path in Parents(init[k].canonical); }
      }
    }
  }

  lemma KnownIff(e: ZipEntry, items: seq<Item>, paths: PathReader, m: Manifest)
    requires Built(m, items, paths, |items|)
    ensures Known(e, m) <==> KnownItem(e, items, paths)
  {
    var files := FilesOf(items, paths);
    assert m.files == files;
    if e.path.directory {
      AllParentsAre(files, e.path.canonical);
      if k :| 0 <= k < |files| && e.path.canonical in Parents(files[k].canonical) {
        assert LeadsTo(e, items, paths, k);
      }
      if k :| LeadsTo(e, items, paths, k) { assert files[k] == FileOf(items[k], paths); }
    } else {
      if Known(e, m) { assert IsItem(e, items, paths, m.byPath[e.path.canonical]); }
      if k :| IsItem(e, items, paths, k) { assert files[k] == FileOf(items[k], paths); }
    }
  }

  lemma AgreeIff(entries: seq<ZipEntry>, items: seq<Item>, paths: PathReader, m: Manifest)
    requires Built(m, items, paths, |items|)
    ensures Agree(entries, m) <==> ItemsAgree(entries, items, paths)
  {
    forall i | 0 <= i < |entries| ensures Known(entries[i], m) <==> KnownItem(entries[i], items, paths) {
      KnownIff(entries[i], items, paths, m);
    }
    assert m.files == FilesOf(items, paths);
    forall k | 0 <= k < |items| ensures m.files[k] == FileOf(items[k], paths) {
    }
    if AllPresent(entries, m) {
      forall k | 0 <= k < |items|
        ensures Present(entries, FileOf(items[k], paths)) { assert Present(entries, m.files[k]); }
    }
    if Agree(entries, m) {
      forall i | 0 <= i < |entries| ensures KnownItem(entries[i], items, paths) { assert Known(entries[i], m); }
    }
    if ItemsAgree(entries, items, paths) {
      forall i | 0 <= i < |entries| ensures Known(entries[i], m) { assert KnownItem(entries[i], items, paths); }
      forall k | 0 <= k < |m.files|
        ensures Present(entries, m.files[k]) { assert Present(entries, FileOf(items[k], paths)); }
    }
  }

  // ---------------------------------------------------------------------------------------------
  // End to end
  // ---------------------------------------------------------------------------------------------

  /** The archives that may be extracted for these items. */
  ghost predicate Extractable(items: seq<Item>, paths: PathReader, z: Bytes, names: NameReader,
      entries: seq<ZipEntry>) {
    Acceptable(items, paths) && ReadArchive(z, names, Exact) == Ok(entries) && ItemsAgree(entries, items, paths)
  }

  method InspectWith(items: seq<Item>, z: Bytes, paths: PathReader, names: NameReader)
      returns (r: Parsed<seq<ZipEntry>>)
    ensures r.Ok? ==> Extractable(items, paths, z, names, r.value)
    ensures r.Refused? ==> forall entries :: !Extractable(items, paths, z, names, entries)
  {
    var m := ParseManifest(items, paths);
    if m.Refused? { return Refused; }
    r := InspectZip(z, m.value, names);
    var read := ReadArchive(z, names, Exact);
    if read.Ok? { AgreeIff(read.value, items, paths, m.value); }
  }

  /** The inspection with the helper's own names: accepts exactly the extractable archives. */
  method InspectArchive(items: seq<Item>, z: Bytes, locale: ArchivePath.Locale, codePage: CodePage)
      returns (r: Parsed<seq<ZipEntry>>)
    ensures r.Ok? ==> Extractable(items, ManifestPaths(locale), z, ZipNames(locale, codePage), r.value)
    ensures r.Refused? ==>
      forall entries :: !Extractable(items, ManifestPaths(locale), z, ZipNames(locale, codePage), entries)
  {
    r := InspectWith(items, z, ManifestPaths(locale), ZipNames(locale, codePage));
  }

  /** Each item is exactly one file entry, of its size. */
  ghost predicate OneEntryEach(items: seq<Item>, paths: PathReader, entries: seq<ZipEntry>) {
    forall k :: 0 <= k < |items| ==> HasEntry(items[k], paths, entries)
  }

  ghost predicate HasEntry(item: Item, paths: PathReader, entries: seq<ZipEntry>) {
    exists i :: EntryOf(item, paths, entries, i)
  }

  ghost predicate EntryOf(item: Item, paths: PathReader, entries: seq<ZipEntry>, i: int) {
    && IsFileAt(entries, i, FileOf(item, paths).canonical) && entries[i].uncompressed == item.size
    && forall j :: IsFileAt(entries, j, FileOf(item, paths).canonical) ==> j == i
  }

  lemma {:induction false} ManifestOf(items: seq<Item>, paths: PathReader, n: nat) returns (m: Manifest)
    requires Acceptable(items, paths) && n <= |items|
    ensures Built(m, items, paths, n)
  {
    if n == 0 {
      m := Manifest([], map[], {}, 0);
      NothingBuilt(items, paths);
    } else {
      var before := ManifestOf(items, paths, n - 1);
      var file, files := FileOf(items[n - 1], paths), FilesOf(items, paths);
      if file.canonical in before.byPath || before.totalSize + items[n - 1].size > MAX_ZIP_BYTES {
        BadItemIsRefused(before, items, paths, n - 1);
      }
      BuiltOneMore(before, items, paths, n - 1);
      m := Extended(before, file);
    }
  }

  lemma ItemIsOneEntry(entries: seq<ZipEntry>, items: seq<Item>, paths: PathReader, m: Manifest, k: nat)
    requires Built(m, items, paths, |items|) && Agree(entries, m) && k < |items|
    ensures HasEntry(items[k], paths, entries)
  {
    assert m.files == FilesOf(items, paths);
    assert m.files[k] == FileOf(items[k], paths);
    var i := AgreementIsABijection(entries, m, k);
    assert EntryOf(items[k], paths, entries, i);
  }

  lemma ItemsAddUp(entries: seq<ZipEntry>, items: seq<Item>, paths: PathReader, m: Manifest)
    requires Built(m, items, paths, |items|) && Agree(entries, m)
    ensures FileCount(entries) == |items| && ExtractedSize(entries) == TotalOf(FilesOf(items, paths)) <= MAX_ZIP_BYTES
  {
    var files := FilesOf(items, paths);
    assert files[..|items|] == files;
    CountDecidesPresence(entries, m);
    AgreementConservesSize(entries, m);
  }

  lemma ItemsAreOneEach(entries: seq<ZipEntry>, items: seq<Item>, paths: PathReader, m: Manifest)
    requires Built(m, items, paths, |items|) && Agree(entries, m)
    ensures OneEntryEach(items, paths, entries)
  {
    forall k | 0 <= k < |items|
      ensures HasEntry(items[k], paths, entries) { ItemIsOneEntry(entries, items, paths, m, k); }
  }

  /** The helper's answer for a manifest built of the items. */
  lemma ExtractableIsAccepted(items: seq<Item>, paths: PathReader, z: Bytes, names: NameReader, entries: seq<ZipEntry>)
      returns (m: Manifest)
    requires Extractable(items, paths, z, names, entries)
    ensures Built(m, items, paths, |items|) && Agree(entries, m)
  {
    m := ManifestOf(items, paths, |items|);
    AgreeIff(entries, items, paths, m);
  }

  /**
   What acceptance means for the caller: the directory that the last end record names is filled exactly
   by the entries, all their data lies in the file and none is shared, each item is exactly one file
   entry of its size and there are no other files, and extraction writes the items' total, at most 64 GiB.
   */
  lemma ExtractableIsExact(items: seq<Item>, paths: PathReader, z: Bytes, names: NameReader, entries: seq<ZipEntry>)
    returns (record: nat, d: Directory)
    requires Extractable(items, paths, z, names, entries)
    ensures NamedByLastRecord(z, record, d) && Fills(z, d, entries) && NoSharedData(entries)
    ensures OneEntryEach(items, paths, entries) && FileCount(entries) == |items|
    ensures ExtractedSize(entries) == TotalOf(FilesOf(items, paths)) <= MAX_ZIP_BYTES
  {
    var m := ExtractableIsAccepted(items, paths, z, names, entries);
    ItemsAreOneEach(entries, items, paths, m);
    ItemsAddUp(entries, items, paths, m);
    MachineArithmeticIsExact(z, names);
    record, d := ReadArchiveIsSound(z, names);
  }

  // ---------------------------------------------------------------------------------------------
  // The manifest's document
  // ---------------------------------------------------------------------------------------------

  const FILES: Bytes := [0x66, 0x69, 0x6C, 0x65, 0x73]
  const PATH: Bytes := [0x70, 0x61, 0x74, 0x68]
  const SIZE: Bytes := [0x73, 0x69, 0x7A, 0x65]
  const SHA256: Bytes := [0x73, 0x68, 0x61, 0x32, 0x35, 0x36]

  /** An object of exactly `path`, `size` and `sha256`. */
  function ItemOf(v: Json.Value): Parsed<Item> {
    if !v.Object? || v.members.Keys != {PATH, SIZE, SHA256} then Refused
    else if !v.members[PATH].String? || !v.members[SIZE].Number? || !v.members[SHA256].String? then Refused
    else Ok(Item(v.members[PATH].bytes, v.members[SIZE].number, v.members[SHA256].bytes))
  }

  function ItemsFrom(values: seq<Json.Value>): Parsed<seq<Item>> {
    if values == [] then Ok([])
    else
      var before :- ItemsFrom(values[..|values| - 1]);
      var last :- ItemOf(values[|values| - 1]);
      Ok(before + [last])
  }

  /** The items of a manifest's text: a document of exactly `files`. */
  function ManifestItems(text: Bytes): Parsed<seq<Item>> {
    var root := Json.Parse(text);
    if root.None? || !root.value.Object? || root.value.members.Keys != {FILES} || !root.value.members[FILES].Array?
      then Refused
    else ItemsFrom(root.value.members[FILES].items)
  }

  lemma {:induction false} ItemsStayRefused(values: seq<Json.Value>, i: nat)
    requires i <= |values| && ItemsFrom(values[..i]) == Refused
    ensures ItemsFrom(values) == Refused
    decreases |values|
  {
    if i < |values| {
      assert values[..|values| - 1][..i] == values[..i];
      ItemsStayRefused(values[..|values| - 1], i);
    } else {
      assert values[..i] == values;
    }
  }

  method ReadItemList(values: seq<Json.Value>) returns (items: Parsed<seq<Item>>)
    ensures items == ItemsFrom(values)
  {
    var list: seq<Item> := [];
    for i := 0 to |values|
      invariant ItemsFrom(values[..i]) == Ok(list)
    {
      assert values[..i + 1][..i] == values[..i];
      var item := ItemOf(values[i]);
      if item.Refused? {
        ItemsStayRefused(values, i + 1);
        return Refused;
      }
      list := list + [item.value];
    }
    assert values[..|values|] == values;
    items := Ok(list);
  }

  /** From the manifest's text and the archive's bytes: accepts exactly the archives extractable for its items. */
  method InspectDocument(text: Bytes, z: Bytes, locale: ArchivePath.Locale, codePage: CodePage)
      returns (r: Parsed<seq<ZipEntry>>)
    ensures r.Ok? ==> ManifestItems(text).Ok?
    ensures r.Ok? ==> Extractable(ManifestItems(text).value, ManifestPaths(locale), z, ZipNames(locale, codePage),
      r.value)
    ensures r.Refused? && ManifestItems(text).Ok? ==>
      forall entries :: !Extractable(ManifestItems(text).value, ManifestPaths(locale), z, ZipNames(locale, codePage),
        entries)
  {
    var root := Json.Parse(text);
    if root.None? || !root.value.Object? || root.value.members.Keys != {FILES} || !root.value.members[FILES].Array?
    {
      return Refused;
    }
    var items := ReadItemList(root.value.members[FILES].items);
    if items.Refused? { return Refused; }
    r := InspectArchive(items.value, z, locale, codePage);
  }

}
