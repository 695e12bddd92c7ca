/**
 `parseManifest`, `zip64Values` and `inspectZip` as the helper runs them: one pass with counters, sets
 and a final sort, against the plain statement of what an acceptable archive is.
 */
module ZipInspector {

  import opened Basics
  import opened ZipFormat
  import opened ZipProofs
  import opened ZipMatching

  // ---------------------------------------------------------------------------------------------
  // The manifest
  // ---------------------------------------------------------------------------------------------

  /** One entry of the manifest's file list. */
  datatype Item = Item(path: Bytes, size: nat, sha256: Bytes)

  /** Normalises a manifest path. */
  type PathReader = Bytes -> Parsed<Path>

  const SLASH: Wide := 0x2F

  predicate IsHex(b: Byte) {
    0x30 <= b <= 0x39 || 0x61 <= b <= 0x66 || 0x41 <= b <= 0x46
  }

  predicate IsSha256(text: Bytes) {
    |text| == 64 && forall i :: 0 <= i < 64 ==> IsHex(text[i])
  }

  function FileOf(item: Item, paths: PathReader): ManifestFile {
    ManifestFile(if paths(item.path).Ok? then paths(item.path).value.canonical else [], item.size)
  }

  function FilesOf(items: seq<Item>, paths: PathReader): (files: seq<ManifestFile>)
    ensures |files| == |items|
  {
    seq(|items|, i requires 0 <= i < |items| => FileOf(items[i], paths))
  }

  predicate ItemIsPlain(item: Item, paths: PathReader) {
    paths(item.path).Ok? && !paths(item.path).value.directory && IsSha256(item.sha256)
  }

  /** A manifest the helper takes: plain files, no two at one path, 64 GiB in all. */
  ghost predicate Acceptable(items: seq<Item>, paths: PathReader) {
    && |items| <= MAX_ZIP_ENTRIES
    && (forall i :: 0 <= i < |items| ==> ItemIsPlain(items[i], paths))
    && (forall i, j :: 0 <= i < j < |items| ==> FileOf(items[i], paths).canonical != FileOf(items[j], paths).canonical)
    && TotalOf(FilesOf(items, paths)) <= MAX_ZIP_BYTES
  }

  /** Every directory on the way to a file. */
  function Parents(canonical: Text): set<Text> {
    set i | 0 <= i < |canonical| && canonical[i] == SLASH :: canonical[..i]
  }

  ghost function AllParents(files: seq<ManifestFile>): set<Text> {
    if files == [] then {} else AllParents(files[..|files| - 1]) + Parents(files[|files| - 1].canonical)
  }

  method CollectParents(canonical: Text) returns (found: set<Text>)
    ensures found == Parents(canonical)
  {
    found := {};
    var slash := 0;
    while slash < |canonical|
      invariant slash <= |canonical|
      invariant found == set i | 0 <= i < slash && canonical[i] == SLASH :: canonical[..i]
    {
      if canonical[slash] == SLASH { found := found + {canonical[..slash]}; }
      slash := slash + 1;
    }
  }

  method Extend(m: Manifest, file: ManifestFile) returns (more: Manifest)
    ensures more == Extended(m, file)
  {
    var parents := CollectParents(file.canonical);
    more := Manifest(m.files + [file], m.byPath[file.canonical := |m.files|], m.directories + parents,
      m.totalSize + file.size);
  }

  lemma {:induction false} TotalGrows(files: seq<ManifestFile>, i: nat)
    requires i <= |files|
    ensures TotalOf(files[..i]) <= TotalOf(files)
  {
    if i < |files| {
      TotalGrows(files[..|files| - 1], i);
      assert files[..|files| - 1][..i] == files[..i];
    } else {
      assert files[..i] == files;
    }
  }

  /** The manifest built so far is exactly the first `i` items', all of them plain. */
  ghost predicate Built(m: Manifest, items: seq<Item>, paths: PathReader, i: nat)
    requires i <= |items|
  {
    && (forall k :: 0 <= k < i ==> ItemIsPlain(items[k], paths))
    && m.files == FilesOf(items, paths)[..i] && WellIndexed(m)
    && m.totalSize == TotalOf(m.files) <= MAX_ZIP_BYTES && m.directories == AllParents(m.files)
  }

  function Extended(m: Manifest, file: ManifestFile): Manifest {
    Manifest(m.files + [file], m.byPath[file.canonical := |m.files|], m.directories + Parents(file.canonical),
      m.totalSize + file.size)
  }

  lemma NothingBuilt(items: seq<Item>, paths: PathReader)
    ensures Built(Manifest([], map[], {}, 0), items, paths, 0)
  {
  }

  lemma IndexedOneMore(m: Manifest, file: ManifestFile)
    requires WellIndexed(m) && file.canonical !in m.byPath
    ensures WellIndexed(Extended(m, file))
  {
  }

  lemma SumsOneMore(files: seq<ManifestFile>, file: ManifestFile)
    ensures TotalOf(files + [file]) == TotalOf(files) + file.size
    ensures AllParents(files + [file]) == AllParents(files) + Parents(file.canonical)
  {
    assert (files + [file])[..|files|] == files;
  }

  lemma BuiltOneMore(m: Manifest, items: seq<Item>, paths: PathReader, i: nat)
    requires i < |items| && Built(m, items, paths, i) && ItemIsPlain(items[i], paths)
    requires FileOf(items[i], paths).canonical !in m.byPath && m.totalSize + items[i].size <= MAX_ZIP_BYTES
    ensures Built(Extended(m, FileOf(items[i], paths)), items, paths, i + 1)
  {
    var file := FileOf(items[i], paths);
    assert FilesOf(items, paths)[..i + 1] == m.files + [file];
    IndexedOneMore(m, file);
    SumsOneMore(m.files, file);
  }

  /** A running total over the limit stays over it. */
  lemma TotalIsOver(items: seq<Item>, paths: PathReader, i: nat)
    requires i < |items| && TotalOf(FilesOf(items, paths)[..i]) + items[i].size > MAX_ZIP_BYTES
    ensures !Acceptable(items, paths)
  {
    var files := FilesOf(items, paths);
    assert files[..i + 1][..i] == files[..i];
    assert TotalOf(files[..i + 1]) == TotalOf(files[..i]) + items[i].size;
    TotalGrows(files, i + 1);
  }

  /** An item that is odd, too large or repeated spoils every manifest it is in. */
  lemma BadItemIsRefused(m: Manifest, items: seq<Item>, paths: PathReader, i: nat)
    requires i < |items| && Built(m, items, paths, i)
    requires !ItemIsPlain(items[i], paths) || m.totalSize + items[i].size > MAX_ZIP_BYTES ||
      FileOf(items[i], paths).canonical in m.byPath
    ensures !Acceptable(items, paths)
  {
    if ItemIsPlain(items[i], paths) {
      if m.totalSize + items[i].size > MAX_ZIP_BYTES {
        TotalIsOver(items, paths, i);
      } else {
        var k := m.byPath[FileOf(items[i], paths).canonical];
        assert m.files[k] == FileOf(items[k], paths);
      }
    }
  }

  lemma BuiltIsAcceptable(m: Manifest, items: seq<Item>, paths: PathReader)
    requires Built(m, items, paths, |items|) && |items| <= MAX_ZIP_ENTRIES
    ensures Acceptable(items, paths)
  {
    assert m.files == FilesOf(items, paths);
    forall i, j | 0 <= i < j < |items| ensures FileOf(items[i], paths).canonical != FileOf(items[j], paths).canonical {
      assert m.files[i] == FileOf(items[i], paths) && m.files[j] == FileOf(items[j], paths);
    }
  }

  /** One item of the list, with the sizes before it already counted. */
  method ReadItem(item: Item, totalSize: nat, paths: PathReader) returns (file: Parsed<ManifestFile>)
    ensures file ==
      if ItemIsPlain(item, paths) && totalSize + item.size <= MAX_ZIP_BYTES then Ok(FileOf(item, paths)) else Refused
  {
    var path :- paths(item.path);
    if path.directory { return Refused; }
    if item.size > MAX_ZIP_BYTES || totalSize > MAX_ZIP_BYTES - item.size { return Refused; }
    if !IsSha256(item.sha256) { return Refused; }
    file := Ok(ManifestFile(path.canonical, item.size));
  }

  method ParseManifest(items: seq<Item>, paths: PathReader) returns (r: Parsed<Manifest>)
    ensures r.Ok? <==> Acceptable(items, paths)
    ensures r.Ok? ==> Built(r.value, items, paths, |items|)
  {
    if |items| > MAX_ZIP_ENTRIES { return Refused; }
    var m := Manifest([], map[], {}, 0);
    NothingBuilt(items, paths);
    for i := 0 to |items|
      invariant Built(m, items, paths, i)
    {
      var file := ReadItem(items[i], m.totalSize, paths);
      if file.Refused? || file.value.canonical in m.byPath {
        BadItemIsRefused(m, items, paths, i);
        return Refused;
      }
      BuiltOneMore(m, items, paths, i);
      m := Extend(m, file.value);
    }
    BuiltIsAcceptable(m, items, paths);
    r := Ok(m);
  }

  // ---------------------------------------------------------------------------------------------
  // Reading, with the loops
  // ---------------------------------------------------------------------------------------------

  method FindEndRecord(z: Bytes) returns (r: Parsed<nat>)
    requires Mappable(z)
    ensures r == EndRecordFrom(z, |z| - 22, Machine)
  {
    var searchStart := if |z| > 65557 then |z| - 65557 else 0;
    var cursor := |z| - 22;
    while !IsEndRecord(z, cursor, Machine) && cursor != searchStart
      invariant searchStart == LowestRecord(z) <= cursor
      invariant EndRecordFrom(z, cursor, Machine) == EndRecordFrom(z, |z| - 22, Machine)
      decreases cursor
    {
      cursor := cursor - 1;
    }
    r := if IsEndRecord(z, cursor, Machine) then Ok(cursor) else Refused;
  }

  method LocateDirectory(z: Bytes) returns (r: Parsed<Directory>)
    requires Mappable(z)
    ensures r == FindDirectory(z, Machine)
  {
    var record :- FindEndRecord(z);
    r := ReadDirectory(z, record, Machine);
  }

  method FindZip64Field(z: Bytes, extraOffset: nat, end: nat) returns (r: Parsed<Option<(nat, nat)>>)
    requires extraOffset <= end <= |z| <= 2 * MAX_ZIP_BYTES
    ensures r == FindZip64(z, extraOffset, end, Machine)
  {
    var cursor := extraOffset;
    while Plus(cursor, 4, Machine) <= end
      invariant cursor <= end
      invariant FindZip64(z, cursor, end, Machine) == FindZip64(z, extraOffset, end, Machine)
      decreases end - cursor
    {
      var id :- U16(z, cursor);
      var length :- U16(z, Plus(cursor, 2, Machine));
      var body := Plus(cursor, 4, Machine);
      if Plus(body, length, Machine) > end { return Refused; }
      if id == 0x0001 { return Ok(Some((body, Plus(body, length, Machine)))); }
      cursor := Plus(body, length, Machine);
    }
    r := Ok(None);
  }

  method Zip64Values(z: Bytes, cursor: nat, f: Fields) returns (r: Parsed<Sizes>)
    requires cursor + 46 + f.nameLength + f.extraLength <= |z| <= 2 * MAX_ZIP_BYTES
    ensures r == ReadSizes(z, cursor, f, Machine)
  {
    var extra := Plus(Plus(cursor, 46, Machine), f.nameLength, Machine);
    var field :- FindZip64Field(z, extra, Plus(extra, f.extraLength, Machine));
    r := FullSizes(z, field, f.small, Machine);
  }

  method ReadCentralEntry(z: Bytes, d: Directory, cursor: nat, names: NameReader) returns (r: Parsed<(ZipEntry, nat)>)
    requires Mappable(z) && d.offset + d.size <= |z|
    ensures r == ReadIn(z, d, cursor, names, Machine)
  {
    var fields :- ReadFields(z, cursor, Machine);
    var header :- CheckHeader(z, cursor, d.offset + d.size, fields, names, Machine);
    var sizes :- Zip64Values(z, cursor, fields);
    var entry :- ReadLocal(z, Header(header.0, fields.flags, fields.compression, sizes), names, Machine);
    r := Ok((entry, header.1));
  }

  // ---------------------------------------------------------------------------------------------
  // The inspection
  // ---------------------------------------------------------------------------------------------

  ghost function Names(entries: seq<ZipEntry>): set<Text> {
    if entries == [] then {} else Names(entries[..|entries| - 1]) + {entries[|entries| - 1].path.canonical}
  }

  lemma {:induction false} NamesAre(entries: seq<ZipEntry>, name: Text)
    ensures name in Names(entries) <==> exists i :: 0 <= i < |entries| && entries[i].path.canonical == name
  {
    if entries != [] {
      var init := entries[..|entries| - 1];
      NamesAre(init, name);
      if i :| 0 <= i < |init| && init[i].path.canonical == name { assert entries[i].path.canonical == name; }
      if i :| 0 <= i < |entries| && entries[i].path.canonical == name {
        if i < |init| { assert init[i].path.canonical == name; }
      }
    }
  }

  /** Every entry has a new name and is known to the manifest. */
  ghost predicate Clean(entries: seq<ZipEntry>, m: Manifest)
    requires WellIndexed(m)
  {
    if entries == [] then true
    else
      var init, last := entries[..|entries| - 1], entries[|entries| - 1];
      Clean(init, m) && last.path.canonical !in Names(init) && Known(last, m)
  }

  lemma {:induction false} CleanIff(entries: seq<ZipEntry>, m: Manifest)
    requires WellIndexed(m)
    ensures Clean(entries, m) <==> Distinct(entries) && AllKnown(entries, m)
  {
    if entries != [] {
      var n := |entries| - 1;
      CleanIff(entries[..n], m);
      NamesAre(entries[..n], entries[n].path.canonical);
      assert forall i :: 0 <= i < n ==> entries[..n][i] == entries[i];
    }
  }

  /** What is not clean stays so, whatever follows. */
  lemma {:induction false} UncleanStays(entries: seq<ZipEntry>, rest: seq<ZipEntry>, m: Manifest)
    requires WellIndexed(m) && !Clean(entries, m)
    ensures !Clean(entries + rest, m)
  {
    if rest == [] {
      assert entries + rest == entries;
    } else {
      UncleanStays(entries, rest[..|rest| - 1], m);
      var all := entries + rest;
      assert all[..|all| - 1] == entries + rest[..|rest| - 1];
    }
  }

  lemma OneMore(entries: seq<ZipEntry>, e: ZipEntry, m: Manifest)
    requires WellIndexed(m)
    ensures var more := entries + [e];
      && (Clean(more, m) <==> Clean(entries, m) && e.path.canonical !in Names(entries) && Known(e, m))
      && Names(more) == Names(entries) + {e.path.canonical}
      && RangesOf(more) == RangesOf(entries) + (if e.compressed > 0 then [RangeOf(e)] else [])
      && FileCount(more) == FileCount(entries) + (if e.path.directory then 0 else 1)
  {
    var more := entries + [e];
    assert more[..|more| - 1] == entries;
  }

  function Prepended(entries: seq<ZipEntry>, rest: Parsed<seq<ZipEntry>>): Parsed<seq<ZipEntry>> {
    if rest.Ok? then Ok(entries + rest.value) else Refused
  }

  /** One entry read through `read`, and what remains to read behind it. */
  lemma EntriesOneMore(read: EntryReader, entries: seq<ZipEntry>, cursor: nat, limit: nat, count: nat)
    requires count > 0
    ensures var rest := EntriesFrom(read, cursor, limit, count);
      Prepended(entries, rest) ==
        if read(cursor).Refused? then Refused
        else
          var (e, next) := read(cursor).value;
          Prepended(entries + [e], EntriesFrom(read, next, limit, count - 1))
  {
    if read(cursor).Ok? {
      var (e, next) := read(cursor).value;
      var behind := EntriesFrom(read, next, limit, count - 1);
      if behind.Ok? { assert (entries + [e]) + behind.value == entries + ([e] + behind.value); }
    }
  }

  /** An entry that cannot be read, repeats a name or is unknown leaves no clean reading. */
  lemma BadEntrySpoils(read: EntryReader, entries: seq<ZipEntry>, cursor: nat, limit: nat, count: nat, m: Manifest)
    requires WellIndexed(m) && count > 0
    requires read(cursor).Ok? ==> var e := read(cursor).value.0; e.path.canonical in Names(entries) || !Known(e, m)
    ensures var all := Prepended(entries, EntriesFrom(read, cursor, limit, count)); all.Ok? ==> !Clean(all.value, m)
  {
    EntriesOneMore(read, entries, cursor, limit, count);
    if read(cursor).Ok? {
      var (e, next) := read(cursor).value;
      var behind := EntriesFrom(read, next, limit, count - 1);
      OneMore(entries, e, m);
      if behind.Ok? { UncleanStays(entries + [e], behind.value, m); }
    }
  }

  /** What one pass over the directory gathers. */
  datatype Pass = Pass(entries: seq<ZipEntry>, ranges: seq<Range>, fileCount: nat)

  ghost function PassOf(entries: seq<ZipEntry>): Pass {
    Pass(entries, RangesOf(entries), FileCount(entries))
  }

  function Including(p: Pass, e: ZipEntry): Pass {
    Pass(p.entries + [e],
      if e.compressed > 0 then p.ranges + [RangeOf(e)] else p.ranges,
      if e.path.directory then p.fileCount else p.fileCount + 1)
  }

  /** A known entry of a new name is gathered, and the pass goes on behind it. */
  lemma GoodEntryExtends(read: EntryReader, entries: seq<ZipEntry>, cursor: nat, limit: nat, count: nat, m: Manifest)
    requires WellIndexed(m) && count > 0 && Clean(entries, m) && read(cursor).Ok?
    requires var e := read(cursor).value.0; e.path.canonical !in Names(entries) && Known(e, m)
    ensures var (e, next) := read(cursor).value;
      var more := entries + [e];
      && Clean(more, m)
      && Names(more) == Names(entries) + {e.path.canonical}
      && PassOf(more) == Including(PassOf(entries), e)
      && Prepended(entries, EntriesFrom(read, cursor, limit, count)) ==
         Prepended(more, EntriesFrom(read, next, limit, count - 1))
  {
    EntriesOneMore(read, entries, cursor, limit, count);
    OneMore(entries, read(cursor).value.0, m);
  }

  /** The pass has gathered clean entries only, and knows their names. */
  ghost predicate Gathered(p: Pass, seen: set<Text>, m: Manifest) {
    WellIndexed(m) && Clean(p.entries, m) && seen == Names(p.entries) && p == PassOf(p.entries)
  }

  /** Of the whole reading `all`, the pass has gathered its entries and `rest` remains. */
  ghost predicate PassUnderway(all: Parsed<seq<ZipEntry>>, p: Pass, seen: set<Text>, m: Manifest,
      rest: Parsed<seq<ZipEntry>>)
  {
    Gathered(p, seen, m) && all == Prepended(p.entries, rest)
  }

  /** The pass is all of a clean reading, or there is none. */
  ghost predicate Passes(all: Parsed<seq<ZipEntry>>, r: Parsed<Pass>, m: Manifest)
    requires WellIndexed(m)
  {
    if r.Ok? then all == Ok(r.value.entries) && Clean(r.value.entries, m) && r.value == PassOf(r.value.entries)
    else all.Ok? ==> !Clean(all.value, m)
  }

  lemma PassStarts(all: Parsed<seq<ZipEntry>>, m: Manifest)
    requires WellIndexed(m)
    ensures PassUnderway(all, Pass([], [], 0), {}, m, all)
  {
    if all.Ok? { assert [] + all.value == all.value; }
  }

  lemma PassEnds(all: Parsed<seq<ZipEntry>>, p: Pass, seen: set<Text>, m: Manifest, read: EntryReader, cursor: nat,
      limit: nat)
    requires PassUnderway(all, p, seen, m, EntriesFrom(read, cursor, limit, 0))
    ensures Passes(all, if cursor == limit then Ok(p) else Refused, m)
  {
    assert p.entries + [] == p.entries;
  }

  /** Takes the entry read at `cursor`; refuses one that cannot be read, repeats a name or is unknown. */
  method TakeEntry(entry: Parsed<(ZipEntry, nat)>, p: Pass, seen: set<Text>, m: Manifest,
      ghost all: Parsed<seq<ZipEntry>>, ghost read: EntryReader, ghost cursor: nat, ghost limit: nat, ghost count: nat)
      returns (q: Pass, seen': set<Text>, next: nat, ok: bool)
    requires WellIndexed(m) && count > 0 && entry == read(cursor)
    requires PassUnderway(all, p, seen, m, EntriesFrom(read, cursor, limit, count))
    ensures ok ==> PassUnderway(all, q, seen', m, EntriesFrom(read, next, limit, count - 1))
    ensures !ok ==> Passes(all, Refused, m)
  {
    if entry.Refused? || entry.value.0.path.canonical in seen || !Known(entry.value.0, m) {
      BadEntrySpoils(read, p.entries, cursor, limit, count, m);
      return p, seen, 0, false;
    }
    GoodEntryExtends(read, p.entries, cursor, limit, count, m);
    var e := entry.value.0;
    return Including(p, e), seen + {e.path.canonical}, entry.value.1, true;
  }

  /** The reading function of a directory, as the methods below serve it. */
  ghost predicate Serves(z: Bytes, d: Directory, names: NameReader, read: EntryReader) {
    && Mappable(z) && d.offset + d.size <= |z|
    && forall cursor {:trigger ReadIn(z, d, cursor, names, Machine)} ::
         read(cursor) == ReadIn(z, d, cursor, names, Machine)
  }

  lemma ReaderServes(z: Bytes, d: Directory, names: NameReader)
    requires Mappable(z) && d.offset + d.size <= |z|
    ensures Serves(z, d, names, ReaderOf(z, names, Machine)(d))
  {
    var read := ReaderOf(z, names, Machine)(d);
    forall cursor ensures read(cursor) == ReadIn(z, d, cursor, names, Machine) {
    }
  }

  method ServeEntry(z: Bytes, d: Directory, cursor: nat, names: NameReader, ghost read: EntryReader)
      returns (entry: Parsed<(ZipEntry, nat)>)
    requires Serves(z, d, names, read)
    ensures entry == read(cursor)
  {
    entry := ReadCentralEntry(z, d, cursor, names);
  }

  /** Reads entry by entry and stops at the first that is refused. */
  method ReadEntries(z: Bytes, d: Directory, names: NameReader, m: Manifest, ghost read: EntryReader)
      returns (r: Parsed<Pass>)
    requires WellIndexed(m) && Serves(z, d, names, read)
    ensures Passes(EntriesFrom(read, d.offset, d.offset + d.size, d.entries), r, m)
  {
    var limit := d.offset + d.size;
    ghost var all := EntriesFrom(read, d.offset, limit, d.entries);
    var pass, seen: set<Text>, cursor := Pass([], [], 0), {}, d.offset;
    PassStarts(all, m);
    for index := 0 to d.entries
      invariant PassUnderway(all, pass, seen, m, EntriesFrom(read, cursor, limit, d.entries - index))
    {
      var entry := ServeEntry(z, d, cursor, names, read);
      var ok;
      pass, seen, cursor, ok := TakeEntry(entry, pass, seen, m, all, read, cursor, limit, d.entries - index);
      if !ok { return Refused; }
    }
    PassEnds(all, pass, seen, m, read, cursor, limit);
    r := if cursor == limit then Ok(pass) else Refused;
  }

  /** The readings that agree with the manifest. */
  ghost function Agreeing(read: Parsed<seq<ZipEntry>>, m: Manifest): Parsed<seq<ZipEntry>>
    requires WellIndexed(m)
  {
    if read.Ok? && Agree(read.value, m) then read else Refused
  }

  lemma UncleanDisagrees(read: Parsed<seq<ZipEntry>>, m: Manifest)
    requires WellIndexed(m) && (read.Ok? ==> !Clean(read.value, m))
    ensures Agreeing(read, m) == Refused
  {
    if read.Ok? { CleanIff(read.value, m); }
  }

  /** Counting and sorting decide agreement. */
  lemma CleanAgreeIff(entries: seq<ZipEntry>, m: Manifest)
    requires WellIndexed(m) && Clean(entries, m)
    ensures Agreeing(Ok(entries), m) ==
      if FileCount(entries) == |m.files| && NeighboursApart(Sort(RangesOf(entries))) then Ok(entries) else Refused
  {
    CleanIff(entries, m);
    CountDecidesPresence(entries, m);
    RangesAreProper(entries);
    NeighbourCheckIff(RangesOf(entries));
    RangesApartIff(entries);
  }

  method NeighboursAreApart(ranges: seq<Range>) returns (apart: bool)
    ensures apart == NeighboursApart(ranges)
  {
    var i := 1;
    while i < |ranges|
      invariant 1 <= i && forall k :: 1 <= k < i && k < |ranges| ==> ranges[k].first >= ranges[k - 1].last
    {
      if ranges[i].first < ranges[i - 1].last { return false; }
      i := i + 1;
    }
    return true;
  }

  method InspectEntries(z: Bytes, d: Directory, names: NameReader, m: Manifest, ghost read: EntryReader)
      returns (r: Parsed<seq<ZipEntry>>)
    requires WellIndexed(m) && Serves(z, d, names, read)
    ensures r == Agreeing(EntriesFrom(read, d.offset, d.offset + d.size, d.entries), m)
  {
    var pass := ReadEntries(z, d, names, m, read);
    if pass.Refused? {
      UncleanDisagrees(EntriesFrom(read, d.offset, d.offset + d.size, d.entries), m);
      return Refused;
    }
    CleanAgreeIff(pass.value.entries, m);
    var apart := NeighboursAreApart(Sort(pass.value.ranges));
    r := if pass.value.fileCount == |m.files| && apart then Ok(pass.value.entries) else Refused;
  }

  method InspectDirectory(z: Bytes, directory: Parsed<Directory>, names: NameReader, m: Manifest,
      ghost readers: Directory -> EntryReader)
      returns (r: Parsed<seq<ZipEntry>>)
    requires WellIndexed(m) && (directory.Ok? ==> Serves(z, directory.value, names, readers(directory.value)))
    ensures r == Agreeing(EntriesOf(directory, readers), m)
  {
    var d :- directory;
    r := InspectEntries(z, d, names, m, readers(d));
  }

  /** Accepts exactly the archives that read, in exact arithmetic, into entries that agree with the manifest. */
  method InspectZip(z: Bytes, m: Manifest, names: NameReader) returns (r: Parsed<seq<ZipEntry>>)
    requires WellIndexed(m)
    ensures r == Agreeing(ReadArchive(z, names, Exact), m)
  {
    if !Mappable(z) { return Refused; }
    var directory := LocateDirectory(z);
    if directory.Ok? { ReaderServes(z, directory.value, names); }
    r := InspectDirectory(z, directory, names, m, ReaderOf(z, names, Machine));
    MachineArithmeticIsExact(z, names);
  }

  /**
   What acceptance means: the directory the last end record names is filled exactly by the entries, all
   data lies in the file, no two entries share any, and extraction writes what the manifest promised.
   */
  lemma AcceptedArchiveIsExact(z: Bytes, m: Manifest, names: NameReader) returns (record: nat, d: Directory)
    requires WellIndexed(m) && Agreeing(ReadArchive(z, names, Exact), m).Ok?
    ensures var entries := ReadArchive(z, names, Exact).value;
      && NamedByLastRecord(z, record, d) && Fills(z, d, entries) && NoSharedData(entries)
      && FileCount(entries) == |m.files| && ExtractedSize(entries) == TotalOf(m.files)
  {
    MachineArithmeticIsExact(z, names);
    record, d := ReadArchiveIsSound(z, names);
    var entries := ReadArchive(z, names, Exact).value;
    AgreementConservesSize(entries, m);
    CountDecidesPresence(entries, m);
  }

}
