/**
 An archive against its manifest (native/windows/roost-win-helper.cpp: parseManifest and the matching
 half of inspectZip): what it means for the two to agree, said without counting or sorting.
 */
module ZipMatching {

  import opened Basics
  import opened ZipFormat

  datatype ManifestFile = ManifestFile(canonical: Text, size: nat)

  datatype Manifest = Manifest(files: seq<ManifestFile>, byPath: map<Text, nat>, directories: set<Text>, totalSize: nat)

  /** The index names every file by its canonical path, and nothing else. */
  predicate WellIndexed(m: Manifest) {
    && (forall k :: k in m.byPath ==> m.byPath[k] < |m.files| && m.files[m.byPath[k]].canonical == k)
    && (forall i :: 0 <= i < |m.files| ==> m.files[i].canonical in m.byPath && m.byPath[m.files[i].canonical] == i)
  }

  // ---------------------------------------------------------------------------------------------
  // Agreement
  // ---------------------------------------------------------------------------------------------

  predicate Distinct(entries: seq<ZipEntry>) {
    forall i, j :: 0 <= i < j < |entries| ==> entries[i].path.canonical != entries[j].path.canonical
  }

  /** A directory is an empty parent of some file; a file is in the manifest with its size. */
  predicate Known(e: ZipEntry, m: Manifest)
    requires WellIndexed(m)
  {
    if e.path.directory then e.compressed == 0 && e.uncompressed == 0 && e.path.canonical in m.directories
    else e.path.canonical in m.byPath && m.files[m.byPath[e.path.canonical]].size == e.uncompressed
  }

  predicate AllKnown(entries: seq<ZipEntry>, m: Manifest)
    requires WellIndexed(m)
  {
    forall i :: 0 <= i < |entries| ==> Known(entries[i], m)
  }

  predicate IsFileAt(entries: seq<ZipEntry>, i: int, canonical: Text) {
    0 <= i < |entries| && !entries[i].path.directory && entries[i].path.canonical == canonical
  }

  ghost predicate Present(entries: seq<ZipEntry>, file: ManifestFile) {
    exists i :: IsFileAt(entries, i, file.canonical)
  }

  ghost predicate AllPresent(entries: seq<ZipEntry>, m: Manifest) {
    forall k :: 0 <= k < |m.files| ==> Present(entries, m.files[k])
  }

  /** No byte of the file belongs to the data of two entries. */
  predicate NoSharedData(entries: seq<ZipEntry>) {
    forall i, j :: 0 <= i < j < |entries| && entries[i].compressed > 0 && entries[j].compressed > 0 ==>
      Apart(RangeOf(entries[i]), RangeOf(entries[j]))
  }

  ghost predicate Agree(entries: seq<ZipEntry>, m: Manifest)
    requires WellIndexed(m)
  {
    Distinct(entries) && AllKnown(entries, m) && AllPresent(entries, m) && NoSharedData(entries)
  }

  // ---------------------------------------------------------------------------------------------
  // Data ranges, sorted and compared with their neighbours
  // ---------------------------------------------------------------------------------------------

  /** Bytes `first` up to but not including `last`. */
  datatype Range = Range(first: nat, last: nat)

  function RangeOf(e: ZipEntry): Range {
    Range(e.dataOffset, e.dataOffset + e.compressed)
  }

  predicate Apart(a: Range, b: Range) {
    a.last <= b.first || b.last <= a.first
  }

  /** The order of pairs. */
  predicate AtMost(a: Range, b: Range) {
    a.first < b.first || (a.first == b.first && a.last <= b.last)
  }

  function RangesOf(entries: seq<ZipEntry>): seq<Range> {
    if entries == [] then []
    else
      var last := entries[|entries| - 1];
      RangesOf(entries[..|entries| - 1]) + (if last.compressed > 0 then [RangeOf(last)] else [])
  }

  function Insert(s: seq<Range>, r: Range): (t: seq<Range>)
    ensures |t| == |s| + 1
  {
    if s == [] then [r]
    else if AtMost(s[|s| - 1], r) then s + [r]
    else Insert(s[..|s| - 1], r) + [s[|s| - 1]]
  }

  function Sort(s: seq<Range>): (t: seq<Range>)
    ensures |t| == |s|
  {
    if s == [] then [] else Insert(Sort(s[..|s| - 1]), s[|s| - 1])
  }

  predicate Sorted(s: seq<Range>) {
    forall i, j :: 0 <= i < j < |s| ==> AtMost(s[i], s[j])
  }

  predicate Proper(s: seq<Range>) {
    forall i :: 0 <= i < |s| ==> s[i].first < s[i].last
  }

  predicate ApartFromAll(s: seq<Range>, r: Range) {
    forall i :: 0 <= i < |s| ==> Apart(s[i], r)
  }

  predicate AllApart(s: seq<Range>) {
    forall i, j :: 0 <= i < j < |s| ==> Apart(s[i], s[j])
  }

  /** The check made after sorting. */
  predicate NeighboursApart(s: seq<Range>) {
    forall i :: 1 <= i < |s| ==> s[i].first >= s[i - 1].last
  }

  lemma AllApartOneMore(s: seq<Range>, r: Range)
    ensures AllApart(s + [r]) <==> AllApart(s) && ApartFromAll(s, r)
  {
    var t := s + [r];
    assert forall i :: 0 <= i < |s| ==> t[i] == s[i];
    if AllApart(t) {
      forall i | 0 <= i < |s| ensures Apart(s[i], r) { assert Apart(t[i], t[|s|]); }
      forall i, j | 0 <= i < j < |s| ensures Apart(s[i], s[j]) { assert Apart(t[i], t[j]); }
    }
  }

  lemma ApartFromAllOneMore(s: seq<Range>, x: Range, r: Range)
    ensures ApartFromAll(s + [x], r) <==> ApartFromAll(s, r) && Apart(x, r)
  {
    var t := s + [x];
    assert forall i :: 0 <= i < |s| ==> t[i] == s[i];
    assert t[|s|] == x;
  }

  lemma {:induction false} InsertKeepsApartness(s: seq<Range>, x: Range, r: Range)
    ensures ApartFromAll(Insert(s, x), r) <==> ApartFromAll(s, r) && Apart(x, r)
  {
    if s == [] || AtMost(s[|s| - 1], x) {
      ApartFromAllOneMore(s, x, r);
    } else {
      var init, last := s[..|s| - 1], s[|s| - 1];
      assert s == init + [last];
      InsertKeepsApartness(init, x, r);
      ApartFromAllOneMore(init, last, r);
      ApartFromAllOneMore(Insert(init, x), last, r);
    }
  }

  lemma {:induction false} InsertedAreApart(s: seq<Range>, x: Range)
    ensures AllApart(Insert(s, x)) <==> AllApart(s) && ApartFromAll(s, x)
  {
    if s == [] || AtMost(s[|s| - 1], x) {
      AllApartOneMore(s, x);
    } else {
      var init, last := s[..|s| - 1], s[|s| - 1];
      assert s == init + [last];
      InsertedAreApart(init, x);
      InsertKeepsApartness(init, x, last);
      AllApartOneMore(Insert(init, x), last);
      AllApartOneMore(init, last);
      ApartFromAllOneMore(init, last, x);
    }
  }

  lemma {:induction false} SortKeepsApartness(s: seq<Range>, r: Range)
    ensures ApartFromAll(Sort(s), r) <==> ApartFromAll(s, r)
  {
    if s != [] {
      var init, last := s[..|s| - 1], s[|s| - 1];
      assert s == init + [last];
      SortKeepsApartness(init, r);
      InsertKeepsApartness(Sort(init), last, r);
      ApartFromAllOneMore(init, last, r);
    }
  }

  lemma {:induction false} SortedAreApart(s: seq<Range>)
    ensures AllApart(Sort(s)) <==> AllApart(s)
  {
    if s != [] {
      var init, last := s[..|s| - 1], s[|s| - 1];
      assert s == init + [last];
      SortedAreApart(init);
      InsertedAreApart(Sort(init), last);
      SortKeepsApartness(init, last);
      AllApartOneMore(init, last);
    }
  }

  lemma {:induction false} InsertBounds(s: seq<Range>, x: Range, bound: Range)
    requires forall i :: 0 <= i < |s| ==> AtMost(s[i], bound)
    requires AtMost(x, bound)
    ensures forall i :: 0 <= i <= |s| ==> AtMost(Insert(s, x)[i], bound)
  {
    if s != [] && !AtMost(s[|s| - 1], x) { InsertBounds(s[..|s| - 1], x, bound); }
  }

  lemma {:induction false} InsertSorts(s: seq<Range>, x: Range)
    requires Sorted(s) && Proper(s) && x.first < x.last
    ensures Sorted(Insert(s, x)) && Proper(Insert(s, x))
  {
    if s != [] && !AtMost(s[|s| - 1], x) {
      InsertSorts(s[..|s| - 1], x);
      InsertBounds(s[..|s| - 1], x, s[|s| - 1]);
    }
  }

  lemma {:induction false} SortSorts(s: seq<Range>)
    requires Proper(s)
    ensures Sorted(Sort(s)) && Proper(Sort(s))
  {
    if s != [] {
      SortSorts(s[..|s| - 1]);
      InsertSorts(Sort(s[..|s| - 1]), s[|s| - 1]);
    }
  }

  lemma {:induction false} NeighboursReach(s: seq<Range>, i: nat, j: nat)
    requires Proper(s) && NeighboursApart(s) && i < j < |s|
    ensures s[i].last <= s[j].first
  {
    if i + 1 < j { NeighboursReach(s, i, j - 1); }
  }

  /** Comparing neighbours after sorting decides whether any two ranges overlap. */
  lemma NeighbourCheckIff(s: seq<Range>)
    requires Proper(s)
    ensures NeighboursApart(Sort(s)) <==> AllApart(s)
  {
    var t := Sort(s);
    SortSorts(s);
    SortedAreApart(s);
    if NeighboursApart(t) {
      forall i, j | 0 <= i < j < |t| ensures Apart(t[i], t[j]) { NeighboursReach(t, i, j); }
    }
    if AllApart(t) {
      forall i | 1 <= i < |t|
        ensures t[i].first >= t[i - 1].last { assert Apart(t[i - 1], t[i]) && AtMost(t[i - 1], t[i]); }
    }
  }

  lemma {:induction false} RangesAreProper(entries: seq<ZipEntry>)
    ensures Proper(RangesOf(entries))
  {
    if entries != [] { RangesAreProper(entries[..|entries| - 1]); }
  }

  /** No entry's data touches `r`. */
  predicate DataApartFrom(entries: seq<ZipEntry>, r: Range) {
    forall i :: 0 <= i < |entries| && entries[i].compressed > 0 ==> Apart(RangeOf(entries[i]), r)
  }

  lemma DataApartOneMore(entries: seq<ZipEntry>, e: ZipEntry, r: Range)
    ensures DataApartFrom(entries + [e], r) <==>
      DataApartFrom(entries, r) && (e.compressed > 0 ==> Apart(RangeOf(e), r))
  {
    var all := entries + [e];
    assert all[|entries|] == e && forall i :: 0 <= i < |entries| ==> all[i] == entries[i];
  }

  lemma RangesOneMore(entries: seq<ZipEntry>, e: ZipEntry)
    ensures RangesOf(entries + [e]) == if e.compressed > 0 then RangesOf(entries) + [RangeOf(e)] else RangesOf(entries)
  {
    assert (entries + [e])[..|entries|] == entries;
    assert RangesOf(entries) + [] == RangesOf(entries);
  }

  lemma {:induction false} RangesApartFrom(entries: seq<ZipEntry>, r: Range)
    ensures ApartFromAll(RangesOf(entries), r) <==> DataApartFrom(entries, r)
  {
    if entries != [] {
      var init, last := entries[..|entries| - 1], entries[|entries| - 1];
      assert init + [last] == entries;
      RangesApartFrom(init, r);
      RangesOneMore(init, last);
      DataApartOneMore(init, last, r);
      if last.compressed > 0 { ApartFromAllOneMore(RangesOf(init), RangeOf(last), r); }
    }
  }

  lemma NoSharedDataOneMore(entries: seq<ZipEntry>, e: ZipEntry)
    ensures NoSharedData(entries + [e]) <==>
      NoSharedData(entries) && (e.compressed > 0 ==> DataApartFrom(entries, RangeOf(e)))
  {
    var all := entries + [e];
    assert all[|entries|] == e && forall i :: 0 <= i < |entries| ==> all[i] == entries[i];
  }

  lemma {:induction false} RangesApartIff(entries: seq<ZipEntry>)
    ensures AllApart(RangesOf(entries)) <==> NoSharedData(entries)
  {
    if entries != [] {
      var init, last := entries[..|entries| - 1], entries[|entries| - 1];
      assert init + [last] == entries;
      RangesApartIff(init);
      RangesOneMore(init, last);
      NoSharedDataOneMore(init, last);
      if last.compressed > 0 {
        RangesApartFrom(init, RangeOf(last));
        AllApartOneMore(RangesOf(init), RangeOf(last));
      }
    }
  }

  // ---------------------------------------------------------------------------------------------
  // Counting files
  // ---------------------------------------------------------------------------------------------

  function FileCount(entries: seq<ZipEntry>): nat {
    if entries == [] then 0
    else FileCount(entries[..|entries| - 1]) + (if entries[|entries| - 1].path.directory then 0 else 1)
  }

  ghost function FileNames(entries: seq<ZipEntry>): set<Text> {
    if entries == [] then {}
    else
      var last := entries[|entries| - 1];
      FileNames(entries[..|entries| - 1]) + (if last.path.directory then {} else {last.path.canonical})
  }

  lemma {:induction false} FileNamesAre(entries: seq<ZipEntry>, name: Text)
    ensures name in FileNames(entries) <==> exists i :: IsFileAt(entries, i, name)
  {
    if entries != [] {
      var n := |entries| - 1;
      var init := entries[..n];
      FileNamesAre(init, name);
      if i :| IsFileAt(init, i, name) { assert IsFileAt(entries, i, name); }
      if IsFileAt(entries, n, name) { assert name in FileNames(entries); }
      if i :| IsFileAt(entries, i, name) {
        if i < n { assert IsFileAt(init, i, name); }
      }
    }
  }

  lemma {:induction false} FilesAreCounted(entries: seq<ZipEntry>)
    requires Distinct(entries)
    ensures |FileNames(entries)| == FileCount(entries)
  {
    if entries != [] {
      var n := |entries| - 1;
      FilesAreCounted(entries[..n]);
      FileNamesAre(entries[..n], entries[n].path.canonical);
    }
  }

  ghost function ManifestNames(files: seq<ManifestFile>): set<Text> {
    if files == [] then {} else ManifestNames(files[..|files| - 1]) + {files[|files| - 1].canonical}
  }

  lemma {:induction false} ManifestNamesAre(files: seq<ManifestFile>, name: Text)
    ensures name in ManifestNames(files) <==> exists i :: 0 <= i < |files| && files[i].canonical == name
  {
    if files != [] {
      var init := files[..|files| - 1];
      ManifestNamesAre(init, name);
      if i :| 0 <= i < |init| && init[i].canonical == name { assert files[i].canonical == name; }
      if i :| 0 <= i < |files| && files[i].canonical == name {
        if i < |init| { assert init[i].canonical == name; }
      }
    }
  }

  lemma {:induction false} ManifestIsCounted(files: seq<ManifestFile>)
    requires forall i, j :: 0 <= i < j < |files| ==> files[i].canonical != files[j].canonical
    ensures |ManifestNames(files)| == |files|
  {
    if files != [] {
      ManifestIsCounted(files[..|files| - 1]);
      ManifestNamesAre(files[..|files| - 1], files[|files| - 1].canonical);
    }
  }

  lemma SubsetOfSameSize(a: set<Text>, b: set<Text>)
    requires a <= b && |a| == |b|
    ensures a == b
  {
    assert |b - a| == 0;
  }

  lemma FileNamesAreKnown(entries: seq<ZipEntry>, m: Manifest)
    requires WellIndexed(m) && AllKnown(entries, m)
    ensures FileNames(entries) <= ManifestNames(m.files)
  {
    forall name | name in FileNames(entries) ensures name in ManifestNames(m.files) {
      FileNamesAre(entries, name);
      var i :| IsFileAt(entries, i, name);
      assert Known(entries[i], m);
      ManifestNamesAre(m.files, name);
    }
  }

  /** Distinct known files are all of the manifest's exactly when there are as many of them. */
  lemma CountDecidesPresence(entries: seq<ZipEntry>, m: Manifest)
    requires WellIndexed(m) && Distinct(entries) && AllKnown(entries, m)
    ensures FileCount(entries) == |m.files| <==> AllPresent(entries, m)
  {
    var mine, theirs := FileNames(entries), ManifestNames(m.files);
    FilesAreCounted(entries);
    ManifestIsCounted(m.files);
    FileNamesAreKnown(entries, m);
    if FileCount(entries) == |m.files| {
      SubsetOfSameSize(mine, theirs);
      forall k | 0 <= k < |m.files| ensures Present(entries, m.files[k]) {
        ManifestNamesAre(m.files, m.files[k].canonical);
        FileNamesAre(entries, m.files[k].canonical);
      }
    }
    if AllPresent(entries, m) {
      forall name | name in theirs ensures name in mine {
        ManifestNamesAre(m.files, name);
        var k :| 0 <= k < |m.files| && m.files[k].canonical == name;
        assert Present(entries, m.files[k]);
        FileNamesAre(entries, name);
      }
      assert mine == theirs;
    }
  }

  // ---------------------------------------------------------------------------------------------
  // What agreement gives
  // ---------------------------------------------------------------------------------------------

  /** Every manifest file is exactly one entry, of its size. */
  lemma AgreementIsABijection(entries: seq<ZipEntry>, m: Manifest, k: nat) returns (i: nat)
    requires WellIndexed(m) && Agree(entries, m) && k < |m.files|
    ensures IsFileAt(entries, i, m.files[k].canonical) && entries[i].uncompressed == m.files[k].size
    ensures forall j :: IsFileAt(entries, j, m.files[k].canonical) ==> j == i
    ensures FileCount(entries) == |m.files|
  {
    CountDecidesPresence(entries, m);
    assert Present(entries, m.files[k]);
    i :| IsFileAt(entries, i, m.files[k].canonical);
    assert Known(entries[i], m);
  }

  function TotalOf(files: seq<ManifestFile>): nat {
    if files == [] then 0 else TotalOf(files[..|files| - 1]) + files[|files| - 1].size
  }

  function ExtractedSize(entries: seq<ZipEntry>): nat {
    if entries == [] then 0 else ExtractedSize(entries[..|entries| - 1]) + entries[|entries| - 1].uncompressed
  }

  /** The file entries as a manifest would list them. */
  function Listed(entries: seq<ZipEntry>): seq<ManifestFile> {
    if entries == [] then []
    else
      var last := entries[|entries| - 1];
      Listed(entries[..|entries| - 1]) +
        (if last.path.directory then [] else [ManifestFile(last.path.canonical, last.uncompressed)])
  }

  lemma {:induction false} ListedKeepsSize(entries: seq<ZipEntry>, m: Manifest)
    requires WellIndexed(m) && AllKnown(entries, m)
    ensures TotalOf(Listed(entries)) == ExtractedSize(entries)
  {
    if entries != [] {
      var init, last := entries[..|entries| - 1], entries[|entries| - 1];
      ListedKeepsSize(init, m);
      assert Known(last, m);
      var listed := Listed(entries);
      if last.path.directory {
        assert listed == Listed(init);
      } else {
        assert listed[..|listed| - 1] == Listed(init);
      }
    }
  }

  ghost predicate ListsAt(entries: seq<ZipEntry>, i: int, f: ManifestFile) {
    IsFileAt(entries, i, f.canonical) && entries[i].uncompressed == f.size
  }

  lemma {:induction false} ListedAre(entries: seq<ZipEntry>, f: ManifestFile)
    ensures f in Listed(entries) <==> exists i :: ListsAt(entries, i, f)
  {
    if entries != [] {
      var n := |entries| - 1;
      var init := entries[..n];
      ListedAre(init, f);
      if i :| ListsAt(init, i, f) { assert ListsAt(entries, i, f); }
      if ListsAt(entries, n, f) { assert f in Listed(entries); }
      if i :| ListsAt(entries, i, f) {
        if i < n { assert ListsAt(init, i, f); }
      }
    }
  }

  lemma {:induction false} ListedOnce(entries: seq<ZipEntry>, f: ManifestFile)
    requires Distinct(entries)
    ensures multiset(Listed(entries))[f] <= 1
  {
    if entries != [] {
      var n := |entries| - 1;
      ListedOnce(entries[..n], f);
      ListedAre(entries[..n], f);
    }
  }

  lemma {:induction false} ManifestCounts(files: seq<ManifestFile>, f: ManifestFile)
    requires forall i, j :: 0 <= i < j < |files| ==> files[i].canonical != files[j].canonical
    ensures multiset(files)[f] <= 1
  {
    if files != [] {
      var init, last := files[..|files| - 1], files[|files| - 1];
      ManifestCounts(init, f);
      assert files == init + [last];
    }
  }

  lemma ListedIff(entries: seq<ZipEntry>, m: Manifest, f: ManifestFile)
    requires WellIndexed(m) && Agree(entries, m)
    ensures f in Listed(entries) <==> f in m.files
  {
    ListedAre(entries, f);
    if f in m.files {
      var k :| 0 <= k < |m.files| && m.files[k] == f;
      var i := AgreementIsABijection(entries, m, k);
      assert ListsAt(entries, i, f);
    }
    if f in Listed(entries) {
      var i :| ListsAt(entries, i, f);
      assert Known(entries[i], m);
      assert m.files[m.byPath[f.canonical]] == f;
    }
  }

  lemma ListedIsTheManifest(entries: seq<ZipEntry>, m: Manifest)
    requires WellIndexed(m) && Agree(entries, m)
    ensures multiset(Listed(entries)) == multiset(m.files)
  {
    forall f: ManifestFile ensures multiset(Listed(entries))[f] == multiset(m.files)[f] {
      ListedOnce(entries, f);
      ManifestCounts(m.files, f);
      ListedIff(entries, m, f);
    }
  }

  lemma {:induction false} TotalWithout(files: seq<ManifestFile>, k: nat)
    requires k < |files|
    ensures TotalOf(files) == TotalOf(files[..k] + files[k + 1..]) + files[k].size
  {
    var n := |files| - 1;
    if k == n {
      assert files[..k] + files[k + 1..] == files[..n];
    } else {
      TotalWithout(files[..n], k);
      var rest := files[..k] + files[k + 1..];
      assert rest[..|rest| - 1] == files[..n][..k] + files[..n][k + 1..];
    }
  }

  lemma RemoveOne(s: seq<ManifestFile>, k: nat)
    requires k < |s|
    ensures multiset(s[..k] + s[k + 1..]) == multiset(s) - multiset{s[k]}
  {
    assert s == s[..k] + [s[k]] + s[k + 1..];
  }

  lemma {:induction false} TotalOfPermutation(left: seq<ManifestFile>, right: seq<ManifestFile>)
    requires multiset(left) == multiset(right)
    ensures TotalOf(left) == TotalOf(right)
    decreases |left|
  {
    if left == [] {
      assert |multiset(right)| == 0;
    } else {
      var n := |left| - 1;
      assert left[n] in multiset(right);
      var k :| 0 <= k < |right| && right[k] == left[n];
      RemoveOne(left, n);
      RemoveOne(right, k);
      assert left[..n] + left[n + 1..] == left[..n];
      TotalOfPermutation(left[..n], right[..k] + right[k + 1..]);
      TotalWithout(right, k);
    }
  }

  /** What extraction writes is exactly what the manifest promised. */
  lemma AgreementConservesSize(entries: seq<ZipEntry>, m: Manifest)
    requires WellIndexed(m) && Agree(entries, m)
    ensures ExtractedSize(entries) == TotalOf(m.files)
  {
    ListedKeepsSize(entries, m);
    ListedIsTheManifest(entries, m);
    TotalOfPermutation(Listed(entries), m.files);
  }

}
