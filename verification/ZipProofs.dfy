/**
 What reading an archive guarantees: no 64-bit addition ever wraps, the end record is the last one, and
 the entries' headers fill the central directory exactly.
 */
module ZipProofs {

  import opened Basics
  import opened ZipFormat

  // ---------------------------------------------------------------------------------------------
  // No offset wraps
  // ---------------------------------------------------------------------------------------------

  lemma U64IsExact(z: Bytes, offset: nat)
    requires Mappable(z)
    ensures U64(z, offset, Machine) == U64(z, offset, Exact)
  {
  }

  lemma {:induction false} EndRecordIsExact(z: Bytes, cursor: nat)
    requires Mappable(z) && LowestRecord(z) <= cursor <= |z|
    ensures EndRecordFrom(z, cursor, Machine) == EndRecordFrom(z, cursor, Exact)
  {
    assert IsEndRecord(z, cursor, Machine) <==> IsEndRecord(z, cursor, Exact);
    if cursor > LowestRecord(z) { EndRecordIsExact(z, cursor - 1); }
  }

  lemma Zip64EndRecordIsExact(z: Bytes, at: nat)
    requires Mappable(z)
    ensures Zip64EndRecord(z, at, Machine) == Zip64EndRecord(z, at, Exact)
  {
    U64IsExact(z, at + 24);
    U64IsExact(z, at + 32);
    U64IsExact(z, at + 40);
    U64IsExact(z, at + 48);
  }

  lemma Zip64DirectoryIsExact(z: Bytes, record: nat)
    requires Mappable(z)
    ensures Zip64Directory(z, record, Machine) == Zip64Directory(z, record, Exact)
  {
    if record >= 20 {
      U64IsExact(z, record - 12);
      assert Zip64Locator(z, record, Machine) == Zip64Locator(z, record, Exact);
      var at := Zip64Locator(z, record, Exact);
      if at.Ok? { Zip64EndRecordIsExact(z, at.value); }
    }
  }

  lemma ClassicDirectoryIsExact(z: Bytes, record: nat, zip64: Parsed<Directory>)
    requires Mappable(z) && record <= |z|
    ensures ClassicDirectory(z, record, zip64, Machine) == ClassicDirectory(z, record, zip64, Exact)
  {
  }

  lemma BoundedIsExact(z: Bytes, record: nat, directory: Parsed<Directory>)
    requires Mappable(z)
    ensures Bounded(z, record, directory, Machine) == Bounded(z, record, directory, Exact)
  {
  }

  lemma DirectoryIsExact(z: Bytes, record: nat)
    requires Mappable(z) && record <= |z|
    ensures ReadDirectory(z, record, Machine) == ReadDirectory(z, record, Exact)
  {
    Zip64DirectoryIsExact(z, record);
    var zip64 := Zip64Directory(z, record, Exact);
    ClassicDirectoryIsExact(z, record, zip64);
    BoundedIsExact(z, record, ClassicDirectory(z, record, zip64, Exact));
  }

  lemma Zip64ValueIsExact(z: Bytes, cursor: nat, end: nat)
    requires Mappable(z) && end <= |z|
    ensures Zip64Value(z, cursor, end, Machine) == Zip64Value(z, cursor, end, Exact)
  {
    U64IsExact(z, cursor);
  }

  lemma Zip64FieldIsExact(z: Bytes, cursor: nat, end: nat, small: Sizes)
    requires Mappable(z) && cursor <= end <= |z|
    ensures Zip64Field(z, cursor, end, small, Machine) == Zip64Field(z, cursor, end, small, Exact)
  {
    Zip64ValueIsExact(z, cursor, end);
    Zip64ValueIsExact(z, cursor + 8, end);
    Zip64ValueIsExact(z, cursor + 16, end);
  }

  lemma FullSizesAreExact(z: Bytes, field: Option<(nat, nat)>, small: Sizes)
    requires Mappable(z) && (field.Some? ==> field.value.0 <= field.value.1 <= |z|)
    ensures FullSizes(z, field, small, Machine) == FullSizes(z, field, small, Exact)
  {
    if field.Some? { Zip64FieldIsExact(z, field.value.0, field.value.1, small); }
  }

  lemma {:induction false} FindZip64IsExact(z: Bytes, cursor: nat, end: nat)
    requires Mappable(z) && cursor <= end <= |z|
    ensures FindZip64(z, cursor, end, Machine) == FindZip64(z, cursor, end, Exact)
    decreases end - cursor
  {
    if cursor + 4 <= end {
      var length := U16(z, cursor + 2).value;
      if cursor + 4 + length <= end { FindZip64IsExact(z, cursor + 4 + length, end); }
    }
  }

  lemma FieldsAreExact(z: Bytes, cursor: nat)
    requires Mappable(z)
    ensures ReadFields(z, cursor, Machine) == ReadFields(z, cursor, Exact)
  {
  }

  lemma HeaderIsExact(z: Bytes, cursor: nat, limit: nat, f: Fields, names: NameReader)
    requires Mappable(z) && cursor <= |z| && limit <= |z| && ShortLengths(f)
    ensures CheckHeader(z, cursor, limit, f, names, Machine) == CheckHeader(z, cursor, limit, f, names, Exact)
  {
  }

  lemma SizesAreExact(z: Bytes, cursor: nat, f: Fields)
    requires Mappable(z) && cursor + 46 + f.nameLength + f.extraLength <= |z|
    ensures ReadSizes(z, cursor, f, Machine) == ReadSizes(z, cursor, f, Exact)
  {
    var extra := cursor + 46 + f.nameLength;
    FindZip64IsExact(z, extra, extra + f.extraLength);
    var field := FindZip64(z, extra, extra + f.extraLength, Exact);
    if field.Ok? { FullSizesAreExact(z, field.value, f.small); }
  }

  lemma LocalIsExact(z: Bytes, h: Header, names: NameReader)
    requires Mappable(z)
    ensures ReadLocal(z, h, names, Machine) == ReadLocal(z, h, names, Exact)
  {
  }

  lemma EntryIsExact(z: Bytes, cursor: nat, limit: nat, names: NameReader)
    requires Mappable(z) && limit <= |z|
    ensures ReadEntry(z, cursor, limit, names, Machine) == ReadEntry(z, cursor, limit, names, Exact)
  {
    FieldsAreExact(z, cursor);
    var f := ReadFields(z, cursor, Exact);
    if f.Ok? {
      HeaderIsExact(z, cursor, limit, f.value, names);
      var h := CheckHeader(z, cursor, limit, f.value, names, Exact);
      if h.Ok? {
        SizesAreExact(z, cursor, f.value);
        var sizes := ReadSizes(z, cursor, f.value, Exact);
        if sizes.Ok? { LocalIsExact(z, Header(h.value.0, f.value.flags, f.value.compression, sizes.value), names); }
      }
    }
  }

  /** Readers that read alike give the same entries. */
  lemma {:induction false} EntriesAgree(left: EntryReader, right: EntryReader, cursor: nat, limit: nat, count: nat)
    requires forall c: nat :: left(c) == right(c)
    ensures EntriesFrom(left, cursor, limit, count) == EntriesFrom(right, cursor, limit, count)
    decreases count
  {
    if count > 0 && left(cursor).Ok? {
      EntriesAgree(left, right, left(cursor).value.1, limit, count - 1);
    }
  }

  lemma DirectoriesAgree(d: Parsed<Directory>, left: Directory -> EntryReader, right: Directory -> EntryReader)
    requires forall d: Directory, c: nat :: left(d)(c) == right(d)(c)
    ensures EntriesOf(d, left) == EntriesOf(d, right)
  {
    if d.Ok? {
      var v := d.value;
      EntriesAgree(left(v), right(v), v.offset, v.offset + v.size, v.entries);
    }
  }

  lemma {:induction false} EndRecordIsInFile(z: Bytes, cursor: nat, a: Arithmetic)
    requires LowestRecord(z) <= cursor
    ensures EndRecordFrom(z, cursor, a).Ok? ==> EndRecordFrom(z, cursor, a).value <= cursor
  {
    if !IsEndRecord(z, cursor, a) && cursor > LowestRecord(z) { EndRecordIsInFile(z, cursor - 1, a); }
  }

  lemma FoundDirectoryIsExact(z: Bytes)
    requires Mappable(z)
    ensures FindDirectory(z, Machine) == FindDirectory(z, Exact)
  {
    EndRecordIsExact(z, |z| - 22);
    EndRecordIsInFile(z, |z| - 22, Exact);
    var record := EndRecordFrom(z, |z| - 22, Exact);
    if record.Ok? { DirectoryIsExact(z, record.value); }
  }

  lemma ReadInIsExact(z: Bytes, d: Directory, cursor: nat, names: NameReader)
    requires Mappable(z)
    ensures ReadIn(z, d, cursor, names, Machine) == ReadIn(z, d, cursor, names, Exact)
  {
    if d.offset + d.size <= |z| { EntryIsExact(z, cursor, d.offset + d.size, names); }
  }

  /** Whatever the bytes, computing every offset modulo 2^64 reads the archive as exact arithmetic does. */
  lemma MachineArithmeticIsExact(z: Bytes, names: NameReader)
    ensures ReadArchive(z, names, Machine) == ReadArchive(z, names, Exact)
  {
    if Mappable(z) {
      FoundDirectoryIsExact(z);
      var left, right := ReaderOf(z, names, Machine), ReaderOf(z, names, Exact);
      forall d: Directory, c: nat ensures left(d)(c) == right(d)(c) { ReadInIsExact(z, d, c, names); }
      DirectoriesAgree(FindDirectory(z, Exact), left, right);
    }
  }

  // ---------------------------------------------------------------------------------------------
  // The end record
  // ---------------------------------------------------------------------------------------------

  /** A record that could end the file, within reach of a 65535-byte comment. */
  ghost predicate Candidate(z: Bytes, r: nat) {
    LowestRecord(z) <= r && IsEndRecord(z, r, Exact)
  }

  /** The search finds the last candidate, and fails only if there is none. */
  lemma {:induction false} EndRecordIsTheLast(z: Bytes, cursor: nat)
    requires LowestRecord(z) <= cursor
    ensures var found := EndRecordFrom(z, cursor, Exact);
      if found.Ok? then Candidate(z, found.value) && forall r: nat :: Candidate(z, r) && r <= cursor ==>
        r <= found.value
      else forall r: nat :: r <= cursor ==> !Candidate(z, r)
  {
    if !IsEndRecord(z, cursor, Exact) && cursor > LowestRecord(z) { EndRecordIsTheLast(z, cursor - 1); }
  }

  // ---------------------------------------------------------------------------------------------
  // The central directory
  // ---------------------------------------------------------------------------------------------

  /** The length of the central header at `at`: 46 bytes, its name, its extra fields and its comment. */
  function HeaderLength(z: Bytes, at: nat): nat {
    if InBounds(z, at, 46) then 46 + U16(z, at + 28).value + U16(z, at + 30).value + U16(z, at + 32).value else 46
  }

  /** Where `count` records end that follow each other from `at`. */
  function After(length: nat -> nat, at: nat, count: nat): nat
    decreases count
  {
    if count == 0 then at else After(length, at + length(at), count - 1)
  }

  /** What one entry leaves behind it: its header's length, and its data in the file. */
  ghost predicate EntryIsSound(z: Bytes, cursor: nat, r: Parsed<(ZipEntry, nat)>) {
    r.Ok? ==>
      && U32(z, cursor) == Ok(0x02014b50) && r.value.1 == cursor + HeaderLength(z, cursor)
      && DataInFile(z, r.value.0)
  }

  /** A local header in the file, followed within it by the data. */
  predicate DataInFile(z: Bytes, e: ZipEntry) {
    && InBounds(z, e.localOffset, 30)
    && U32(z, e.localOffset) == Ok(0x04034b50)
    && e.dataOffset == e.localOffset + 30 + U16(z, e.localOffset + 26).value + U16(z, e.localOffset + 28).value
    && e.dataOffset + e.compressed <= |z|
    && e.uncompressed <= MAX_ZIP_BYTES
  }

  lemma FieldsGiveTheLength(z: Bytes, cursor: nat)
    ensures var f := ReadFields(z, cursor, Exact);
      f.Ok? ==>
        && U32(z, cursor) == Ok(0x02014b50)
        && HeaderLength(z, cursor) == 46 + f.value.nameLength + f.value.extraLength + f.value.commentLength
  {
  }

  lemma LocalIsSound(z: Bytes, h: Header, names: NameReader)
    requires Mappable(z)
    ensures var e := ReadLocal(z, h, names, Exact); e.Ok? ==> DataInFile(z, e.value)
  {
  }

  lemma ReadEntryIsSound(z: Bytes, cursor: nat, limit: nat, names: NameReader)
    requires Mappable(z) && limit <= |z|
    ensures EntryIsSound(z, cursor, ReadEntry(z, cursor, limit, names, Exact))
  {
    FieldsGiveTheLength(z, cursor);
    var f := ReadFields(z, cursor, Exact);
    if f.Ok? {
      var h := CheckHeader(z, cursor, limit, f.value, names, Exact);
      if h.Ok? {
        var sizes := ReadSizes(z, cursor, f.value, Exact);
        if sizes.Ok? { LocalIsSound(z, Header(h.value.0, f.value.flags, f.value.compression, sizes.value), names); }
      }
    }
  }

  /** `count` records follow each other from `cursor` and end exactly at `limit`. */
  lemma {:induction false} DirectoryIsConsumed(read: EntryReader, length: nat -> nat, starts: nat -> bool, cursor: nat,
      limit: nat, count: nat)
    requires forall c: nat :: read(c).Ok? ==> starts(c) && read(c).value.1 == c + length(c)
    requires EntriesFrom(read, cursor, limit, count).Ok?
    ensures |EntriesFrom(read, cursor, limit, count).value| == count && After(length, cursor, count) == limit
    ensures forall k: nat :: k < count ==> starts(After(length, cursor, k))
    decreases count
  {
    if count > 0 {
      assert read(cursor).Ok?;
      var next := read(cursor).value.1;
      DirectoryIsConsumed(read, length, starts, next, limit, count - 1);
      forall k: nat | k < count ensures starts(After(length, cursor, k)) {
        if k > 0 { assert After(length, cursor, k) == After(length, next, k - 1); }
      }
    }
  }

  lemma {:induction false} EveryEntryIs(read: EntryReader, good: ZipEntry -> bool, cursor: nat, limit: nat, count: nat)
    requires forall c: nat :: read(c).Ok? ==> good(read(c).value.0)
    requires EntriesFrom(read, cursor, limit, count).Ok?
    ensures forall i :: 0 <= i < |EntriesFrom(read, cursor, limit, count).value| ==>
      good(EntriesFrom(read, cursor, limit, count).value[i])
    decreases count
  {
    if count > 0 {
      assert read(cursor).Ok?;
      EveryEntryIs(read, good, read(cursor).value.1, limit, count - 1);
    }
  }

  /** The directory is named by the last end record and lies before it. */
  ghost predicate NamedByLastRecord(z: Bytes, record: nat, d: Directory) {
    && Candidate(z, record) && (forall other: nat :: Candidate(z, other) ==> other <= record)
    && ReadDirectory(z, record, Exact) == Ok(d) && d.offset + d.size <= record
  }

  lemma DirectoryIsNamedByLastRecord(z: Bytes) returns (record: nat)
    requires Mappable(z) && FindDirectory(z, Exact).Ok?
    ensures NamedByLastRecord(z, record, FindDirectory(z, Exact).value)
  {
    record := EndRecordFrom(z, |z| - 22, Exact).value;
    EndRecordIsTheLast(z, |z| - 22);
    forall other: nat | Candidate(z, other) ensures other <= record { assert other <= |z| - 22; }
  }

  /** The directory holds the promised number of headers and nothing else, and all data lies in the file. */
  ghost predicate Fills(z: Bytes, d: Directory, entries: seq<ZipEntry>) {
    var length := (at: nat) => HeaderLength(z, at);
    && |entries| == d.entries <= MAX_ZIP_ENTRIES
    && After(length, d.offset, d.entries) == d.offset + d.size
    && (forall k: nat :: k < d.entries ==> U32(z, After(length, d.offset, k)) == Ok(0x02014b50))
    && (forall i :: 0 <= i < |entries| ==> DataInFile(z, entries[i]))
  }

  lemma ReadInIsSound(z: Bytes, d: Directory, cursor: nat, names: NameReader)
    requires Mappable(z)
    ensures EntryIsSound(z, cursor, ReadIn(z, d, cursor, names, Exact))
  {
    if d.offset + d.size <= |z| { ReadEntryIsSound(z, cursor, d.offset + d.size, names); }
  }

  lemma SoundReadersFill(z: Bytes, d: Directory, read: EntryReader)
    requires d.entries <= MAX_ZIP_ENTRIES && forall c: nat :: EntryIsSound(z, c, read(c))
    ensures var r := EntriesFrom(read, d.offset, d.offset + d.size, d.entries); r.Ok? ==> Fills(z, d, r.value)
  {
    var r := EntriesFrom(read, d.offset, d.offset + d.size, d.entries);
    if r.Ok? {
      DirectoryIsConsumed(read, (at: nat) => HeaderLength(z, at), (at: nat) => U32(z, at) == Ok(0x02014b50),
        d.offset, d.offset + d.size, d.entries);
      EveryEntryIs(read, (e: ZipEntry) => DataInFile(z, e), d.offset, d.offset + d.size, d.entries);
    }
  }

  ghost predicate SoundReaders(z: Bytes, readers: Directory -> EntryReader) {
    forall d: Directory, c: nat :: EntryIsSound(z, c, readers(d)(c))
  }

  lemma ReadersAreSound(z: Bytes, names: NameReader)
    requires Mappable(z)
    ensures SoundReaders(z, ReaderOf(z, names, Exact))
  {
    var readers := ReaderOf(z, names, Exact);
    forall d: Directory, c: nat ensures EntryIsSound(z, c, readers(d)(c)) { ReadInIsSound(z, d, c, names); }
  }

  lemma EntriesFillTheDirectory(z: Bytes, d: Directory, readers: Directory -> EntryReader)
    requires SoundReaders(z, readers) && d.entries <= MAX_ZIP_ENTRIES
    ensures var r := EntriesOf(Ok(d), readers); r.Ok? ==> Fills(z, d, r.value)
  {
    SoundReadersFill(z, d, readers(d));
  }

  /**
   An archive that reads at all: its directory is named by the last end record, lies before it, holds
   the promised number of headers and nothing else, and every entry's data lies inside the file.
   */
  lemma ReadArchiveIsSound(z: Bytes, names: NameReader) returns (record: nat, d: Directory)
    requires ReadArchive(z, names, Machine).Ok?
    ensures NamedByLastRecord(z, record, d) && Fills(z, d, ReadArchive(z, names, Machine).value)
  {
    MachineArithmeticIsExact(z, names);
    record := DirectoryIsNamedByLastRecord(z);
    d := FindDirectory(z, Exact).value;
    ReadersAreSound(z, names);
    EntriesFillTheDirectory(z, d, ReaderOf(z, names, Exact));
  }

}
