/**
 Reading a ZIP archive's central directory as the Windows helper does
 (native/windows/roost-win-helper.cpp: MappedFile, zip64Values and the reading half of inspectZip; the
 records are those of sections 4.3.7, 4.3.12, 4.3.14 to 4.3.16 and 4.5.3 of PKWARE APPNOTE.TXT).

 Offsets are added either modulo 2^64, as the machine does, or exactly. All refusals are one value.
 */
module ZipFormat {

  import opened Basics

  type Bytes = seq<Byte>
  type Text = seq<Wide>

  /** A reading, or the refusal of the archive. */
  datatype Parsed<+T> = Ok(value: T) | Refused {
    predicate IsFailure() { Refused? }
    function PropagateFailure<U>(): Parsed<U> requires Refused? { Refused }
    function Extract(): T requires Ok? { value }
  }

  /** A check the archive must pass. */
  datatype Check = Passed | Failed {
    predicate IsFailure() { Failed? }
    function PropagateFailure<U>(): Parsed<U> requires Failed? { Refused }
  }

  function Require(holds: bool): Check {
    if holds then Passed else Failed
  }

  datatype Arithmetic = Machine | Exact

  const TWO64 := 0x1_0000_0000_0000_0000
  const MAX_ZIP_ENTRIES := 100000
  const MAX_ZIP_BYTES := 64 * 1024 * 1024 * 1024

  function Plus(x: nat, y: nat, a: Arithmetic): (sum: nat)
    ensures x + y < TWO64 ==> sum == x + y
  {
    if a.Machine? then (x + y) % TWO64 else x + y
  }

  /** The sizes a file may have to be mapped at all. */
  predicate Mappable(z: Bytes) {
    22 <= |z| <= 2 * MAX_ZIP_BYTES
  }

  // ---------------------------------------------------------------------------------------------
  // Little-endian fields
  // ---------------------------------------------------------------------------------------------

  predicate InBounds(z: Bytes, offset: nat, length: nat) {
    offset <= |z| && length <= |z| - offset
  }

  function At(z: Bytes, i: nat): (b: nat)
    requires i < |z|
    ensures b < 0x100
  {
    z[i]
  }

  function U16(z: Bytes, offset: nat): (r: Parsed<nat>)
    ensures r.Ok? <==> InBounds(z, offset, 2)
    ensures r.Ok? ==> r.value < 0x1_0000
  {
    if InBounds(z, offset, 2) then Ok(At(z, offset) + 0x100 * At(z, offset + 1)) else Refused
  }

  function U32(z: Bytes, offset: nat): (r: Parsed<nat>)
    ensures r.Ok? <==> InBounds(z, offset, 4)
    ensures r.Ok? ==> r.value < 0x1_0000_0000
  {
    if InBounds(z, offset, 4)
    then Ok(At(z, offset) + 0x100 * At(z, offset + 1) + 0x1_0000 * At(z, offset + 2) + 0x100_0000 * At(z, offset + 3))
    else Refused
  }

  function U64(z: Bytes, offset: nat, a: Arithmetic): (r: Parsed<nat>)
    ensures r.Ok? ==> r.value < TWO64
  {
    var low :- U32(z, offset);
    var high :- U32(z, Plus(offset, 4, a));
    Ok(low + 0x1_0000_0000 * high)
  }

  /** Whether bit `2^k` (given as that power) is set. */
  predicate Bit(n: nat, power: nat)
    requires power > 0
  {
    n / power % 2 == 1
  }

  // ---------------------------------------------------------------------------------------------
  // The end record
  // ---------------------------------------------------------------------------------------------

  /** An end record whose comment runs exactly to the end of the file. */
  predicate IsEndRecord(z: Bytes, cursor: nat, a: Arithmetic) {
    && U32(z, cursor) == Ok(0x06054b50)
    && U16(z, Plus(cursor, 20, a)).Ok?
    && Plus(Plus(cursor, 22, a), U16(z, Plus(cursor, 20, a)).value, a) == |z|
  }

  function LowestRecord(z: Bytes): nat {
    if |z| > 65557 then |z| - 65557 else 0
  }

  function EndRecordFrom(z: Bytes, cursor: nat, a: Arithmetic): Parsed<nat>
    requires LowestRecord(z) <= cursor
  {
    if IsEndRecord(z, cursor, a) then Ok(cursor)
    else if cursor == LowestRecord(z) then Refused
    else EndRecordFrom(z, cursor - 1, a)
  }

  /** Where the central directory lies and how many entries it holds. */
  datatype Directory = Directory(offset: nat, size: nat, entries: nat)

  /** The ZIP64 end record at `at`. */
  function Zip64EndRecord(z: Bytes, at: nat, a: Arithmetic): Parsed<Directory> {
    var signature :- U32(z, at);
    :- Require(signature == 0x06064b50);
    var thisDisk :- U32(z, Plus(at, 16, a));
    var startDisk :- U32(z, Plus(at, 20, a));
    :- Require(thisDisk == 0 && startDisk == 0);
    var entries :- U64(z, Plus(at, 32, a), a);
    var onDisk :- U64(z, Plus(at, 24, a), a);
    :- Require(onDisk == entries);
    var size :- U64(z, Plus(at, 40, a), a);
    var offset :- U64(z, Plus(at, 48, a), a);
    Ok(Directory(offset, size, entries))
  }

  /** The locator before the classic record names the ZIP64 one. */
  function Zip64Locator(z: Bytes, record: nat, a: Arithmetic): Parsed<nat> {
    var locator :- if record >= 20 then U32(z, record - 20) else Refused;
    :- Require(locator == 0x07064b50);
    var disk :- U32(z, record - 16);
    var disks :- U32(z, record - 4);
    :- Require(disk == 0 && disks == 1);
    U64(z, record - 12, a)
  }

  function Zip64Directory(z: Bytes, record: nat, a: Arithmetic): Parsed<Directory> {
    var at :- Zip64Locator(z, record, a);
    Zip64EndRecord(z, at, a)
  }

  /** The classic record; `zip64` is what the ZIP64 records say, for when any of its fields overflowed. */
  function ClassicDirectory(z: Bytes, record: nat, zip64: Parsed<Directory>, a: Arithmetic): Parsed<Directory> {
    var thisDisk :- U16(z, Plus(record, 4, a));
    var startDisk :- U16(z, Plus(record, 6, a));
    :- Require(thisDisk == 0 && startDisk == 0);
    var entries :- U16(z, Plus(record, 10, a));
    var size :- U32(z, Plus(record, 12, a));
    var offset :- U32(z, Plus(record, 16, a));
    var onDisk :- U16(z, Plus(record, 8, a));
    if entries == 0xffff || size == 0xffffffff || offset == 0xffffffff then zip64
    else if onDisk != entries then Refused
    else Ok(Directory(offset, size, entries))
  }

  /** The directory lies in the file, before its end record. */
  function Bounded(z: Bytes, record: nat, directory: Parsed<Directory>, a: Arithmetic): (r: Parsed<Directory>)
    ensures r.Ok? ==> r.value.entries <= MAX_ZIP_ENTRIES && r.value.offset + r.value.size <= |z|
  {
    var d :- directory;
    :- Require(d.entries <= MAX_ZIP_ENTRIES && d.offset <= |z| && d.size <= |z| - d.offset);
    :- Require(Plus(d.offset, d.size, a) <= record);
    Ok(d)
  }

  function ReadDirectory(z: Bytes, record: nat, a: Arithmetic): (r: Parsed<Directory>)
    ensures r.Ok? ==> r.value.entries <= MAX_ZIP_ENTRIES && r.value.offset + r.value.size <= |z|
  {
    Bounded(z, record, ClassicDirectory(z, record, Zip64Directory(z, record, a), a), a)
  }

  // ---------------------------------------------------------------------------------------------
  // The ZIP64 extra field
  // ---------------------------------------------------------------------------------------------

  datatype Sizes = Sizes(uncompressed: nat, compressed: nat, localOffset: nat)

  const ALL_ONES := 0xffffffff

  /** One eight-byte value of a ZIP64 field that ends at `end`. */
  function Zip64Value(z: Bytes, cursor: nat, end: nat, a: Arithmetic): (r: Parsed<nat>)
    ensures r.Ok? ==> r.value < TWO64
  {
    if Plus(cursor, 8, a) <= end then U64(z, cursor, a) else Refused
  }

  /** The values whose 32-bit forms are all ones, in the field's fixed order. */
  function Zip64Field(z: Bytes, cursor: nat, end: nat, small: Sizes, a: Arithmetic): Parsed<Sizes> {
    var uncompressed :- if small.uncompressed == ALL_ONES then Zip64Value(z, cursor, end, a)
      else Ok(small.uncompressed);
    var second := if small.uncompressed == ALL_ONES then Plus(cursor, 8, a) else cursor;
    var compressed :- if small.compressed == ALL_ONES then Zip64Value(z, second, end, a) else Ok(small.compressed);
    var third := if small.compressed == ALL_ONES then Plus(second, 8, a) else second;
    var localOffset :- if small.localOffset == ALL_ONES then Zip64Value(z, third, end, a) else Ok(small.localOffset);
    Ok(Sizes(uncompressed, compressed, localOffset))
  }

  predicate NeedsZip64(small: Sizes) {
    small.uncompressed == ALL_ONES || small.compressed == ALL_ONES || small.localOffset == ALL_ONES
  }

  /** Walks the extra fields to the first ZIP64 one: where its values start and end. */
  function FindZip64(z: Bytes, cursor: nat, end: nat, a: Arithmetic): (r: Parsed<Option<(nat, nat)>>)
    requires cursor <= end <= |z| <= 2 * MAX_ZIP_BYTES
    ensures r.Ok? && r.value.Some? ==> r.value.value.0 <= r.value.value.1 <= end
    decreases end - cursor
  {
    if Plus(cursor, 4, a) > end then Ok(None)
    else
      var id :- U16(z, cursor);
      var length :- U16(z, Plus(cursor, 2, a));
      var body := Plus(cursor, 4, a);
      var after := Plus(body, length, a);
      :- Require(after <= end);
      if id == 0x0001 then Ok(Some((body, after))) else FindZip64(z, after, end, a)
  }

  /** The sizes in full: from the ZIP64 field when there is one, which is an error to lack when needed. */
  function FullSizes(z: Bytes, field: Option<(nat, nat)>, small: Sizes, a: Arithmetic): Parsed<Sizes> {
    if field.Some? then Zip64Field(z, field.value.0, field.value.1, small, a)
    else if NeedsZip64(small) then Refused
    else Ok(small)
  }

  // ---------------------------------------------------------------------------------------------
  // One entry
  // ---------------------------------------------------------------------------------------------

  /** A normalised entry path: its case-folded form, and whether it named a directory. */
  datatype Path = Path(canonical: Text, directory: bool)

  /** Decodes and normalises a stored name; the flag says that it is UTF-8. */
  type NameReader = (Bytes, bool) -> Parsed<Path>

  /** What the central directory says of one entry. */
  datatype Header = Header(path: Path, flags: nat, compression: nat, sizes: Sizes)

  datatype ZipEntry = ZipEntry(path: Path, compressed: nat, uncompressed: nat, localOffset: nat, dataOffset: nat,
    compression: nat, flags: nat)

  function ReadName(z: Bytes, offset: nat, length: nat, flags: nat, names: NameReader): Parsed<Path> {
    if InBounds(z, offset, length) then names(z[offset..offset + length], Bit(flags, 0x800)) else Refused
  }

  /** Encrypted, patched and strongly encrypted entries: any bit of 0x2061. */
  predicate ForbiddenFlags(flags: nat) {
    Bit(flags, 0x1) || Bit(flags, 0x20) || Bit(flags, 0x40) || Bit(flags, 0x2000)
  }

  /** The POSIX file type (the top four of sixteen mode bits), for an entry made on POSIX. */
  function UnixType(madeBy: nat, attributes: nat): nat {
    if madeBy / 0x100 == 3 then attributes / 0x1_0000 / 0x1000 else 0
  }

  /** Only regular files and directories, and the attributes agree with the name. */
  predicate KindIsPlain(madeBy: nat, attributes: nat, directory: bool) {
    var kind := UnixType(madeBy, attributes);
    && !Bit(attributes, 0x400)
    && (kind == 0 || kind == 8 || kind == 4)
    && (kind == 4 || Bit(attributes, 0x10)) == directory
  }

  /** The fixed fields of a central header. */
  datatype Fields = Fields(madeBy: nat, flags: nat, compression: nat, small: Sizes, nameLength: nat, extraLength: nat,
                           commentLength: nat, disk: nat, attributes: nat)

  function ReadFields(z: Bytes, cursor: nat, a: Arithmetic): (r: Parsed<Fields>)
    ensures r.Ok? ==> cursor <= |z|
    ensures r.Ok? ==> ShortLengths(r.value)
  {
    var signature :- U32(z, cursor);
    :- Require(signature == 0x02014b50);
    var madeBy :- U16(z, Plus(cursor, 4, a));
    var flags :- U16(z, Plus(cursor, 8, a));
    var compression :- U16(z, Plus(cursor, 10, a));
    var compressed :- U32(z, Plus(cursor, 20, a));
    var uncompressed :- U32(z, Plus(cursor, 24, a));
    var nameLength :- U16(z, Plus(cursor, 28, a));
    var extraLength :- U16(z, Plus(cursor, 30, a));
    var commentLength :- U16(z, Plus(cursor, 32, a));
    var disk :- U16(z, Plus(cursor, 34, a));
    var attributes :- U32(z, Plus(cursor, 38, a));
    var localOffset :- U32(z, Plus(cursor, 42, a));
    Ok(Fields(madeBy, flags, compression, Sizes(uncompressed, compressed, localOffset), nameLength, extraLength,
              commentLength, disk, attributes))
  }

  predicate ShortLengths(f: Fields) {
    f.nameLength < 0x1_0000 && f.extraLength < 0x1_0000 && f.commentLength < 0x1_0000
  }

  /** The entry's path, and where the next header starts. */
  function CheckHeader(z: Bytes, cursor: nat, limit: nat, f: Fields, names: NameReader, a: Arithmetic)
      : (r: Parsed<(Path, nat)>)
    requires cursor <= |z| <= 2 * MAX_ZIP_BYTES && limit <= |z| && ShortLengths(f)
    ensures r.Ok? ==> r.value.1 == cursor + 46 + f.nameLength + f.extraLength + f.commentLength <= limit
  {
    var next := Plus(Plus(Plus(Plus(cursor, 46, a), f.nameLength, a), f.extraLength, a), f.commentLength, a);
    :- Require(next <= limit);
    :- Require(!ForbiddenFlags(f.flags) && (f.compression == 0 || f.compression == 8) &&
      (f.disk == 0 || f.disk == 0xffff));
    var path :- ReadName(z, Plus(cursor, 46, a), f.nameLength, f.flags, names);
    :- Require(KindIsPlain(f.madeBy, f.attributes, path.directory));
    Ok((path, next))
  }

  function ReadSizes(z: Bytes, cursor: nat, f: Fields, a: Arithmetic): Parsed<Sizes>
    requires cursor + 46 + f.nameLength + f.extraLength <= |z| <= 2 * MAX_ZIP_BYTES
  {
    var extra := Plus(Plus(cursor, 46, a), f.nameLength, a);
    var field :- FindZip64(z, extra, Plus(extra, f.extraLength, a), a);
    FullSizes(z, field, f.small, a)
  }

  /** Checks the local header against the central one and finds the entry's data. */
  function ReadLocal(z: Bytes, h: Header, names: NameReader, a: Arithmetic): (r: Parsed<ZipEntry>)
    requires Mappable(z)
    ensures r.Ok? ==> r.value.path == h.path && r.value.uncompressed <= MAX_ZIP_BYTES
    ensures r.Ok? ==> r.value.localOffset + 30 <= r.value.dataOffset <= r.value.dataOffset + r.value.compressed <= |z|
  {
    var at := h.sizes.localOffset;
    :- Require(h.sizes.compressed <= |z| && h.sizes.uncompressed <= MAX_ZIP_BYTES);
    var signature :- U32(z, at);
    :- Require(signature == 0x04034b50);
    var flags :- U16(z, Plus(at, 6, a));
    var compression :- U16(z, Plus(at, 8, a));
    var nameLength :- U16(z, Plus(at, 26, a));
    var extraLength :- U16(z, Plus(at, 28, a));
    var path :- ReadName(z, Plus(at, 30, a), nameLength, flags, names);
    :- Require(path.canonical == h.path.canonical && flags == h.flags && compression == h.compression);
    var data := Plus(Plus(Plus(at, 30, a), nameLength, a), extraLength, a);
    :- Require(InBounds(z, data, h.sizes.compressed));
    Ok(ZipEntry(h.path, h.sizes.compressed, h.sizes.uncompressed, at, data, compression, flags))
  }

  /** One entry, and where the next central header starts. */
  function ReadEntry(z: Bytes, cursor: nat, limit: nat, names: NameReader, a: Arithmetic): Parsed<(ZipEntry, nat)>
    requires Mappable(z) && limit <= |z|
  {
    var fields :- ReadFields(z, cursor, a);
    var (path, next) :- CheckHeader(z, cursor, limit, fields, names, a);
    var sizes :- ReadSizes(z, cursor, fields, a);
    var entry :- ReadLocal(z, Header(path, fields.flags, fields.compression, sizes), names, a);
    Ok((entry, next))
  }

  /** Reads the entry whose central header is at a given place. */
  type EntryReader = nat -> Parsed<(ZipEntry, nat)>

  function ReadIn(z: Bytes, d: Directory, cursor: nat, names: NameReader, a: Arithmetic): Parsed<(ZipEntry, nat)>
    requires Mappable(z)
  {
    if d.offset + d.size <= |z| then ReadEntry(z, cursor, d.offset + d.size, names, a) else Refused
  }

  function ReaderOf(z: Bytes, names: NameReader, a: Arithmetic): Directory -> EntryReader
    requires Mappable(z)
  {
    (d: Directory) => (cursor: nat) => ReadIn(z, d, cursor, names, a)
  }

  function EntriesFrom(read: EntryReader, cursor: nat, limit: nat, count: nat): Parsed<seq<ZipEntry>>
    decreases count
  {
    if count == 0 then (if cursor == limit then Ok([]) else Refused)
    else
      var (entry, next) :- read(cursor);
      var rest :- EntriesFrom(read, next, limit, count - 1);
      Ok([entry] + rest)
  }

  function EntriesOf(directory: Parsed<Directory>, read: Directory -> EntryReader): Parsed<seq<ZipEntry>> {
    var d :- directory;
    EntriesFrom(read(d), d.offset, d.offset + d.size, d.entries)
  }

  function FindDirectory(z: Bytes, a: Arithmetic): (r: Parsed<Directory>)
    requires Mappable(z)
    ensures r.Ok? ==> r.value.entries <= MAX_ZIP_ENTRIES && r.value.offset + r.value.size <= |z|
  {
    var record :- EndRecordFrom(z, |z| - 22, a);
    ReadDirectory(z, record, a)
  }

  /** The entries of the archive, in directory order. */
  function ReadArchive(z: Bytes, names: NameReader, a: Arithmetic): Parsed<seq<ZipEntry>> {
    if Mappable(z) then EntriesOf(FindDirectory(z, a), ReaderOf(z, names, a)) else Refused
  }

}
