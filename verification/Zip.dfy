/**
 The stored-entry ZIP writer of the hostile-EPUB fixtures (PKWARE APPNOTE,
 sections 4.3.7, 4.3.12 and 4.3.16) and a strict reader that starts from the
 end record. Names and contents are byte strings: UTF-8 encoding is not modelled.
 */
module Zip {
  import opened Text
  import opened Crc32

  datatype File = File(name: seq<Octet>, data: seq<Octet>)

  const TWO_16: nat := 0x1_0000
  const TWO_32: nat := 0x1_0000_0000

  //// Little-endian fields.

  function U16(value: nat): (s: seq<Octet>)
    ensures |s| == 2
  {
    [value % 256, value / 256 % 256]
  }

  function U32(value: nat): (s: seq<Octet>)
    ensures |s| == 4
  {
    [value % 256, value / 256 % 256, value / 0x1_0000 % 256, value / 0x100_0000 % 256]
  }

  function Le16(s: seq<Octet>): nat
    requires |s| == 2
  {
    var low: nat, high: nat := s[0], s[1];
    low + 256 * high
  }

  function Le32(s: seq<Octet>): nat
    requires |s| == 4
  {
    Le16(s[..2]) + TWO_16 * Le16(s[2..])
  }

  lemma Le16Back(value: nat)
    ensures Le16(U16(value)) == value % TWO_16
  {
    var q := value / 256;
    assert value == value % 256 + 256 * (q % 256) + TWO_16 * (q / 256);
  }

  lemma Le32Back(value: nat)
    ensures Le32(U32(value)) == value % TWO_32
  {
    var q := value / TWO_16;
    TwoSteps(value);
    assert U32(value)[..2] == U16(value) && U32(value)[2..] == U16(q);
    Le16Back(value);
    Le16Back(q);
    hide U16, U32, Le16;
    assert value == value % TWO_16 + TWO_16 * (q % TWO_16) + TWO_32 * (q / TWO_16);
  }

  lemma TwoSteps(v: nat)
    ensures v / 0x1_0000 / 256 == v / 0x100_0000
  {
  }

  /** A record header is a list of two- and four-byte fields. */
  datatype Field = Two(value: nat) | Four(value: nat)

  function Encode(f: Field): seq<Octet> {
    match f
    case Two(v) => U16(v)
    case Four(v) => U32(v)
  }

  function EncodeAll(fs: seq<Field>): seq<Octet> {
    if fs == [] then [] else Encode(fs[0]) + EncodeAll(fs[1..])
  }

  /** Reads fields of the given widths; true stands for four bytes. */
  function ReadFields(wide: seq<bool>, s: seq<Octet>): (r: Option<(seq<nat>, seq<Octet>)>)
    ensures r.Some? ==> |r.value.0| == |wide|
    ensures r.Some? ==> forall i :: 0 <= i < |wide| ==> r.value.0[i] < if wide[i] then TWO_32 else TWO_16
  {
    if wide == [] then
      Some(([], s))
    else
      var n := if wide[0] then 4 else 2;
      if |s| < n then
        None
      else
        var v := if wide[0] then Le32(s[..4]) else Le16(s[..2]);
        var (vs, rest) :- ReadFields(wide[1..], s[n..]);
        Some(([v] + vs, rest))
  }

  function Wide(fs: seq<Field>): (w: seq<bool>)
    ensures |w| == |fs|
  {
    seq(|fs|, i requires 0 <= i < |fs| => fs[i].Four?)
  }

  function Stored(f: Field): nat {
    match f
    case Two(v) => v % TWO_16
    case Four(v) => v % TWO_32
  }

  function StoredAll(fs: seq<Field>): (r: seq<nat>)
    ensures |r| == |fs|
  {
    seq(|fs|, i requires 0 <= i < |fs| => Stored(fs[i]))
  }

  /** What is read is each value modulo its field's capacity. */
  lemma {:induction false} ReadFieldsBack(fs: seq<Field>, rest: seq<Octet>)
    ensures ReadFields(Wide(fs), EncodeAll(fs) + rest) == Some((StoredAll(fs), rest))
  {
    hide U16, U32, Le16, Le32;
    if fs == [] {
      assert EncodeAll(fs) + rest == rest;
    } else {
      var tail := EncodeAll(fs[1..]) + rest;
      assert EncodeAll(fs) + rest == Encode(fs[0]) + tail;
      var n := |Encode(fs[0])|;
      assert (Encode(fs[0]) + tail)[..n] == Encode(fs[0]) && (Encode(fs[0]) + tail)[n..] == tail;
      assert Wide(fs)[1..] == Wide(fs[1..]);
      match fs[0] {
        case Two(v) => Le16Back(v);
        case Four(v) => Le32Back(v);
      }
      ReadFieldsBack(fs[1..], rest);
      assert [Stored(fs[0])] + StoredAll(fs[1..]) == StoredAll(fs);
    }
  }

  //// The writer.

  const LOCAL_SIGNATURE: nat := 0x04034b50
  const CENTRAL_SIGNATURE: nat := 0x02014b50
  const END_SIGNATURE: nat := 0x06054b50

  function AsBytes(data: seq<Octet>): (r: seq<Byte>)
    ensures |r| == |data|
  {
    seq(|data|, i requires 0 <= i < |data| => data[i] as bv8)
  }

  function Crc(data: seq<Octet>): (r: nat)
    ensures r < TWO_32
  {
    hide Checksum;
    Checksum(AsBytes(data)) as int
  }

  function LocalFields(f: File, crc: nat): seq<Field> {
    [ Four(LOCAL_SIGNATURE), Two(20), Two(0), Two(0), Two(0), Two(0),
      Four(crc), Four(|f.data|), Four(|f.data|), Two(|f.name|), Two(0) ]
  }

  function CentralFields(f: File, crc: nat, offset: nat): seq<Field> {
    [ Four(CENTRAL_SIGNATURE), Two(20), Two(20), Two(0), Two(0), Two(0), Two(0),
      Four(crc), Four(|f.data|), Four(|f.data|), Two(|f.name|), Two(0), Two(0), Two(0), Two(0),
      Four(0), Four(offset) ]
  }

  function EndFields(count: nat, size: nat, offset: nat): seq<Field> {
    [Four(END_SIGNATURE), Two(0), Two(0), Two(count), Two(count), Four(size), Four(offset), Two(0)]
  }

  function LocalRecord(f: File): seq<Octet> {
    EncodeAll(LocalFields(f, Crc(f.data))) + f.name + f.data
  }

  function CentralRecord(f: File, offset: nat): seq<Octet> {
    EncodeAll(CentralFields(f, Crc(f.data), offset)) + f.name
  }

  function Locals(files: seq<File>): seq<Octet> {
    if files == [] then [] else Locals(files[..|files| - 1]) + LocalRecord(files[|files| - 1])
  }

  /** The directory records of files i, i + 1, ...; each names the position of its local record. */
  function Directory(files: seq<File>, i: nat): seq<Octet>
    requires i <= |files|
    decreases |files| - i
  {
    if i == |files| then [] else CentralRecord(files[i], |Locals(files[..i])|) + Directory(files, i + 1)
  }

  function ZipBytes(files: seq<File>): seq<Octet> {
    var directory := Directory(files, 0);
    Locals(files) + directory + EncodeAll(EndFields(|files|, |directory|, |Locals(files)|))
  }

  method BuildZip(files: seq<File>) returns (zip: seq<Octet>)
    ensures zip == ZipBytes(files)
  {
    hide LocalFields, CentralFields, EncodeAll, Crc, IsTable, Checksum;
    var table := BuildTable();
    var locals: seq<Octet>, central: seq<Octet>, offset := [], [], 0;
    for i := 0 to |files|
      invariant IsTable(table[..])
      invariant locals == Locals(files[..i]) && offset == |locals|
      invariant central + Directory(files, i) == Directory(files, 0)
    {
      var f := files[i];
      var crc := CrcNumber(table, f.data);
      var local := EncodeAll(LocalFields(f, crc)) + f.name + f.data;
      var directory := EncodeAll(CentralFields(f, crc, offset)) + f.name;
      assert files[..i + 1][..i] == files[..i];
      Assoc(central, directory, Directory(files, i + 1));
      locals := locals + local;
      central := central + directory;
      offset := offset + |local|;
    }
    assert files[..|files|] == files;
    zip := locals + central + EncodeAll(EndFields(|files|, |central|, offset));
  }

  method CrcNumber(table: array<bv32>, data: seq<Octet>) returns (crc: nat)
    requires IsTable(table[..])
    ensures crc == Crc(data)
  {
    hide Checksum, IsTable;
    var c := ComputeCrc(table, AsBytes(data));
    crc := c as int;
  }

  //// The reader.

  const LOCAL_LAYOUT := [true, false, false, false, false, false, true, true, true, false, false]

  const CENTRAL_LAYOUT := [ true, false, false, false, false, false, false, true, true, true,
                            false, false, false, false, false, true, true ]

  const END_LAYOUT := [true, false, false, false, false, true, true, false]

  const END_SIZE: nat := 22

  /** Version 2.0, no flags, stored, no date, nothing extra (section 4.4). */
  predicate PlainLocal(f: seq<nat>)
    requires |f| == 11
  {
    f[0] == 0x04034b50 && f[1] == 20 && f[2] == f[3] == f[4] == f[5] == f[10] == 0
  }

  /** The same of a directory record, on the first disk and without attributes or comment. */
  predicate PlainCentral(f: seq<nat>)
    requires |f| == 17
  {
    && f[0] == 0x02014b50 && f[1] == f[2] == 20 && f[3] == f[4] == f[5] == f[6] == 0
    && f[11] == f[12] == f[13] == f[14] == f[15] == 0
  }

  /** Follows a stored offset: the local record must repeat the name and sizes, and the CRC must check. */
  function ReadLocal(zip: seq<Octet>, offset: nat, name: seq<Octet>, crc: nat, size: nat): Option<File> {
    if offset > |zip| then
      None
    else
      var (f, rest) :- ReadFields(LOCAL_LAYOUT, zip[offset..]);
      if !PlainLocal(f) || f[6] != crc || f[7] != size || f[8] != size || f[9] != |name| then
        None
      else if |rest| < f[9] + size || rest[..f[9]] != name then
        None
      else
        var data := rest[f[9]..][..size];
        if Crc(data) == crc then Some(File(name, data)) else None
  }

  /** Reads n directory records, which must fill `s` exactly. */
  function ReadDirectory(zip: seq<Octet>, s: seq<Octet>, n: nat): (r: Option<seq<File>>)
    ensures r.Some? ==> |r.value| == n
    ensures r.Some? ==> forall f :: f in r.value ==> |f.name| < TWO_16
    decreases n
  {
    if n == 0 then
      if s == [] then Some([]) else None
    else
      var (f, rest) :- ReadFields(CENTRAL_LAYOUT, s);
      if !PlainCentral(f) || f[8] != f[9] || |rest| < f[10] then
        None
      else
        var file :- ReadLocal(zip, f[16], rest[..f[10]], f[7], f[9]);
        var files :- ReadDirectory(zip, rest[f[10]..], n - 1);
        Some([file] + files)
  }

  /** Starts at the end record; the directory must lie directly before it, at the recorded position. */
  function ReadZip(zip: seq<Octet>): Option<seq<File>> {
    var end := |zip| - END_SIZE;
    if end < 0 then
      None
    else
      var (f, _) :- ReadFields(END_LAYOUT, zip[end..]);
      if f[0] != 0x06054b50 || f[1] != 0 || f[2] != 0 || f[3] != f[4] || f[7] != 0 || f[6] + f[5] != end then
        None
      else
        ReadDirectory(zip, zip[f[6]..end], f[4])
  }

  //// Records read back.

  lemma LayoutsMatch(f: File, crc: nat, offset: nat, count: nat, size: nat)
    ensures Wide(LocalFields(f, crc)) == LOCAL_LAYOUT
    ensures Wide(CentralFields(f, crc, offset)) == CENTRAL_LAYOUT
    ensures Wide(EndFields(count, size, offset)) == END_LAYOUT
  {
  }

  lemma EndSize(count: nat, size: nat, offset: nat)
    ensures |EncodeAll(EndFields(count, size, offset))| == END_SIZE
  {
    hide U16, U32;
    var fs := EndFields(count, size, offset);
    EncodedSize(fs);
    WidthFour(fs[4..]);
    WidthFour(fs);
    hide Width;
    assert fs[4..][4..] == [];
    assert Width([]) == 0 by {
      NoWidth();
    }
  }

  lemma NoWidth()
    ensures Width([]) == 0
  {
  }

  lemma WidthFour(fs: seq<Field>)
    requires |fs| >= 4
    ensures Width(fs) == FieldWidth(fs[0]) + FieldWidth(fs[1]) + FieldWidth(fs[2]) + FieldWidth(fs[3]) + Width(fs[4..])
  {
    hide FieldWidth;
    assert fs[1..][1..] == fs[2..] && fs[2..][1..] == fs[3..] && fs[3..][1..] == fs[4..];
  }

  function Width(fs: seq<Field>): nat {
    if fs == [] then 0 else FieldWidth(fs[0]) + Width(fs[1..])
  }

  function FieldWidth(f: Field): nat {
    if f.Four? then 4 else 2
  }

  lemma {:induction false} EncodedSize(fs: seq<Field>)
    ensures |EncodeAll(fs)| == Width(fs)
  {
    if fs != [] {
      EncodedSize(fs[1..]);
    }
  }

  /** The first bytes of the three kinds of record, as they stand in a file: "PK" and two numbers. */
  lemma RecordsBegin(f: File, offset: nat, count: nat, size: nat)
    ensures [0x50, 0x4b, 3, 4] <= LocalRecord(f)
    ensures [0x50, 0x4b, 1, 2] <= CentralRecord(f, offset)
    ensures [0x50, 0x4b, 5, 6] <= EncodeAll(EndFields(count, size, offset))
  {
    hide Crc, EncodeAll, U16, U32;
    SignatureBytes();
    BeginsWith(LocalFields(f, Crc(f.data)), f.name + f.data);
    BeginsWith(CentralFields(f, Crc(f.data), offset), f.name);
    BeginsWith(EndFields(count, size, offset), []);
    Assoc(EncodeAll(LocalFields(f, Crc(f.data))), f.name, f.data);
    NothingAdded(EncodeAll(EndFields(count, size, offset)));
  }

  lemma SignatureBytes()
    ensures U32(0x04034b50) == [0x50, 0x4b, 3, 4]
    ensures U32(0x02014b50) == [0x50, 0x4b, 1, 2]
    ensures U32(0x06054b50) == [0x50, 0x4b, 5, 6]
  {
  }

  lemma BeginsWith(fs: seq<Field>, rest: seq<Octet>)
    requires fs != [] && fs[0].Four?
    ensures U32(fs[0].value) <= EncodeAll(fs) + rest
  {
    hide EncodeAll, U32;
    FirstField(fs);
  }

  lemma FirstField(fs: seq<Field>)
    requires fs != []
    ensures Encode(fs[0]) <= EncodeAll(fs)
  {
    hide Encode;
  }

  /** The archive's counts, lengths and positions all fit their fields. */
  predicate FitsZip(files: seq<File>) {
    && |files| < TWO_16
    && (forall f :: f in files ==> |f.name| < TWO_16)
    && |Locals(files)| < TWO_32
    && |Directory(files, 0)| < TWO_32
  }

  lemma {:induction false} LocalsSplit(files: seq<File>, i: nat) returns (after: seq<Octet>)
    requires i < |files|
    ensures Locals(files) == Locals(files[..i]) + LocalRecord(files[i]) + after
    decreases |files|
  {
    hide LocalRecord;
    if i == |files| - 1 {
      after := [];
    } else {
      var init := files[..|files| - 1];
      assert init[..i] == files[..i];
      var rest := LocalsSplit(init, i);
      after := rest + LocalRecord(files[|files| - 1]);
    }
  }

  lemma LocalReadsBack(front: seq<Octet>, f: File, after: seq<Octet>)
    requires |f.name| < TWO_16 && |f.data| < TWO_32
    ensures ReadLocal(front + LocalRecord(f) + after, |front|, f.name, Crc(f.data), |f.data|) == Some(f)
  {
    hide Crc, EncodeAll, ReadFields;
    var fields := LocalFields(f, Crc(f.data));
    var rest := f.name + f.data + after;
    var zip := front + LocalRecord(f) + after;
    assert zip[|front|..] == EncodeAll(fields) + rest;
    ReadFieldsBack(fields, rest);
    LayoutsMatch(f, Crc(f.data), 0, 0, 0);
    assert PlainLocal(StoredAll(fields)) && StoredAll(fields)[9] == |f.name|;
    assert rest[..|f.name|] == f.name && rest[|f.name|..][..|f.data|] == f.data;
  }

  lemma CentralStored(f: File, crc: nat, offset: nat)
    requires |f.name| < TWO_16 && |f.data| < TWO_32 && offset < TWO_32 && crc < TWO_32
    ensures var s := StoredAll(CentralFields(f, crc, offset));
            && PlainCentral(s) && s[7] == crc && s[8] == s[9] == |f.data| && s[10] == |f.name| && s[16] == offset
  {
  }

  lemma CentralReadsBack(f: File, offset: nat, rest: seq<Octet>)
    requires |f.name| < TWO_16 && |f.data| < TWO_32 && offset < TWO_32
    ensures ReadFields(CENTRAL_LAYOUT, CentralRecord(f, offset) + rest) ==
            Some((StoredAll(CentralFields(f, Crc(f.data), offset)), f.name + rest))
    ensures var s := StoredAll(CentralFields(f, Crc(f.data), offset));
            && PlainCentral(s) && s[7] == Crc(f.data) && s[8] == s[9] == |f.data| && s[10] == |f.name|
            && s[16] == offset
  {
    hide Crc, EncodeAll, ReadFields, StoredAll, CentralFields;
    var fields := CentralFields(f, Crc(f.data), offset);
    CentralStored(f, Crc(f.data), offset);
    assert CentralRecord(f, offset) + rest == EncodeAll(fields) + (f.name + rest);
    ReadFieldsBack(fields, f.name + rest);
    LayoutsMatch(f, Crc(f.data), offset, 0, 0);
  }

  lemma LocalFits(files: seq<File>, i: nat)
    requires i < |files|
    ensures |Locals(files[..i])| + |files[i].data| <= |Locals(files)|
  {
    hide EncodeAll, LocalFields;
    var _ := LocalsSplit(files, i);
  }

  lemma {:induction false} DirectoryReadsBack(files: seq<File>, i: nat, after: seq<Octet>)
    requires FitsZip(files) && i <= |files|
    ensures ReadDirectory(Locals(files) + after, Directory(files, i), |files| - i) == Some(files[i..])
    decreases |files| - i
  {
    hide Crc, ReadFields, ReadLocal, CentralRecord, LocalRecord, StoredAll, CentralFields;
    if i < |files| {
      var f, offset, later := files[i], |Locals(files[..i])|, Directory(files, i + 1);
      LocalFits(files, i);
      CentralReadsBack(f, offset, later);
      var rest := LocalsSplit(files, i);
      Assoc(Locals(files[..i]) + LocalRecord(f), rest, after);
      LocalReadsBack(Locals(files[..i]), f, rest + after);
      assert (f.name + later)[..|f.name|] == f.name && (f.name + later)[|f.name|..] == later;
      DirectoryReadsBack(files, i + 1, after);
      assert [f] + files[i + 1..] == files[i..];
    } else {
      assert files[i..] == [];
    }
  }

  lemma EndReadsBack(files: seq<File>)
    ensures var zip := ZipBytes(files);
            var end := |zip| - END_SIZE;
            && end == |Locals(files)| + |Directory(files, 0)|
            && ReadFields(END_LAYOUT, zip[end..]) ==
               Some((StoredAll(EndFields(|files|, |Directory(files, 0)|, |Locals(files)|)), []))
            && zip[|Locals(files)|..end] == Directory(files, 0)
  {
    hide EncodeAll, ReadFields, Locals, Directory, END_LAYOUT;
    var locals, directory := Locals(files), Directory(files, 0);
    var fields := EndFields(|files|, |directory|, |locals|);
    var zip := ZipBytes(files);
    EndSize(|files|, |directory|, |locals|);
    assert zip[|locals| + |directory|..] == EncodeAll(fields) + [];
    ReadFieldsBack(fields, []);
    LayoutsMatch(File([], []), 0, |locals|, |files|, |directory|);
    assert zip[|locals|..|locals| + |directory|] == directory;
  }

  /**
   The reader recovers exactly the files that were written, names, contents and
   order, if and only if every count, length and position fits its field.
   */
  lemma ZipRoundTrip(files: seq<File>)
    ensures ReadZip(ZipBytes(files)) == Some(files) <==> FitsZip(files)
  {
    hide ReadFields, ReadDirectory, Locals, Directory;
    EndReadsBack(files);
    var locals, directory := Locals(files), Directory(files, 0);
    var stored := StoredAll(EndFields(|files|, |directory|, |locals|));
    assert stored[0] == END_SIGNATURE && stored[1] == stored[2] == stored[7] == 0;
    assert stored[3] == stored[4] == |files| % TWO_16;
    assert stored[5] == |directory| % TWO_32 && stored[6] == |locals| % TWO_32;
    if FitsZip(files) {
      DirectoryReadsBack(files, 0, directory + EncodeAll(EndFields(|files|, |directory|, |locals|)));
      Assoc(locals, directory, EncodeAll(EndFields(|files|, |directory|, |locals|)));
      assert files[0..] == files;
    }
  }
}
