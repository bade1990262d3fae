/** The GPT scanner, `parse_gpt` (partition_tables.py:40-86), over a disk
    image held as a byte sequence and read through a cursor, as the file
    object is: LBA 0 (the protective MBR) is skipped, LBA 1 is the header,
    its PartitionEntryLBA field at 0x48 names the first sector of the
    entry array, and the array is scanned sector by sector in 128-byte
    entries until the first entry whose StartingLBA (at 0x20) is zero
    (section 5.3 of the UEFI Specification). */
module Gpt {
  import opened Bytes
  import opened Results

  const HeaderLba: nat := 1
  const EntryLbaField: nat := 0x48
  const EntrySize: nat := 128
  const StartField: nat := 0x20
  const EndField: nat := 0x28
  const NameField: nat := 0x38
  const NameUnits: nat := 36

  // ---------------------------------------------------------- the type GUID

  function Reverse(s: seq<byte>): (r: seq<byte>)
    ensures |r| == |s|
    ensures forall k :: 0 <= k < |s| ==> r[k] == s[|s| - 1 - k]
  {
    if s == [] then [] else Reverse(s[1..]) + [s[0]]
  }

  /** `uuid.UUID(bytes_le=b).bytes`: the GUID's first three fields are
      stored little-endian on disk and become big-endian; the last eight
      bytes are kept as they are. */
  function MixedEndian(b: seq<byte>): (g: seq<byte>)
    requires |b| == 16
    ensures |g| == 16
  {
    Reverse(b[0..4]) + Reverse(b[4..6]) + Reverse(b[6..8]) + b[8..16]
  }

  /** The position in the on-disk bytes that byte `k` of the GUID comes from. */
  function GuidSource(k: nat): nat
  {
    if k < 4 then 3 - k else if k < 6 then 9 - k else if k < 8 then 13 - k else k
  }

  lemma {:induction false} MixedEndianIndex(b: seq<byte>)
    requires |b| == 16
    ensures forall k :: 0 <= k < 16 ==> GuidSource(k) < 16 && MixedEndian(b)[k] == b[GuidSource(k)]
  {
    var g := MixedEndian(b);
    var r0, r1, r2 := Reverse(b[0..4]), Reverse(b[4..6]), Reverse(b[6..8]);
    assert g == r0 + r1 + r2 + b[8..16];
    forall k | 0 <= k < 16
      ensures MixedEndian(b)[k] == b[GuidSource(k)]
    {
      if k < 4 {
        assert g[k] == r0[k];
      } else if k < 6 {
        assert g[k] == r1[k - 4];
      } else if k < 8 {
        assert g[k] == r2[k - 6];
      } else {
        assert g[k] == b[8..16][k - 8];
      }
    }
  }

  /** Converting twice gives the on-disk bytes back. */
  lemma {:induction false} MixedEndianInvolution(b: seq<byte>)
    requires |b| == 16
    ensures MixedEndian(MixedEndian(b)) == b
  {
    MixedEndianIndex(b);
    MixedEndianIndex(MixedEndian(b));
  }

  lemma {:induction false} ReversePermutes(s: seq<byte>)
    ensures multiset(Reverse(s)) == multiset(s)
  {
    if s != [] {
      ReversePermutes(s[1..]);
      assert s == [s[0]] + s[1..];
    }
  }

  /** The conversion only reorders the sixteen bytes. */
  lemma {:induction false} MixedEndianPermutes(b: seq<byte>)
    requires |b| == 16
    ensures multiset(MixedEndian(b)) == multiset(b)
  {
    ReversePermutes(b[0..4]);
    ReversePermutes(b[4..6]);
    ReversePermutes(b[6..8]);
    ReorderedParts(b[0..4], b[4..6], b[6..8], b[8..16], Reverse(b[0..4]), Reverse(b[4..6]), Reverse(b[6..8]));
    GuidFields(b);
  }

  lemma {:induction false} GuidFields(b: seq<byte>)
    requires |b| == 16
    ensures b == b[0..4] + b[4..6] + b[6..8] + b[8..16]
  {
    assert b[0..6] == b[0..4] + b[4..6];
    assert b[0..8] == b[0..6] + b[6..8];
    assert b == b[0..8] + b[8..16];
  }

  lemma {:induction false} ReorderedParts(p0: seq<byte>, p1: seq<byte>, p2: seq<byte>, p3: seq<byte>,
                                          q0: seq<byte>, q1: seq<byte>, q2: seq<byte>)
    requires multiset(q0) == multiset(p0) && multiset(q1) == multiset(p1) && multiset(q2) == multiset(p2)
    ensures multiset(q0 + q1 + q2 + p3) == multiset(p0 + p1 + p2 + p3)
  {
  }

  /** The EFI system partition type of the expected result in partition_tables.py:32-37,
      c12a7328-f81f-11d2-ba4b-00a0c93ec93b, from its on-disk bytes. */
  lemma {:induction false} EfiSystemPartitionType()
    ensures MixedEndian([0x28, 0x73, 0x2a, 0xc1, 0x1f, 0xf8, 0xd2, 0x11] +
                        [0xba, 0x4b, 0x00, 0xa0, 0xc9, 0x3e, 0xc9, 0x3b]) ==
            [0xc1, 0x2a, 0x73, 0x28, 0xf8, 0x1f, 0x11, 0xd2] +
            [0xba, 0x4b, 0x00, 0xa0, 0xc9, 0x3e, 0xc9, 0x3b]
  {
    MixedEndianBytes(0x28, 0x73, 0x2a, 0xc1, 0x1f, 0xf8, 0xd2, 0x11,
                     [0xba, 0x4b, 0x00, 0xa0, 0xc9, 0x3e, 0xc9, 0x3b]);
  }

  lemma {:induction false} MixedEndianBytes(b0: byte, b1: byte, b2: byte, b3: byte, b4: byte, b5: byte,
                                            b6: byte, b7: byte, tail: seq<byte>)
    requires |tail| == 8
    ensures MixedEndian([b0, b1, b2, b3, b4, b5, b6, b7] + tail) == [b3, b2, b1, b0, b5, b4, b7, b6] + tail
  {
    var p0, p1, p2 := [b0, b1, b2, b3], [b4, b5], [b6, b7];
    assert [b0, b1, b2, b3, b4, b5, b6, b7] == p0 + p1 + p2;
    MixedEndianOfFields(p0 + p1 + p2 + tail, p0, p1, p2, tail);
    ReverseFour(p0);
    ReverseTwo(p1);
    ReverseTwo(p2);
  }

  /** The conversion reverses each of the first three fields in place. */
  lemma {:induction false} MixedEndianOfFields(b: seq<byte>, p0: seq<byte>, p1: seq<byte>, p2: seq<byte>, p3: seq<byte>)
    requires |p0| == 4 && |p1| == 2 && |p2| == 2 && |p3| == 8 && b == p0 + p1 + p2 + p3
    ensures MixedEndian(b) == Reverse(p0) + Reverse(p1) + Reverse(p2) + p3
  {
    assert b[0..4] == p0 && b[4..6] == p1 && b[6..8] == p2 && b[8..16] == p3;
  }

  lemma {:induction false} ReverseFour(s: seq<byte>)
    requires |s| == 4
    ensures Reverse(s) == [s[3], s[2], s[1], s[0]]
  {
  }

  lemma {:induction false} ReverseTwo(s: seq<byte>)
    requires |s| == 2
    ensures Reverse(s) == [s[1], s[0]]
  {
  }

  // --------------------------------------------------------------- the name

  /** `str.find("\x00")`: the index of the first null, or -1 when there is none. */
  function FindNull(units: seq<CodeUnit>): (i: int)
    ensures -1 <= i < |units|
    ensures i == -1 ==> 0 !in units
    ensures 0 <= i ==> units[i] == 0 && 0 !in units[..i]
    ensures 0 <= i ==> forall k :: 0 <= k < i ==> units[k] != 0
  {
    if units == [] then -1
    else if units[0] == 0 then 0
    else
      var j := FindNull(units[1..]);
      assert forall k :: 0 <= k < |units| - 1 ==> units[1..][k] == units[k + 1];
      if j == -1 then -1
      else
        assert units[..j + 1] == [units[0]] + units[1..][..j];
        j + 1
  }

  /** Python's `s[0:end]`: a negative `end` counts from the back. */
  function PyPrefix(s: seq<CodeUnit>, end: int): seq<CodeUnit>
  {
    if end >= 0 then s[..Min(end, |s|)]
    else if |s| + end > 0 then s[..|s| + end]
    else []
  }

  /** `val = bytes.decode("utf-16-le"); val[0:val.find("\x00")]`; an odd
      number of bytes fails to decode. */
  function GptName(nameBytes: seq<byte>): Result<seq<CodeUnit>>
  {
    if |nameBytes| % 2 != 0 then Err(OddNameBytes(|nameBytes|))
    else
      var val := Utf16Units(nameBytes);
      Ok(PyPrefix(val, FindNull(val)))
  }

  /** The name is the code units before the first null; when there is no
      null, `find` answers -1 and the slice drops the last code unit. */
  lemma {:induction false} GptNameMeaning(nameBytes: seq<byte>)
    ensures GptName(nameBytes).Err? <==> |nameBytes| % 2 == 1
    ensures GptName(nameBytes).Err? ==> GptName(nameBytes).error == OddNameBytes(|nameBytes|)
    ensures GptName(nameBytes).Ok? ==>
              var units, name := Utf16Units(nameBytes), GptName(nameBytes).value;
              name <= units && 0 !in name &&
              (0 in units ==> |name| < |units| && units[|name|] == 0) &&
              (0 !in units ==> |name| == if units == [] then 0 else |units| - 1)
  {
    if |nameBytes| % 2 == 0 {
      var units := Utf16Units(nameBytes);
      var i := FindNull(units);
      var name := PyPrefix(units, i);
      if 0 <= i {
        assert name == units[..i];
      } else if units != [] {
        assert name == units[..|units| - 1];
        assert forall k :: 0 <= k < |name| ==> name[k] == units[k];
      }
    }
  }

  function Nulls(n: nat): (z: seq<CodeUnit>)
    ensures |z| == n && forall k :: 0 <= k < n ==> z[k] == 0
  {
    seq(n, _ => 0)
  }

  /** The first null is at `n` when `n` holds a null and nothing before does. */
  lemma {:induction false} FindNullAt(units: seq<CodeUnit>, n: nat)
    requires n < |units| && units[n] == 0
    requires forall k :: 0 <= k < n ==> units[k] != 0
    ensures FindNull(units) == n
  {
    assert units[n] in units;
  }

  /** A name shorter than the 36-unit field, padded with nulls, is read back. */
  lemma {:induction false} GptNameRoundTrip(name: seq<CodeUnit>)
    requires |name| < NameUnits && 0 !in name
    ensures GptName(Utf16Bytes(name + Nulls(NameUnits - |name|))) == Ok(name)
  {
    var units := name + Nulls(NameUnits - |name|);
    var bytes := Utf16Bytes(units);
    assert |bytes| == 2 * NameUnits;
    Utf16RoundTrip(units);
    assert units[..|name|] == name;
    forall k | 0 <= k < |name|
      ensures units[k] != 0
    {
      assert units[k] == name[k] && name[k] in name;
    }
    FindNullAt(units, |name|);
    assert GptName(bytes) == Ok(PyPrefix(units, |name|));
  }

  /** A name filling all 36 units has no null terminator, and the scanner
      drops its last code unit. */
  lemma {:induction false} FullNameLosesLastUnit(name: seq<CodeUnit>)
    requires |name| == NameUnits && 0 !in name
    ensures GptName(Utf16Bytes(name)) == Ok(name[..NameUnits - 1])
  {
    Utf16RoundTrip(name);
  }

  // -------------------------------------------------------------- one entry

  /** The dictionary built for one partition entry; the type is kept as
      the GUID's sixteen bytes in display order. */
  datatype GptEntry = GptEntry(start: nat, end: nat, number: nat, name: seq<CodeUnit>, typeGuid: seq<byte>)

  /** StartingLBA, read from the (possibly clipped) entry window. */
  function StartOf(entryData: seq<byte>): nat
  {
    LE(Slice(entryData, StartField, StartField + 8))
  }

  /** The entry that ends the array: StartingLBA zero. */
  predicate IsSentinel(entryData: seq<byte>)
  {
    StartOf(entryData) == 0
  }

  /** The loop body on one non-sentinel entry: StartingLBA, EndingLBA at
      0x28, the type GUID from the first 16 bytes and the name from 0x38
      to 0x80, numbered `number`. A non-zero StartingLBA means the window
      reaches past 0x20, so the GUID bytes are all there. */
  function EntryOf(entryData: seq<byte>, number: nat): (r: Result<GptEntry>)
    requires !IsSentinel(entryData)
    ensures r.Ok? ==> r.value.number == number && r.value.start == StartOf(entryData) && r.value.start != 0
  {
    var name :- GptName(Slice(entryData, NameField, EntrySize));
    Ok(GptEntry(StartOf(entryData), LE(Slice(entryData, EndField, EndField + 8)), number, name,
                MixedEndian(Slice(entryData, 0, 16))))
  }

  /** An entry fails exactly when its window is clipped inside the name
      field to an odd number of name bytes. */
  lemma {:induction false} EntryFailsIff(entryData: seq<byte>, number: nat)
    requires !IsSentinel(entryData)
    ensures EntryOf(entryData, number).Err? <==> NameField < |entryData| < EntrySize && |entryData| % 2 == 1
    ensures EntryOf(entryData, number).Err? ==> EntryOf(entryData, number).error == OddNameBytes(|entryData| - NameField)
  {
  }

  /** A 128-byte entry holding the given fields, the name null-padded. */
  function EncodeEntry(start: nat, end: nat, name: seq<CodeUnit>, typeGuid: seq<byte>): (e: seq<byte>)
    requires start < Pow256(8) && end < Pow256(8) && |name| <= NameUnits && |typeGuid| == 16
    ensures |e| == EntrySize
  {
    var blank: seq<byte> := seq(EntrySize, _ => 0);
    Put(Put(Put(Put(blank, 0, MixedEndian(typeGuid)), StartField, EncodeLE(start, 8)),
            EndField, EncodeLE(end, 8)),
        NameField, Utf16Bytes(name + Nulls(NameUnits - |name|)))
  }

  /** Every entry with a non-zero start and a null-free name shorter than
      the field is decoded back from its encoding; the type GUID is
      stored in mixed-endian order and read back in display order. */
  lemma {:induction false} EntryRoundTrip(start: nat, end: nat, name: seq<CodeUnit>, typeGuid: seq<byte>, number: nat)
    requires 0 < start < Pow256(8) && end < Pow256(8) && |name| < NameUnits && 0 !in name && |typeGuid| == 16
    ensures var e := EncodeEntry(start, end, name, typeGuid);
            !IsSentinel(e) && EntryOf(e, number) == Ok(GptEntry(start, end, number, name, typeGuid))
  {
    var disk := MixedEndian(typeGuid);
    MixedEndianInvolution(typeGuid);
    var nameBytes := Utf16Bytes(name + Nulls(NameUnits - |name|));
    var blank: seq<byte> := seq(EntrySize, _ => 0);
    var e1 := Put(blank, 0, disk);
    var e2 := Put(e1, StartField, EncodeLE(start, 8));
    var e3 := Put(e2, EndField, EncodeLE(end, 8));
    var e := Put(e3, NameField, nameBytes);
    PutRead(blank, 0, disk);
    PutOther(e1, StartField, EncodeLE(start, 8), 0, 16);
    PutOther(e2, EndField, EncodeLE(end, 8), 0, 16);
    PutOther(e3, NameField, nameBytes, 0, 16);
    PutLE(e1, StartField, start, 8);
    PutOther(e2, EndField, EncodeLE(end, 8), StartField, StartField + 8);
    PutOther(e3, NameField, nameBytes, StartField, StartField + 8);
    PutLE(e2, EndField, end, 8);
    PutOther(e3, NameField, nameBytes, EndField, EndField + 8);
    PutRead(e3, NameField, nameBytes);
    GptNameRoundTrip(name);
  }

  /** The entry loop trusts the stored fields: an entry whose EndingLBA is
      below its StartingLBA (start 5, end 1) is emitted as it stands, so
      `end >= start` is not something the parsed table promises. */
  lemma {:induction false} EndBeforeStart(typeGuid: seq<byte>)
    requires |typeGuid| == 16
    ensures var e := EncodeEntry(5, 1, [], typeGuid);
            !IsSentinel(e) && EntryOf(e, 0).Ok? && EntryOf(e, 0).value.end < EntryOf(e, 0).value.start
  {
    Pow256Table();
    EntryRoundTrip(5, 1, [], typeGuid, 0);
  }

  // ---------------------------------------------------------- the sectors

  /** The file position after `count` reads of `sectorSize` bytes. */
  function Cursor(image: seq<byte>, sectorSize: nat, count: nat): nat
  {
    Min(count * sectorSize, |image|)
  }

  /** Sector `lba` as the `lba`-th read of the image returns it: clipped
      at the end of the image, and empty past it. */
  function SectorAt(image: seq<byte>, sectorSize: nat, lba: nat): seq<byte>
  {
    Slice(image, lba * sectorSize, lba * sectorSize + sectorSize)
  }

  /** A read at the cursor returns the next sector and moves the cursor past it. */
  lemma {:induction false} ReadSector(image: seq<byte>, sectorSize: nat, lba: nat, pos: nat)
    requires pos == Cursor(image, sectorSize, lba)
    ensures Slice(image, pos, pos + sectorSize) == SectorAt(image, sectorSize, lba)
    ensures pos + |SectorAt(image, sectorSize, lba)| == Cursor(image, sectorSize, lba + 1)
  {
    assert (lba + 1) * sectorSize == lba * sectorSize + sectorSize;
  }

  /** A sector that is not empty lies before the end of the image. */
  lemma {:induction false} SectorProgress(image: seq<byte>, sectorSize: nat, lba: nat)
    requires SectorAt(image, sectorSize, lba) != []
    ensures Min(lba * sectorSize, |image|) < Min((lba + 1) * sectorSize, |image|)
  {
    assert (lba + 1) * sectorSize == lba * sectorSize + sectorSize;
  }

  /** How the `for` loop over one sector ends: at the sentinel, returning
      from `parse_gpt`, or at the end of the sector. */
  datatype SectorOutcome = Stopped(entries: seq<GptEntry>) | Continued(entries: seq<GptEntry>)

  /** The `for` loop over the 128-byte entries of one sector from offset
      `i`, `entries` having been emitted so far. */
  function ScanSector(table: seq<byte>, i: nat, entries: seq<GptEntry>): Result<SectorOutcome>
    decreases |table| - i
  {
    if i >= |table| then Ok(Continued(entries))
    else
      var entryData := Slice(table, i, i + EntrySize);
      if IsSentinel(entryData) then Ok(Stopped(entries))
      else
        var entry :- EntryOf(entryData, |entries|);
        ScanSector(table, i + EntrySize, entries + [entry])
  }

  /** The `while` loop from sector `lba` on. Python's `read` returns an
      empty sector at the end of the image, never `None`, and loops on it
      forever; that case is the failure `NoSentinel`. */
  function ScanFrom(image: seq<byte>, sectorSize: nat, lba: nat, entries: seq<GptEntry>): Result<seq<GptEntry>>
    decreases |image| - Min(lba * sectorSize, |image|)
  {
    var table := SectorAt(image, sectorSize, lba);
    if table == [] then Err(NoSentinel)
    else
      var outcome :- ScanSector(table, 0, entries);
      match outcome
      case Stopped(found) => Ok(found)
      case Continued(found) =>
        SectorProgress(image, sectorSize, lba);
        ScanFrom(image, sectorSize, lba + 1, found)
  }

  /** `parse_gpt(gpt_file, sector_size)` as a value: a start LBA of 0 or 1
      leaves `partition_table` unbound. */
  function GptSpec(image: seq<byte>, sectorSize: nat): Result<seq<GptEntry>>
  {
    var startSector := StartSectorOf(image, sectorSize);
    if startSector <= 1 then Err(PartitionTableUnbound)
    else ScanFrom(image, sectorSize, startSector, [])
  }

  /** The `for` loop of `parse_gpt` over the 128-byte entries of one
      sector, appending to `entries` and counting them in `numEntries`;
      `Stopped` is its `return entries` at the sentinel. */
  method ScanTable(table: seq<byte>, entries0: seq<GptEntry>) returns (r: Result<SectorOutcome>)
    ensures r == ScanSector(table, 0, entries0)
  {
    var entries := entries0;
    var numEntries: nat := |entries|;
    var i: nat := 0;
    while i < |table|
      invariant numEntries == |entries|
      invariant ScanSector(table, 0, entries0) == ScanSector(table, i, entries)
      decreases |table| - i
    {
      var entryData := Slice(table, i, i + EntrySize);
      var start := LE(Slice(entryData, StartField, StartField + 8));
      if start == 0 {
        return Ok(Stopped(entries));
      }
      var end := LE(Slice(entryData, EndField, EndField + 8));
      var typeGuid := MixedEndian(Slice(entryData, 0, 16));
      var name :- GptName(Slice(entryData, NameField, EntrySize));
      entries := entries + [GptEntry(start, end, numEntries, name, typeGuid)];
      numEntries := numEntries + 1;
      i := i + EntrySize;
    }
    return Ok(Continued(entries));
  }

  /** The PartitionEntryLBA field of the header sector. */
  function StartSectorOf(image: seq<byte>, sectorSize: nat): nat
  {
    LE(Slice(SectorAt(image, sectorSize, HeaderLba), EntryLbaField, EntryLbaField + 8))
  }

  /** The reads of `parse_gpt` up to the entry array: the protective MBR,
      the header, and `start_sector - 1` further sectors, the last of them
      kept in `partition_table`; with a start LBA of 0 or 1 nothing is
      kept. The cursor ends past the sector kept. */
  method SeekArray(image: seq<byte>, sectorSize: nat) returns (startSector: nat, partitionTable: Option<seq<byte>>, pos: nat)
    ensures startSector == StartSectorOf(image, sectorSize)
    ensures partitionTable.None? <==> startSector <= 1
    ensures partitionTable.Some? ==> partitionTable.value == SectorAt(image, sectorSize, startSector) &&
                                     pos == Cursor(image, sectorSize, startSector + 1)
  {
    pos := 0;
    ReadSector(image, sectorSize, 0, pos);
    var protectiveMbr := Slice(image, pos, pos + sectorSize);
    pos := pos + |protectiveMbr|;
    ReadSector(image, sectorSize, HeaderLba, pos);
    var gptHeader := Slice(image, pos, pos + sectorSize);
    pos := pos + |gptHeader|;
    startSector := LE(Slice(gptHeader, EntryLbaField, EntryLbaField + 8));
    partitionTable := None;
    var i: nat := 1;
    while i < startSector
      invariant 1 <= i && (i == 1 || i <= startSector)
      invariant pos == Cursor(image, sectorSize, i + 1)
      invariant partitionTable == if i == 1 then None else Some(SectorAt(image, sectorSize, i))
    {
      ReadSector(image, sectorSize, i + 1, pos);
      var sector := Slice(image, pos, pos + sectorSize);
      pos := pos + |sector|;
      partitionTable := Some(sector);
      i := i + 1;
    }
  }

  /** `parse_gpt`: the reads up to the array, then the `while` loop over
      its sectors. */
  method ParseGpt(image: seq<byte>, sectorSize: nat) returns (r: Result<seq<GptEntry>>)
    ensures r == GptSpec(image, sectorSize)
  {
    var startSector, partitionTable, pos := SeekArray(image, sectorSize);
    if partitionTable.None? {
      return Err(PartitionTableUnbound);
    }
    var entries: seq<GptEntry> := [];
    var table := partitionTable.value;
    ghost var lba: nat := startSector;
    while table != []
      invariant table == SectorAt(image, sectorSize, lba) && pos == Cursor(image, sectorSize, lba + 1)
      invariant GptSpec(image, sectorSize) == ScanFrom(image, sectorSize, lba, entries)
      decreases |image| - Min(lba * sectorSize, |image|)
    {
      var outcome :- ScanTable(table, entries);
      match outcome {
        case Stopped(found) =>
          return Ok(found);
        case Continued(found) =>
          entries := found;
      }
      SectorProgress(image, sectorSize, lba);
      ReadSector(image, sectorSize, lba + 1, pos);
      table := Slice(image, pos, pos + sectorSize);
      pos := pos + |table|;
      lba := lba + 1;
    }
    return Err(NoSentinel);
  }

  // ------------------------------------------------ the reference scan

  /** The 128-byte entry windows of one sector from offset `i`; the last
      one is clipped when the sector does not end on an entry boundary. */
  function Windows(table: seq<byte>, i: nat): seq<seq<byte>>
    decreases |table| - i
  {
    if i >= |table| then [] else [Slice(table, i, i + EntrySize)] + Windows(table, i + EntrySize)
  }

  /** The entry windows of every sector from `lba` up to the end of the
      image, in order, as one stream. */
  function Stream(image: seq<byte>, sectorSize: nat, lba: nat): seq<seq<byte>>
    decreases |image| - Min(lba * sectorSize, |image|)
  {
    var table := SectorAt(image, sectorSize, lba);
    if table == [] then []
    else
      SectorProgress(image, sectorSize, lba);
      Windows(table, 0) + Stream(image, sectorSize, lba + 1)
  }

  /** One pass over a stream of windows: the entries before the first
      sentinel, numbered from `number`. */
  function Decode(windows: seq<seq<byte>>, number: nat): Result<seq<GptEntry>>
  {
    if windows == [] then Err(NoSentinel)
    else if IsSentinel(windows[0]) then Ok([])
    else
      var entry :- EntryOf(windows[0], number);
      Prepend([entry], Decode(windows[1..], number + 1))
  }

  /** The `for` loop over one sector is a pass over its windows: stopping
      at a sentinel ends the whole pass, and running off the sector hands
      the entries so far on to the windows after it. */
  lemma {:induction false} SectorIsDecode(table: seq<byte>, i: nat, entries: seq<GptEntry>, rest: seq<seq<byte>>)
    ensures var d := Prepend(entries, Decode(Windows(table, i) + rest, |entries|));
            match ScanSector(table, i, entries)
            case Err(e) => d == Err(e)
            case Ok(Stopped(found)) => d == Ok(found)
            case Ok(Continued(found)) => d == Prepend(found, Decode(rest, |found|))
    decreases |table| - i
  {
    if i < |table| {
      var w := Slice(table, i, i + EntrySize);
      var ws := Windows(table, i + EntrySize);
      assert Windows(table, i) + rest == [w] + (ws + rest);
      assert ([w] + (ws + rest))[1..] == ws + rest;
      if !IsSentinel(w) && EntryOf(w, |entries|).Ok? {
        var e := EntryOf(w, |entries|).value;
        SectorIsDecode(table, i + EntrySize, entries + [e], rest);
        PrependAssoc(entries, [e], Decode(ws + rest, |entries| + 1));
      } else {
        assert entries + [] == entries;
      }
    } else {
      assert Windows(table, i) + rest == rest;
    }
  }

  /** The `while` loop from sector `lba` on is one pass over the stream. */
  lemma {:induction false} ScanFromIsDecode(image: seq<byte>, sectorSize: nat, lba: nat, entries: seq<GptEntry>)
    ensures ScanFrom(image, sectorSize, lba, entries) ==
            Prepend(entries, Decode(Stream(image, sectorSize, lba), |entries|))
    decreases |image| - Min(lba * sectorSize, |image|)
  {
    var table := SectorAt(image, sectorSize, lba);
    if table != [] {
      SectorProgress(image, sectorSize, lba);
      var rest := Stream(image, sectorSize, lba + 1);
      SectorIsDecode(table, 0, entries, rest);
      var outcome := ScanSector(table, 0, entries);
      if outcome.Ok? && outcome.value.Continued? {
        ScanFromIsDecode(image, sectorSize, lba + 1, outcome.value.entries);
      }
    }
  }

  /** `parse_gpt` against the reference: the header at LBA 1 names the
      array's first sector at offset 0x48; a value of 0 or 1 fails, and
      otherwise the result is one pass over the entry windows of the
      sectors from there on, numbered from 0. */
  lemma {:induction false} GptIsReference(image: seq<byte>, sectorSize: nat)
    ensures GptSpec(image, sectorSize) ==
            if StartSectorOf(image, sectorSize) <= 1 then Err(PartitionTableUnbound)
            else Decode(Stream(image, sectorSize, StartSectorOf(image, sectorSize)), 0)
  {
    var start := StartSectorOf(image, sectorSize);
    if 1 < start {
      ScanFromIsDecode(image, sectorSize, start, []);
      PrependEmpty(Decode(Stream(image, sectorSize, start), 0));
    }
  }

  /** What window `w` contributes to a pass as the entry numbered
      `number`: nothing for a sentinel, else its entry or its failure. */
  function WindowView(w: seq<byte>, number: nat): Result<Option<GptEntry>>
  {
    if IsSentinel(w) then Ok(None)
    else
      match EntryOf(w, number)
      case Ok(entry) => Ok(Some(entry))
      case Err(e) => Err(e)
  }

  /** The view of every window, window `j` numbered `number + j`. */
  function WindowViews(windows: seq<seq<byte>>, number: nat): seq<Result<Option<GptEntry>>>
  {
    seq(|windows|, j requires 0 <= j < |windows| => WindowView(windows[j], number + j))
  }

  /** A pass over views: the entries before the first empty view, the
      first failure, or `NoSentinel` when the views run out. */
  function Collect(views: seq<Result<Option<GptEntry>>>): Result<seq<GptEntry>>
  {
    if views == [] then Err(NoSentinel)
    else
      match views[0]
      case Err(e) => Err(e)
      case Ok(None) => Ok([])
      case Ok(Some(entry)) => Prepend([entry], Collect(views[1..]))
  }

  lemma {:induction false} ViewsShift(windows: seq<seq<byte>>, number: nat)
    requires windows != []
    ensures WindowViews(windows, number) == [WindowView(windows[0], number)] + WindowViews(windows[1..], number + 1)
  {
    var whole, rest := WindowViews(windows, number), WindowViews(windows[1..], number + 1);
    forall j | 0 <= j < |rest|
      ensures whole[j + 1] == rest[j]
    {
      assert windows[1..][j] == windows[j + 1];
    }
  }

  /** The pass over windows is the pass over their views. */
  lemma {:induction false} DecodeIsCollect(windows: seq<seq<byte>>, number: nat)
    ensures Decode(windows, number) == Collect(WindowViews(windows, number))
    decreases |windows|
  {
    if windows != [] {
      ViewsShift(windows, number);
      var views := WindowViews(windows, number);
      assert views[1..] == WindowViews(windows[1..], number + 1);
      DecodeIsCollect(windows[1..], number + 1);
    }
  }

  /** The views before index `s` all hold entries. */
  predicate EntriesBefore(views: seq<Result<Option<GptEntry>>>, s: nat)
  {
    s <= |views| && forall j :: 0 <= j < s ==> views[j].Ok? && views[j].value.Some?
  }

  lemma {:induction false} EntriesBeforeTail(views: seq<Result<Option<GptEntry>>>, s: nat)
    requires 0 < s && EntriesBefore(views, s)
    ensures EntriesBefore(views[1..], s - 1)
  {
    assert forall j :: 0 <= j < s - 1 ==> views[1..][j] == views[j + 1];
  }

  /** A pass whose first `s` views hold entries and whose view `s` is
      empty yields exactly those `s` entries. */
  lemma {:induction false} CollectStops(views: seq<Result<Option<GptEntry>>>, s: nat)
    requires EntriesBefore(views, s) && s < |views| && views[s] == Ok(None)
    ensures Collect(views) == Ok(seq(s, j requires 0 <= j < s => views[j].value.value))
    decreases s
  {
    var found := seq(s, j requires 0 <= j < s => views[j].value.value);
    if s > 0 {
      EntriesBeforeTail(views, s);
      var tail := views[1..];
      assert tail[s - 1] == views[s];
      CollectStops(tail, s - 1);
      var rest := seq(s - 1, j requires 0 <= j < s - 1 => tail[j].value.value);
      assert found == [views[0].value.value] + rest;
    } else {
      assert found == [];
    }
  }

  /** A pass whose first `s` views hold entries and whose view `s` fails
      fails with that view's error. */
  lemma {:induction false} CollectFails(views: seq<Result<Option<GptEntry>>>, s: nat)
    requires EntriesBefore(views, s) && s < |views| && views[s].Err?
    ensures Collect(views) == Err(views[s].error)
    decreases s
  {
    if s > 0 {
      EntriesBeforeTail(views, s);
      assert views[1..][s - 1] == views[s];
      CollectFails(views[1..], s - 1);
    }
  }

  /** A pass whose views all hold entries runs off the end of the image. */
  lemma {:induction false} CollectWithoutSentinel(views: seq<Result<Option<GptEntry>>>)
    requires EntriesBefore(views, |views|)
    ensures Collect(views) == Err(NoSentinel)
    decreases |views|
  {
    if views != [] {
      EntriesBeforeTail(views, |views|);
      CollectWithoutSentinel(views[1..]);
    }
  }

  /** A window's view: empty exactly for a sentinel, failing exactly for a
      window clipped to an odd number of name bytes, and otherwise its
      entry with the given number. */
  lemma {:induction false} WindowViewMeaning(w: seq<byte>, number: nat)
    ensures WindowView(w, number) == Ok(None) <==> IsSentinel(w)
    ensures WindowView(w, number).Err? <==> !IsSentinel(w) && NameField < |w| < EntrySize && |w| % 2 == 1
    ensures WindowView(w, number).Ok? && WindowView(w, number).value.Some? ==>
              WindowView(w, number).value.value == EntryOf(w, number).value &&
              WindowView(w, number).value.value.number == number
  {
    if !IsSentinel(w) {
      EntryFailsIff(w, number);
    }
  }

  /** Once the entry array is located, `parse_gpt` is the pass over the
      views of the entry windows of the image, numbered from 0; with
      CollectStops, CollectFails, CollectWithoutSentinel and
      WindowViewMeaning this says which entries it returns and why it fails. */
  lemma {:induction false} GptIsCollect(image: seq<byte>, sectorSize: nat)
    requires StartSectorOf(image, sectorSize) > HeaderLba
    ensures GptSpec(image, sectorSize) ==
            Collect(WindowViews(Stream(image, sectorSize, StartSectorOf(image, sectorSize)), 0))
  {
    GptIsReference(image, sectorSize);
    DecodeIsCollect(Stream(image, sectorSize, StartSectorOf(image, sectorSize)), 0);
  }

  /** The entries of a successful pass are numbered densely from `number`
      and none has a zero start. */
  lemma {:induction false} DecodeNumbers(windows: seq<seq<byte>>, number: nat)
    requires Decode(windows, number).Ok?
    ensures var r := Decode(windows, number).value;
            forall j :: 0 <= j < |r| ==> r[j].number == number + j && r[j].start != 0
    decreases |windows|
  {
    if !IsSentinel(windows[0]) {
      DecodeNumbers(windows[1..], number + 1);
    }
  }

  /** What `parse_gpt` promises its caller: entries numbered 0, 1, ...
      across sectors, each with a non-zero start. */
  lemma {:induction false} GptEntries(image: seq<byte>, sectorSize: nat)
    requires GptSpec(image, sectorSize).Ok?
    ensures var r := GptSpec(image, sectorSize).value;
            forall j :: 0 <= j < |r| ==> r[j].number == j && r[j].start != 0
  {
    GptIsReference(image, sectorSize);
    DecodeNumbers(Stream(image, sectorSize, StartSectorOf(image, sectorSize)), 0);
  }
}
