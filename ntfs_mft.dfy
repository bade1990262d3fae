/** The MFT reader, `ParseMFT` (istat_ntfs.py:23-257): the boot sector gives
    the byte offset of the Master File Table, entry `a` is the 1024 bytes
    at `a * 1024` past it, and `istat_entry` decodes one entry by threading
    each attribute's end offset into the next attribute search. The disk
    image is a byte sequence read with clipped slices, as Python's `read`
    returns fewer bytes at the end of the file. */
module Mft {
  import opened Bytes
  import opened Results
  import opened NtfsAttrs
  import opened NtfsData

  const BootSectorSize: nat := 512
  const EntrySize: nat := 1024

  /** The three boot-sector fields the reader needs. */
  datatype Geometry = Geometry(bytesPerSector: nat, sectorsPerCluster: nat, mftStartCluster: nat)

  /** Bytes per sector at 11..13, sectors per cluster at 13, and the MFT's
      starting cluster at 48..56, each read little-endian and unsigned. */
  function GeometryOf(boot: seq<byte>): (g: Geometry)
    ensures g.bytesPerSector < 0x1_0000 && g.sectorsPerCluster < 0x100
    ensures g.mftStartCluster < 0x1_0000_0000_0000_0000
  {
    Pow256Monotone(|Slice(boot, 11, 13)|, 2);
    Pow256Monotone(|Slice(boot, 13, 14)|, 1);
    Pow256Monotone(|Slice(boot, 48, 56)|, 8);
    Pow256Table();
    Geometry(LE(Slice(boot, 11, 13)), LE(Slice(boot, 13, 14)), LE(Slice(boot, 48, 56)))
  }

  /** The MFT starts `mftStartCluster` clusters into the volume. */
  function MftByteOffset(g: Geometry): nat
  {
    g.mftStartCluster * g.sectorsPerCluster * g.bytesPerSector
  }

  /** The read of the boot sector is enough: every field lies in its first
      512 bytes, so the geometry of the (clipped) boot sector is that of
      the whole image. */
  lemma {:induction false} GeometryOfBootSector(image: seq<byte>)
    ensures GeometryOf(Slice(image, 0, BootSectorSize)) == GeometryOf(image)
  {
    SliceOfSlice(image, 0, BootSectorSize, 11, 13, 11, 13);
    SliceOfSlice(image, 0, BootSectorSize, 13, 14, 13, 14);
    SliceOfSlice(image, 0, BootSectorSize, 48, 56, 48, 56);
  }

  predicate GeometryFits(g: Geometry)
  {
    g.bytesPerSector < 0x1_0000 && g.sectorsPerCluster < 0x100 && g.mftStartCluster < 0x1_0000_0000_0000_0000
  }

  /** A boot sector holding the three fields of `g`. */
  function EncodeBoot(g: Geometry, base: seq<byte>): (boot: seq<byte>)
    requires GeometryFits(g) && 56 <= |base|
    ensures |boot| == |base|
  {
    Put(Put(Put(base, 11, EncodeLE(g.bytesPerSector, 2)), 13, EncodeLE(g.sectorsPerCluster, 1)),
        48, EncodeLE(g.mftStartCluster, 8))
  }

  /** Every geometry that fits its fields is read back from its boot sector,
      and with it the MFT offset. */
  lemma {:induction false} BootRoundTrip(g: Geometry, base: seq<byte>)
    requires GeometryFits(g) && 56 <= |base|
    ensures GeometryOf(EncodeBoot(g, base)) == g
    ensures MftByteOffset(GeometryOf(EncodeBoot(g, base))) == g.mftStartCluster * g.sectorsPerCluster * g.bytesPerSector
  {
    var b1 := Put(base, 11, EncodeLE(g.bytesPerSector, 2));
    var b2 := Put(b1, 13, EncodeLE(g.sectorsPerCluster, 1));
    var e8 := EncodeLE(g.mftStartCluster, 8);
    Pow256Table();
    PutLE(base, 11, g.bytesPerSector, 2);
    PutOther(b1, 13, EncodeLE(g.sectorsPerCluster, 1), 11, 13);
    PutOther(b2, 48, e8, 11, 13);
    PutLE(b1, 13, g.sectorsPerCluster, 1);
    PutOther(b2, 48, e8, 13, 14);
    PutLE(b2, 48, g.mftStartCluster, 8);
  }

  /** The dictionary `istat_entry` returns. */
  datatype Istat = Istat(header: EntryHeader, stdInfo: StdInfo, fileName: FileName, data: DataAttr)

  /** `istat_entry` on the raw bytes of one entry: the fix-up applied, then
      the header, `$STANDARD_INFORMATION` searched from offset 0x38,
      `$FILE_NAME` from the end of the standard information and `$DATA` from
      the end of the file name; the first failure aborts the decode. */
  function IstatOf(ext: Externals, raw: seq<byte>, address: nat): Result<Istat>
  {
    var entry := ext.applyFixup(raw);
    var header :- ParseEntryHeader(address, entry);
    var stdInfo :- ParseStdInfoAttr(ext, entry, FirstAttrOffset);
    var fileName :- ParseFileNameAttr(ext, entry, stdInfo.stdInfoEnd);
    var data :- DataAttrAt(ext, entry, fileName.fileNameEnd);
    Ok(Istat(header, stdInfo, fileName, data))
  }

  /** The decode succeeds exactly when the fixed-up entry reaches byte 22
      and the three searches, each started where the previous attribute
      ended, find their attributes and those decode; the result is then
      made of those decodes, and the header keeps the address. */
  lemma {:induction false} IstatThreading(ext: Externals, raw: seq<byte>, address: nat)
    ensures var entry := ext.applyFixup(raw);
            var s := ext.getAttrById(StdInfoType, entry, FirstAttrOffset);
            var f := if s.Some? then ext.getAttrById(FileNameType, entry, s.value.1) else None;
            var d := if f.Some? && FileNameOf(ext, f.value.0, f.value.1).Ok?
                     then ext.getAttrById(DataType, entry, f.value.1) else None;
            var ok := 22 < |entry| && s.Some? && f.Some? && FileNameOf(ext, f.value.0, f.value.1).Ok? &&
                      d.Some? && DataAttrOf(d.value.0).Ok?;
            (IstatOf(ext, raw, address).Ok? <==> ok) &&
            (ok ==> IstatOf(ext, raw, address).value ==
                      Istat(ParseEntryHeader(address, entry).value, StdInfoOf(ext, s.value.0, s.value.1),
                            FileNameOf(ext, f.value.0, f.value.1).value, DataAttrOf(d.value.0).value) &&
                    IstatOf(ext, raw, address).value.header.address == address)
  {
    var entry := ext.applyFixup(raw);
    var s := ext.getAttrById(StdInfoType, entry, FirstAttrOffset);
    if 22 < |entry| && s.Some? {
      assert ParseStdInfoAttr(ext, entry, FirstAttrOffset) == Ok(StdInfoOf(ext, s.value.0, s.value.1));
      StdInfoFields(ext, s.value.0, s.value.1);
    }
  }

  /** An entry too short for its allocation byte fails before any search. */
  lemma {:induction false} ShortEntryFails(ext: Externals, raw: seq<byte>, address: nat)
    requires |ext.applyFixup(raw)| <= 22
    ensures IstatOf(ext, raw, address) == Err(IndexPastEnd(22))
  {
  }

  /** `ParseMFT`: the image it reads from, the locator functions, and the
      two fields its constructor sets. */
  class ParseMft {
    const image: seq<byte>
    const ext: Externals
    var mftByteOffset: nat
    var bytesPerEntry: nat

    /** `ParseMFT.__init__`: reads the boot sector and computes the MFT offset. */
    constructor (image: seq<byte>, ext: Externals)
      ensures this.image == image && this.ext == ext
      ensures mftByteOffset == MftByteOffset(GeometryOf(image))
      ensures bytesPerEntry == EntrySize
    {
      this.image := image;
      this.ext := ext;
      var boot := Slice(image, 0, BootSectorSize);
      var bytesPerSector := LE(Slice(boot, 11, 13));
      var sectorsPerCluster := LE(Slice(boot, 13, 14));
      var mftStart := LE(Slice(boot, 48, 56));
      assert GeometryOf(image) == Geometry(bytesPerSector, sectorsPerCluster, mftStart) by {
        GeometryOfBootSector(image);
      }
      mftByteOffset := mftStart * sectorsPerCluster * bytesPerSector;
      bytesPerEntry := EntrySize;
    }

    /** Where entry `address` starts, assuming a contiguous MFT. */
    function EntryOffset(address: nat): nat
      reads this
    {
      mftByteOffset + address * bytesPerEntry
    }

    /** `istat_entry(address)`: reads the entry's 1024 bytes and decodes them. */
    method IstatEntry(address: nat) returns (r: Result<Istat>)
      ensures r == IstatOf(ext, Slice(image, EntryOffset(address), EntryOffset(address) + EntrySize), address)
    {
      var start := EntryOffset(address);
      var raw := Slice(image, start, start + EntrySize);
      var entry := ext.applyFixup(raw);
      var header :- ParseEntryHeader(address, entry);
      var stdInfo :- ParseStdInfoAttr(ext, entry, FirstAttrOffset);
      var fileName :- ParseFileNameAttr(ext, entry, stdInfo.stdInfoEnd);
      var data :- ParseDataAttr(ext, entry, fileName.fileNameEnd);
      return Ok(Istat(header, stdInfo, fileName, data));
    }
  }
}
