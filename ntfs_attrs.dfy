/** The fixed-offset decoders of an MFT entry (istat_ntfs.py:34-161): the
    entry header, `$STANDARD_INFORMATION` and `$FILE_NAME`. Every field is
    `unpack` (little-endian, unsigned) of a clipped slice, so the only ways
    these decoders fail are a single-byte index past the end (the header's
    allocation byte), an attribute the locator does not find, and an odd
    number of name bytes handed to the UTF-16LE decoder. */
module NtfsAttrs {
  import opened Bytes
  import opened Results

  /** The ntfs_utils helpers that istat_ntfs.py calls but whose code is not
      part of this model, taken as given functions: `apply_fixup(entry)`;
      `get_attr_by_id(type, entry, start)`, which gives the attribute's bytes
      and the offset just past it, or None when there is no such attribute;
      and `parse_time(attribute, (lo, hi))`. */
  datatype Externals = Externals(
    applyFixup: seq<byte> -> seq<byte>,
    getAttrById: (nat, seq<byte>, nat) -> Option<(seq<byte>, nat)>,
    parseTime: (seq<byte>, nat, nat) -> string)

  const StdInfoType: nat := 0x10
  const FileNameType: nat := 0x30
  const DataType: nat := 0x80

  /** `entry_start` of `parse_std_info_attr`: the first attribute of an entry. */
  const FirstAttrOffset: nat := 0x38

  /** The attribute located by `get_attr_by_id`, or the fault for a missing one. */
  function FindAttr(ext: Externals, typeId: nat, entry: seq<byte>, start: nat): (r: Result<(seq<byte>, nat)>)
    ensures r.Ok? <==> ext.getAttrById(typeId, entry, start).Some?
    ensures r.Ok? ==> r.value == ext.getAttrById(typeId, entry, start).value
    ensures r.Err? ==> r.error == AttributeNotFound(typeId)
  {
    match ext.getAttrById(typeId, entry, start)
    case None => Err(AttributeNotFound(typeId))
    case Some(found) => Ok(found)
  }

  // ---------------------------------------------------------------- header

  datatype EntryHeader = EntryHeader(address: nat, sequence: nat, logfileSeqNum: nat, links: nat, isAllocated: bool)

  /** `parse_entry_header`: the three counters are read first (clipped
      slices never fail), then `entry[22]`, which fails on an entry of 22
      bytes or fewer. */
  function ParseEntryHeader(address: nat, entry: seq<byte>): (r: Result<EntryHeader>)
    ensures r.Ok? <==> 22 < |entry|
    ensures r.Err? ==> r.error == IndexPastEnd(22)
    ensures r.Ok? ==> r.value.address == address && (r.value.isAllocated <==> entry[22] != 0)
    ensures r.Ok? ==> r.value.sequence < 0x1_0000 && r.value.links < 0x1_0000 &&
                      r.value.logfileSeqNum < 0x1_0000_0000_0000_0000
  {
    if |entry| <= 22 then Err(IndexPastEnd(22))
    else
      Ok(EntryHeader(address, LE(Slice(entry, 16, 18)), LE(Slice(entry, 8, 16)), LE(Slice(entry, 18, 20)),
                     entry[22] != 0))
  }

  /** What a header can hold: two 16-bit counters and a 64-bit sequence number. */
  predicate HeaderFits(h: EntryHeader)
  {
    h.sequence < 0x1_0000 && h.links < 0x1_0000 && h.logfileSeqNum < 0x1_0000_0000_0000_0000
  }

  /** `base` with the header fields of `h` written in. */
  function EncodeHeader(h: EntryHeader, base: seq<byte>): (e: seq<byte>)
    requires HeaderFits(h) && 23 <= |base|
    ensures |e| == |base|
  {
    var e1 := Put(base, 8, EncodeLE(h.logfileSeqNum, 8));
    var e2 := Put(e1, 16, EncodeLE(h.sequence, 2));
    var e3 := Put(e2, 18, EncodeLE(h.links, 2));
    Put(e3, 22, [if h.isAllocated then 1 else 0])
  }

  /** Decoding a written header gives it back, whatever the other bytes are. */
  lemma {:induction false} HeaderRoundTrip(h: EntryHeader, base: seq<byte>)
    requires HeaderFits(h) && 23 <= |base|
    ensures ParseEntryHeader(h.address, EncodeHeader(h, base)) == Ok(h)
  {
    EncodedHeaderCounters(h, base);
    EncodedHeaderFlag(h, base);
  }

  lemma {:induction false} EncodedHeaderCounters(h: EntryHeader, base: seq<byte>)
    requires HeaderFits(h) && 23 <= |base|
    ensures LE(Slice(EncodeHeader(h, base), 8, 16)) == h.logfileSeqNum
    ensures LE(Slice(EncodeHeader(h, base), 16, 18)) == h.sequence
    ensures LE(Slice(EncodeHeader(h, base), 18, 20)) == h.links
  {
    var e1 := Put(base, 8, EncodeLE(h.logfileSeqNum, 8));
    var e2 := Put(e1, 16, EncodeLE(h.sequence, 2));
    var e3 := Put(e2, 18, EncodeLE(h.links, 2));
    var flag: seq<byte> := [if h.isAllocated then 1 else 0];
    assert EncodeHeader(h, base) == Put(e3, 22, flag);
    Pow256Table();
    PutLE(base, 8, h.logfileSeqNum, 8);
    PutLE(e1, 16, h.sequence, 2);
    PutLE(e2, 18, h.links, 2);
    KeptField(e1, e2, e3, 16, EncodeLE(h.sequence, 2), 18, EncodeLE(h.links, 2), 22, flag, 8, 16);
    PutOther(e2, 18, EncodeLE(h.links, 2), 16, 18);
    PutOther(e3, 22, flag, 16, 18);
    PutOther(e3, 22, flag, 18, 20);
  }

  /** A window that the three later patches leave alone keeps its bytes. */
  lemma {:induction false} KeptField(s1: seq<byte>, s2: seq<byte>, s3: seq<byte>,
                                     off1: nat, b1: seq<byte>, off2: nat, b2: seq<byte>, off3: nat, b3: seq<byte>,
                                     lo: nat, hi: nat)
    requires off1 + |b1| <= |s1| && s2 == Put(s1, off1, b1) && (hi <= off1 || off1 + |b1| <= lo)
    requires off2 + |b2| <= |s2| && s3 == Put(s2, off2, b2) && (hi <= off2 || off2 + |b2| <= lo)
    requires off3 + |b3| <= |s3| && (hi <= off3 || off3 + |b3| <= lo)
    ensures Slice(Put(s3, off3, b3), lo, hi) == Slice(s1, lo, hi)
  {
    PutOther(s1, off1, b1, lo, hi);
    PutOther(s2, off2, b2, lo, hi);
    PutOther(s3, off3, b3, lo, hi);
  }

  lemma {:induction false} EncodedHeaderFlag(h: EntryHeader, base: seq<byte>)
    requires HeaderFits(h) && 23 <= |base|
    ensures EncodeHeader(h, base)[22] != 0 <==> h.isAllocated
  {
    var e1 := Put(base, 8, EncodeLE(h.logfileSeqNum, 8));
    var e2 := Put(e1, 16, EncodeLE(h.sequence, 2));
    var e3 := Put(e2, 18, EncodeLE(h.links, 2));
    var flag: seq<byte> := [if h.isAllocated then 1 else 0];
    assert EncodeHeader(h, base) == e3[..22] + flag + e3[23..];
  }

  // ------------------------------------------------ $STANDARD_INFORMATION

  datatype StdInfo = StdInfo(created: string, modified: string, mftModified: string, accessed: string,
                             flags: nat, stdInfoSize: nat, stdInfoEnd: nat)

  /** The fields of a located `$STANDARD_INFORMATION` attribute: the flags
      are `content[32:36]` with `content = attribute[24:]`, the size is
      `attribute[16:20]`, and the four times are `parse_time` of the windows
      0-8, 8-16, 16-24 and 24-32 of the attribute. */
  function StdInfoOf(ext: Externals, attribute: seq<byte>, end: nat): StdInfo
  {
    var content := Slice(attribute, 24, |attribute|);
    StdInfo(ext.parseTime(attribute, 0, 8), ext.parseTime(attribute, 8, 16),
            ext.parseTime(attribute, 16, 24), ext.parseTime(attribute, 24, 32),
            LE(Slice(content, 32, 36)), LE(Slice(attribute, 16, 20)), end)
  }

  /** The flags sit at attribute bytes 56..60, and both the flags and the
      size are 32-bit fields. */
  lemma {:induction false} StdInfoFields(ext: Externals, attribute: seq<byte>, end: nat)
    ensures StdInfoOf(ext, attribute, end).flags == LE(Slice(attribute, 56, 60))
    ensures StdInfoOf(ext, attribute, end).flags < 0x1_0000_0000
    ensures StdInfoOf(ext, attribute, end).stdInfoSize < 0x1_0000_0000
    ensures StdInfoOf(ext, attribute, end).stdInfoEnd == end
  {
    SliceOfSlice(attribute, 24, |attribute|, 32, 36, 56, Min(|attribute|, 60));
    LEBound4(Slice(attribute, 56, 60));
    LEBound4(Slice(attribute, 16, 20));
  }

  lemma {:induction false} LEBound1(s: seq<byte>)
    requires |s| <= 1
    ensures LE(s) < 256
  {
    Pow256Monotone(|s|, 1);
    Pow256Table();
  }

  lemma {:induction false} LEBound4(s: seq<byte>)
    requires |s| <= 4
    ensures LE(s) < 0x1_0000_0000
  {
    Pow256Monotone(|s|, 4);
    Pow256Table();
  }

  /** `parse_std_info_attr(entry, entry_start)`. */
  function ParseStdInfoAttr(ext: Externals, entry: seq<byte>, entryStart: nat): (r: Result<StdInfo>)
    ensures r.Ok? <==> ext.getAttrById(StdInfoType, entry, entryStart).Some?
    ensures r.Err? ==> r.error == AttributeNotFound(StdInfoType)
    ensures r.Ok? ==> r.value.stdInfoEnd == ext.getAttrById(StdInfoType, entry, entryStart).value.1
  {
    var (attribute, end) :- FindAttr(ext, StdInfoType, entry, entryStart);
    Ok(StdInfoOf(ext, attribute, end))
  }

  /** An attribute with the given size and flags written in decodes to them. */
  lemma {:induction false} StdInfoRoundTrip(ext: Externals, base: seq<byte>, size: nat, flags: nat, end: nat)
    requires 60 <= |base| && size < 0x1_0000_0000 && flags < 0x1_0000_0000
    ensures var a := Put(Put(base, 16, EncodeLE(size, 4)), 56, EncodeLE(flags, 4));
            StdInfoOf(ext, a, end).stdInfoSize == size && StdInfoOf(ext, a, end).flags == flags
  {
    var a1 := Put(base, 16, EncodeLE(size, 4));
    var a := Put(a1, 56, EncodeLE(flags, 4));
    Pow256Table();
    PutLE(base, 16, size, 4);
    PutOther(a1, 56, EncodeLE(flags, 4), 16, 20);
    PutLE(a1, 56, flags, 4);
    StdInfoFields(ext, a, end);
  }

  // ------------------------------------------------------------ $FILE_NAME

  const Space: CodeUnit := 0x20

  /** `s.lstrip(" ")`. */
  function TrimStart(u: seq<CodeUnit>): (r: seq<CodeUnit>)
    ensures |r| <= |u| && r == u[|u| - |r|..]
    ensures r == [] || r[0] != Space
    ensures forall k :: 0 <= k < |u| - |r| ==> u[k] == Space
  {
    if u != [] && u[0] == Space then TrimStart(u[1..]) else u
  }

  /** `s.rstrip(" ")`. */
  function TrimEnd(u: seq<CodeUnit>): (r: seq<CodeUnit>)
    ensures |r| <= |u| && r == u[..|r|]
    ensures r == [] || r[|r| - 1] != Space
    ensures forall k :: |r| <= k < |u| ==> u[k] == Space
  {
    if u != [] && u[|u| - 1] == Space then TrimEnd(u[..|u| - 1]) else u
  }

  /** `s.strip(" ")`: both runs of spaces removed. */
  function Strip(u: seq<CodeUnit>): seq<CodeUnit>
  {
    TrimEnd(TrimStart(u))
  }

  /** Where the kept part of `Strip(u)` starts. */
  function StripStart(u: seq<CodeUnit>): nat
  {
    |u| - |TrimStart(u)|
  }

  /** Strip keeps one contiguous window of the text. */
  lemma {:induction false} StripIsWindow(u: seq<CodeUnit>)
    ensures StripStart(u) + |Strip(u)| <= |u|
    ensures Strip(u) == u[StripStart(u)..StripStart(u) + |Strip(u)|]
  {
    var t := TrimStart(u);
    assert t == u[|u| - |t|..];
  }

  /** What Strip drops on either side of that window is all spaces. */
  lemma {:induction false} StripDropsSpaces(u: seq<CodeUnit>)
    ensures forall k :: 0 <= k < StripStart(u) ==> u[k] == Space
    ensures forall k :: StripStart(u) + |Strip(u)| <= k < |u| ==> u[k] == Space
  {
    var t := TrimStart(u);
    var i := |u| - |t|;
    forall k | i + |Strip(u)| <= k < |u| ensures u[k] == Space {
      assert u[k] == t[k - i];
    }
  }

  /** The window is maximal: it neither starts nor ends with a space. */
  lemma {:induction false} StripBorders(u: seq<CodeUnit>)
    ensures Strip(u) == [] || (Strip(u)[0] != Space && Strip(u)[|Strip(u)| - 1] != Space)
  {
    var t := TrimStart(u);
    if Strip(u) != [] {
      assert Strip(u)[0] == t[0];
    }
  }

  /** Text without surrounding spaces is left as it is. */
  lemma {:induction false} StripClean(u: seq<CodeUnit>)
    requires u == [] || (u[0] != Space && u[|u| - 1] != Space)
    ensures Strip(u) == u
  {
  }

  /** Stripping twice is stripping once. */
  lemma {:induction false} StripIdempotent(u: seq<CodeUnit>)
    ensures Strip(Strip(u)) == Strip(u)
  {
    StripBorders(u);
    StripClean(Strip(u));
  }

  /** Python's `s[:n]`. */
  function Take<T>(s: seq<T>, n: nat): (r: seq<T>)
    ensures |r| == Min(n, |s|) && r == s[..|r|]
  {
    if n <= |s| then s[..n] else s
  }

  datatype FileName = FileName(name: seq<CodeUnit>, parent: nat, sequence: nat, allocatedSize: nat, actualSize: nat,
                               created: string, modified: string, mftModified: string, accessed: string,
                               flags: nat, fileNameSize: nat, fileNameEnd: nat)

  /** The fields of a located `$FILE_NAME` attribute, with `content =
      attribute[24:]`: the name length is `content[64:65]`, the attribute
      size is `66 + 2 * name_length`, and the name is `content[66:size]`
      decoded as UTF-16LE, stripped of spaces and cut to `name_length`. */
  function FileNameOf(ext: Externals, attribute: seq<byte>, end: nat): (r: Result<FileName>)
    ensures r.Err? ==> r.error.OddNameBytes?
    ensures r.Ok? ==> 66 <= r.value.fileNameSize <= 576
    ensures r.Ok? ==> 2 * |r.value.name| <= r.value.fileNameSize - 66
    ensures r.Ok? ==> r.value.fileNameEnd == end
  {
    var content := Slice(attribute, 24, |attribute|);
    var nameBytes := NameBytesOf(content);
    if |nameBytes| % 2 != 0 then Err(OddNameBytes(|nameBytes|))
    else Ok(FileNameRecord(ext, attribute, content, DecodeName(nameBytes, NameLengthField(content)), end))
  }

  /** `name_length`: the content byte 64, read as 0 past the end. */
  function NameLengthField(content: seq<byte>): (n: nat)
    ensures n < 256
  {
    LEBound1(Slice(content, 64, 65));
    LE(Slice(content, 64, 65))
  }

  /** `content[66:file_name_size]`, the bytes handed to the UTF-16LE decoder. */
  function NameBytesOf(content: seq<byte>): (b: seq<byte>)
    ensures |b| <= 2 * NameLengthField(content)
  {
    Slice(content, 66, 66 + 2 * NameLengthField(content))
  }

  /** The record built once the name bytes decode to `name`. */
  function FileNameRecord(ext: Externals, attribute: seq<byte>, content: seq<byte>, name: seq<CodeUnit>, end: nat): (f: FileName)
    requires |name| <= NameLengthField(content)
    ensures f.name == name && f.fileNameEnd == end
    ensures f.fileNameSize == 66 + 2 * NameLengthField(content)
  {
    var nameLength := NameLengthField(content);
    FileName(name,
             LE(Slice(content, 0, 6)), LE(Slice(content, 6, 8)),
             LE(Slice(content, 40, 48)), LE(Slice(content, 48, 56)),
             ext.parseTime(attribute, 8, 16), ext.parseTime(attribute, 16, 24),
             ext.parseTime(attribute, 24, 32), ext.parseTime(attribute, 32, 40),
             LE(Slice(content, 56, 60)), 66 + 2 * nameLength, end)
  }

  /** `bytes.decode("utf-16-le").strip(" ")[:name_length]`. */
  function DecodeName(nameBytes: seq<byte>, nameLength: nat): (name: seq<CodeUnit>)
    requires |nameBytes| % 2 == 0
    ensures |name| <= nameLength && 2 * |name| <= |nameBytes|
  {
    Take(Strip(Utf16Units(nameBytes)), nameLength)
  }

  /** `parse_file_name_attr(entry, prev_entry_end)`. */
  function ParseFileNameAttr(ext: Externals, entry: seq<byte>, prevEntryEnd: nat): (r: Result<FileName>)
    ensures ext.getAttrById(FileNameType, entry, prevEntryEnd).None? ==> r == Err(AttributeNotFound(FileNameType))
    ensures r.Ok? ==> r.value.fileNameEnd == ext.getAttrById(FileNameType, entry, prevEntryEnd).value.1
  {
    var (attribute, end) :- FindAttr(ext, FileNameType, entry, prevEntryEnd);
    FileNameOf(ext, attribute, end)
  }

  /** The name length byte: attribute offset 88, read as 0 when the
      attribute is shorter. */
  function NameLengthOf(attribute: seq<byte>): nat
  {
    if 88 < |attribute| then attribute[88] else 0
  }

  /** The size is 66 plus two bytes per code unit of the recorded length. */
  lemma {:induction false} FileNameSize(ext: Externals, attribute: seq<byte>, end: nat)
    requires FileNameOf(ext, attribute, end).Ok?
    ensures FileNameOf(ext, attribute, end).value.fileNameSize == 66 + 2 * NameLengthOf(attribute)
  {
    NameLengthWindow(attribute);
  }

  lemma {:induction false} NameLengthWindow(attribute: seq<byte>)
    ensures NameLengthField(Slice(attribute, 24, |attribute|)) == NameLengthOf(attribute)
  {
    SliceOfSlice(attribute, 24, |attribute|, 64, 65, 88, Min(|attribute|, 89));
    if 88 < |attribute| {
      assert Slice(attribute, 88, 89) == [attribute[88]];
      LEOne(attribute[88]);
    }
  }

  /** Decoding fails exactly when the attribute ends inside the name,
      an odd number of bytes after the name's start at offset 90. */
  lemma {:induction false} FileNameFailsIff(ext: Externals, attribute: seq<byte>, end: nat)
    ensures FileNameOf(ext, attribute, end).Err? <==>
            90 < |attribute| < 90 + 2 * NameLengthOf(attribute) && |attribute| % 2 == 1
  {
    var n := NameLengthOf(attribute);
    var len := NameBytesLength(ext, attribute, end);
    if 90 < |attribute| && 0 < n {
      if |attribute| < 90 + 2 * n {
        Parity(|attribute| - 90, |attribute|, 45);
      } else {
        Parity(0, 2 * n, n);
      }
    }
  }

  /** How many name bytes the decoder hands to UTF-16LE. */
  lemma {:induction false} NameBytesLength(ext: Externals, attribute: seq<byte>, end: nat) returns (len: nat)
    ensures FileNameOf(ext, attribute, end).Err? <==> len % 2 == 1
    ensures len == if 90 < |attribute| && 0 < NameLengthOf(attribute)
                   then Min(|attribute|, 90 + 2 * NameLengthOf(attribute)) - 90 else 0
  {
    var n := NameLengthOf(attribute);
    NameLengthWindow(attribute);
    var content := Slice(attribute, 24, |attribute|);
    len := |NameBytesOf(content)|;
    NameBytesCount(content, n);
    FileNameErr(ext, attribute, end);
    ClippedLength(|attribute|, |content|, n, len);
  }

  lemma {:induction false} NameBytesCount(content: seq<byte>, n: nat)
    requires NameLengthField(content) == n
    ensures |NameBytesOf(content)| == if 66 < 66 + 2 * n && 66 < |content| then Min(66 + 2 * n, |content|) - 66 else 0
  {
  }

  lemma {:induction false} FileNameErr(ext: Externals, attribute: seq<byte>, end: nat)
    ensures var content := Slice(attribute, 24, |attribute|);
            FileNameOf(ext, attribute, end).Err? <==> |NameBytesOf(content)| % 2 == 1
  {
  }

  lemma {:induction false} ClippedLength(total: nat, contentLength: nat, n: nat, len: nat)
    requires contentLength == if 24 < total then total - 24 else 0
    requires len == if 66 < 66 + 2 * n && 66 < contentLength then Min(66 + 2 * n, contentLength) - 66 else 0
    ensures len == if 90 < total && 0 < n then Min(total, 90 + 2 * n) - 90 else 0
  {
  }

  lemma {:induction false} Parity(x: int, y: int, k: int)
    requires y == x + 2 * k
    ensures x % 2 == y % 2
  {
  }

  /** The fields a `$FILE_NAME` encoder writes. */
  datatype FileNameFields = FileNameFields(name: seq<CodeUnit>, parent: nat, sequence: nat,
                                           allocatedSize: nat, actualSize: nat, flags: nat)

  predicate FileNameFits(f: FileNameFields)
  {
    |f.name| < 256 && (f.name == [] || (f.name[0] != Space && f.name[|f.name| - 1] != Space)) &&
    f.parent < Pow256(6) && f.sequence < Pow256(2) && f.allocatedSize < Pow256(8) &&
    f.actualSize < Pow256(8) && f.flags < Pow256(4)
  }

  /** The first 64 content bytes: every fixed field. */
  function EncodeFileNameHead(f: FileNameFields): (h: seq<byte>)
    ensures |h| == 64
  {
    EncodeLE(f.parent, 6) + EncodeLE(f.sequence, 2) + seq(32, _ => 0) +
    EncodeLE(f.allocatedSize, 8) + EncodeLE(f.actualSize, 8) + EncodeLE(f.flags, 4) + seq(4, _ => 0)
  }

  /** The attribute content (from attribute offset 24 on) holding `f`. */
  function EncodeFileNameContent(f: FileNameFields): (c: seq<byte>)
    requires FileNameFits(f)
    ensures |c| == 66 + 2 * |f.name|
  {
    EncodeFileNameHead(f) + [|f.name|, 0] + Utf16Bytes(f.name)
  }

  lemma {:induction false} HeadFields(f: FileNameFields)
    requires FileNameFits(f)
    ensures var h := EncodeFileNameHead(f);
            LE(Slice(h, 0, 6)) == f.parent && LE(Slice(h, 6, 8)) == f.sequence &&
            LE(Slice(h, 40, 48)) == f.allocatedSize && LE(Slice(h, 48, 56)) == f.actualSize &&
            LE(Slice(h, 56, 60)) == f.flags
  {
    var p1, p2, z32 := EncodeLE(f.parent, 6), EncodeLE(f.sequence, 2), seq(32, _ => 0);
    var p3, p4, p5 := EncodeLE(f.allocatedSize, 8), EncodeLE(f.actualSize, 8), EncodeLE(f.flags, 4);
    HeadLayout(EncodeFileNameHead(f), p1, p2, z32, p3, p4, p5, seq(4, _ => 0));
    LEOfEncodeLE(f.parent, 6);
    LEOfEncodeLE(f.sequence, 2);
    LEOfEncodeLE(f.allocatedSize, 8);
    LEOfEncodeLE(f.actualSize, 8);
    LEOfEncodeLE(f.flags, 4);
  }

  lemma {:induction false} HeadLayout(c: seq<byte>, p1: seq<byte>, p2: seq<byte>, z32: seq<byte>,
                                      p3: seq<byte>, p4: seq<byte>, p5: seq<byte>, tail: seq<byte>)
    requires |p1| == 6 && |p2| == 2 && |z32| == 32 && |p3| == 8 && |p4| == 8 && |p5| == 4
    requires c == p1 + p2 + z32 + p3 + p4 + p5 + tail
    ensures Slice(c, 0, 6) == p1 && Slice(c, 6, 8) == p2 && Slice(c, 40, 48) == p3 &&
            Slice(c, 48, 56) == p4 && Slice(c, 56, 60) == p5
  {
  }

  /** A window inside the first part of a concatenation. */
  lemma {:induction false} SliceOfPrefix(x: seq<byte>, y: seq<byte>, lo: nat, hi: nat)
    requires lo <= hi <= |x|
    ensures Slice(x + y, lo, hi) == Slice(x, lo, hi)
  {
  }

  /** The part after a prefix, as a slice. */
  lemma {:induction false} SliceOfSuffix(x: seq<byte>, y: seq<byte>)
    ensures Slice(x + y, |x|, |x + y|) == y
  {
  }

  lemma {:induction false} ContentFields(f: FileNameFields)
    requires FileNameFits(f)
    ensures var c := EncodeFileNameContent(f);
            LE(Slice(c, 0, 6)) == f.parent && LE(Slice(c, 6, 8)) == f.sequence &&
            LE(Slice(c, 40, 48)) == f.allocatedSize && LE(Slice(c, 48, 56)) == f.actualSize &&
            LE(Slice(c, 56, 60)) == f.flags &&
            LE(Slice(c, 64, 65)) == |f.name| && Slice(c, 66, 66 + 2 * |f.name|) == Utf16Bytes(f.name)
  {
    var h, n, body := EncodeFileNameHead(f), |f.name|, Utf16Bytes(f.name);
    var m: seq<byte> := [n, 0];
    HeadFields(f);
    HeadInContent(h, m, body, 0, 6);
    HeadInContent(h, m, body, 6, 8);
    HeadInContent(h, m, body, 40, 48);
    HeadInContent(h, m, body, 48, 56);
    HeadInContent(h, m, body, 56, 60);
    NameLayout(h, n, body, 66 + 2 * |f.name|);
    LEOne(n);
  }

  lemma {:induction false} HeadInContent(h: seq<byte>, m: seq<byte>, body: seq<byte>, lo: nat, hi: nat)
    requires lo <= hi <= |h|
    ensures Slice(h + m + body, lo, hi) == Slice(h, lo, hi)
  {
    SliceOfPrefix(h + m, body, lo, hi);
    SliceOfPrefix(h, m, lo, hi);
  }

  lemma {:induction false} NameLayout(h: seq<byte>, n: byte, body: seq<byte>, hi: nat)
    requires |h| == 64 && hi == 66 + |body|
    ensures Slice(h + [n, 0] + body, 64, 65) == [n]
    ensures Slice(h + [n, 0] + body, 66, hi) == body
  {
  }

  /** A written `$FILE_NAME` attribute decodes to the fields written, with
      the size `66 + 2 * |name|`, whatever its 24 header bytes hold. */
  lemma {:induction false} FileNameRoundTrip(ext: Externals, header: seq<byte>, f: FileNameFields, end: nat)
    requires FileNameFits(f) && |header| == 24
    ensures var a := header + EncodeFileNameContent(f);
            FileNameOf(ext, a, end) ==
            Ok(FileName(f.name, f.parent, f.sequence, f.allocatedSize, f.actualSize,
                        ext.parseTime(a, 8, 16), ext.parseTime(a, 16, 24),
                        ext.parseTime(a, 24, 32), ext.parseTime(a, 32, 40),
                        f.flags, 66 + 2 * |f.name|, end))
  {
    ContentFields(f);
    FileNameOfContent(ext, header, EncodeFileNameContent(f), f, end);
  }

  /** Any content whose fields hold those of `f` decodes to `f`. */
  lemma {:induction false} FileNameOfContent(ext: Externals, header: seq<byte>, c: seq<byte>, f: FileNameFields, end: nat)
    requires FileNameFits(f) && |header| == 24
    requires LE(Slice(c, 0, 6)) == f.parent && LE(Slice(c, 6, 8)) == f.sequence &&
             LE(Slice(c, 40, 48)) == f.allocatedSize && LE(Slice(c, 48, 56)) == f.actualSize &&
             LE(Slice(c, 56, 60)) == f.flags &&
             LE(Slice(c, 64, 65)) == |f.name| && Slice(c, 66, 66 + 2 * |f.name|) == Utf16Bytes(f.name)
    ensures var a := header + c;
            FileNameOf(ext, a, end) ==
            Ok(FileName(f.name, f.parent, f.sequence, f.allocatedSize, f.actualSize,
                        ext.parseTime(a, 8, 16), ext.parseTime(a, 16, 24),
                        ext.parseTime(a, 24, 32), ext.parseTime(a, 32, 40),
                        f.flags, 66 + 2 * |f.name|, end))
  {
    assert NameLengthField(c) == |f.name|;
    assert NameBytesOf(c) == Utf16Bytes(f.name);
    DecodeNameOfClean(f.name);
    FileNameOfSuffix(ext, header, c, end);
    RecordOfContent(ext, header + c, c, f, end);
  }

  /** An attribute made of 24 header bytes and content `c` decodes as `c` does. */
  lemma {:induction false} FileNameOfSuffix(ext: Externals, header: seq<byte>, c: seq<byte>, end: nat)
    requires |header| == 24 && |NameBytesOf(c)| % 2 == 0
    ensures FileNameOf(ext, header + c, end) ==
            Ok(FileNameRecord(ext, header + c, c, DecodeName(NameBytesOf(c), NameLengthField(c)), end))
  {
    SliceOfSuffix(header, c);
  }

  lemma {:induction false} RecordOfContent(ext: Externals, a: seq<byte>, c: seq<byte>, f: FileNameFields, end: nat)
    requires FileNameFits(f)
    requires LE(Slice(c, 0, 6)) == f.parent && LE(Slice(c, 6, 8)) == f.sequence &&
             LE(Slice(c, 40, 48)) == f.allocatedSize && LE(Slice(c, 48, 56)) == f.actualSize &&
             LE(Slice(c, 56, 60)) == f.flags
    requires NameLengthField(c) == |f.name|
    ensures FileNameRecord(ext, a, c, f.name, end) ==
            FileName(f.name, f.parent, f.sequence, f.allocatedSize, f.actualSize,
                     ext.parseTime(a, 8, 16), ext.parseTime(a, 16, 24),
                     ext.parseTime(a, 24, 32), ext.parseTime(a, 32, 40),
                     f.flags, 66 + 2 * |f.name|, end)
  {
  }

  /** A name without surrounding spaces survives encoding and decoding. */
  lemma {:induction false} DecodeNameOfClean(name: seq<CodeUnit>)
    requires name == [] || (name[0] != Space && name[|name| - 1] != Space)
    ensures DecodeName(Utf16Bytes(name), |name|) == name
  {
    Utf16RoundTrip(name);
    StripClean(name);
  }

  /** A name of four code units gives a `$FILE_NAME` size of 74 bytes. */
  lemma {:induction false} FileNameSizeOfFourUnits(ext: Externals, header: seq<byte>, f: FileNameFields, end: nat)
    requires FileNameFits(f) && |header| == 24 && |f.name| == 4
    ensures FileNameOf(ext, header + EncodeFileNameContent(f), end).Ok?
    ensures FileNameOf(ext, header + EncodeFileNameContent(f), end).value.fileNameSize == 74
  {
    FileNameRoundTrip(ext, header, f, end);
  }
}
