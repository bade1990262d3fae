# NTFS MFT entry and partition table decoders

This project models two byte-level forensic decoders in Dafny:

- the `istat`-style reader of an NTFS Master File Table entry, `istat_ntfs.py`;
- the MBR and GPT partition table scanners, `partition_tables.py`.

Disk images, boot sectors, entries and attributes are byte sequences (`seq<byte>`). Python's clipped slicing is `Bytes.Slice`. `unpack` / `int.from_bytes(..., "little")` is `Bytes.LE`. The exceptions the Python code can raise become `Err` values of the `Results.Fault` type:

- an `IndexError` on a single byte;
- a missing attribute;
- an odd number of bytes handed to the UTF-16LE decoder;
- an unbound `partition_table`;
- the endless loop at the end of a GPT image with no sentinel entry.

Modules, one per file:

| file | module | models |
|---|---|---|
| results.dfy | `Results` | the fault kinds, `Option`, `Result` with `:-` support |
| bytes.dfy | `Bytes` | clipped slices, little-endian unsigned values (`unpack`), UTF-16LE code units, an encoder used to state round trips |
| runlist.dfy | `RunList` | the run-list format of a non-resident `$DATA` attribute: records, runs, the cluster list, an encoder and the round trip |
| ntfs_attrs.dfy | `NtfsAttrs` | `parse_entry_header`, `parse_std_info_attr`, `parse_file_name_attr` |
| ntfs_data.dfy | `NtfsData` | `parse_data_attr`, with its run-list `while` loop and the inner `for` loop as methods |
| ntfs_mft.dfy | `Mft` | the `ParseMFT` class: the constructor's geometry arithmetic and `istat_entry` |
| mbr.dfy | `Mbr` | `parse_mbr`, its `hex()` type text, and a reference definition read slot by slot |
| gpt.dfy | `Gpt` | the type GUID's mixed-endian byte order, the name decoding, one entry, the sector cursor, and `parse_gpt` with a reference definition |

Each loop of the source is a Dafny `method` with a `while` or `for` loop. Each such method is proved equal to a specification function. The properties are then proved about those functions:

- `DecodeRunList` and `AppendRange` for `parse_data_attr`;
- `ParseMbr`;
- `SeekArray`, `ScanTable` and `ParseGpt` for `parse_gpt`.

`ParseMFT` is a class. Its constructor sets `mftByteOffset` and `bytesPerEntry`. `IstatEntry` reads one entry from the image and decodes it.

## Model

| member | source | states |
|---|---|---|
| Bytes.Slice | istat_ntfs.py:28-30 | a slice `s[lo:hi]` is clipped to the sequence: its length is `min(hi, len(s)) - lo` when `lo < hi` and `lo < len(s)`, and 0 otherwise; element `k` is `s[lo + k]`; within bounds it is the ordinary subsequence |
| Bytes.SliceOfSlice | istat_ntfs.py:87-92 | a slice of a slice is one slice of the original, with the bounds added and clipped (`content[32:36]` of `attribute[24:]` is `attribute[56:60]`) |
| Bytes.LE | istat_ntfs.py:17-20 | `unpack` is unsigned: the value of `n` bytes is below `256^n`, and the empty slice unpacks to 0 |
| Bytes.LEIsPositionalSum | istat_ntfs.py:17-20 | `unpack` is little-endian: the value is the sum of `b[i] * 256^i` |
| Bytes.LEAppend | istat_ntfs.py:17-20 | the value of `s + t` is `LE(s) + 256^len(s) * LE(t)` |
| Bytes.LEOfEncodeLE | istat_ntfs.py:17-20 | every value below `256^n`, written in `n` little-endian bytes, unpacks to itself |
| Bytes.EncodeLEOfLE | istat_ntfs.py:17-20 | every byte string is the `len(s)`-byte encoding of its own value, so `unpack` is injective per length |
| Bytes.Utf16RoundTrip | istat_ntfs.py:137 | decoding UTF-16LE bytes into 16-bit code units inverts the encoding |
| Bytes.Utf16Units | istat_ntfs.py:137 | definition: little-endian 16-bit code units of an even number of bytes, unit k being `b[2k] + 256 * b[2k+1]`; its property is Utf16RoundTrip |
| RunList.NibbleMasks | istat_ntfs.py:199-202 | `b & 0x0F` is `b % 16` and `(b & 0xF0) >> 4` is `b / 16`, the nibbles the model uses |
| RunList.CodeAt | istat_ntfs.py:199-212 | the record at `off` has length and delta byte counts below 16, with the header byte equal to `16 * high + low` |
| RunList.CodeAtReadsSlices | istat_ntfs.py:199-212 | the record's length is `unpack(a[off+1 : off+low+1])` and its delta is `unpack(a[off+1+low : off+1+low+high])`, clipped and unsigned |
| RunList.CodeAtCanonical | istat_ntfs.py:205-212 | a non-zero header byte gives a record with at least one field byte, which occupies `1 + low + high >= 2` bytes |
| RunList.DecodeCodes | istat_ntfs.py:195-220 | definition: the run records read from the cursor up to the `0x00` header, failing when the cursor leaves the attribute; its properties are DecodeStopsAtZero, DecodedShape, DecodeOfEncode, EncodeOfDecode |
| RunList.RunsOf | istat_ntfs.py:208-212 | definition: the runs of the decoded records, each starting at the running `cluster_offset` after adding its delta and as long as its decoded length; its properties are RunStartIsDeltaSum, StartsNonDecreasing, ClustersCons |
| RunList.DecodeStopsAtZero | istat_ntfs.py:196-206 | decoding from `off` ends with no more records exactly when the byte at `off` exists and is zero; a failure with the cursor inside the attribute means a non-zero header |
| RunList.DecodedShape | istat_ntfs.py:196-220 | every decoded record is canonical; each record takes at least two bytes and a zero byte follows them inside the attribute, so `off + 2 * n < len(a)` for `n` records; the only failure is an index at or past the end of the attribute |
| RunList.RunStartIsDeltaSum | istat_ntfs.py:193-212 | the start of run `i` is the running sum of the first `i + 1` unsigned deltas |
| RunList.StartsNonDecreasing | istat_ntfs.py:193-212 | no run starts before the initial pointer, and later runs never start before earlier ones |
| RunList.RunClusters | istat_ntfs.py:217-218 | one run expands to `range(start, start + length)`: `length` clusters, the `k`-th being `start + k` |
| RunList.Clusters | istat_ntfs.py:217-218 | the cluster list has as many entries as the sum of the run lengths |
| RunList.ClustersMembership | istat_ntfs.py:217-218 | a cluster is in the list exactly when some run covers it |
| RunList.ClustersFrom | istat_ntfs.py:192-222 | definition: the clusters the loop appends from a cursor and a cluster pointer; its properties are ClustersFromIsDecoded, AdvanceRecord, ZeroHeader, PastTheEnd |
| RunList.SectorList | istat_ntfs.py:192-193 | definition: `sector_list` with the cluster pointer starting at 0; its properties are ClustersFromIsDecoded, WorkedExample, and DecodeRunList computes it |
| RunList.ClustersFromIsDecoded | istat_ntfs.py:192-222 | the loop's on-the-fly expansion is the same as decoding every record, turning the records into runs and concatenating their clusters; both succeed together and fail with the same fault |
| RunList.DecodeOfEncode | istat_ntfs.py:196-220 | canonical records, encoded and placed anywhere in an attribute, decode back to the same records |
| RunList.DecodeOfEncodeAt | istat_ntfs.py:196-220 | the same, for an attribute holding the encoding at offset `off` |
| RunList.EncodeOfDecode | istat_ntfs.py:196-220 | a successful decode returns canonical records whose encoding is exactly the attribute's bytes from `off` |
| RunList.WorkedExample | istat_ntfs.py:195-222 | the run list `21 18 34 00 00` yields the clusters 52 to 75 |
| RunList.MissingTerminator | istat_ntfs.py:195-220 | the same run without its own closing `0x00` header, `21 18 34 00`, fails with `IndexPastEnd(4)`: the next header byte lies past the end of the bytes |
| NtfsAttrs.ParseEntryHeader | istat_ntfs.py:34-62 | the header decodes exactly when `entry[22]` exists (otherwise `IndexError` at 22); the address is returned unchanged; `allocated` holds iff `entry[22] != 0`; the counters are 16-, 16- and 64-bit |
| NtfsAttrs.HeaderRoundTrip | istat_ntfs.py:51-61 | every header whose counters fit, written at bytes 8-16, 16-18, 18-20 and 22, decodes back to itself |
| NtfsAttrs.StdInfoFields | istat_ntfs.py:87-93 | the flags are attribute bytes 56-60, the flags and the size are 32-bit, and the end offset is the one the locator gave |
| NtfsAttrs.StdInfoOf | istat_ntfs.py:87-103 | definition: the fields of a located `$STANDARD_INFORMATION` attribute; its properties are StdInfoFields and StdInfoRoundTrip |
| NtfsAttrs.ParseStdInfoAttr | istat_ntfs.py:65-103 | the decode succeeds exactly when the attribute is found from `entry_start`; the fault names `0x10`; `std_info_end` is the locator's end offset |
| NtfsAttrs.StdInfoRoundTrip | istat_ntfs.py:92-93 | a size and flags written at bytes 16-20 and 56-60 read back unchanged |
| NtfsAttrs.TrimStart | istat_ntfs.py:137 | `lstrip(" ")` leaves a suffix that is empty or starts with a non-space, and removes only spaces |
| NtfsAttrs.TrimEnd | istat_ntfs.py:137 | `rstrip(" ")` leaves a prefix that is empty or ends with a non-space, and removes only spaces |
| NtfsAttrs.Strip | istat_ntfs.py:137 | definition: `strip(" ")` as `TrimEnd(TrimStart(u))`; its properties are StripIsWindow, StripDropsSpaces, StripBorders, StripClean, StripIdempotent |
| NtfsAttrs.StripIsWindow | istat_ntfs.py:137 | `strip(" ")` is a contiguous window of its input |
| NtfsAttrs.StripDropsSpaces | istat_ntfs.py:137 | everything `strip(" ")` removes, on either side, is a space |
| NtfsAttrs.StripBorders | istat_ntfs.py:137 | the stripped name is empty or starts and ends with a non-space |
| NtfsAttrs.StripClean | istat_ntfs.py:137 | a name that is empty or has non-space ends is left unchanged |
| NtfsAttrs.StripIdempotent | istat_ntfs.py:137 | stripping twice is stripping once |
| NtfsAttrs.Take | istat_ntfs.py:149 | `s[:n]` has `min(n, len(s))` elements and is a prefix of `s` |
| NtfsAttrs.NameLengthField | istat_ntfs.py:134 | `name_length = unpack(content[64:65])` is below 256 |
| NtfsAttrs.NameBytesOf | istat_ntfs.py:136-137 | the name bytes `content[66:file_name_size]` are at most `2 * name_length` |
| NtfsAttrs.DecodeName | istat_ntfs.py:137-149 | the name is decoded, stripped and then cut, so it has at most `name_length` units and at most half as many units as bytes |
| NtfsAttrs.FileNameOf | istat_ntfs.py:133-161 | the only failure is an odd number of name bytes; on success the size lies in `[66, 576]`, the name fits in it, and the end offset is the locator's |
| NtfsAttrs.ParseFileNameAttr | istat_ntfs.py:106-161 | a missing `0x30` attribute is the fault `AttributeNotFound(0x30)`; on success `file_name_end` is the locator's end offset |
| NtfsAttrs.FileNameSize | istat_ntfs.py:134-136 | `file_name_size` is `66 + 2 * attribute[88]`, with 0 read past the end |
| NtfsAttrs.NameLengthWindow | istat_ntfs.py:133-134 | `content[64:65]` of `attribute[24:]` is the attribute's byte 88 |
| NtfsAttrs.FileNameFailsIff | istat_ntfs.py:133-137 | the decode fails exactly when the attribute ends inside the name, past byte 90, after an odd number of bytes |
| NtfsAttrs.NameBytesLength | istat_ntfs.py:134-137 | the number of name bytes is `min(len(attr), 90 + 2 * name_length) - 90` (or 0), and it is odd exactly when the decode fails |
| NtfsAttrs.FileNameRoundTrip | istat_ntfs.py:133-161 | every file name record whose fields fit their widths, with a name under 256 units and free of border spaces, written after a 24-byte header, decodes back to its fields; the four times are `parse_time` of the attribute's windows |
| NtfsAttrs.FileNameOfContent | istat_ntfs.py:133-161 | any content holding the fields and name at their offsets decodes to that record |
| NtfsAttrs.DecodeNameOfClean | istat_ntfs.py:137-149 | a name without border spaces, encoded as UTF-16LE, decodes unchanged under its own length |
| NtfsAttrs.FileNameSizeOfFourUnits | istat_ntfs.py:136 | a four-unit name gives `file_name_size` 74 |
| NtfsData.DataAttrAt | istat_ntfs.py:180 | a missing `0x80` attribute is the fault `AttributeNotFound(0x80)` |
| NtfsData.ParseDataAttr | istat_ntfs.py:163-224 | the method (flag check, resident size, run-list loop) computes `DataAttrAt` |
| NtfsData.DataAttrOf | istat_ntfs.py:183-224 | definition: the resident size, or the initialised size and run-list clusters of a non-resident attribute; its properties are ResidentIff, NonResidentIsDecoded, ResidentRoundTrip, NonResidentRoundTrip |
| NtfsData.ResidentIff | istat_ntfs.py:183-186 | the result is resident exactly when byte 8 is zero or missing; it then reports the 32-bit size at bytes 16-20 and nothing else |
| NtfsData.FlagByte | istat_ntfs.py:184 | `unpack(attribute[8:9])` is byte 8, or 0 past the end |
| NtfsData.NonResidentIsDecoded | istat_ntfs.py:188-224 | a non-resident attribute succeeds exactly when its run list at `attribute[32:34]` decodes, with the same fault otherwise; `size` and `init_size` are both the 64-bit `attribute[48:56]`, and the list is the decoded runs' clusters |
| NtfsData.ResidentRoundTrip | istat_ntfs.py:183-186 | an attribute with flag 0 and a 32-bit size written at 16-20 decodes to that resident size |
| NtfsData.NonResidentRoundTrip | istat_ntfs.py:188-224 | a non-resident header with encoded runs at its run-list offset decodes to its initialised size and those runs' clusters |
| NtfsData.DecodeRunList | istat_ntfs.py:190-222 | the `while True` loop over the run records, with its cursor, pointer and `sector_list`, computes `SectorList` |
| NtfsData.AppendRange | istat_ntfs.py:217-218 | the inner `for` appends exactly `range(first, first + length)` to the list |
| NtfsData.PastTheEnd | istat_ntfs.py:196 | a cursor at or past the end fails with `IndexError` at that offset, whatever was collected |
| NtfsData.ZeroHeader | istat_ntfs.py:205-206 | a header with both nibbles zero ends the loop with the list collected so far |
| NtfsData.AdvanceRecord | istat_ntfs.py:208-220 | one turn appends the run `[ptr + delta, ptr + delta + length)`, moves the cursor by `1 + low + high`, and strictly decreases the distance to the end |
| Mft.GeometryOf | istat_ntfs.py:28-30 | bytes per sector (11-13), sectors per cluster (13) and the MFT cluster (48-56) are 16-, 8- and 64-bit unsigned |
| Mft.GeometryOfBootSector | istat_ntfs.py:27-30 | the 512-byte boot read has the same geometry as the whole image |
| Mft.BootRoundTrip | istat_ntfs.py:28-31 | every geometry that fits, written into a boot sector, reads back; the second clause restates the constructor's offset formula for that geometry |
| Mft.MftByteOffset | istat_ntfs.py:31 | definition: `mft_start * sectors_per_cluster * bytes_per_sector`; the constructor sets `mftByteOffset` to it and BootRoundTrip reads it back |
| Mft.IstatOf | istat_ntfs.py:241-257 | definition: fix-up, header, then the three attribute decoders, each search starting where the previous attribute ended; its properties are IstatThreading and ShortEntryFails |
| Mft.IstatThreading | istat_ntfs.py:241-257 | `istat_entry` succeeds exactly when `entry[22]` exists and the three searches (from 0x38, from `std_info_end`, from `file_name_end`) find attributes that decode; the result is made of those decodes and keeps the address |
| Mft.ShortEntryFails | istat_ntfs.py:241-245 | a fixed-up entry of 22 bytes or fewer fails at byte 22 before any attribute search |
| Mft.ParseMft.constructor | istat_ntfs.py:24-32 | `mft_byte_offset = LE(boot[48:56]) * boot[13] * LE(boot[11:13])` and 1024-byte entries |
| Mft.ParseMft.EntryOffset | istat_ntfs.py:239 | definition: `mft_byte_offset + address * bytes_per_entry`, the seek position of entry `address`; IstatEntry reads from it |
| Mft.ParseMft.IstatEntry | istat_ntfs.py:226-257 | entry `a` is the 1024 bytes (clipped) at `mft_byte_offset + a * 1024`, fixed up and decoded by `IstatOf` |
| Mbr.HexText | partition_tables.py:12 | definition: `hex(b)` as `0x` and the lower-case hex digits; its properties are HexDigits, DigitsRoundTrip, HexRoundTrip |
| Mbr.HexDigits | partition_tables.py:12 | `hex` writes at least one digit, and exactly one for values below 16 |
| Mbr.DigitsRoundTrip | partition_tables.py:12 | the hex digits of `n` read back as `n` |
| Mbr.HexRoundTrip | partition_tables.py:12-18 | `hex(b)` of a byte reads back as `b`, and is `"0x0"` exactly when `b == 0` |
| Mbr.WindowView | partition_tables.py:10-24 | definition: the loop body on one 16-byte window (start, end, type text, and the `IndexError` of a short window); its properties are WindowViewOf, SlotViewStatus, SlotViewIsContent |
| Mbr.SlotView | partition_tables.py:9 | definition: the window `mbr_bytes[i : i + 16]` handed to WindowView; its properties are SlotViewStatus and SlotViewIsContent |
| Mbr.MbrSpec | partition_tables.py:4-29 | definition: the scan of the four slot views numbered from 0; ParseMbr computes it and MbrIsReference, MbrEntries and DocumentedExample state what it is |
| Mbr.Scan | partition_tables.py:8-26 | definition: the loop over the slot views, keeping the non-empty ones numbered in order and stopping at the first failure; its properties are ScanStep, ScanWithoutFailure, ScanFirstFailure |
| Mbr.ParseMbr | partition_tables.py:4-29 | the slot loop, appending entries and counting them, computes `MbrSpec` |
| Mbr.ScanStep | partition_tables.py:8-26 | one slot: a failing slot ends the scan with its fault, a type-0 slot changes nothing, a kept slot is appended with the next number |
| Mbr.Kept | partition_tables.py:18-25 | the kept parts are no more than the slots |
| Mbr.KeptMembers | partition_tables.py:18-25 | every kept part comes from a slot that holds it |
| Mbr.NumberFrom | partition_tables.py:23-26 | numbering keeps the parts in order and gives the `j`-th the number `number + j` |
| Mbr.ScanWithoutFailure | partition_tables.py:8-26 | with no failing slot, the result is the kept parts numbered densely from 0 |
| Mbr.ScanFirstFailure | partition_tables.py:8-26 | the first failing slot decides the fault |
| Mbr.SlotViewStatus | partition_tables.py:9-18 | slot `k` fails exactly when the buffer ends at or before its type byte, reporting that offset; otherwise it emits nothing exactly when the type byte is 0 |
| Mbr.SlotViewIsContent | partition_tables.py:9-24 | the loop body on slot `k` is the slot read straight from the buffer |
| Mbr.EmptySlotEndsBeforeStart | partition_tables.py:10-25 | a kept slot whose sector count is 0 is emitted with end `start - 1`, so the result does not promise end at or after start |
| Mbr.SlotFields | partition_tables.py:9-12 | the slot window's bytes 4, 8-12 and 12-16 are the buffer's bytes at the slot's offset |
| Mbr.ViewsAreContents | partition_tables.py:8-24 | on a buffer that reaches the last type byte, the four slot views are the four slot contents |
| Mbr.ShortAt | partition_tables.py:8-12 | a buffer that ends before slot `j`'s type byte, with every earlier slot whole, fails at that byte |
| Mbr.MbrIsReference | partition_tables.py:4-29 | on a buffer reaching the last type byte, the result is the non-zero-type slots in slot order, numbered from 0; on a shorter one the fault is the first missing type byte |
| Mbr.ReferenceTypes | partition_tables.py:18 | no emitted entry has the type text `"0x0"` |
| Mbr.MbrEntries | partition_tables.py:4-29 | a successful scan has at most four entries, each the reference slot and numbered `0..k-1`, none of type `"0x0"` |
| Mbr.DocumentedExample | partition_tables.py:14-16 | type 6, start 32 and 3913696 sectors in the first slot and empty slots after it give `[{type "0x6", end 3913727, start 32, number 0}]` |
| Gpt.MixedEndian | partition_tables.py:65 | definition: the bytes of `uuid.UUID(bytes_le=...)` as a 16-byte reordering; its properties are MixedEndianIndex, MixedEndianOfFields, MixedEndianPermutes, MixedEndianInvolution, EfiSystemPartitionType |
| Gpt.Reverse | partition_tables.py:65 | reversal keeps the length and puts element `len(s) - 1 - k` at `k` |
| Gpt.MixedEndianIndex | partition_tables.py:65 | byte `k` of the GUID is input byte `GuidSource(k)` |
| Gpt.MixedEndianInvolution | partition_tables.py:65 | reordering twice gives back the input bytes |
| Gpt.MixedEndianPermutes | partition_tables.py:65 | the GUID bytes are a permutation of the 16 input bytes |
| Gpt.MixedEndianOfFields | partition_tables.py:65 | the GUID is `rev(b[0:4]) + rev(b[4:6]) + rev(b[6:8]) + b[8:16]` |
| Gpt.EfiSystemPartitionType | partition_tables.py:65 | the on-disk bytes `28 73 2a c1 1f f8 d2 11 ba 4b 00 a0 c9 3e c9 3b` give the EFI system partition GUID `c12a7328-f81f-11d2-ba4b-00a0c93ec93b`, the type of the expected result noted at lines 32-37 |
| Gpt.FindNull | partition_tables.py:69 | `find("\x00")` gives -1 when there is no null unit, and otherwise the index of the first one |
| Gpt.PyPrefix | partition_tables.py:70 | definition: Python's `val[0:end]`, where a negative `end` counts from the back; its properties are GptNameMeaning and FullNameLosesLastUnit |
| Gpt.GptName | partition_tables.py:68-70 | definition: decode the name bytes as UTF-16LE and cut at `find("\x00")`; its properties are GptNameMeaning, GptNameRoundTrip, FullNameLosesLastUnit |
| Gpt.GptNameMeaning | partition_tables.py:68-70 | an odd number of name bytes is the only failure; the name is a null-free prefix of the units, ending at the first null, or one unit short when there is none |
| Gpt.FindNullAt | partition_tables.py:69 | a null at `n` with none before gives `n` |
| Gpt.GptNameRoundTrip | partition_tables.py:68-70 | every name shorter than 36 units, padded with nulls, decodes back to itself |
| Gpt.FullNameLosesLastUnit | partition_tables.py:68-70 | a 36-unit name without a null loses its last unit, since `find` returns -1 |
| Gpt.EntryOf | partition_tables.py:57-82 | a decoded entry has the given number and the non-zero StartingLBA at 0x20 |
| Gpt.EntryFailsIff | partition_tables.py:57-68 | a non-sentinel entry fails exactly when its window is clipped inside the name field after an odd number of bytes |
| Gpt.EntryRoundTrip | partition_tables.py:57-78 | every entry with a non-zero start, 64-bit LBAs and a null-free name shorter than 36 units encodes to 128 bytes that are not a sentinel and decode back to it |
| Gpt.EndBeforeStart | partition_tables.py:58-81 | an entry with StartingLBA 5 and EndingLBA 1 is emitted as it stands, end 1 before start 5, so the result does not promise end at or after start |
| Gpt.ReadSector | partition_tables.py:45-53 | a read at the cursor after `lba` reads returns sector `lba` (clipped) and moves the cursor past it |
| Gpt.ScanSector | partition_tables.py:56-82 | definition: the `for` loop over one sector's 128-byte entries, stopping at the sentinel; ScanTable computes it and SectorIsDecode ties it to the reference decode |
| Gpt.ScanFrom | partition_tables.py:55-84 | definition: the `while` loop over sectors from one LBA, `NoSentinel` on an empty read; its property is ScanFromIsDecode |
| Gpt.StartSectorOf | partition_tables.py:48-49 | definition: PartitionEntryLBA, `LE(header[0x48:0x50])` of LBA 1; SeekArray computes it |
| Gpt.SectorAt | partition_tables.py:45-53 | definition: the bytes one `read(sector_size)` returns at sector `lba`, clipped at the end of the image; its properties are ReadSector and SeekArray |
| Gpt.IsSentinel | partition_tables.py:58-62 | definition: an entry whose StartingLBA `LE(entry_data[0x20:0x28])` is 0, where the loop returns; its properties are WindowViewMeaning, CollectStops, EntryRoundTrip |
| Gpt.ScanTable | partition_tables.py:56-82 | the `for` loop over one sector's 128-byte entries, appending and counting, computes `ScanSector` |
| Gpt.SeekArray | partition_tables.py:45-53 | the reads skip LBA 0, read the header at LBA 1, take `start_sector` from 0x48-0x50, and keep LBA `start_sector` in `partition_table` with the cursor past it; nothing is kept when `start_sector <= 1` |
| Gpt.GptSpec | partition_tables.py:40-86 | definition: `PartitionTableUnbound` for `start_sector <= 1`, else ScanFrom at `start_sector`; ParseGpt computes it and GptIsReference, GptIsCollect, GptEntries state what it is |
| Gpt.ParseGpt | partition_tables.py:40-86 | the reads and the `while` loop over sectors compute `GptSpec` |
| Gpt.SectorIsDecode | partition_tables.py:56-82 | the loop over one sector is the decode of its entry windows, stopping, failing or continuing with the next sector |
| Gpt.ScanFromIsDecode | partition_tables.py:55-84 | the sector loop is the decode of the stream of all entry windows from the array's first sector |
| Gpt.GptIsReference | partition_tables.py:40-86 | `parse_gpt` is `PartitionTableUnbound` for `start_sector <= 1`, and otherwise the decode of the entry windows from LBA `start_sector` |
| Gpt.DecodeIsCollect | partition_tables.py:55-84 | decoding the windows is collecting their per-entry views |
| Gpt.CollectStops | partition_tables.py:59-62 | with entries before a sentinel at `s`, the result is exactly the entries before it |
| Gpt.CollectFails | partition_tables.py:68 | with entries before a failing entry at `s`, the result is that entry's fault |
| Gpt.CollectWithoutSentinel | partition_tables.py:55-84 | windows that are all entries, without a sentinel, end as `NoSentinel` |
| Gpt.WindowViewMeaning | partition_tables.py:57-70 | a window is a sentinel exactly when its StartingLBA is 0; it fails exactly when it is clipped to an odd length inside the name; otherwise it is the entry with the given number |
| Gpt.GptIsCollect | partition_tables.py:40-86 | for `start_sector > 1`, `parse_gpt` collects the views of the entry windows numbered from 0 |
| Gpt.DecodeNumbers | partition_tables.py:75-82 | decoded entries are numbered consecutively from the first number, and each has a non-zero start |
| Gpt.GptEntries | partition_tables.py:50-82 | a successful `parse_gpt` numbers its entries `0..k-1` densely across sectors, and none has start 0 |

## Left out

- File I/O. The image is a byte sequence. `seek`/`read` are clipped slices and a cursor (`Gpt.Cursor`, `Gpt.SectorAt`, `Mft.ParseMft.IstatEntry`).
- `apply_fixup`, `get_attr_by_id` and `parse_time` belong to ntfs_utils, which is not part of this model. They are function-typed fields of `NtfsAttrs.Externals`, and nothing is assumed about them. Timestamps stay opaque strings.
- Missing attributes. `get_attr_by_id` returning `None` makes the Python tuple unpacking raise a `TypeError`. The model reports `AttributeNotFound(type)` instead.
- Output. `print_istat_entry`, the `*_to_str` helpers, `attr_to_string`, every `print` call and the command-line `main` are out: they only format output.
- Text. Names are sequences of UTF-16 code units. Surrogate-pair validation and counting code points rather than code units are out. The only decode error modelled is the odd byte count, which makes Python's decoder raise on truncated data.
- GPT type. The type is the 16 GUID bytes in display order rather than a `uuid.UUID` object. Its string form is out.
- `Gpt.ParseGpt` end of image. With no sentinel entry, Python's `read` returns `b''` at the end of the file and the `while` loop never ends. The model returns `Err(NoSentinel)` there.
- `Gpt.ParseGpt` unbound table. With `start_sector <= 1` the name `partition_table` is unbound and Python raises. The model returns `Err(PartitionTableUnbound)`.
- `RunList.CodeAt`: the nibbles are `b % 16` and `b / 16`. `RunList.NibbleMasks` proves these equal the source's `& 0x0F` and `(& 0xF0) >> 4`.
- `Mbr.ParseMbr`: the loop body is the function `Mbr.SlotView`, not inline statements. The comparison `partition_type != "0x0"` is made on the type byte instead; `Mbr.HexRoundTrip` proves the two comparisons agree.
- `Mbr.DocumentedExample` is stated over the decoded slot fields (type byte, start, sector count). It is not stated over a concrete 512-byte buffer.
- End at or after start. Neither `parse_mbr` nor `parse_gpt` checks this: both trust the stored fields. So neither `Mbr.ParseMbr` nor `Gpt.ParseGpt` promises it. `Mbr.EmptySlotEndsBeforeStart` shows a slot with sector count 0 giving end `start - 1`. `Gpt.EndBeforeStart` shows an entry with EndingLBA 1 and StartingLBA 5 emitted as it stands.
- Run-list terminator. The run list must close with its own `0x00` header byte after the last record. A list whose last record ends at the end of the attribute fails with `IndexPastEnd`, because Python's `attribute[offset_runlist]` raises `IndexError` there. `RunList.MissingTerminator` shows this for `21 18 34 00`.
- Signed run-list deltas and NTFS sanity checks (sparse runs, truncated records) are out. The source does not do them: deltas are unsigned, and short fields are clipped, not rejected.
- Mft.ParseMft.IstatEntry: addresses are entry numbers, `nat`, as the docstring at istat_ntfs.py:230 describes them (entry 0 is the MFT itself). Python's `int` also lets a negative address through. Then the `seek` at istat_ntfs.py:239 either reads bytes before the MFT or raises on a negative position. Neither case is modelled.
- Runtime limits. Integers are unbounded; Python's are too, so there is no wrap-around to model.
