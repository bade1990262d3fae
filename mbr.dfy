/** The MBR scanner, `parse_mbr` (partition_tables.py:4-29): the four
    16-byte partition slots at 0x1BE, 0x1CE, 0x1DE and 0x1EE are examined
    in order, a slot whose type byte (slot offset 4) is zero is skipped,
    and every other slot emits its type as Python `hex` text, its first
    and last sector and a number that counts only the emitted slots. */
module Mbr {
  import opened Bytes
  import opened Results

  const FirstSlot: nat := 0x1BE
  const SlotsEnd: nat := 0x1FE
  const SlotSize: nat := 16
  const SlotCount: nat := 4

  // ------------------------------------------------------------ hex text

  function HexDigit(d: nat): (c: char)
    requires d < 16
  {
    "0123456789abcdef"[d]
  }

  /** The lower-case hexadecimal digits of `n`, without leading zeros. */
  function HexDigits(n: nat): (ds: string)
    ensures 1 <= |ds| && (|ds| == 1 <==> n < 16)
    decreases n
  {
    if n < 16 then [HexDigit(n)] else HexDigits(n / 16) + [HexDigit(n % 16)]
  }

  /** Python's `hex(b)` of a byte: `0x` and its digits, so `0x0` for zero. */
  function HexText(b: byte): string
  {
    "0x" + HexDigits(b)
  }

  function DigitValue(c: char): nat
  {
    if '0' <= c <= '9' then c as nat - '0' as nat
    else if 'a' <= c <= 'f' then c as nat - 'a' as nat + 10
    else 0
  }

  lemma {:induction false} DigitValueOfHexDigit(d: nat)
    requires d < 16
    ensures DigitValue(HexDigit(d)) == d
    ensures HexDigit(d) == '0' <==> d == 0
  {
  }

  /** The value of a string of hexadecimal digits. */
  function DigitsValue(ds: string): nat
  {
    if ds == [] then 0 else 16 * DigitsValue(ds[..|ds| - 1]) + DigitValue(ds[|ds| - 1])
  }

  lemma {:induction false} DigitsRoundTrip(n: nat)
    ensures DigitsValue(HexDigits(n)) == n
    decreases n
  {
    var ds := HexDigits(n);
    if n < 16 {
      DigitValueOfHexDigit(n);
      assert ds[..0] == [];
    } else {
      DigitsRoundTrip(n / 16);
      DigitValueOfHexDigit(n % 16);
      assert ds[..|ds| - 1] == HexDigits(n / 16);
    }
  }

  /** The value of a `0x` text. */
  function HexValue(t: string): nat
  {
    if |t| < 2 then 0 else DigitsValue(t[2..])
  }

  /** `hex` loses nothing: the byte is read back from its text, and the
      text is `0x0` exactly for the zero byte, the slots the scanner skips. */
  lemma {:induction false} HexRoundTrip(b: byte)
    ensures HexValue(HexText(b)) == b
    ensures HexText(b) == "0x0" <==> b == 0
  {
    var t := HexText(b);
    assert t[2..] == HexDigits(b);
    DigitsRoundTrip(b);
    if b < 16 {
      DigitValueOfHexDigit(b);
      assert t == ['0', 'x', HexDigit(b)];
    } else {
      assert |t| != 3;
    }
  }

  // ------------------------------------------------------- the slot scan

  /** One emitted partition; `end` is `start + count - 1`. */
  datatype MbrEntry = MbrEntry(typeText: string, end: int, start: nat, number: nat)

  /** What a kept slot contributes before it is numbered. */
  datatype Part = Part(typeText: string, end: int, start: nat)

  function Numbered(p: Part, number: nat): MbrEntry
  {
    MbrEntry(p.typeText, p.end, p.start, number)
  }

  function SlotOffset(k: nat): nat
  {
    FirstSlot + SlotSize * k
  }

  /** What the loop body makes of the slot at offset `i`: its 16-byte
      window (clipped at the end of the buffer). */
  function SlotView(mbr: seq<byte>, i: nat): Result<Option<Part>>
  {
    WindowView(Slice(mbr, i, i + SlotSize), i)
  }

  /** The loop body on the window of the slot at offset `i`: its start and
      end sectors, and its type byte, whose `hex` text is `0x0` exactly
      when it is zero (HexRoundTrip). Indexing the type byte of a window
      cut short by the end of the buffer raises; the failure reports the
      offset of that byte. */
  function WindowView(entryData: seq<byte>, i: nat): Result<Option<Part>>
  {
    var startSector := LE(Slice(entryData, 8, 12));
    var endSector := startSector + LE(Slice(entryData, 12, 16)) - 1;
    if |entryData| <= 4 then Err(IndexPastEnd(i + 4))
    else
      var partitionType := HexText(entryData[4]);
      if entryData[4] != 0 then Ok(Some(Part(partitionType, endSector, startSector)))
      else Ok(None)
  }

  /** The views of the four slots, in the order of `range(0x1BE, 0x1FE, 16)`. */
  function Views(mbr: seq<byte>): seq<Result<Option<Part>>>
  {
    seq(SlotCount, k requires 0 <= k => SlotView(mbr, SlotOffset(k)))
  }

  /** The entries the loop emits from a run of slot views, numbering the
      kept slots from `number`; the first failure aborts the scan. */
  function Scan(views: seq<Result<Option<Part>>>, number: nat): Result<seq<MbrEntry>>
  {
    if views == [] then Ok([])
    else
      match views[0]
      case Err(e) => Err(e)
      case Ok(None) => Scan(views[1..], number)
      case Ok(Some(p)) => Prepend([Numbered(p, number)], Scan(views[1..], number + 1))
  }

  /** `parse_mbr(mbr_bytes)` as a value. */
  function MbrSpec(mbr: seq<byte>): Result<seq<MbrEntry>>
  {
    Scan(Views(mbr), 0)
  }

  /** `parse_mbr`: the slot loop, appending to the entry list and counting
      the emitted entries. */
  method ParseMbr(mbr: seq<byte>) returns (r: Result<seq<MbrEntry>>)
    ensures r == MbrSpec(mbr)
  {
    var parEntries: seq<MbrEntry> := [];
    var entryNumber: nat := 0;
    var i: nat := FirstSlot;
    ghost var k: nat := 0;
    ghost var views := Views(mbr);
    PrependEmpty(MbrSpec(mbr));
    while i < SlotsEnd
      invariant k <= SlotCount && i == SlotOffset(k)
      invariant entryNumber == |parEntries|
      invariant MbrSpec(mbr) == Prepend(parEntries, Scan(views[k..], entryNumber))
      decreases SlotsEnd - i
    {
      var view := SlotView(mbr, i);
      ScanStep(parEntries, views[k..], entryNumber);
      assert views[k..][0] == view && views[k..][1..] == views[k + 1..];
      match view {
        case Err(e) =>
          return Err(e);
        case Ok(None) =>
        case Ok(Some(part)) =>
          var entry := MbrEntry(part.typeText, part.end, part.start, entryNumber);
          parEntries := parEntries + [entry];
          entryNumber := entryNumber + 1;
      }
      i := i + SlotSize;
      k := k + 1;
    }
    assert views[k..] == [];
    assert parEntries + [] == parEntries;
    return Ok(parEntries);
  }

  // ------------------------------------------------- properties of a scan

  /** One loop step on the entries emitted so far: a failing view ends the
      scan with its error, a skipped one leaves the entries as they are, and
      a kept one appends its entry with the next number. */
  lemma {:induction false} ScanStep(before: seq<MbrEntry>, views: seq<Result<Option<Part>>>, number: nat)
    requires views != []
    ensures views[0].Err? ==> Prepend(before, Scan(views, number)) == Err(views[0].error)
    ensures views[0] == Ok(None) ==> Prepend(before, Scan(views, number)) == Prepend(before, Scan(views[1..], number))
    ensures views[0].Ok? && views[0].value.Some? ==>
              Prepend(before, Scan(views, number)) ==
              Prepend(before + [Numbered(views[0].value.value, number)], Scan(views[1..], number + 1))
  {
    if views[0].Ok? && views[0].value.Some? {
      PrependAssoc(before, [Numbered(views[0].value.value, number)], Scan(views[1..], number + 1));
    }
  }

  /** The parts of the kept views, in order. */
  function Kept(views: seq<Result<Option<Part>>>): (parts: seq<Part>)
    ensures |parts| <= |views|
  {
    if views == [] then []
    else (if views[0].Ok? && views[0].value.Some? then [views[0].value.value] else []) + Kept(views[1..])
  }

  /** Every kept part comes from a view that holds it. */
  lemma {:induction false} KeptMembers(views: seq<Result<Option<Part>>>)
    ensures forall p :: p in Kept(views) ==> Ok(Some(p)) in views
  {
    if views != [] {
      KeptMembers(views[1..]);
      forall p | p in Kept(views)
        ensures Ok(Some(p)) in views
      {
        if !(views[0].Ok? && views[0].value.Some? && p == views[0].value.value) {
          assert p in Kept(views[1..]);
          assert Ok(Some(p)) in views[1..];
        }
      }
    }
  }

  /** The kept parts numbered consecutively from `number`. */
  function NumberFrom(parts: seq<Part>, number: nat): (r: seq<MbrEntry>)
    ensures |r| == |parts|
    ensures forall j :: 0 <= j < |r| ==> r[j] == Numbered(parts[j], number + j)
  {
    if parts == [] then [] else [Numbered(parts[0], number)] + NumberFrom(parts[1..], number + 1)
  }

  /** A scan without failing views emits the kept parts numbered from
      `number`, in order. */
  lemma {:induction false} ScanWithoutFailure(views: seq<Result<Option<Part>>>, number: nat)
    requires forall j :: 0 <= j < |views| ==> views[j].Ok?
    ensures Scan(views, number) == Ok(NumberFrom(Kept(views), number))
  {
    if views != [] {
      var rest := views[1..];
      assert forall j :: 0 <= j < |rest| ==> rest[j] == views[j + 1];
      if views[0].value.Some? {
        var p := views[0].value.value;
        ScanWithoutFailure(rest, number + 1);
        assert Kept(views) == [p] + Kept(rest);
        assert ([p] + Kept(rest))[1..] == Kept(rest);
      } else {
        ScanWithoutFailure(rest, number);
        assert Kept(views) == [] + Kept(rest) == Kept(rest);
      }
    }
  }

  /** A scan whose first failing view is view `j` fails with its error. */
  lemma {:induction false} ScanFirstFailure(views: seq<Result<Option<Part>>>, number: nat, j: nat)
    requires j < |views| && views[j].Err? && forall i :: 0 <= i < j ==> views[i].Ok?
    ensures Scan(views, number) == Err(views[j].error)
    decreases j
  {
    if j > 0 {
      var rest := views[1..];
      assert rest[j - 1] == views[j] && forall i :: 0 <= i < j - 1 ==> rest[i] == views[i + 1];
      if views[0].value.Some? {
        ScanFirstFailure(rest, number + 1, j - 1);
      } else {
        ScanFirstFailure(rest, number, j - 1);
      }
    }
  }

  // ----------------------------------------------- what each slot yields

  /** The type byte of slot `k`, 0 when the buffer ends before it. */
  function SlotType(mbr: seq<byte>, k: nat): byte
  {
    if SlotOffset(k) + 4 < |mbr| then mbr[SlotOffset(k) + 4] else 0
  }

  function SlotStart(mbr: seq<byte>, k: nat): nat
  {
    LE(Slice(mbr, SlotOffset(k) + 8, SlotOffset(k) + 12))
  }

  function SlotSectors(mbr: seq<byte>, k: nat): nat
  {
    LE(Slice(mbr, SlotOffset(k) + 12, SlotOffset(k) + 16))
  }

  /** What slot `k` contributes when it is kept. */
  function SlotPart(mbr: seq<byte>, k: nat): Part
  {
    Part(HexText(SlotType(mbr, k)), SlotStart(mbr, k) + SlotSectors(mbr, k) - 1, SlotStart(mbr, k))
  }

  /** What slot `k` holds: nothing for a zero type byte, otherwise its part. */
  function SlotContent(mbr: seq<byte>, k: nat): Result<Option<Part>>
  {
    if SlotType(mbr, k) != 0 then Ok(Some(SlotPart(mbr, k))) else Ok(None)
  }

  /** The reference result: the parts of the slots with a non-zero type
      byte, in slot order, read straight from the buffer. */
  function ReferenceParts(mbr: seq<byte>): seq<Part>
  {
    Kept(seq(SlotCount, k requires 0 <= k => SlotContent(mbr, k)))
  }

  /** Slot `k` fails exactly when the buffer ends at or before its type
      byte, and is skipped exactly when that byte is zero. */
  lemma {:induction false} SlotViewStatus(mbr: seq<byte>, k: nat)
    ensures var v := SlotView(mbr, SlotOffset(k));
            (v.Err? <==> |mbr| <= SlotOffset(k) + 4) &&
            (v.Err? ==> v.error == IndexPastEnd(SlotOffset(k) + 4)) &&
            (v.Ok? ==> (v.value.None? <==> SlotType(mbr, k) == 0))
  {
  }

  /** A kept slot yields the `hex` text of its type byte, the start sector
      at slot offset 8 and the end sector `start + count - 1`, with the
      sector count at slot offset 12; a slot with a zero type byte is
      skipped. */
  lemma {:induction false} SlotViewIsContent(mbr: seq<byte>, k: nat)
    requires SlotOffset(k) + 4 < |mbr|
    ensures SlotView(mbr, SlotOffset(k)) == SlotContent(mbr, k)
  {
    var i := SlotOffset(k);
    SlotFields(mbr, k, i);
    var t, start, sectors := SlotType(mbr, k), SlotStart(mbr, k), SlotSectors(mbr, k);
    WindowViewOf(Slice(mbr, i, i + SlotSize), i, t, start, sectors);
    ContentOf(mbr, k, t, start, sectors);
  }

  /** The slot loop trusts the stored fields: a kept slot whose sector
      count is zero is emitted with its end one sector before its start,
      so `end >= start` is not something the parsed table promises. */
  lemma {:induction false} EmptySlotEndsBeforeStart(mbr: seq<byte>, k: nat)
    requires SlotOffset(k) + 4 < |mbr| && SlotType(mbr, k) != 0 && SlotSectors(mbr, k) == 0
    ensures var v := SlotView(mbr, SlotOffset(k));
            v.Ok? && v.value.Some? && v.value.value.end == v.value.value.start - 1
  {
    SlotViewIsContent(mbr, k);
  }

  lemma {:induction false} ContentOf(mbr: seq<byte>, k: nat, t: byte, start: nat, sectors: nat)
    requires t == SlotType(mbr, k) && start == SlotStart(mbr, k) && sectors == SlotSectors(mbr, k)
    ensures SlotContent(mbr, k) == if t != 0 then Ok(Some(Part(HexText(t), start + sectors - 1, start))) else Ok(None)
  {
  }

  /** The view of a window that reaches its type byte, by its three fields. */
  lemma {:induction false} WindowViewOf(e: seq<byte>, i: nat, t: byte, start: nat, sectors: nat)
    requires 4 < |e| && e[4] == t && LE(Slice(e, 8, 12)) == start && LE(Slice(e, 12, 16)) == sectors
    ensures WindowView(e, i) == if t != 0 then Ok(Some(Part(HexText(t), start + sectors - 1, start))) else Ok(None)
  {
  }

  /** The window of slot `k` holds its type byte at 4 and its two sector
      fields at 8 and 12. */
  lemma {:induction false} SlotFields(mbr: seq<byte>, k: nat, i: nat)
    requires i == SlotOffset(k) && i + 4 < |mbr|
    ensures var e := Slice(mbr, i, i + SlotSize);
            4 < |e| && e[4] == SlotType(mbr, k) &&
            LE(Slice(e, 8, 12)) == SlotStart(mbr, k) && LE(Slice(e, 12, 16)) == SlotSectors(mbr, k)
  {
    SliceOfSlice(mbr, i, i + SlotSize, 8, 12, i + 8, i + 12);
    SliceOfSlice(mbr, i, i + SlotSize, 12, 16, i + 12, i + 16);
  }

  /** On a buffer that reaches every slot's type byte the views are the
      slot contents. */
  lemma {:induction false} ViewsAreContents(mbr: seq<byte>)
    requires SlotOffset(SlotCount - 1) + 4 < |mbr|
    ensures Views(mbr) == seq(SlotCount, k requires 0 <= k => SlotContent(mbr, k))
  {
    forall k | 0 <= k < SlotCount
      ensures Views(mbr)[k] == SlotContent(mbr, k)
    {
      SlotViewIsContent(mbr, k);
    }
  }

  /** A buffer that ends at or before the type byte of slot `j`, but not
      before that of the slot in front of it, fails there. */
  lemma {:induction false} ShortAt(mbr: seq<byte>, j: nat)
    requires j < SlotCount && |mbr| <= SlotOffset(j) + 4 && (j == 0 || SlotOffset(j - 1) + 4 < |mbr|)
    ensures MbrSpec(mbr) == Err(IndexPastEnd(SlotOffset(j) + 4))
  {
    forall i | 0 <= i < j
      ensures Views(mbr)[i].Ok?
    {
      SlotViewStatus(mbr, i);
    }
    SlotViewStatus(mbr, j);
    ScanFirstFailure(Views(mbr), 0, j);
  }

  /** `parse_mbr` against the reference: a buffer of at least 0x1F3 bytes
      (one that reaches the last slot's type byte at 0x1F2) yields the
      kept slots numbered 0, 1, ...; a shorter one fails at the type byte
      of the first slot it does not reach. */
  lemma {:induction false} MbrIsReference(mbr: seq<byte>)
    ensures SlotOffset(SlotCount - 1) + 4 < |mbr| ==> MbrSpec(mbr) == Ok(NumberFrom(ReferenceParts(mbr), 0))
    ensures |mbr| <= SlotOffset(SlotCount - 1) + 4 ==>
              exists k: nat :: k < SlotCount && MbrSpec(mbr) == Err(IndexPastEnd(SlotOffset(k) + 4)) &&
                               |mbr| <= SlotOffset(k) + 4 && (k == 0 || SlotOffset(k - 1) + 4 < |mbr|)
  {
    if SlotOffset(SlotCount - 1) + 4 < |mbr| {
      ViewsAreContents(mbr);
      ScanWithoutFailure(Views(mbr), 0);
    } else {
      var j: nat := if |mbr| <= SlotOffset(0) + 4 then 0
                    else if |mbr| <= SlotOffset(1) + 4 then 1
                    else if |mbr| <= SlotOffset(2) + 4 then 2
                    else 3;
      ShortAt(mbr, j);
    }
  }

  /** None of the reference parts has type text `0x0`. */
  lemma {:induction false} ReferenceTypes(mbr: seq<byte>)
    ensures forall p :: p in ReferenceParts(mbr) ==> p.typeText != "0x0"
  {
    var contents := seq(SlotCount, k requires 0 <= k => SlotContent(mbr, k));
    KeptMembers(contents);
    forall p | p in ReferenceParts(mbr)
      ensures p.typeText != "0x0"
    {
      var k :| 0 <= k < SlotCount && contents[k] == Ok(Some(p));
      HexRoundTrip(SlotType(mbr, k));
    }
  }

  /** What `parse_mbr` promises its caller: at most four entries, numbered
      0, 1, ... without gaps, none of type `0x0`, each one the start and
      end sectors of a kept slot, in slot order. */
  lemma {:induction false} MbrEntries(mbr: seq<byte>)
    requires MbrSpec(mbr).Ok?
    ensures var r := MbrSpec(mbr).value;
            |r| <= SlotCount &&
            r == NumberFrom(ReferenceParts(mbr), 0) &&
            forall j :: 0 <= j < |r| ==> r[j].number == j && r[j].typeText != "0x0"
  {
    MbrIsReference(mbr);
    ReferenceTypes(mbr);
    var r := MbrSpec(mbr).value;
    assert forall j :: 0 <= j < |r| ==> r[j].typeText == ReferenceParts(mbr)[j].typeText;
  }
  /** The documented result `[{type "0x6", end 3913727, start 32, number 0}]`:
      a buffer whose first slot has type 0x06, start sector 32 and 3913696
      sectors, and whose other three slots have type 0. */
  lemma {:induction false} DocumentedExample(mbr: seq<byte>)
    requires SlotOffset(SlotCount - 1) + 4 < |mbr|
    requires SlotType(mbr, 0) == 6 && SlotStart(mbr, 0) == 32 && SlotSectors(mbr, 0) == 3913696
    requires SlotType(mbr, 1) == 0 && SlotType(mbr, 2) == 0 && SlotType(mbr, 3) == 0
    ensures MbrSpec(mbr) == Ok([MbrEntry("0x6", 3913727, 32, 0)])
  {
    MbrIsReference(mbr);
    var contents := seq(SlotCount, k requires 0 <= k => SlotContent(mbr, k));
    var p := Part("0x6", 3913727, 32);
    assert HexText(SlotType(mbr, 0)) == "0x6" by { assert HexDigits(6) == "6"; }
    assert SlotPart(mbr, 0) == p;
    assert contents[0] == Ok(Some(p));
    assert contents[1] == Ok(None) && contents[2] == Ok(None) && contents[3] == Ok(None);
    KeptFirstOnly(contents, p);
    assert NumberFrom([p], 0) == [MbrEntry("0x6", 3913727, 32, 0)];
  }

  /** Four views of which only the first holds a part keep that part. */
  lemma {:induction false} KeptFirstOnly(views: seq<Result<Option<Part>>>, p: Part)
    requires |views| == 4 && views[0] == Ok(Some(p))
    requires views[1] == Ok(None) && views[2] == Ok(None) && views[3] == Ok(None)
    ensures Kept(views) == [p]
  {
    assert views[3..][1..] == [];
    assert Kept(views[3..]) == [];
    assert views[2..][1..] == views[3..];
    assert Kept(views[2..]) == [];
    assert views[1..][1..] == views[2..];
    assert Kept(views[1..]) == [];
  }
}
