/** The `$DATA` attribute decoder, `parse_data_attr` (istat_ntfs.py:163-224):
    a resident attribute reports its size, a non-resident one its
    initialised size and the clusters of its run list, which the source
    expands with a cursor loop over the run records. */
module NtfsData {
  import opened Bytes
  import opened Results
  import opened RunList
  import opened NtfsAttrs

  /** The dictionary `parse_data_attr` returns; its `type` key is always
      `DataType` (0x80), and only the non-resident form has `init_size` and
      `sector_list`. */
  datatype DataAttr = Resident(size: nat) | NonResident(size: nat, initSize: nat, sectorList: seq<nat>)

  /** What `parse_data_attr` makes of a located `$DATA` attribute. Byte 8
      is the non-resident flag; the resident size is `attribute[16:20]`; a
      non-resident attribute reports `attribute[48:56]` as both size and
      initialised size, and its run list starts at offset `attribute[32:34]`. */
  function DataAttrOf(attribute: seq<byte>): Result<DataAttr>
  {
    if LE(Slice(attribute, 8, 9)) == 0 then Ok(Resident(LE(Slice(attribute, 16, 20))))
    else
      var initSize := LE(Slice(attribute, 48, 56));
      var sectorList :- SectorList(attribute, LE(Slice(attribute, 32, 34)));
      Ok(NonResident(initSize, initSize, sectorList))
  }

  /** `parse_data_attr(entry, prev_attr_end)`, as a value. */
  function DataAttrAt(ext: Externals, entry: seq<byte>, prevAttrEnd: nat): (r: Result<DataAttr>)
    ensures ext.getAttrById(DataType, entry, prevAttrEnd).None? ==> r == Err(AttributeNotFound(DataType))
  {
    var (attribute, _) :- FindAttr(ext, DataType, entry, prevAttrEnd);
    DataAttrOf(attribute)
  }

  /** `parse_data_attr`: the attribute located, the residency flag checked,
      and for a non-resident attribute the run list expanded by the loop. */
  method ParseDataAttr(ext: Externals, entry: seq<byte>, prevAttrEnd: nat) returns (r: Result<DataAttr>)
    ensures r == DataAttrAt(ext, entry, prevAttrEnd)
  {
    var found := ext.getAttrById(DataType, entry, prevAttrEnd);
    if found.None? {
      return Err(AttributeNotFound(DataType));
    }
    var attribute := found.value.0;
    var sizeResident := LE(Slice(attribute, 16, 20));
    var isNonResident := LE(Slice(attribute, 8, 9)) != 0;
    if !isNonResident {
      return Ok(Resident(sizeResident));
    }
    var initSize := LE(Slice(attribute, 48, 56));
    var offsetRunlist := LE(Slice(attribute, 32, 34));
    var sectorList := DecodeRunList(attribute, offsetRunlist);
    if sectorList.Err? {
      return Err(sectorList.error);
    }
    return Ok(NonResident(initSize, initSize, sectorList.value));
  }

  /** The resident branch is taken exactly when byte 8 is zero or missing,
      and then the size is the 32-bit field at bytes 16..20. */
  lemma {:induction false} ResidentIff(attribute: seq<byte>)
    ensures (DataAttrOf(attribute).Ok? && DataAttrOf(attribute).value.Resident?) <==>
            (|attribute| <= 8 || attribute[8] == 0)
    ensures (|attribute| <= 8 || attribute[8] == 0) ==>
              DataAttrOf(attribute) == Ok(Resident(LE(Slice(attribute, 16, 20)))) &&
              LE(Slice(attribute, 16, 20)) < 0x1_0000_0000
  {
    FlagByte(attribute);
    LEBound4(Slice(attribute, 16, 20));
  }

  lemma {:induction false} FlagByte(attribute: seq<byte>)
    ensures LE(Slice(attribute, 8, 9)) == if 8 < |attribute| then attribute[8] else 0
  {
    if 8 < |attribute| {
      assert Slice(attribute, 8, 9) == [attribute[8]];
      LEOne(attribute[8]);
    }
  }

  /** A non-resident attribute reports the 64-bit field at bytes 48..56 as
      both sizes, and its cluster list is the expansion, from cluster 0, of
      the run records decoded at the offset held in bytes 32..34; it fails
      exactly when that decoding fails, with the same fault. */
  lemma {:induction false} NonResidentIsDecoded(attribute: seq<byte>)
    requires 8 < |attribute| && attribute[8] != 0
    ensures var dc := DecodeCodes(attribute, LE(Slice(attribute, 32, 34)));
            var init := LE(Slice(attribute, 48, 56));
            init < 0x1_0000_0000_0000_0000 &&
            (DataAttrOf(attribute).Ok? <==> dc.Ok?) &&
            (dc.Err? ==> DataAttrOf(attribute).error == dc.error) &&
            (dc.Ok? ==> DataAttrOf(attribute) == Ok(NonResident(init, init, Clusters(RunsOf(dc.value, 0)))))
  {
    FlagByte(attribute);
    Pow256Monotone(|Slice(attribute, 48, 56)|, 8);
    Pow256Table();
    ClustersFromIsDecoded(attribute, LE(Slice(attribute, 32, 34)), 0);
  }

  /** A resident attribute written with a size decodes to that size. */
  lemma {:induction false} ResidentRoundTrip(base: seq<byte>, size: nat)
    requires 20 <= |base| && size < 0x1_0000_0000
    ensures DataAttrOf(Put(Put(base, 8, [0]), 16, EncodeLE(size, 4))) == Ok(Resident(size))
  {
    var a1 := Put(base, 8, [0]);
    var a := Put(a1, 16, EncodeLE(size, 4));
    Pow256Table();
    PutLE(a1, 16, size, 4);
    PutOther(a1, 16, EncodeLE(size, 4), 8, 9);
    PutRead(base, 8, [0]);
    LEOne(0);
  }

  /** The attribute header fields of a non-resident `$DATA` attribute:
      the flag, the run-list offset and the initialised size. */
  function NonResidentHeader(base: seq<byte>, runListOffset: nat, initSize: nat): (a: seq<byte>)
    requires 56 <= |base| && runListOffset < 0x1_0000 && initSize < 0x1_0000_0000_0000_0000
    ensures |a| == |base|
  {
    Put(Put(Put(base, 8, [1]), 32, EncodeLE(runListOffset, 2)), 48, EncodeLE(initSize, 8))
  }

  lemma {:induction false} NonResidentHeaderFields(base: seq<byte>, runListOffset: nat, initSize: nat)
    requires 56 <= |base| && runListOffset < 0x1_0000 && initSize < 0x1_0000_0000_0000_0000
    ensures var a := NonResidentHeader(base, runListOffset, initSize);
            a[8] == 1 && LE(Slice(a, 32, 34)) == runListOffset && LE(Slice(a, 48, 56)) == initSize
  {
    var a1 := Put(base, 8, [1]);
    var a2 := Put(a1, 32, EncodeLE(runListOffset, 2));
    PutOtherIndex(a1, 32, EncodeLE(runListOffset, 2), 8);
    PutOtherIndex(a2, 48, EncodeLE(initSize, 8), 8);
    Pow256Table();
    PutLE(a1, 32, runListOffset, 2);
    PutOther(a2, 48, EncodeLE(initSize, 8), 32, 34);
    PutLE(a2, 48, initSize, 8);
  }

  /** A non-resident attribute with encoded run records placed after its
      header decodes to the initialised size and the records' clusters. */
  lemma {:induction false} NonResidentRoundTrip(base: seq<byte>, runListOffset: nat, initSize: nat, cs: seq<RunCode>)
    requires AllCanonical(cs) && 56 <= runListOffset < 0x1_0000 && initSize < 0x1_0000_0000_0000_0000
    requires runListOffset + |EncodeCodes(cs)| <= |base|
    ensures DataAttrOf(Put(NonResidentHeader(base, runListOffset, initSize), runListOffset, EncodeCodes(cs))) ==
            Ok(NonResident(initSize, initSize, Clusters(RunsOf(cs, 0))))
  {
    var h := NonResidentHeader(base, runListOffset, initSize);
    var e := EncodeCodes(cs);
    var a := Put(h, runListOffset, e);
    NonResidentHeaderFields(base, runListOffset, initSize);
    PutOtherIndex(h, runListOffset, e, 8);
    PutOther(h, runListOffset, e, 32, 34);
    PutOther(h, runListOffset, e, 48, 56);
    PutRead(h, runListOffset, e);
    DecodeOfEncodeAt(a, runListOffset, cs);
    NonResidentIsDecoded(a);
  }

  // ------------------------------------------------------- the run-list loop

  /** The `while True` loop of `parse_data_attr`: `offset_runlist` walks the
      run records, `cluster_offset` accumulates the unsigned deltas, and
      the inner `for` appends `range(cluster_offset, cluster_offset +
      length)` to `sector_list`. Indexing the header byte past the end of
      the attribute is the only failure. */
  method DecodeRunList(attribute: seq<byte>, start: nat) returns (r: Result<seq<nat>>)
    ensures r == SectorList(attribute, start)
  {
    var sectorList: seq<nat> := [];
    var clusterOffset: nat := 0;
    var offsetRunlist: nat := start;
    PrependEmpty(ClustersFrom(attribute, start, 0));
    while true
      invariant SectorList(attribute, start) == Prepend(sectorList, ClustersFrom(attribute, offsetRunlist, clusterOffset))
      decreases Measure(attribute, offsetRunlist)
    {
      if offsetRunlist >= |attribute| {
        PastTheEnd(attribute, offsetRunlist, clusterOffset, sectorList);
        return Err(IndexPastEnd(offsetRunlist));
      }
      var singleByte := attribute[offsetRunlist];
      var low := LowNibble(singleByte);
      var high := HighNibble(singleByte);
      if low == 0 && high == 0 {
        ZeroHeader(attribute, offsetRunlist, clusterOffset, sectorList);
        return Ok(sectorList);
      }
      var length := LE(Slice(attribute, offsetRunlist + 1, offsetRunlist + low + 1));
      ghost var ptr, before := clusterOffset, sectorList;
      clusterOffset := clusterOffset + LE(Slice(attribute, offsetRunlist + 1 + low, offsetRunlist + 1 + low + high));
      sectorList := AppendRange(sectorList, clusterOffset, length);
      var next := offsetRunlist + low + high + 1;
      AdvanceRecord(attribute, offsetRunlist, low, high, ptr, before, length, clusterOffset, next, sectorList);
      offsetRunlist := next;
    }
  }

  /** The inner `for x in range(first, first + length)` loop, appending
      each cluster of one run to `sector_list`. */
  method AppendRange(sectorList: seq<nat>, first: nat, length: nat) returns (s: seq<nat>)
    ensures s == sectorList + RunClusters(Run(first, length))
  {
    s := sectorList;
    for x := first to first + length
      invariant s == sectorList + RunClusters(Run(first, x - first))
    {
      ExtendRun(sectorList, first, x - first, s);
      s := s + [x];
    }
  }

  /** Appending the next cluster of a run. */
  lemma {:induction false} ExtendRun(before: seq<nat>, start: nat, n: nat, done: seq<nat>)
    requires done == before + RunClusters(Run(start, n))
    ensures done + [start + n] == before + RunClusters(Run(start, n + 1))
  {
    RunClustersSnoc(start, n);
    assert before + RunClusters(Run(start, n)) + [start + n] == before + (RunClusters(Run(start, n)) + [start + n]);
  }

  /** Appending one more cluster to an expanded run. */
  lemma {:induction false} RunClustersSnoc(start: nat, n: nat)
    ensures RunClusters(Run(start, n + 1)) == RunClusters(Run(start, n)) + [start + n]
  {
    var a, b := RunClusters(Run(start, n + 1)), RunClusters(Run(start, n)) + [start + n];
    assert |a| == |b|;
    forall k | 0 <= k < |a| ensures a[k] == b[k] { }
  }

  /** Reading the header byte past the end fails, losing what was emitted. */
  lemma {:induction false} PastTheEnd(a: seq<byte>, off: nat, ptr: nat, done: seq<nat>)
    requires |a| <= off
    ensures Prepend(done, ClustersFrom(a, off, ptr)) == Err(IndexPastEnd(off))
  {
  }

  /** A zero header byte ends the list with what was emitted so far. */
  lemma {:induction false} ZeroHeader(a: seq<byte>, off: nat, ptr: nat, done: seq<nat>)
    requires off < |a| && LowNibble(a[off]) == 0 && HighNibble(a[off]) == 0
    ensures Prepend(done, ClustersFrom(a, off, ptr)) == Ok(done)
  {
    assert done + [] == done;
  }

  /** One turn of the loop keeps the invariant: the record at `off`, read
      as the source reads it, emits `range(ptr2, ptr2 + length)` and leaves
      the cursor at `off2`, nearer the end of the attribute. */
  lemma {:induction false} AdvanceRecord(a: seq<byte>, off: nat, low: nat, high: nat, ptr: nat, done: seq<nat>,
                                         length: nat, ptr2: nat, off2: nat, done2: seq<nat>)
    requires off < |a| && low == LowNibble(a[off]) && high == HighNibble(a[off]) && !(low == 0 && high == 0)
    requires length == LE(Slice(a, off + 1, off + low + 1))
    requires ptr2 == ptr + LE(Slice(a, off + 1 + low, off + 1 + low + high))
    requires off2 == off + low + high + 1
    requires done2 == done + RunClusters(Run(ptr2, length))
    ensures Measure(a, off2) < Measure(a, off)
    ensures Prepend(done, ClustersFrom(a, off, ptr)) == Prepend(done2, ClustersFrom(a, off2, ptr2))
  {
    CodeAtReadsSlices(a, off, low, high);
    var c := CodeAt(a, off);
    assert c.length == length && ptr + c.delta == ptr2 && off + Step(c) == off2;
    ClustersFromStepTo(a, off, ptr, off2, ptr2, length);
    PrependAssoc(done, RunClusters(Run(ptr2, length)), ClustersFrom(a, off2, ptr2));
  }

}
