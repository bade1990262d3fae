/** The NTFS data run list exactly as `parse_data_attr` reads it
    (istat_ntfs.py:190-222): a header byte whose low nibble is the width of
    the run length and whose high nibble is the width of the cluster delta,
    both read little-endian and UNSIGNED, with Python's clipped slices; a
    0x00 header ends the list; the only failure is indexing a header byte
    past the end of the attribute. */
module RunList {
  import opened Bytes
  import opened Results

  /** `single_byte & 0x0F`: number of bytes holding the run length. On a
      byte the mask is the remainder by 16 (`NibbleMasks`). */
  function LowNibble(b: byte): nat
  {
    b % 16
  }

  /** `(single_byte & 0xF0) >> 4`: number of bytes holding the cluster
      delta, the quotient by 16. */
  function HighNibble(b: byte): nat
  {
    b / 16
  }

  /** Masking and shifting a byte are remainder and quotient by 16. */
  lemma {:induction false} NibbleMasks(x: bv8)
    ensures x & 0x0F == x % 16
    ensures (x & 0xF0) >> 4 == x / 16
  {
  }

  /** One run as it is stored: the two field widths and their unsigned values. */
  datatype RunCode = RunCode(lengthBytes: nat, deltaBytes: nat, length: nat, delta: nat)

  /** One run of clusters: the absolute start cluster and the cluster count. */
  datatype Run = Run(start: nat, length: nat)

  /** What a run header and its two fields can hold. */
  predicate Canonical(c: RunCode)
  {
    c.lengthBytes < 16 && c.deltaBytes < 16 && 0 < c.lengthBytes + c.deltaBytes &&
    c.length < Pow256(c.lengthBytes) && c.delta < Pow256(c.deltaBytes)
  }

  predicate AllCanonical(cs: seq<RunCode>)
  {
    forall i :: 0 <= i < |cs| ==> Canonical(cs[i])
  }

  /** The cursor step of one run: `1 + low + high`. */
  function Step(c: RunCode): nat { 1 + c.lengthBytes + c.deltaBytes }

  function Measure(a: seq<byte>, off: nat): nat
  {
    if off < |a| then |a| - off + 1 else 0
  }

  /** `unpack(a[lo:lo + n])`: the little-endian value of the `n` bytes at
      `lo`, where bytes past the end of `a` are simply missing. */
  function Field(a: seq<byte>, lo: nat, n: nat): nat
    decreases n
  {
    if n == 0 || lo >= |a| then 0 else a[lo] + 256 * Field(a, lo + 1, n - 1)
  }

  /** `Field` is `unpack` of the clipped slice. */
  lemma {:induction false} FieldIsSliceLE(a: seq<byte>, lo: nat, n: nat)
    ensures Field(a, lo, n) == LE(Slice(a, lo, lo + n))
  {
    FieldUpTo(a, lo, n, lo + n);
  }

  lemma {:induction false} FieldUpTo(a: seq<byte>, lo: nat, n: nat, hi: nat)
    requires lo + n == hi
    ensures Field(a, lo, n) == LE(Slice(a, lo, hi))
    decreases n
  {
    if n != 0 && lo < |a| {
      FieldUpTo(a, lo + 1, n - 1, hi);
      LESliceStep(a, lo, hi);
    } else {
      assert Slice(a, lo, hi) == [];
    }
  }

  /** Peeling the first byte off a little-endian slice. */
  lemma {:induction false} LESliceStep(a: seq<byte>, lo: nat, hi: nat)
    requires lo < hi && lo < |a|
    ensures LE(Slice(a, lo, hi)) == a[lo] + 256 * LE(Slice(a, lo + 1, hi))
  {
    var s := Slice(a, lo, hi);
    assert s[0] == a[lo] && s[1..] == Slice(a, lo + 1, hi);
  }

  /** An `n`-byte field holds less than 256^n. */
  lemma {:induction false} FieldBound(a: seq<byte>, lo: nat, n: nat)
    ensures Field(a, lo, n) < Pow256(n)
    decreases n
  {
    if n != 0 && lo < |a| {
      FieldBound(a, lo + 1, n - 1);
    } else if n != 0 {
      assert Pow256(n) >= 1;
    }
  }

  /** The run record whose header byte sits at `off`: the length is read
      from the `low` bytes after the header and the delta from the `high`
      bytes after that, each slice clipped to the attribute. */
  function CodeAt(a: seq<byte>, off: nat): (c: RunCode)
    requires off < |a|
    ensures c.lengthBytes < 16 && c.deltaBytes < 16
    ensures a[off] == 16 * c.deltaBytes + c.lengthBytes
  {
    var low, high := LowNibble(a[off]), HighNibble(a[off]);
    RunCode(low, high, Field(a, off + 1, low), Field(a, off + 1 + low, high))
  }

  /** The two fields are `unpack(attr[off+1 : off+low+1])` and
      `unpack(attr[off+1+low : off+1+low+high])`. */
  lemma {:induction false} CodeAtReadsSlices(a: seq<byte>, off: nat, low: nat, high: nat)
    requires off < |a| && low == LowNibble(a[off]) && high == HighNibble(a[off])
    ensures CodeAt(a, off) == RunCode(low, high, LE(Slice(a, off + 1, off + low + 1)),
                                      LE(Slice(a, off + 1 + low, off + 1 + low + high)))
  {
    FieldUpTo(a, off + 1, low, off + low + 1);
    FieldUpTo(a, off + 1 + low, high, off + 1 + low + high);
    var c := CodeAt(a, off);
    assert c.lengthBytes == low && c.deltaBytes == high;
    assert c.length == Field(a, off + 1, low);
    assert c.delta == Field(a, off + 1 + low, high);
  }

  /** A record behind a non-zero header is one an encoder could write. */
  lemma {:induction false} CodeAtCanonical(a: seq<byte>, off: nat)
    requires off < |a| && a[off] != 0
    ensures Canonical(CodeAt(a, off))
  {
    var c := CodeAt(a, off);
    FieldBound(a, off + 1, c.lengthBytes);
    FieldBound(a, off + 1 + c.lengthBytes, c.deltaBytes);
  }

  /** The run records read from cursor `off` up to the 0x00 header. */
  function DecodeCodes(a: seq<byte>, off: nat): Result<seq<RunCode>>
    decreases Measure(a, off)
  {
    if off >= |a| then Err(IndexPastEnd(off))
    else
      var code := CodeAt(a, off);
      if code.lengthBytes == 0 && code.deltaBytes == 0 then Ok([])
      else
      match DecodeCodes(a, off + Step(code))
      case Ok(rest) => Ok([code] + rest)
      case Err(e) => Err(e)
  }

  /** The loop ends at once exactly when the header byte is 0x00, and fails
      at once exactly when the cursor is already past the attribute. */
  lemma {:induction false} DecodeStopsAtZero(a: seq<byte>, off: nat)
    ensures DecodeCodes(a, off) == Ok([]) <==> off < |a| && a[off] == 0
    ensures DecodeCodes(a, off).Err? && off < |a| ==> a[off] != 0
  {
  }

  lemma {:induction false} DecodeCodesStep(a: seq<byte>, off: nat)
    requires off < |a| && a[off] != 0
    ensures DecodeCodes(a, off) ==
            match DecodeCodes(a, off + Step(CodeAt(a, off)))
            case Ok(r) => Ok([CodeAt(a, off)] + r)
            case Err(e) => Err(e)
  {
  }

  lemma {:induction false} DecodeCodesCons(a: seq<byte>, off: nat, c: RunCode, rest: seq<RunCode>)
    requires off < |a| && CodeAt(a, off) == c && Canonical(c)
    requires DecodeCodes(a, off + Step(c)) == Ok(rest)
    ensures DecodeCodes(a, off) == Ok([c] + rest)
  {
  }

  /** Every decoded record is canonical and takes at least two bytes, and
      the terminating 0x00 header lies inside the attribute; a failure is
      always a header index at or past the end. */
  lemma {:induction false} DecodedShape(a: seq<byte>, off: nat)
    ensures DecodeCodes(a, off).Ok? ==> AllCanonical(DecodeCodes(a, off).value)
    ensures DecodeCodes(a, off).Ok? ==> off + 2 * |DecodeCodes(a, off).value| < |a|
    ensures DecodeCodes(a, off).Err? ==>
              exists p :: off <= p && |a| <= p && DecodeCodes(a, off).error == IndexPastEnd(p)
    decreases Measure(a, off)
  {
    if off < |a| && a[off] != 0 {
      var c := CodeAt(a, off);
      var next := off + Step(c);
      DecodedShape(a, next);
      CodeAtCanonical(a, off);
      DecodeCodesStep(a, off);
      var tail := DecodeCodes(a, next);
      if tail.Ok? {
        var cs := [c] + tail.value;
        assert DecodeCodes(a, off).value == cs;
        forall i | 0 <= i < |cs| ensures Canonical(cs[i]) {
          if i > 0 { assert cs[i] == tail.value[i - 1]; }
        }
      } else {
        var p :| next <= p && |a| <= p && tail.error == IndexPastEnd(p);
        assert off <= p;
      }
    } else if off >= |a| {
      assert DecodeCodes(a, off).error == IndexPastEnd(off);
    }
  }

  /** Sum of the deltas of the given run records. */
  function DeltaSum(cs: seq<RunCode>): nat
  {
    if cs == [] then 0 else cs[0].delta + DeltaSum(cs[1..])
  }

  /** The runs: each start is the cluster pointer after adding that run's
      delta, and each length is the decoded length. */
  function RunsOf(cs: seq<RunCode>, ptr: nat): (r: seq<Run>)
    ensures |r| == |cs|
    ensures forall i :: 0 <= i < |cs| ==> r[i].length == cs[i].length
  {
    if cs == [] then []
    else
      var p := ptr + cs[0].delta;
      [Run(p, cs[0].length)] + RunsOf(cs[1..], p)
  }

  /** The cluster pointer is the running sum of the deltas: run i starts at
      `ptr` plus the deltas of runs 0..i. */
  lemma {:induction false} RunStartIsDeltaSum(cs: seq<RunCode>, ptr: nat, i: nat)
    requires i < |cs|
    ensures RunsOf(cs, ptr)[i].start == ptr + DeltaSum(cs[..i + 1])
  {
    var p := ptr + cs[0].delta;
    assert cs[..i + 1][1..] == cs[1..][..i];
    if i > 0 {
      RunStartIsDeltaSum(cs[1..], p, i - 1);
      assert RunsOf(cs, ptr)[i] == RunsOf(cs[1..], p)[i - 1];
    } else {
      assert cs[..1][1..] == [];
    }
  }

  /** Deltas are unsigned, so the cluster pointer never moves backwards:
      every run starts at or after the previous one. */
  lemma {:induction false} StartsNonDecreasing(cs: seq<RunCode>, ptr: nat)
    ensures forall i :: 0 <= i < |cs| ==> ptr <= RunsOf(cs, ptr)[i].start
    ensures forall i, j :: 0 <= i <= j < |cs| ==> RunsOf(cs, ptr)[i].start <= RunsOf(cs, ptr)[j].start
  {
    if cs != [] {
      var p := ptr + cs[0].delta;
      StartsNonDecreasing(cs[1..], p);
      var r := RunsOf(cs, ptr);
      assert r == [Run(p, cs[0].length)] + RunsOf(cs[1..], p);
      forall i, j | 0 <= i <= j < |cs| ensures r[i].start <= r[j].start {
        if 0 < i { assert r[i] == RunsOf(cs[1..], p)[i - 1] && r[j] == RunsOf(cs[1..], p)[j - 1]; }
        else if 0 < j { assert r[j] == RunsOf(cs[1..], p)[j - 1]; }
      }
    }
  }

  /** The clusters of one run: `range(start, start + length)`. */
  function RunClusters(r: Run): (s: seq<nat>)
    ensures |s| == r.length
    ensures forall k :: 0 <= k < |s| ==> s[k] == r.start + k
    decreases r.length
  {
    if r.length == 0 then [] else [r.start] + RunClusters(Run(r.start + 1, r.length - 1))
  }

  function TotalLength(runs: seq<Run>): nat
  {
    if runs == [] then 0 else runs[0].length + TotalLength(runs[1..])
  }

  /** The clusters of every run, run after run, in decode order. */
  function Clusters(runs: seq<Run>): (s: seq<nat>)
    ensures |s| == TotalLength(runs)
  {
    if runs == [] then [] else RunClusters(runs[0]) + Clusters(runs[1..])
  }

  /** Run `r` covers cluster `x`. */
  predicate Covers(r: Run, x: nat)
  {
    r.start <= x < r.start + r.length
  }

  lemma {:induction false} RunMembership(r: Run, x: nat)
    ensures x in RunClusters(r) <==> Covers(r, x)
  {
    if Covers(r, x) {
      assert RunClusters(r)[x - r.start] == x;
    }
  }

  /** A cluster is listed exactly when some run covers it. */
  lemma {:induction false} ClustersMembership(runs: seq<Run>, x: nat)
    ensures x in Clusters(runs) <==> exists i :: 0 <= i < |runs| && Covers(runs[i], x)
  {
    if runs != [] {
      var rest := runs[1..];
      ClustersMembership(rest, x);
      RunMembership(runs[0], x);
      assert Clusters(runs) == RunClusters(runs[0]) + Clusters(rest);
      if exists i :: 0 <= i < |rest| && Covers(rest[i], x) {
        var i :| 0 <= i < |rest| && Covers(rest[i], x);
        assert runs[i + 1] == rest[i];
      }
      if exists i :: 0 <= i < |runs| && Covers(runs[i], x) {
        var i :| 0 <= i < |runs| && Covers(runs[i], x);
        if i > 0 { assert rest[i - 1] == runs[i]; }
      }
    }
  }

  lemma {:induction false} ClustersCons(c: RunCode, rest: seq<RunCode>, ptr: nat)
    ensures Clusters(RunsOf([c] + rest, ptr)) ==
            RunClusters(Run(ptr + c.delta, c.length)) + Clusters(RunsOf(rest, ptr + c.delta))
  {
    assert ([c] + rest)[1..] == rest;
    var runs := RunsOf([c] + rest, ptr);
    assert runs[1..] == RunsOf(rest, ptr + c.delta);
  }

  /** The clusters the loop emits from cursor `off` on with the cluster
      pointer at `ptr`: a non-zero header emits `range(ptr + delta,
      ptr + delta + length)` and moves the cursor on by `1 + low + high`. */
  function ClustersFrom(a: seq<byte>, off: nat, ptr: nat): Result<seq<nat>>
    decreases Measure(a, off)
  {
    if off >= |a| then Err(IndexPastEnd(off))
    else
      var c := CodeAt(a, off);
      if c.lengthBytes == 0 && c.deltaBytes == 0 then Ok([])
      else Prepend(RunClusters(Run(ptr + c.delta, c.length)), ClustersFrom(a, off + Step(c), ptr + c.delta))
  }

  /** The whole `sector_list` of a run list starting at `off`; the cluster
      pointer starts at cluster 0. */
  function SectorList(a: seq<byte>, off: nat): Result<seq<nat>>
  {
    ClustersFrom(a, off, 0)
  }

  /** One turn of the loop, as the definition of `ClustersFrom` states it. */
  lemma {:induction false} ClustersFromStep(a: seq<byte>, off: nat, ptr: nat)
    requires off < |a| && a[off] != 0
    ensures ClustersFrom(a, off, ptr) ==
            Prepend(RunClusters(Run(ptr + CodeAt(a, off).delta, CodeAt(a, off).length)),
                    ClustersFrom(a, off + Step(CodeAt(a, off)), ptr + CodeAt(a, off).delta))
  {
  }

  /** The same step, with the next cursor, pointer and length given. */
  lemma {:induction false} ClustersFromStepTo(a: seq<byte>, off: nat, ptr: nat, off2: nat, ptr2: nat, length: nat)
    requires off < |a| && a[off] != 0
    requires off2 == off + Step(CodeAt(a, off)) && ptr2 == ptr + CodeAt(a, off).delta
    requires length == CodeAt(a, off).length
    ensures ClustersFrom(a, off, ptr) == Prepend(RunClusters(Run(ptr2, length)), ClustersFrom(a, off2, ptr2))
  {
    ClustersFromStep(a, off, ptr);
  }

  /** `cf` is what expanding the decoded records `dc` into clusters gives,
      with the cluster pointer starting at `ptr`: both succeed together,
      fail with the same fault, and agree on the clusters. */
  predicate Agree(dc: Result<seq<RunCode>>, cf: Result<seq<nat>>, ptr: nat)
  {
    (dc.Ok? <==> cf.Ok?) &&
    (dc.Ok? ==> cf.value == Clusters(RunsOf(dc.value, ptr))) &&
    (dc.Err? ==> cf.error == dc.error)
  }

  /** Expanding the run list on the fly is decoding all its records first,
      turning them into runs and listing their clusters. */
  lemma {:induction false} ClustersFromIsDecoded(a: seq<byte>, off: nat, ptr: nat)
    ensures Agree(DecodeCodes(a, off), ClustersFrom(a, off, ptr), ptr)
    decreases Measure(a, off)
  {
    if off < |a| && a[off] != 0 {
      ClustersFromIsDecoded(a, off + Step(CodeAt(a, off)), ptr + CodeAt(a, off).delta);
      ClustersFromStep(a, off, ptr);
      DecodeCodesStep(a, off);
      AgreeStep(ClustersFrom(a, off, ptr), ClustersFrom(a, off + Step(CodeAt(a, off)), ptr + CodeAt(a, off).delta),
                DecodeCodes(a, off), DecodeCodes(a, off + Step(CodeAt(a, off))), CodeAt(a, off), ptr);
    } else {
      AgreeAtEnd(a, off, ptr);
    }
  }

  lemma {:induction false} AgreeStep(cf0: Result<seq<nat>>, cf1: Result<seq<nat>>,
                                     dc0: Result<seq<RunCode>>, dc1: Result<seq<RunCode>>, c: RunCode, ptr: nat)
    requires cf0 == Prepend(RunClusters(Run(ptr + c.delta, c.length)), cf1)
    requires dc0 == match dc1 case Ok(r) => Ok([c] + r) case Err(e) => Err(e)
    requires Agree(dc1, cf1, ptr + c.delta)
    ensures Agree(dc0, cf0, ptr)
  {
    if dc1.Ok? {
      ClustersCons(c, dc1.value, ptr);
    }
  }

  lemma {:induction false} AgreeAtEnd(a: seq<byte>, off: nat, ptr: nat)
    requires !(off < |a| && a[off] != 0)
    ensures Agree(DecodeCodes(a, off), ClustersFrom(a, off, ptr), ptr)
  {
  }

  /** The bytes of one run: header, length field, delta field. */
  function EncodeCode(c: RunCode): (e: seq<byte>)
    requires Canonical(c)
    ensures |e| == Step(c)
  {
    [16 * c.deltaBytes + c.lengthBytes] + EncodeLE(c.length, c.lengthBytes) + EncodeLE(c.delta, c.deltaBytes)
  }

  /** The bytes of a run list, closed by the 0x00 header. */
  function EncodeCodes(cs: seq<RunCode>): seq<byte>
    requires AllCanonical(cs)
  {
    if cs == [] then [0] else EncodeCode(cs[0]) + EncodeCodes(cs[1..])
  }

  /** A header byte `16 * high + low` splits back into `low` and `high`. */
  lemma {:induction false} HeaderSplits(b: byte, low: nat, high: nat)
    requires low < 16 && high < 16 && b == 16 * high + low
    ensures LowNibble(b) == low && HighNibble(b) == high
  {
  }

  /** The record at `off` is determined by the header byte and the two
      fields. */
  lemma {:induction false} CodeAtFrom(a: seq<byte>, off: nat, c: RunCode)
    requires off < |a| && c.lengthBytes < 16 && c.deltaBytes < 16
    requires a[off] == 16 * c.deltaBytes + c.lengthBytes
    requires Field(a, off + 1, c.lengthBytes) == c.length
    requires Field(a, off + 1 + c.lengthBytes, c.deltaBytes) == c.delta
    ensures CodeAt(a, off) == c
  {
    HeaderSplits(a[off], c.lengthBytes, c.deltaBytes);
  }

  /** An encoded field reads back as its value. */
  lemma {:induction false} FieldOfEncodeLE(pre: seq<byte>, v: nat, n: nat, post: seq<byte>)
    requires v < Pow256(n)
    ensures Field(pre + EncodeLE(v, n) + post, |pre|, n) == v
    decreases n
  {
    if n > 0 {
      var e := EncodeLE(v, n);
      var pre' := pre + [v % 256];
      assert e == [v % 256] + EncodeLE(v / 256, n - 1);
      assert pre + e + post == pre' + EncodeLE(v / 256, n - 1) + post;
      FieldOfEncodeLE(pre', v / 256, n - 1, post);
    }
  }

  /** The record read at the head of an encoded run is that run. */
  lemma {:induction false} CodeAtEncoded(pre: seq<byte>, c: RunCode, post: seq<byte>)
    requires Canonical(c)
    ensures |pre| < |pre + EncodeCode(c) + post|
    ensures CodeAt(pre + EncodeCode(c) + post, |pre|) == c
  {
    var l, h := c.lengthBytes, c.deltaBytes;
    var hb: byte := 16 * h + l;
    var e1, e2 := EncodeLE(c.length, l), EncodeLE(c.delta, h);
    var a := pre + EncodeCode(c) + post;
    assert a == (pre + [hb]) + e1 + (e2 + post);
    assert a == (pre + [hb] + e1) + e2 + post;
    assert a[|pre|] == hb;
    FieldOfEncodeLE(pre + [hb], c.length, l, e2 + post);
    FieldOfEncodeLE(pre + [hb] + e1, c.delta, h, post);
    CodeAtFrom(a, |pre|, c);
  }

  /** Decoding an encoded run list, wherever it sits in the attribute,
      gives back the same run records. */
  lemma {:induction false} DecodeOfEncode(pre: seq<byte>, cs: seq<RunCode>, post: seq<byte>)
    requires AllCanonical(cs)
    ensures DecodeCodes(pre + EncodeCodes(cs) + post, |pre|) == Ok(cs)
  {
    var a := pre + EncodeCodes(cs) + post;
    assert a[|pre|..|pre| + |EncodeCodes(cs)|] == EncodeCodes(cs);
    DecodeOfEncodeAt(a, |pre|, cs);
  }

  /** The same, for an attribute whose bytes at `off` are the encoding. */
  lemma {:induction false} DecodeOfEncodeAt(a: seq<byte>, off: nat, cs: seq<RunCode>)
    requires AllCanonical(cs)
    requires off + |EncodeCodes(cs)| <= |a| && a[off..off + |EncodeCodes(cs)|] == EncodeCodes(cs)
    ensures DecodeCodes(a, off) == Ok(cs)
  {
    ReadsOfWindow(a, off, cs);
    DecodeOfReads(a, off, cs);
  }

  /** Reading from `off` meets the records `cs` one after the other and
      then a 0x00 header. */
  predicate ReadsAs(a: seq<byte>, off: nat, cs: seq<RunCode>)
    decreases |cs|
  {
    off < |a| &&
    if cs == [] then a[off] == 0
    else Canonical(cs[0]) && CodeAt(a, off) == cs[0] && ReadsAs(a, off + Step(cs[0]), cs[1..])
  }

  lemma {:induction false} DecodeOfReads(a: seq<byte>, off: nat, cs: seq<RunCode>)
    requires ReadsAs(a, off, cs)
    ensures DecodeCodes(a, off) == Ok(cs)
    decreases |cs|
  {
    if cs == [] {
      HeaderSplits(a[off], 0, 0);
    } else {
      DecodeOfReads(a, off + Step(cs[0]), cs[1..]);
      DecodeCodesCons(a, off, cs[0], cs[1..]);
      assert [cs[0]] + cs[1..] == cs;
    }
  }

  lemma {:induction false} ReadsOfWindow(a: seq<byte>, off: nat, cs: seq<RunCode>)
    requires AllCanonical(cs)
    requires off + |EncodeCodes(cs)| <= |a| && a[off..off + |EncodeCodes(cs)|] == EncodeCodes(cs)
    ensures ReadsAs(a, off, cs)
    decreases |cs|
  {
    if cs == [] {
      assert a[off] == a[off..off + 1][0];
    } else {
      SplitEncoded(a, off, cs);
      ReadsOfWindow(a, off + Step(cs[0]), cs[1..]);
    }
  }

  /** An encoded run list starts with its first record, followed by the
      encoding of the others. */
  lemma {:induction false} SplitEncoded(a: seq<byte>, off: nat, cs: seq<RunCode>)
    requires AllCanonical(cs) && cs != []
    requires off + |EncodeCodes(cs)| <= |a| && a[off..off + |EncodeCodes(cs)|] == EncodeCodes(cs)
    ensures off < |a| && Canonical(cs[0]) && AllCanonical(cs[1..]) && CodeAt(a, off) == cs[0]
    ensures off + Step(cs[0]) + |EncodeCodes(cs[1..])| <= |a|
    ensures a[off + Step(cs[0])..off + Step(cs[0]) + |EncodeCodes(cs[1..])|] == EncodeCodes(cs[1..])
  {
    var c, rest := cs[0], cs[1..];
    AllCanonicalSplit(cs);
    var mid := off + Step(c);
    WindowSplit(a, off, mid, off + |EncodeCodes(cs)|, EncodeCode(c), EncodeCodes(rest));
    CodeAtWindow(a, off, mid, c);
  }

  lemma {:induction false} AllCanonicalSplit(cs: seq<RunCode>)
    requires AllCanonical(cs) && cs != []
    ensures Canonical(cs[0]) && AllCanonical(cs[1..])
    ensures EncodeCodes(cs) == EncodeCode(cs[0]) + EncodeCodes(cs[1..])
  {
    var rest := cs[1..];
    forall i | 0 <= i < |rest| ensures Canonical(rest[i]) { assert rest[i] == cs[i + 1]; }
  }

  /** A window holding `x + y` holds `x` and then `y`. */
  lemma {:induction false} WindowSplit(a: seq<byte>, off: nat, mid: nat, hi: nat, x: seq<byte>, y: seq<byte>)
    requires mid == off + |x| && hi == mid + |y| && hi <= |a| && a[off..hi] == x + y
    ensures a[off..mid] == x && a[mid..mid + |y|] == y
  {
    assert a[off..mid] == (x + y)[..|x|];
    assert a[mid..hi] == (x + y)[|x|..];
  }

  /** Bytes at `off` that are the encoding of `c` decode to `c`. */
  lemma {:induction false} CodeAtWindow(a: seq<byte>, off: nat, mid: nat, c: RunCode)
    requires Canonical(c) && mid == off + Step(c) && mid <= |a| && a[off..mid] == EncodeCode(c)
    ensures CodeAt(a, off) == c
  {
    assert a == a[..off] + EncodeCode(c) + a[mid..];
    CodeAtEncoded(a[..off], c, a[mid..]);
  }

  /** The bytes of the record at `off` are its encoding. */
  lemma {:induction false} EncodeOfCodeAt(a: seq<byte>, off: nat)
    requires off < |a| && a[off] != 0
    requires off + Step(CodeAt(a, off)) <= |a|
    ensures Canonical(CodeAt(a, off))
    ensures a[off..off + Step(CodeAt(a, off))] == EncodeCode(CodeAt(a, off))
  {
    CodeAtCanonical(a, off);
    var c := CodeAt(a, off);
    var m, end := off + 1 + c.lengthBytes, off + Step(c);
    FieldInRange(a, off + 1, c.lengthBytes, m);
    FieldInRange(a, m, c.deltaBytes, end);
    EncodeFromParts(c, a[off], a[off + 1..m], a[m..end]);
    SplitSlice(a, off, m, end);
  }

  /** Inside the attribute a field is `unpack` of the plain slice. */
  lemma {:induction false} FieldInRange(a: seq<byte>, lo: nat, n: nat, hi: nat)
    requires hi == lo + n && hi <= |a|
    ensures Field(a, lo, n) == LE(a[lo..hi])
  {
    FieldUpTo(a, lo, n, hi);
  }

  lemma {:induction false} EncodeFromParts(c: RunCode, hb: byte, f1: seq<byte>, f2: seq<byte>)
    requires Canonical(c) && hb == 16 * c.deltaBytes + c.lengthBytes
    requires |f1| == c.lengthBytes && LE(f1) == c.length
    requires |f2| == c.deltaBytes && LE(f2) == c.delta
    ensures EncodeCode(c) == [hb] + f1 + f2
  {
    EncodeLEOfLE(f1);
    EncodeLEOfLE(f2);
  }

  lemma {:induction false} SplitSlice(a: seq<byte>, off: nat, m: nat, end: nat)
    requires off < m <= end <= |a|
    ensures a[off..end] == [a[off]] + a[off + 1..m] + a[m..end]
  {
  }

  /** A window holding `x` and then `y` holds `x + y`. */
  lemma {:induction false} WindowJoin(a: seq<byte>, off: nat, mid: nat, hi: nat, x: seq<byte>, y: seq<byte>)
    requires mid == off + |x| && hi == mid + |y| && hi <= |a| && a[off..mid] == x && a[mid..hi] == y
    ensures a[off..hi] == x + y
  {
    assert a[off..hi] == a[off..mid] + a[mid..hi];
  }

  lemma {:induction false} AllCanonicalCons(cs: seq<RunCode>)
    requires cs != [] && Canonical(cs[0]) && AllCanonical(cs[1..])
    ensures AllCanonical(cs)
    ensures EncodeCodes(cs) == EncodeCode(cs[0]) + EncodeCodes(cs[1..])
  {
    forall i | 0 <= i < |cs| ensures Canonical(cs[i]) { if i > 0 { assert cs[i] == cs[1..][i - 1]; } }
  }

  /** Re-encoding decoded run records at their own widths reproduces the
      bytes the decoder consumed. */
  lemma {:induction false} EncodeOfDecode(a: seq<byte>, off: nat, cs: seq<RunCode>)
    requires DecodeCodes(a, off) == Ok(cs)
    ensures AllCanonical(cs)
    ensures off + |EncodeCodes(cs)| <= |a| && a[off..off + |EncodeCodes(cs)|] == EncodeCodes(cs)
  {
    ReadsOfDecode(a, off, cs);
    WindowOfReads(a, off, cs);
  }

  lemma {:induction false} ReadsOfDecode(a: seq<byte>, off: nat, cs: seq<RunCode>)
    requires DecodeCodes(a, off) == Ok(cs)
    ensures ReadsAs(a, off, cs)
    decreases Measure(a, off)
  {
    DecodedShape(a, off);
    if a[off] == 0 {
      assert cs == [];
    } else {
      var c := CodeAt(a, off);
      var next := off + Step(c);
      DecodeCodesStep(a, off);
      var rest := DecodeCodes(a, next).value;
      assert cs == [c] + rest;
      ReadsOfDecode(a, next, rest);
      CodeAtCanonical(a, off);
      assert cs[1..] == rest;
    }
  }

  lemma {:induction false} WindowOfReads(a: seq<byte>, off: nat, cs: seq<RunCode>)
    requires ReadsAs(a, off, cs)
    ensures AllCanonical(cs)
    ensures off + |EncodeCodes(cs)| <= |a| && a[off..off + |EncodeCodes(cs)|] == EncodeCodes(cs)
    decreases |cs|
  {
    if cs == [] {
      assert a[off..off + 1] == [a[off]];
    } else {
      var next := off + Step(cs[0]);
      WindowOfReads(a, next, cs[1..]);
      EncodeOfCodeAt(a, off);
      EncodeOfDecodeStep(a, off, cs, next);
    }
  }

  lemma {:induction false} EncodeOfDecodeStep(a: seq<byte>, off: nat, cs: seq<RunCode>, next: nat)
    requires cs != [] && Canonical(cs[0]) && AllCanonical(cs[1..])
    requires next == off + Step(cs[0])
    requires next + |EncodeCodes(cs[1..])| <= |a| && a[next..next + |EncodeCodes(cs[1..])|] == EncodeCodes(cs[1..])
    requires a[off..next] == EncodeCode(cs[0])
    ensures AllCanonical(cs)
    ensures off + |EncodeCodes(cs)| <= |a| && a[off..off + |EncodeCodes(cs)|] == EncodeCodes(cs)
  {
    AllCanonicalCons(cs);
    var x, y := EncodeCode(cs[0]), EncodeCodes(cs[1..]);
    WindowJoin(a, off, next, next + |y|, x, y);
  }

  /** Run bytes `21 18 34 00 00`: one run of 0x18 clusters at delta `34 00`,
      so the clusters are 52..75. */
  lemma {:induction false} WorkedExample()
    ensures SectorList([0x21, 0x18, 0x34, 0x00, 0x00], 0) == Ok(seq(24, k => 52 + k))
  {
    var a: seq<byte> := [0x21, 0x18, 0x34, 0x00, 0x00];
    ExampleRecord();
    assert ClustersFrom(a, 4, 52) == Ok([]) by { HeaderSplits(a[4], 0, 0); }
    ClustersFromStep(a, 0, 0);
    ExampleClusters();
  }

  /** The same run without the closing 0x00 header, `21 18 34 00`: the
      record ends exactly at the end of the bytes, and reading the next
      header byte runs past the end, so the whole list fails. */
  lemma {:induction false} MissingTerminator()
    ensures SectorList([0x21, 0x18, 0x34, 0x00], 0) == Err(IndexPastEnd(4))
  {
    var a: seq<byte> := [0x21, 0x18, 0x34, 0x00];
    assert Field(a, 1, 1) == 0x18;
    assert Field(a, 2, 2) == 52;
    CodeAtFrom(a, 0, RunCode(1, 2, 0x18, 52));
    ClustersFromStep(a, 0, 0);
  }

  lemma {:induction false} ExampleRecord()
    ensures CodeAt([0x21, 0x18, 0x34, 0x00, 0x00], 0) == RunCode(1, 2, 0x18, 52)
  {
    var a: seq<byte> := [0x21, 0x18, 0x34, 0x00, 0x00];
    assert Field(a, 1, 1) == 0x18;
    assert Field(a, 2, 2) == 52;
    CodeAtFrom(a, 0, RunCode(1, 2, 0x18, 52));
  }

  lemma {:induction false} ExampleClusters()
    ensures RunClusters(Run(52, 0x18)) + [] == seq(24, k => 52 + k)
  {
    var expected := seq(24, k => 52 + k);
    var got := RunClusters(Run(52, 0x18));
    assert |got| == |expected|;
    forall k | 0 <= k < 24 ensures got[k] == expected[k] { }
    assert got == expected;
  }
}
