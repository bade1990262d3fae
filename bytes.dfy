/** Byte-level building blocks: Python's clipped slicing, the little-endian
    unsigned `unpack`, and UTF-16LE code units. */
module Bytes {

  type byte = b: int | 0 <= b < 256

  /** A UTF-16 code unit; names are kept as code units, not as decoded text. */
  type CodeUnit = u: int | 0 <= u < 0x1_0000

  function Min(a: int, b: int): int { if a <= b then a else b }

  /** Python's `s[lo:hi]` for non-negative bounds: the range is clipped to
      the sequence and an inverted range is empty, so it never fails. */
  function Slice<T>(s: seq<T>, lo: nat, hi: nat): (r: seq<T>)
    ensures |r| == if lo < hi && lo < |s| then Min(hi, |s|) - lo else 0
    ensures forall k :: 0 <= k < |r| ==> r[k] == s[lo + k]
    ensures lo <= hi <= |s| ==> r == s[lo..hi]
  {
    if lo < hi && lo < |s| then s[lo..Min(hi, |s|)] else []
  }

  /** A slice of a slice is one slice of the original. */
  lemma {:induction false} SliceOfSlice<T>(s: seq<T>, lo: nat, hi: nat, lo2: nat, hi2: nat, lo3: nat, hi3: nat)
    requires lo3 == lo + lo2 && hi3 == Min(hi, lo + hi2)
    ensures Slice(Slice(s, lo, hi), lo2, hi2) == Slice(s, lo3, hi3)
  {
    var a := Slice(Slice(s, lo, hi), lo2, hi2);
    var b := Slice(s, lo3, hi3);
    assert |a| == |b|;
    forall k | 0 <= k < |a| ensures a[k] == b[k] { }
  }

  function Pow256(n: nat): (p: nat)
    ensures p >= 1
  {
    if n == 0 then 1 else 256 * Pow256(n - 1)
  }

  /** The widths the decoders read. */
  lemma {:induction false} Pow256Table()
    ensures Pow256(1) == 0x100 && Pow256(2) == 0x1_0000 && Pow256(4) == 0x1_0000_0000
    ensures Pow256(6) == 0x1_0000_0000_0000 && Pow256(8) == 0x1_0000_0000_0000_0000
  {
    assert Pow256(1) == 0x100;
    assert Pow256(2) == 0x1_0000;
    assert Pow256(4) == 256 * (256 * Pow256(2));
    assert Pow256(6) == 256 * (256 * Pow256(4));
    assert Pow256(8) == 256 * (256 * Pow256(6));
  }

  lemma {:induction false} Pow256Monotone(m: nat, n: nat)
    requires m <= n
    ensures Pow256(m) <= Pow256(n)
    decreases n - m
  {
    if m < n {
      Pow256Monotone(m + 1, n);
    }
  }

  /** `unpack(data)`: the little-endian unsigned value of the bytes
      (`int.from_bytes(data, "little", signed=False)`); the empty slice is 0. */
  function LE(s: seq<byte>): (v: nat)
    ensures v < Pow256(|s|)
    ensures s == [] ==> v == 0
  {
    if s == [] then 0
    else
      var rest := LE(s[1..]);
      assert rest <= Pow256(|s| - 1) - 1;
      s[0] + 256 * rest
  }

  /** The positional definition: byte i weighs 256^i. */
  function PositionalSum(s: seq<byte>): nat
  {
    if s == [] then 0 else PositionalSum(s[..|s| - 1]) + s[|s| - 1] * Pow256(|s| - 1)
  }

  lemma {:induction false} LEAppend(s: seq<byte>, t: seq<byte>)
    ensures LE(s + t) == LE(s) + Pow256(|s|) * LE(t)
  {
    if s == [] {
      assert s + t == t;
      OneTimes(Pow256(|s|), LE(t));
    } else {
      var u := s + t;
      assert u[0] == s[0] && u[1..] == s[1..] + t;
      LEAppend(s[1..], t);
      Regroup(LE(u), LE(u[1..]), LE(s), s[0], LE(s[1..]), Pow256(|s|), Pow256(|s| - 1), LE(t));
    }
  }

  lemma {:induction false} OneTimes(p: int, x: int)
    requires p == 1
    ensures p * x == x
  {
  }

  lemma {:induction false} Regroup(whole: int, tail: int, first: int, b: int, a: int, pp: int, p: int, x: int)
    requires whole == b + 256 * tail && tail == a + p * x
    requires first == b + 256 * a && pp == 256 * p
    ensures whole == first + pp * x
  {
  }

  /** `unpack` is exactly the sum of b[i] * 256^i. */
  lemma {:induction false} LEIsPositionalSum(s: seq<byte>)
    ensures LE(s) == PositionalSum(s)
  {
    if s != [] {
      var init, last := s[..|s| - 1], s[|s| - 1];
      assert s == init + [last];
      LEIsPositionalSum(init);
      LESnoc(init, last);
      PositionalSumSnoc(init, last);
    }
  }

  lemma {:induction false} LESnoc(init: seq<byte>, last: byte)
    ensures LE(init + [last]) == LE(init) + last * Pow256(|init|)
  {
    LEAppend(init, [last]);
    LEOne(last);
    Substitute(LE(init + [last]), LE(init), Pow256(|init|), LE([last]), last);
  }

  lemma {:induction false} Substitute(x: int, y: int, p: int, l: int, b: int)
    requires x == y + p * l && l == b
    ensures x == y + b * p
  {
  }

  lemma {:induction false} LEOne(b: byte)
    ensures LE([b]) == b
  {
    assert [b][1..] == [];
  }

  lemma {:induction false} PositionalSumSnoc(init: seq<byte>, last: byte)
    ensures PositionalSum(init + [last]) == PositionalSum(init) + last * Pow256(|init|)
  {
    var s := init + [last];
    assert s[..|s| - 1] == init;
  }

  /** The n-byte little-endian encoding of v (v is reduced modulo 256^n). */
  function EncodeLE(v: nat, n: nat): (r: seq<byte>)
    ensures |r| == n
  {
    if n == 0 then [] else [v % 256] + EncodeLE(v / 256, n - 1)
  }

  /** Decoding an encoding gives the value back. */
  lemma {:induction false} LEOfEncodeLE(v: nat, n: nat)
    requires v < Pow256(n)
    ensures LE(EncodeLE(v, n)) == v
  {
    if n > 0 {
      var e := EncodeLE(v, n);
      assert e[1..] == EncodeLE(v / 256, n - 1);
      assert v / 256 < Pow256(n - 1);
      LEOfEncodeLE(v / 256, n - 1);
    }
  }

  /** Encoding a decoded slice at its own width gives the bytes back. */
  lemma {:induction false} EncodeLEOfLE(s: seq<byte>)
    ensures EncodeLE(LE(s), |s|) == s
  {
    if s != [] {
      var v := LE(s);
      assert v == s[0] + 256 * LE(s[1..]);
      assert v % 256 == s[0];
      assert v / 256 == LE(s[1..]);
      EncodeLEOfLE(s[1..]);
    }
  }

  /** A non-zero value needs at least one byte. */
  lemma {:induction false} LENonZero(s: seq<byte>)
    requires LE(s) != 0
    ensures |s| > 0
  {
  }

  /** UTF-16LE code units of an even-length byte string. */
  function Utf16Units(b: seq<byte>): (u: seq<CodeUnit>)
    requires |b| % 2 == 0
    ensures |u| == |b| / 2
    ensures forall k :: 0 <= k < |u| ==> u[k] == b[2 * k] as int + 256 * b[2 * k + 1] as int
  {
    if b == [] then [] else [b[0] as int + 256 * b[1] as int] + Utf16Units(b[2..])
  }

  /** UTF-16LE bytes of a code-unit string. */
  function Utf16Bytes(u: seq<CodeUnit>): (b: seq<byte>)
    ensures |b| == 2 * |u| && |b| % 2 == 0
  {
    if u == [] then [] else [u[0] % 256, u[0] / 256] + Utf16Bytes(u[1..])
  }

  lemma {:induction false} Utf16RoundTrip(u: seq<CodeUnit>)
    ensures Utf16Units(Utf16Bytes(u)) == u
  {
    if u != [] {
      var b := Utf16Bytes(u);
      assert b[2..] == Utf16Bytes(u[1..]);
      Utf16RoundTrip(u[1..]);
    }
  }

  /** `s` with the bytes at `off .. off + |b|` replaced by `b`; used to
      build buffers that hold chosen field values. */
  function Put(s: seq<byte>, off: nat, b: seq<byte>): (r: seq<byte>)
    requires off + |b| <= |s|
    ensures |r| == |s|
  {
    s[..off] + b + s[off + |b|..]
  }

  /** Reading back the patched window gives the patch. */
  lemma {:induction false} PutRead(s: seq<byte>, off: nat, b: seq<byte>)
    requires off + |b| <= |s|
    ensures Slice(Put(s, off, b), off, off + |b|) == b
  {
    var r := Put(s, off, b);
    assert forall k :: 0 <= k < |b| ==> r[off + k] == b[k];
  }

  /** A window clear of the patch is unchanged. */
  lemma {:induction false} PutOther(s: seq<byte>, off: nat, b: seq<byte>, lo: nat, hi: nat)
    requires off + |b| <= |s|
    requires hi <= off || off + |b| <= lo
    ensures Slice(Put(s, off, b), lo, hi) == Slice(s, lo, hi)
  {
    var r := Put(s, off, b);
    var x, y := Slice(r, lo, hi), Slice(s, lo, hi);
    assert |x| == |y|;
    forall k | 0 <= k < |x| ensures x[k] == y[k] {
      assert x[k] == r[lo + k];
    }
  }

  /** A single byte clear of the patch is unchanged. */
  lemma {:induction false} PutOtherIndex(s: seq<byte>, off: nat, b: seq<byte>, k: nat)
    requires off + |b| <= |s| && k < |s|
    requires k < off || off + |b| <= k
    ensures Put(s, off, b)[k] == s[k]
  {
  }

  /** An encoded little-endian field reads back as its value. */
  lemma {:induction false} PutLE(s: seq<byte>, off: nat, v: nat, n: nat)
    requires off + n <= |s| && v < Pow256(n)
    ensures LE(Slice(Put(s, off, EncodeLE(v, n)), off, off + n)) == v
  {
    PutRead(s, off, EncodeLE(v, n));
    LEOfEncodeLE(v, n);
  }
}
