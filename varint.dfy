/** The unsigned base-128 varint format of Go's encoding/binary package
    (`binary.PutUvarint`, `binary.Uvarint`, `binary.MaxVarintLen64`): seven
    payload bits per byte, least significant group first, the high bit of a
    byte set when another byte follows. */
module Varint {
  import opened Base

  /** The longest encoding of a 64-bit value, in bytes. */
  const MAX_VARINT_LEN_64: nat := 10

  function Pow128(k: nat): (p: nat)
    ensures p >= 1
    ensures k >= 1 ==> p >= 0x80
  {
    if k == 0 then 1 else 0x80 * Pow128(k - 1)
  }

  /** The bytes PutUvarint writes for `x`; the last one lacks the
      continuation bit. */
  function Encode(x: uint64): (r: seq<byte>)
    ensures 1 <= |r|
    ensures r[|r| - 1] < 0x80
    decreases x
  {
    if x < 0x80 then [x]
    else
      var tail := Encode(x / 0x80);
      var r := [x % 0x80 + 0x80] + tail;
      assert r[|r| - 1] == tail[|tail| - 1];
      r
  }

  lemma EncodeCons(v: uint64)
    requires v >= 0x80
    ensures Encode(v) == [v % 0x80 + 0x80] + Encode(v / 0x80)
  {
  }

  lemma EncodeSuffix(e: seq<byte>, k: nat, v: uint64)
    requires v >= 0x80 && k <= |e| && e[k..] == Encode(v)
    ensures k + 1 < |e| && e[k] == v % 0x80 + 0x80 && e[k + 1..] == Encode(v / 0x80)
  {
    EncodeCons(v);
    assert e[k + 1..] == e[k..][1..];
  }

  /** Every byte of an encoding but the last carries the continuation bit. */
  lemma {:induction false} EncodeContinues(x: uint64, j: nat)
    requires j < |Encode(x)| - 1
    ensures Encode(x)[j] >= 0x80
    decreases x
  {
    if j > 0 {
      EncodeContinues(x / 0x80, j - 1);
    }
  }

  /** The encoding is minimal: it has exactly as many bytes as `x` has
      base-128 digits, hence at most MAX_VARINT_LEN_64. */
  lemma {:induction false} EncodeLength(x: uint64)
    ensures x < Pow128(|Encode(x)|)
    ensures |Encode(x)| > 1 ==> Pow128(|Encode(x)| - 1) <= x
    ensures |Encode(x)| <= MAX_VARINT_LEN_64
  {
    if x >= 0x80 {
      var q := x / 0x80;
      EncodeLength(q);
      assert |Encode(x)| == 1 + |Encode(q)|;
      assert x == 0x80 * q + x % 0x80;
    }
  }

  /** Go's `binary.Uvarint` result: the decoded value and the byte count `n`;
      n > 0 is the length of a well-formed varint, n == 0 means the buffer
      ended before the last byte, n < 0 means the value overflows 64 bits
      (and -n bytes were read). In both failure cases the value is 0. */
  datatype Decoded = Decoded(value: uint64, n: int)

  /** Uvarint's loop from byte `i` on, after `i` continuation bytes: the value
      of the groups buf[i], buf[i+1], … (not yet shifted by 7*i) and the byte
      count that Uvarint returns. */
  function UvarintFrom(buf: seq<byte>, i: nat): (r: (nat, int))
    requires i <= |buf| && i <= MAX_VARINT_LEN_64
    ensures r.1 <= 0 ==> r.0 == 0
    ensures r.1 > 0 ==> i < r.1 <= |buf| && r.1 <= MAX_VARINT_LEN_64
    ensures r.1 > 0 ==> r.0 < 2 * Pow128(MAX_VARINT_LEN_64 - 1 - i)
    ensures r.1 < 0 ==> r.1 == -(MAX_VARINT_LEN_64 as int) - 1 || r.1 == -(MAX_VARINT_LEN_64 as int)
    decreases |buf| - i
  {
    if i == |buf| then (0, 0)
    else if i == MAX_VARINT_LEN_64 then (0, -(i + 1))
    else if buf[i] < 0x80 then
      // the tenth byte may hold only the top bit of a 64-bit value
      if i == MAX_VARINT_LEN_64 - 1 && buf[i] > 1 then (0, -(i + 1))
      else (buf[i], i + 1)
    else
      var rest := UvarintFrom(buf, i + 1);
      if rest.1 > 0 then (buf[i] - 0x80 + 0x80 * rest.0, rest.1) else rest
  }

  /** Go's `binary.Uvarint(buf)`. */
  function Uvarint(buf: seq<byte>): (d: Decoded)
    ensures d.n <= 0 ==> d.value == 0
    ensures d.n > 0 ==> d.n <= |buf| && d.n <= MAX_VARINT_LEN_64
  {
    var r := UvarintFrom(buf, 0);
    assert Pow128(9) * 2 == TWO_TO_64;
    Decoded(r.0, r.1)
  }

  lemma {:induction false} UvarintFromEncode(buf: seq<byte>, i: nat, y: uint64)
    requires i < MAX_VARINT_LEN_64 && y < 2 * Pow128(MAX_VARINT_LEN_64 - 1 - i)
    requires i <= |buf| && buf[i..] == Encode(y)
    ensures UvarintFrom(buf, i) == (y, |buf|)
    decreases y
  {
    if y >= 0x80 {
      var q := y / 0x80;
      EncodeSuffix(buf, i, y);
      var p := Pow128(MAX_VARINT_LEN_64 - 1 - (i + 1));
      assert Pow128(MAX_VARINT_LEN_64 - 1 - i) == 0x80 * p;
      UvarintFromEncode(buf, i + 1, q);
    } else {
      assert buf[i..] == [y];
    }
  }

  /** Decoding the bytes PutUvarint writes gives the value back, and Uvarint
      reports exactly those bytes as consumed. */
  lemma RoundTrip(x: uint64)
    ensures Uvarint(Encode(x)) == Decoded(x, |Encode(x)|)
  {
    assert Pow128(9) * 2 == TWO_TO_64;
    assert Encode(x)[0..] == Encode(x);
    UvarintFromEncode(Encode(x), 0, x);
  }

  lemma {:induction false} AllContinuationFrom(buf: seq<byte>, i: nat)
    requires i <= |buf| <= MAX_VARINT_LEN_64
    requires forall j :: i <= j < |buf| ==> buf[j] >= 0x80
    ensures UvarintFrom(buf, i) == (0, 0)
    decreases |buf| - i
  {
    if i < |buf| {
      AllContinuationFrom(buf, i + 1);
    }
  }

  /** A strict prefix of an encoding (a truncated stored value) decodes to 0
      with byte count 0. */
  lemma TruncatedDecodesToZero(x: uint64, k: nat)
    requires k < |Encode(x)|
    ensures Uvarint(Encode(x)[..k]) == Decoded(0, 0)
  {
    EncodeLength(x);
    forall j | 0 <= j < k
      ensures Encode(x)[..k][j] >= 0x80
    {
      EncodeContinues(x, j);
    }
    AllContinuationFrom(Encode(x)[..k], 0);
  }

  /** Bytes whose payload needs more than 64 bits: nine continuation bytes
      followed by a tenth byte that either ends the varint with a value
      above 1 or asks for an eleventh byte. */
  predicate Overflows(buf: seq<byte>) {
    && |buf| >= MAX_VARINT_LEN_64
    && (forall j :: 0 <= j < MAX_VARINT_LEN_64 - 1 ==> buf[j] >= 0x80)
    && (2 <= buf[MAX_VARINT_LEN_64 - 1] < 0x80
        || (buf[MAX_VARINT_LEN_64 - 1] >= 0x80 && |buf| > MAX_VARINT_LEN_64))
  }

  lemma {:induction false} OverflowFrom(buf: seq<byte>, i: nat)
    requires i < MAX_VARINT_LEN_64 && Overflows(buf)
    ensures UvarintFrom(buf, i).0 == 0 && UvarintFrom(buf, i).1 < 0
    decreases MAX_VARINT_LEN_64 - i
  {
    if i < MAX_VARINT_LEN_64 - 1 {
      OverflowFrom(buf, i + 1);
    }
  }

  /** Bytes that carry more than 64 bits of payload decode to value 0 with a
      negative byte count. */
  lemma OverflowDecodesToZero(buf: seq<byte>)
    requires Overflows(buf)
    ensures Uvarint(buf).value == 0 && Uvarint(buf).n < 0
  {
    OverflowFrom(buf, 0);
  }

  /** Go's `binary.PutUvarint(buf, x)`: writes the encoding of `x` at the front
      of `buf` and returns its length; the rest of `buf` is untouched. */
  method PutUvarint(buf: array<byte>, x: uint64) returns (size: nat)
    requires |Encode(x)| <= buf.Length
    modifies buf
    ensures size == |Encode(x)| && buf[..size] == Encode(x)
    ensures buf[size..] == old(buf[size..])
  {
    ghost var e := Encode(x);
    ghost var before := buf[..];
    var v := x;
    size := 0;
    while v >= 0x80
      invariant size < |e| && Encode(v) == e[size..]
      invariant forall j :: 0 <= j < size ==> buf[j] == e[j]
      invariant buf[|e|..] == before[|e|..]
      decreases v
    {
      // Go stores byte(v) | 0x80: the low seven bits with the continuation bit set
      var b := v % 0x80 + 0x80;
      EncodeSuffix(e, size, v);
      buf[size] := b;
      v := v / 0x80;
      size := size + 1;
    }
    assert e[size..] == [v];
    buf[size] := v;
    size := size + 1;
  }
}
