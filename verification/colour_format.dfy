/** ColourFormat.hpp: packed colour formats, the bit-by-bit copy between
    bit offsets of two byte buffers, and Read/Write of the aOffset-th
    element of a packed buffer. Buffers are byte sequences; bit k of a
    buffer is bit k % 8 of byte k / 8. */
module ColourFormat {

  type Byte = bv8

  /** 1 << k for each bit position k of a byte. */
  const Masks: seq<Byte> := [1, 2, 4, 8, 16, 32, 64, 128]

  /** Bit k (0 = least significant) of a byte, tested under its mask. */
  function BitOf(b: Byte, k: nat): bool
    requires k < 8
  {
    b & Masks[k] != 0
  }

  /** Bit `offset` of a buffer. */
  function BitAt(buf: seq<Byte>, offset: nat): bool
    requires offset < 8 * |buf|
  {
    BitOf(buf[offset / 8], offset % 8)
  }

  /** Distinct bit positions have disjoint masks, and every mask is set. */
  lemma MasksDisjoint(k: nat, m: nat)
    requires k < 8 && m < 8
    ensures Masks[k] != 0
    ensures k != m ==> Masks[k] & Masks[m] == 0
  {
  }

  /** Byte b after the two statements of the loop body: the bits of mask
      cleared, then set again when v holds. */
  function Update(b: Byte, mask: Byte, v: bool): Byte {
    if v then (b & !mask) | mask else b & !mask
  }

  /** Under a non-zero mask x the update leaves x's bits set exactly when v
      holds and the bits of a disjoint y as they were. */
  lemma UpdateUnderMask(b: Byte, x: Byte, y: Byte, v: bool)
    requires x != 0 && x & y == 0
    ensures Update(b, x, v) & x != 0 <==> v
    ensures Update(b, x, v) & y == b & y
  {
  }

  /** Updating bit k leaves bit m when m differs from k. */
  lemma UpdateKeepsOtherBits(b: Byte, k: nat, m: nat, v: bool)
    requires k < 8 && m < 8 && k != m
    ensures BitOf(Update(b, Masks[k], v), m) == BitOf(b, m)
  {
    var x := Masks[k];
    var y := Masks[m];
    MasksDisjoint(k, m);
    UpdateUnderMask(b, x, y, v);
  }

  /** The loop body on the destination byte with dstMask = 1 << k. */
  function WithBitOf(b: Byte, k: nat, v: bool): (r: Byte)
    requires k < 8
    ensures BitOf(r, k) == v
    ensures forall m :: 0 <= m < 8 && m != k ==> BitOf(r, m) == BitOf(b, m)
  {
    var x := Masks[k];
    MasksDisjoint(k, k);
    UpdateUnderMask(b, x, 0, v);
    forall m | 0 <= m < 8 && m != k
      ensures BitOf(Update(b, x, v), m) == BitOf(b, m)
    {
      UpdateKeepsOtherBits(b, k, m, v);
    }
    Update(b, x, v)
  }

  /** Set bit `offset` of a buffer to v, leaving every other bit. */
  function SetBitAt(buf: seq<Byte>, offset: nat, v: bool): (r: seq<Byte>)
    requires offset < 8 * |buf|
    ensures |r| == |buf|
    ensures BitAt(r, offset) == v
    ensures forall m :: 0 <= m < 8 * |buf| && m != offset ==> BitAt(r, m) == BitAt(buf, m)
  {
    buf[offset / 8 := WithBitOf(buf[offset / 8], offset % 8, v)]
  }

  /** The test at the top of CopyBits: the byte-aligned (memcpy) path is
      taken exactly when the bit count and both offsets are whole bytes. */
  predicate ByteAligned(bits: nat, srcOffset: nat, dstOffset: nat) {
    bits % 8 == 0 && srcOffset % 8 == 0 && dstOffset % 8 == 0
  }

  /** The source bit iteration k of the loop tests as written: the byte at
      the running offset, under the mask of the initial offset's bit
      position. */
  function TestedBit(src: seq<Byte>, srcOffset: nat, k: nat): bool
    requires srcOffset + k < 8 * |src|
  {
    BitOf(src[(srcOffset + k) / 8], srcOffset % 8)
  }

  /** The unaligned branch of CopyBits as written: BITS iterations, each
      writing the destination bit at the running destination offset from
      TestedBit and touching no other destination bit. */
  method CopyBitsAsWritten(bits: nat, src: seq<Byte>, srcOffset: nat, dst: seq<Byte>, dstOffset: nat)
    returns (out: seq<Byte>)
    requires srcOffset + bits <= 8 * |src| && dstOffset + bits <= 8 * |dst|
    ensures |out| == |dst|
    ensures forall k :: 0 <= k < bits ==> BitAt(out, dstOffset + k) == TestedBit(src, srcOffset, k)
    ensures forall m :: 0 <= m < 8 * |dst| && !(dstOffset <= m < dstOffset + bits) ==>
              BitAt(out, m) == BitAt(dst, m)
  {
    out := dst;
    var i := 0;
    var runningSrc := srcOffset;
    var runningDst := dstOffset;
    while i != bits
      invariant 0 <= i <= bits
      invariant runningSrc == srcOffset + i && runningDst == dstOffset + i
      invariant |out| == |dst|
      invariant forall k :: 0 <= k < i ==> BitAt(out, dstOffset + k) == TestedBit(src, srcOffset, k)
      invariant forall m :: 0 <= m < 8 * |dst| && !(dstOffset <= m < dstOffset + i) ==>
                  BitAt(out, m) == BitAt(dst, m)
    {
      var srcByte := src[runningSrc / 8];
      var bit := BitOf(srcByte, srcOffset % 8);
      out := SetBitAt(out, runningDst, bit);
      runningSrc := runningSrc + 1;
      runningDst := runningDst + 1;
      i := i + 1;
    }
  }

  /** As written, copying two bits from offset 0 of the byte 0b10 tests bit
      0 twice: destination bit 1 receives 0 while source bit 1 is 1. */
  lemma AsWrittenDropsSecondBit()
    ensures var src: seq<Byte> := [2];
            TestedBit(src, 0, 1) == false && BitAt(src, 1) == true
  {
  }

  /** CopyBits as intended: every destination bit in the copied range equals
      the source bit at the same distance from the source offset; every
      other destination bit is unchanged. */
  function CopyBits(bits: nat, src: seq<Byte>, srcOffset: nat, dst: seq<Byte>, dstOffset: nat)
    : (out: seq<Byte>)
    requires srcOffset + bits <= 8 * |src| && dstOffset + bits <= 8 * |dst|
    ensures |out| == |dst|
    ensures forall m :: dstOffset <= m < dstOffset + bits ==>
              BitAt(out, m) == BitAt(src, m - dstOffset + srcOffset)
    ensures forall m :: 0 <= m < 8 * |dst| && !(dstOffset <= m < dstOffset + bits) ==>
              BitAt(out, m) == BitAt(dst, m)
    decreases bits
  {
    if bits == 0 then dst
    else
      SetBitAt(CopyBits(bits - 1, src, srcOffset, dst, dstOffset),
               dstOffset + bits - 1, BitAt(src, srcOffset + bits - 1))
  }

  /** The formats: bits per element and the width of the element type. */
  datatype Format = R | RG | RGB | RGBA

  function BitDepth(f: Format): nat {
    match f
    case R => 8
    case RG => 16
    case RGB => 24
    case RGBA => 32
  }

  /** sizeof(Format::Type) in bytes: uint8_t, uint16_t, uint32_t, uint32_t. */
  function TypeBytes(f: Format): nat {
    match f
    case R => 1
    case RG => 2
    case RGB => 4
    case RGBA => 4
  }

  /** The static_assert of each format holds, and each bit depth is a whole
      number of bytes. */
  lemma FormatFits(f: Format)
    ensures BitDepth(f) <= TypeBytes(f) * 8
    ensures BitDepth(f) % 8 == 0 && BitDepth(f) > 0
  {
  }

  /** Read and Write only ever copy whole bytes at whole-byte offsets, so
      every call takes the byte-aligned branch and never the bit loop. */
  lemma ReadWriteAlwaysAligned(f: Format, offset: nat)
    ensures ByteAligned(BitDepth(f), offset * BitDepth(f), 0)
    ensures ByteAligned(BitDepth(f), 0, offset * BitDepth(f))
  {
    var k := BitDepth(f) / 8;
    assert BitDepth(f) == 8 * k;
    WholeBytesScale(offset, k);
  }

  /** A count of whole bytes stays a whole number of bytes when scaled. */
  lemma WholeBytesScale(n: nat, k: nat)
    ensures (n * (8 * k)) % 8 == 0
  {
    assert n * (8 * k) == 8 * (n * k);
  }

  /** The buffer holds element `offset` of format f. */
  predicate HoldsElement(f: Format, data: seq<Byte>, offset: nat) {
    Start(f, offset) + BitDepth(f) <= 8 * |data|
  }

  /** Where element `offset` of format f starts, in bits. */
  function Start(f: Format, offset: nat): nat
  {
    offset * BitDepth(f)
  }

  /** Write: copy the BitDepth low bits of the value into the buffer from
      bit Start(f, offset) on. */
  function Write(f: Format, data: seq<Byte>, offset: nat, value: seq<Byte>): (r: seq<Byte>)
    requires |value| == TypeBytes(f) && HoldsElement(f, data, offset)
    ensures |r| == |data|
    ensures forall m :: Start(f, offset) <= m < Start(f, offset) + BitDepth(f) ==>
              BitAt(r, m) == BitAt(value, m - Start(f, offset))
    ensures forall m :: 0 <= m < 8 * |data| && !(Start(f, offset) <= m < Start(f, offset) + BitDepth(f)) ==>
              BitAt(r, m) == BitAt(data, m)
  {
    CopyBits(BitDepth(f), value, 0, data, Start(f, offset))
  }

  /** A zeroed element, the initial value of Read's temporary. */
  function Zeros(n: nat): (z: seq<Byte>)
    ensures |z| == n && forall i :: 0 <= i < n ==> z[i] == 0
  {
    seq(n, i => 0)
  }

  /** Read: copy BitDepth bits from bit Start(f, offset) of the buffer into
      a zeroed element; the bits above BitDepth stay 0. */
  function Read(f: Format, data: seq<Byte>, offset: nat): (v: seq<Byte>)
    requires HoldsElement(f, data, offset)
    ensures |v| == TypeBytes(f)
    ensures forall k :: 0 <= k < BitDepth(f) ==> BitAt(v, k) == BitAt(data, k + Start(f, offset))
    ensures forall k :: BitDepth(f) <= k < 8 * TypeBytes(f) ==> !BitAt(v, k)
  {
    var zero := Zeros(TypeBytes(f));
    assert forall k :: 0 <= k < 8 * TypeBytes(f) ==> !BitAt(zero, k) by {
      forall k | 0 <= k < 8 * TypeBytes(f) ensures !BitAt(zero, k) {
        assert zero[k / 8] == 0;
      }
    }
    CopyBits(BitDepth(f), data, Start(f, offset), zero, 0)
  }

  /** Elements occupy disjoint bit ranges. */
  lemma {:induction false} ElementsDisjoint(f: Format, i: nat, j: nat, k: nat)
    requires i != j && k < BitDepth(f)
    ensures !(Start(f, i) <= Start(f, j) + k < Start(f, i) + BitDepth(f))
  {
    var d := BitDepth(f);
    if j < i {
      MultiplyMonotone(j + 1, i, d);
    } else {
      MultiplyMonotone(i + 1, j, d);
    }
  }

  lemma {:induction false} MultiplyMonotone(a: nat, b: nat, d: nat)
    requires a <= b
    ensures a * d <= b * d
  {
    if a < b {
      MultiplyMonotone(a, b - 1, d);
      assert b * d == (b - 1) * d + d;
    }
  }

  /** Copying d bits out to position s and back again returns them. */
  lemma CopyOutAndBack(d: nat, value: seq<Byte>, data: seq<Byte>, s: nat, zero: seq<Byte>, k: nat)
    requires d <= 8 * |value| && s + d <= 8 * |data| && d <= 8 * |zero| && k < d
    ensures var written := CopyBits(d, value, 0, data, s);
            BitAt(CopyBits(d, written, s, zero, 0), k) == BitAt(value, k)
  {
    var written := CopyBits(d, value, 0, data, s);
    assert BitAt(written, k + s) == BitAt(value, k + s - s);
  }

  /** Copying d bits out to position s leaves the d bits at another
      position t outside [s, s + d). */
  lemma CopyOutElsewhere(d: nat, value: seq<Byte>, data: seq<Byte>, s: nat, t: nat, zero: seq<Byte>, k: nat)
    requires d <= 8 * |value| && s + d <= 8 * |data| && t + d <= 8 * |data| && d <= 8 * |zero| && k < d
    requires !(s <= t + k < s + d)
    ensures var written := CopyBits(d, value, 0, data, s);
            BitAt(CopyBits(d, written, t, zero, 0), k) == BitAt(CopyBits(d, data, t, zero, 0), k)
  {
    var written := CopyBits(d, value, 0, data, s);
    assert BitAt(written, t + k) == BitAt(data, t + k);
  }

  /** Reading back the element just written gives bit k of the value
      written, for every bit k of the element. */
  lemma ReadAfterWrite(f: Format, data: seq<Byte>, i: nat, value: seq<Byte>, k: nat)
    requires |value| == TypeBytes(f) && HoldsElement(f, data, i) && k < BitDepth(f)
    ensures var written := Write(f, data, i, value);
            |written| == |data| && BitAt(Read(f, written, i), k) == BitAt(value, k)
  {
    CopyOutAndBack(BitDepth(f), value, data, Start(f, i), Zeros(TypeBytes(f)), k);
  }

  /** Writing one element leaves every bit of every other element. */
  lemma ReadOtherAfterWrite(f: Format, data: seq<Byte>, i: nat, j: nat, value: seq<Byte>, k: nat)
    requires |value| == TypeBytes(f) && HoldsElement(f, data, i) && HoldsElement(f, data, j)
    requires i != j && k < BitDepth(f)
    ensures var written := Write(f, data, i, value);
            |written| == |data| && BitAt(Read(f, written, j), k) == BitAt(Read(f, data, j), k)
  {
    ElementsDisjoint(f, i, j, k);
    CopyOutElsewhere(BitDepth(f), value, data, Start(f, i), Start(f, j), Zeros(TypeBytes(f)), k);
  }
}
