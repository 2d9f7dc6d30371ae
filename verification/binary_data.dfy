/** BinaryData.hpp: the storage type chosen for a byte count, and the
    fixed-size byte block used above eight bytes. */
module BinaryData {

  type Byte = bv8

  /** The storage types a byte count can map to. */
  datatype Container =
    | NoStorage            // void
    | UInt8
    | UInt16
    | UInt32
    | UInt64
    | Large(count: nat)    // Large<BYTES>

  /** Bytes held by each storage type (void holds none). */
  function Width(c: Container): nat {
    match c
    case NoStorage => 0
    case UInt8 => 1
    case UInt16 => 2
    case UInt32 => 4
    case UInt64 => 8
    case Large(n) => n
  }

  /** The fixed-width integer types. */
  predicate Fixed(c: Container) {
    c.UInt8? || c.UInt16? || c.UInt32? || c.UInt64?
  }

  /** BYTES is a 32-bit template parameter. */
  const MAX_BYTES: nat := 0xFFFF_FFFF

  /** Container<BYTES>::Type: void for 0, the explicit specialisations for 1
      to 8, Large<BYTES> for anything else. */
  function ContainerFor(bytes: nat): (c: Container)
    requires bytes <= MAX_BYTES
    ensures bytes == 0 <==> c == NoStorage
    ensures 1 <= bytes <= 8 <==> Fixed(c)
    ensures bytes > 8 <==> c.Large?
  {
    if bytes == 0 then NoStorage
    else if bytes == 1 then UInt8
    else if bytes == 2 then UInt16
    else if bytes <= 4 then UInt32
    else if bytes <= 8 then UInt64
    else Large(bytes)
  }

  /** The chosen container always holds the requested bytes; above eight it
      holds exactly that many, and up to eight it is the narrowest
      fixed-width type that does. */
  lemma ContainerFits(bytes: nat, other: Container)
    requires bytes <= MAX_BYTES
    ensures Width(ContainerFor(bytes)) >= bytes
    ensures bytes > 8 ==> Width(ContainerFor(bytes)) == bytes
    ensures 1 <= bytes <= 8 && Fixed(other) && Width(other) >= bytes ==>
              Width(ContainerFor(bytes)) <= Width(other)
  {
  }

  /** A Large<BYTES> value: exactly BYTES bytes. */
  datatype LargeValue = LargeValue(bytes: seq<Byte>)

  /** Large::Large(aBytes): every byte set to the given value. */
  function NewLarge(count: nat, fill: Byte): (v: LargeValue)
    ensures |v.bytes| == count
    ensures forall i :: 0 <= i < count ==> v.bytes[i] == fill
  {
    LargeValue(seq(count, i => fill))
  }

  /** The Large block chosen for more than eight bytes holds exactly its
      container's width, every byte the fill value. */
  lemma LargeFillsContainer(bytes: nat, fill: Byte)
    requires 8 < bytes <= MAX_BYTES
    ensures ContainerFor(bytes) == Large(bytes)
    ensures |NewLarge(bytes, fill).bytes| == Width(ContainerFor(bytes))
    ensures forall b :: b in NewLarge(bytes, fill).bytes ==> b == fill
  {
  }
}
