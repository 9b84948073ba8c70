// The CVNP compliant identifier and its conversion to and from a raw CAN
// identifier (src/cvnp/cvnp.h:33-46, 144-153). The header leaves the order of
// the fields over the integer undefined; this model fixes one layout, and what
// is proved about it is the round trip and the 29-bit bound, not bit positions.
module CompliantIds {
  import opened CanBus

  /** The seven bitfields of tCompliantId, each exactly as wide as declared. */
  datatype CompliantId = CompliantId(
    broad: bv1,  // broadcast frame
    nonc: bv1,   // non-compliant frame
    scls: bv6,   // sender class
    sinst: bv4,  // sender instance
    rcls: bv6,   // receiver class
    rinst: bv4,  // receiver instance
    ddef: bv7)   // data definition

  /** The 29 identifier bits the fields occupy (the width of an extended CAN id). */
  const ID_BITS: CanId := 0x1FFF_FFFF

  // Layout: ddef 0-6, rinst 7-10, rcls 11-16, sinst 17-20, scls 21-26, nonc 27, broad 28.

  /** cvnp_structToId: pack the fields into an integer identifier. */
  function StructToId(x: CompliantId): (id: CanId)
    ensures id & ID_BITS == id
  {
    (x.ddef as CanId)
    | ((x.rinst as CanId) << 7)
    | ((x.rcls as CanId) << 11)
    | ((x.sinst as CanId) << 17)
    | ((x.scls as CanId) << 21)
    | ((x.nonc as CanId) << 27)
    | ((x.broad as CanId) << 28)
  }

  /** cvnp_idToStruct: break the bits of an integer identifier out into fields.
      Every identifier decodes; bits above the 29 used ones are ignored. */
  function IdToStruct(id: CanId): (x: CompliantId)
    ensures StructToId(x) == id & ID_BITS
  {
    CompliantId(
      ((id >> 28) & 0x1) as bv1,
      ((id >> 27) & 0x1) as bv1,
      ((id >> 21) & 0x3F) as bv6,
      ((id >> 17) & 0xF) as bv4,
      ((id >> 11) & 0x3F) as bv6,
      ((id >> 7) & 0xF) as bv4,
      (id & 0x7F) as bv7)
  }

  /** Decoding an encoded identifier gives back every field. */
  lemma RoundTrip(x: CompliantId)
    ensures IdToStruct(StructToId(x)) == x
  {
  }

  /** Distinct identifiers never share a wire identifier. */
  lemma StructToIdInjective(x: CompliantId, y: CompliantId)
    requires StructToId(x) == StructToId(y)
    ensures x == y
  {
    RoundTrip(x);
    RoundTrip(y);
  }

  /** Two raw identifiers decode alike exactly when they agree on the 29 used bits. */
  lemma IdToStructIgnoresHighBits(a: CanId, b: CanId)
    ensures IdToStruct(a) == IdToStruct(b) <==> a & ID_BITS == b & ID_BITS
  {
    if IdToStruct(a) == IdToStruct(b) {
      assert StructToId(IdToStruct(a)) == StructToId(IdToStruct(b));
    }
  }
}
