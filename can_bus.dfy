// The CAN frame as the CVNP hardware access layer hands it over
// (src/cvnp/cvnp_hal.h:18-28). Bus I/O and the clock are not modelled here:
// the node receives frames and timestamps as parameters.
module CanBus {

  type byte = bv8

  /** A 32-bit CAN identifier as carried in a frame. */
  type CanId = bv32

  /** An unsigned 32-bit integer, as a number. */
  type uint32 = n: int | 0 <= n < 0x1_0000_0000

  /** A millisecond time stamp, as the HAL clock returns it. */
  type Time = uint32

  /** The period of the 32-bit clock. */
  const CLOCK_WRAP: int := 0x1_0000_0000

  /** The 4-bit data length code of the frame header. */
  type Dlc = n: int | 0 <= n < 16

  /** The frame always carries 8 data bytes; `dlc` says how many are meaningful. */
  type Payload = s: seq<byte> | |s| == 8 witness [0, 0, 0, 0, 0, 0, 0, 0]

  /** A raw frame: identifier, header bits (extended id, remote request, length) and data. */
  datatype Frame = Frame(id: CanId, ide: bool, rtr: bool, dlc: Dlc, data: Payload)

  /** The 32-bit value held in the first four data bytes, read little-endian. */
  function LoadLe32(d: Payload): (v: bv32)
    ensures (v & 0xFF) as byte == d[0] && ((v >> 8) & 0xFF) as byte == d[1]
    ensures ((v >> 16) & 0xFF) as byte == d[2] && (v >> 24) as byte == d[3]
  {
    (d[0] as bv32) | ((d[1] as bv32) << 8) | ((d[2] as bv32) << 16) | ((d[3] as bv32) << 24)
  }

  /** The payload of a frame: the first (at most 8) bytes given, zero-padded to 8. */
  function PackPayload(bytes: seq<byte>): (p: Payload)
    ensures forall i :: 0 <= i < |bytes| && i < 8 ==> p[i] == bytes[i]
    ensures forall i :: |bytes| <= i < 8 ==> p[i] == 0
  {
    if |bytes| >= 8 then bytes[..8]
    else bytes + seq(8 - |bytes|, _ => 0 as byte)
  }

  /** The data length code that goes with PackPayload: the byte count, capped at 8. */
  function PayloadLength(bytes: seq<byte>): (n: Dlc)
    ensures n <= 8
    ensures n == |bytes| || (n == 8 && |bytes| > 8)
  {
    if |bytes| >= 8 then 8 else |bytes|
  }
}
