/**
 CRC-16/CCITT-FALSE as a bit-serial shift register, the form in which
 ISO/IEC 13239 and the CRC catalogues describe it: width 16, generator
 polynomial 0x1021 (x^16 + x^12 + x^5 + 1), register preset to 0xFFFF,
 message bits fed most significant bit first, no reflection and no final XOR.
 This is the reference against which the byte-at-a-time loop of the payload
 builder is proved.
 */
module CcittFalse {

  /** The eight bits of a byte, most significant first. */
  function ByteBits(b: bv8): (bits: seq<bool>)
    ensures |bits| == 8
  {
    [ b & 0x80 != 0, b & 0x40 != 0, b & 0x20 != 0, b & 0x10 != 0,
      b & 0x08 != 0, b & 0x04 != 0, b & 0x02 != 0, b & 0x01 != 0 ]
  }

  /** The bit stream of a message: its bytes in order, each most significant bit first. */
  function MessageBits(data: seq<bv8>): (bits: seq<bool>)
    ensures |bits| == 8 * |data|
  {
    if |data| == 0 then [] else ByteBits(data[0]) + MessageBits(data[1..])
  }

  /**
   One clock of the register: the bit leaving at the top is compared with the
   incoming message bit, and when they differ the generator polynomial
   0x1021 (without its implicit x^16 term) is fed back.
   */
  function Clock(reg: bv16, bit: bool): bv16 {
    if (reg & 0x8000 != 0) != bit then (reg << 1) ^ 0x1021 else reg << 1
  }

  /** The register after clocking in every bit of `bits`, starting from `reg`. */
  function Run(reg: bv16, bits: seq<bool>): bv16
    decreases |bits|
  {
    if |bits| == 0 then reg else Run(Clock(reg, bits[0]), bits[1..])
  }

  /** The CRC-16/CCITT-FALSE of a byte message: the register preset to 0xFFFF, then the message clocked in. */
  function Checksum(data: seq<bv8>): bv16 {
    Run(0xFFFF, MessageBits(data))
  }

  /** Clocking in two bit streams one after the other is clocking in their concatenation. */
  lemma {:induction false} RunAppend(reg: bv16, a: seq<bool>, b: seq<bool>)
    ensures Run(reg, a + b) == Run(Run(reg, a), b)
    decreases |a|
  {
    if |a| == 0 {
      assert a + b == b;
    } else {
      assert (a + b)[1..] == a[1..] + b;
      RunAppend(Clock(reg, a[0]), a[1..], b);
    }
  }
}
