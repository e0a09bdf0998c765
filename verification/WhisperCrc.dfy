/** The CRC-16 of the whisper accessory protocol: polynomial 0x8005, register
    starting at zero, message bits taken least significant first.  Machine words
    are sequences of bits, least significant first. */
module WhisperCrc {

  newtype uint8 = x: int | 0 <= x < 0x100

  type Byte = s: seq<bool> | |s| == 8 witness [false, false, false, false, false, false, false, false]
  type Word = s: seq<bool> | |s| == 16 witness Falses(16)

  function Falses(n: nat): (s: seq<bool>)
    ensures |s| == n
  {
    seq(n, _ => false)
  }

  /** The number a machine word stands for. */
  function Value(s: seq<bool>): nat {
    if s == [] then 0 else (if s[0] then 1 else 0) + 2 * Value(s[1..])
  }

  const ZERO: Word := Falses(16)

  // 0x8005
  const POLY: Word := [true, false, true] + Falses(12) + [true]

  /** crc << 1, as a 16-bit word. */
  function Double(w: Word): Word {
    [false] + w[..15]
  }

  function Xor(s: seq<bool>, t: seq<bool>): (r: seq<bool>)
    requires |s| == |t|
    ensures |r| == |s|
  {
    seq(|s|, i requires 0 <= i < |s| => s[i] != t[i])
  }

  /** One round: shift, and subtract the polynomial when the outgoing bit differs from the message bit. */
  function Shift(crc: Word, bit: bool): Word {
    if bit != crc[15] then Xor(Double(crc), POLY) else Double(crc)
  }

  /** The register after a whole sequence of message bits. */
  function Run(crc: Word, bits: seq<bool>): Word {
    if bits == [] then crc else Shift(Run(crc, bits[..|bits| - 1]), bits[|bits| - 1])
  }

  /** The message as bits, in the order they are sent. */
  function Bits(data: seq<Byte>): seq<bool> {
    if data == [] then [] else Bits(data[..|data| - 1]) + data[|data| - 1]
  }

  function Crc(data: seq<Byte>): Word { Run(ZERO, Bits(data)) }

  lemma RunStep(crc: Word, a: seq<bool>, b: seq<bool>, j: nat)
    requires j < |b|
    ensures Run(crc, a + b[..j + 1]) == Shift(Run(crc, a + b[..j]), b[j])
  {
    var s, t := a + b[..j], a + b[..j + 1];
    assert t == s + [b[j]];
    assert t[..|s|] == s && t[|s|] == b[j];
  }

  /** SHAC_CalculateCrc; round j of the inner loop uses the mask 1 << j. */
  method CalculateCrc(data: array<Byte>, count: uint8) returns (crc: Word)
    requires count as int <= data.Length
    ensures crc == Crc(data[..count as int])
  {
    crc := ZERO;
    for counter := 0 to count as int
      invariant crc == Crc(data[..counter])
    {
      var byte := data[counter];
      ghost var before := Bits(data[..counter]);
      assert before + byte[..0] == before;
      for j := 0 to 8
        invariant crc == Run(ZERO, before + byte[..j])
      {
        RunStep(ZERO, before, byte, j);
        var nbit := byte[j];
        var cbit := crc[15];
        crc := Double(crc);
        if nbit != cbit {
          crc := Xor(crc, POLY);
        }
      }
      assert data[..counter + 1][..counter] == data[..counter];
      assert byte[..8] == byte;
    }
  }
}
