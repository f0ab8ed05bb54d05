/** The masked, unfragmented frames of sections 5.2 and 5.3 of RFC 6455, as a client sends them. */
module Rfc6455 {

  type Byte = bv8

  /** The three encodings of the payload length: 7 bits, 7 + 16 bits and 7 + 64 bits. */
  datatype Form = Bits7 | Bits16 | Bits64

  datatype Frame = Frame(opcode: Byte, form: Form, mask: seq<Byte>, payload: seq<Byte>)

  /** text, binary, close, ping and pong */
  predicate KnownOpcode(opcode: Byte) {
    opcode == 1 || opcode == 2 || opcode == 8 || opcode == 9 || opcode == 10
  }

  predicate Fits(form: Form, n: nat) {
    match form
    case Bits7 => n <= 125
    case Bits16 => n < 0x1_0000
    case Bits64 => n < 0x8000_0000_0000_0000
  }

  /** A frame with a payload. */
  predicate Valid(f: Frame) {
    KnownOpcode(f.opcode) && |f.mask| == 4 && |f.payload| > 0 && Fits(f.form, |f.payload|)
  }

  function Digit(n: nat): Byte {
    (n % 0x100) as Byte
  }

  /** The 7-bit length field. */
  function Length7(form: Form, n: nat): (b: Byte)
    requires Fits(form, n)
    ensures b < 128
  {
    match form
    case Bits7 => n as Byte
    case Bits16 => 126
    case Bits64 => 127
  }

  /** The extended payload length, most significant byte first. */
  function Extended(form: Form, n: nat): seq<Byte> {
    match form
    case Bits7 => []
    case Bits16 => [Digit(n / 0x100), Digit(n)]
    case Bits64 => [
      Digit(n / 0x100_0000_0000_0000), Digit(n / 0x1_0000_0000_0000),
      Digit(n / 0x100_0000_0000), Digit(n / 0x1_0000_0000),
      Digit(n / 0x100_0000), Digit(n / 0x1_0000), Digit(n / 0x100), Digit(n)]
  }

  function Combine(x: Byte, y: Byte): Byte { x ^ y }

  /** Section 5.3: octet i is combined with octet i mod 4 of the key. */
  function Masked(mask: seq<Byte>, data: seq<Byte>): (r: seq<Byte>)
    requires |mask| == 4
    ensures |r| == |data|
  {
    seq(|data|, i requires 0 <= i < |data| => Combine(data[i], mask[i % 4]))
  }

  lemma MaskedTwice(mask: seq<Byte>, data: seq<Byte>)
    requires |mask| == 4
    ensures Masked(mask, Masked(mask, data)) == data
  {
    hide Combine;
    forall i | 0 <= i < |data|
      ensures Masked(mask, Masked(mask, data))[i] == data[i]
    {
      CombineTwice(data[i], mask[i % 4]);
    }
  }

  lemma CombineTwice(x: Byte, y: Byte)
    ensures Combine(Combine(x, y), y) == x
  {
  }

  function Start(f: Frame): (h: seq<Byte>)
    requires Valid(f)
  {
    [0x80 | f.opcode, 0x80 | Length7(f.form, |f.payload|)] + Extended(f.form, |f.payload|)
  }

  function Header(f: Frame): (h: seq<Byte>)
    requires Valid(f)
  {
    Start(f) + f.mask
  }

  /** Section 5.2: final frame, no extension bits, mask bit set. */
  function Encode(f: Frame): (bs: seq<Byte>)
    requires Valid(f)
  {
    Header(f) + Masked(f.mask, f.payload)
  }
}
