/** The base 64 encoding of section 4 of RFC 4648, with a decoder written from the same section. */
module Rfc4648 {

  type Byte = bv8

  const PAD: Byte := 0x3d // '='

  /** Table 1: the character that stands for a 6-bit value. */
  function Character(v: Byte): Byte {
    if v < 26 then v + 0x41        // A-Z
    else if v < 52 then v + 0x47   // a-z
    else if v < 62 then v - 4      // 0-9
    else if v == 62 then 0x2b      // +
    else 0x2f                      // /
  }

  /** Table 1 read backwards. */
  function Value(c: Byte): Byte {
    if 0x41 <= c <= 0x5a then c - 0x41
    else if 0x61 <= c <= 0x7a then c - 0x47
    else if 0x30 <= c <= 0x39 then c + 4
    else if c == 0x2b then 62
    else 63
  }

  // The four 6-bit groups of 24 input bits
  function First(b0: Byte): Byte { b0 >> 2 }
  function Second(b0: Byte, b1: Byte): Byte { ((b0 & 3) << 4) | (b1 >> 4) }
  function Third(b1: Byte, b2: Byte): Byte { ((b1 & 15) << 2) | (b2 >> 6) }
  function Fourth(b2: Byte): Byte { b2 & 63 }

  /** Whole groups of 24 bits, then a last group of 8 or 16 bits filled with zero bits and padded. */
  function Encode(bs: seq<Byte>): (text: seq<Byte>) {
    if |bs| == 0 then []
    else if |bs| == 1 then
      [Character(First(bs[0])), Character(Second(bs[0], 0)), PAD, PAD]
    else if |bs| == 2 then
      [Character(First(bs[0])), Character(Second(bs[0], bs[1])), Character(Third(bs[1], 0)), PAD]
    else
      [Character(First(bs[0])), Character(Second(bs[0], bs[1])), Character(Third(bs[1], bs[2])), Character(Fourth(bs[2]))]
      + Encode(bs[3..])
  }

  // The three bytes of four 6-bit groups
  function Byte0(v0: Byte, v1: Byte): Byte { (v0 << 2) | (v1 >> 4) }
  function Byte1(v1: Byte, v2: Byte): Byte { (v1 << 4) | (v2 >> 2) }
  function Byte2(v2: Byte, v3: Byte): Byte { (v2 << 6) | v3 }

  /** Reads an encoded text back, four characters at a time. */
  function Decode(text: seq<Byte>): (bs: seq<Byte>) {
    if |text| < 4 then []
    else
      var v0, v1, v2, v3 := Value(text[0]), Value(text[1]), Value(text[2]), Value(text[3]);
      if text[2] == PAD then [Byte0(v0, v1)]
      else if text[3] == PAD then [Byte0(v0, v1), Byte1(v1, v2)]
      else [Byte0(v0, v1), Byte1(v1, v2), Byte2(v2, v3)] + Decode(text[4..])
  }

  lemma ValueOfCharacter(v: Byte)
    requires v < 64
    ensures Value(Character(v)) == v && Character(v) != PAD
  {
  }

  lemma GroupsSmall(b0: Byte, b1: Byte, b2: Byte)
    ensures First(b0) < 64 && Second(b0, b1) < 64 && Third(b1, b2) < 64 && Fourth(b2) < 64
  {
  }

  lemma BytesOfGroups(b0: Byte, b1: Byte, b2: Byte)
    ensures Byte0(First(b0), Second(b0, b1)) == b0
    ensures Byte1(Second(b0, b1), Third(b1, b2)) == b1
    ensures Byte2(Third(b1, b2), Fourth(b2)) == b2
  {
  }

  lemma ReadBack(b0: Byte, b1: Byte, b2: Byte)
    ensures var v0, v1 := Value(Character(First(b0))), Value(Character(Second(b0, b1)));
            var v2, v3 := Value(Character(Third(b1, b2))), Value(Character(Fourth(b2)));
            Byte0(v0, v1) == b0 && Byte1(v1, v2) == b1 && Byte2(v2, v3) == b2
    ensures Character(Third(b1, b2)) != PAD && Character(Fourth(b2)) != PAD
  {
    GroupsSmall(b0, b1, b2);
    ValueOfCharacter(First(b0));
    ValueOfCharacter(Second(b0, b1));
    ValueOfCharacter(Third(b1, b2));
    ValueOfCharacter(Fourth(b2));
    BytesOfGroups(b0, b1, b2);
  }

  lemma {:induction false} DecodeEncode(bs: seq<Byte>)
    ensures Decode(Encode(bs)) == bs
  {
    hide Character, Value, First, Second, Third, Fourth, Byte0, Byte1, Byte2;
    if |bs| == 0 {
    } else if |bs| == 1 {
      ReadBack(bs[0], 0, 0);
    } else if |bs| == 2 {
      ReadBack(bs[0], bs[1], 0);
    } else {
      ReadBack(bs[0], bs[1], bs[2]);
      assert Encode(bs)[4..] == Encode(bs[3..]);
      DecodeEncode(bs[3..]);
      assert bs == [bs[0], bs[1], bs[2]] + bs[3..];
    }
  }

  /** The first test vectors of section 10: "f", "fo" and "foo". */
  lemma Vectors()
    ensures Encode([0x66]) == [0x5a, 0x67, 0x3d, 0x3d]             // Zg==
    ensures Encode([0x66, 0x6f]) == [0x5a, 0x6d, 0x38, 0x3d]       // Zm8=
    ensures Encode([0x66, 0x6f, 0x6f]) == [0x5a, 0x6d, 0x39, 0x76] // Zm9v
  {
    assert [0x66 as Byte, 0x6f, 0x6f][3..] == [] && Encode([]) == [];
  }
}
