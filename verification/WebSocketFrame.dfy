/** websocket.c: the frame parser, which unmasks the payload inside the receive buffer. */
module WebSocketFrame {
  import opened Rfc6455
  import ByteInts

  const SIZE_MAX1: nat := 0x1_0000_0000_0000_0000 // 2^64, one more than the largest size_t

  /** What getPayloadLength reports. */
  datatype Length = LengthIncomplete | LengthError | Known(extra: nat, payload: nat)

  /**
   * What wsParseInputFrame reports. Undefined stands for a length whose sum with the header size
   * passes 2^64: the C code then walks past the buffer, which is not described any further.
   */
  datatype Outcome =
    | Error
    | Incomplete
    | Empty(opcode: Byte)
    | Undefined
    | Accepted(opcode: Byte, start: nat, length: nat, more: nat)

  /** inputFrame[9 - i] << (i * 8), or-ed together for i = 0..3 as 32-bit int, then widened with its sign. */
  function Widened(b6: Byte, b7: Byte, b8: Byte, b9: Byte): nat {
    var low := (b6 as int) * 0x100_0000 + (b7 as int) * 0x1_0000 + (b8 as int) * 0x100 + (b9 as int);
    if b6 as int >= 0x80 then SIZE_MAX1 - 0x1_0000_0000 + low else low
  }

  // The header tests
  predicate ReservedBits(b: Byte) { (b & 0x70) != 0 }
  predicate FinalBit(b: Byte) { (b & 0x80) == 0x80 }
  predicate MaskBit(b: Byte) { (b & 0x80) == 0x80 }
  function Opcode(b: Byte): Byte { b & 0x0f }
  function Low7(b: Byte): Byte { b & 0x7f }
  predicate SignBit(b: Byte) { (b & 0x80) != 0 }

  /** getPayloadLength. The sign test looks at byte 3 of the frame, the second of the eight length bytes. */
  function PayloadLength(s: seq<Byte>): Length
    requires |s| >= 2
  {
    var p := Low7(s[1]);
    if (p == 0x7e && |s| < 4) || (p == 0x7f && |s| < 10) then LengthIncomplete
    else if p == 0x7f && SignBit(s[3]) then LengthError
    else if p == 0x7e then Known(2, (s[2] as int) * 0x100 + (s[3] as int))
    else if p == 0x7f then Known(8, Widened(s[6], s[7], s[8], s[9]))
    else Known(0, p as int)
  }

  /** A sum of size_t numbers. */
  function Wrapped(n: nat): (r: nat)
    ensures n < SIZE_MAX1 ==> r == n
  {
    n % SIZE_MAX1
  }

  /** The decision wsParseInputFrame takes from the bytes received so far. */
  function Parse(s: seq<Byte>): (o: Outcome)
    ensures o.Accepted? ==> 6 <= o.start && o.start + o.length + o.more == |s| && o.length > 0
  {
    hide ReservedBits, FinalBit, MaskBit, Opcode, KnownOpcode, PayloadLength, Wrapped;
    if |s| < 2 then Incomplete
    else if ReservedBits(s[0]) || !FinalBit(s[0]) || !MaskBit(s[1]) then Error
    else if !KnownOpcode(Opcode(s[0])) then Error
    else
      match PayloadLength(s)
      case LengthIncomplete => Incomplete
      case LengthError => Error
      case Known(extra, n) =>
        if n == 0 then Empty(Opcode(s[0]))
        else if Wrapped(n + 6 + extra) > |s| then Incomplete
        else if n + 6 + extra >= SIZE_MAX1 then Undefined
        else Accepted(Opcode(s[0]), 6 + extra, n, |s| - 6 - extra - n)
  }

  /** The buffer after the call: only the payload of an accepted frame changes. */
  function After(s: seq<Byte>): (r: seq<Byte>)
    ensures |r| == |s|
  {
    var o := Parse(s);
    if o.Accepted? then
      s[..o.start] + Masked(s[o.start - 4..o.start], s[o.start..o.start + o.length]) + s[o.start + o.length..]
    else s
  }

  method GetPayloadLength(input: array<Byte>, inputLength: nat) returns (r: Length)
    requires 2 <= inputLength <= input.Length
    ensures r == PayloadLength(input[..inputLength])
  {
    var p := Low7(input[1]);
    if (p == 0x7e && inputLength < 4) || (p == 0x7f && inputLength < 10) {
      return LengthIncomplete;
    }
    if p == 0x7f && SignBit(input[3]) {
      return LengthError;
    }
    if p == 0x7e {
      r := Known(2, (input[2] as int) * 0x100 + (input[3] as int));
    } else if p == 0x7f {
      r := Known(8, Widened(input[6], input[7], input[8], input[9]));
    } else {
      r := Known(0, p as int);
    }
  }

  /** The loop that combines the payload with the masking key in place. */
  method Unmask(input: array<Byte>, mask: nat, data: nat, n: nat)
    requires mask + 4 == data && data + n <= input.Length
    modifies input
    ensures input[..] == old(input[..data]) + Masked(old(input[mask..data]), old(input[data..data + n])) + old(input[data + n..])
  {
    hide Combine;
    ghost var key, payload := input[mask..data], input[data..data + n];
    for i := 0 to n
      invariant input[..data] == old(input[..data])
      invariant forall k :: 0 <= k < 4 ==> input[mask + k] == key[k]
      invariant input[data..data + i] == Masked(key, payload)[..i]
      invariant input[data + i..] == old(input[data + i..])
    {
      assert key[i % 4] == input[mask + i % 4];
      assert payload[i] == input[data + i];
      input[data + i] := Combine(input[data + i], input[mask + i % 4]);
      assert input[data..data + i + 1] == input[data..data + i] + [input[data + i]];
    }
  }

  lemma AfterAccepted(a: seq<Byte>, l: nat)
    requires l <= |a| && Parse(a[..l]).Accepted?
    ensures var o := Parse(a[..l]);
            var r := a[..o.start] + Masked(a[o.start - 4..o.start], a[o.start..o.start + o.length]) + a[o.start + o.length..];
            r[..l] == After(a[..l]) && r[l..] == a[l..]
  {
    hide Parse, Masked;
    var o := Parse(a[..l]);
    assert a[..l][o.start - 4..o.start] == a[o.start - 4..o.start];
    assert a[..l][o.start..o.start + o.length] == a[o.start..o.start + o.length];
  }

  lemma AfterRefused(s: seq<Byte>)
    requires !Parse(s).Accepted?
    ensures After(s) == s
  {
  }

  /** wsParseInputFrame up to the unmasking loop: the checks, the payload position and morePacketLength. */
  method Check(input: array<Byte>, inputLength: nat) returns (o: Outcome)
    requires inputLength <= input.Length
    ensures o == Parse(input[..inputLength])
  {
    hide ReservedBits, FinalBit, MaskBit, Opcode, KnownOpcode, PayloadLength, Wrapped;
    if inputLength < 2 {
      return Incomplete;
    }
    if ReservedBits(input[0]) {
      return Error;
    }
    if !FinalBit(input[0]) {
      return Error;
    }
    if !MaskBit(input[1]) {
      return Error;
    }
    var opcode := Opcode(input[0]);
    if KnownOpcode(opcode) {
      var l := GetPayloadLength(input, inputLength);
      if l.LengthIncomplete? {
        return Incomplete;
      }
      if l.LengthError? {
        return Error;
      }
      var extra, n := l.extra, l.payload;
      if n > 0 {
        if Wrapped(n + 6 + extra) > inputLength {
          return Incomplete;
        }
        if n + 6 + extra >= SIZE_MAX1 {
          return Undefined;
        }
        var more := 0;
        if n != inputLength - 6 - extra {
          more := inputLength - 6 - extra - n;
        }
        return Accepted(opcode, 2 + extra + 4, n, more);
      }
      return Empty(opcode);
    }
    return Error;
  }

  method ParseInputFrame(input: array<Byte>, inputLength: nat) returns (o: Outcome)
    requires inputLength <= input.Length
    modifies input
    ensures o == Parse(old(input[..inputLength]))
    ensures input[..inputLength] == After(old(input[..inputLength]))
    ensures input[inputLength..] == old(input[inputLength..])
  {
    hide Parse, Masked, After;
    ghost var whole := input[..];
    assert whole[..inputLength] == input[..inputLength];
    o := Check(input, inputLength);
    if o.Accepted? {
      AfterAccepted(whole, inputLength);
      Unmask(input, o.start - 4, o.start, o.length);
      assert input[..inputLength] == input[..][..inputLength] && input[inputLength..] == input[..][inputLength..];
    } else {
      AfterRefused(whole[..inputLength]);
    }
  }

  // ---- one frame -----------------------------------------------------------

  lemma HeaderBits(opcode: Byte, l: Byte)
    requires KnownOpcode(opcode) && l < 128
    ensures var b0, b1 := 0x80 | opcode, 0x80 | l;
      && !ReservedBits(b0) && FinalBit(b0) && MaskBit(b1)
      && Opcode(b0) == opcode && Low7(b1) == l
  {
  }

  lemma DigitValue(n: nat)
    ensures Digit(n) as int == n % 0x100
  {
    ByteInts.ByteValue(n % 0x100);
  }

  lemma TwoDigits(n: nat)
    requires n < 0x1_0000
    ensures (Digit(n / 0x100) as int) * 0x100 + (Digit(n) as int) == n
  {
    hide Digit;
    DigitValue(n / 0x100);
    DigitValue(n);
    ByteInts.TwoDigits(n);
  }

  /** The low 32 bits of a length, widened from int with their sign. */
  function Low32(n: nat): nat {
    var low := n % 0x1_0000_0000;
    if low < 0x8000_0000 then low else SIZE_MAX1 - 0x1_0000_0000 + low
  }

  lemma EightDigits(n: nat)
    ensures Widened(Digit(n / 0x100_0000), Digit(n / 0x1_0000), Digit(n / 0x100), Digit(n)) == Low32(n)
  {
    hide Digit;
    DigitValue(n / 0x100_0000);
    DigitValue(n / 0x1_0000);
    DigitValue(n / 0x100);
    DigitValue(n);
    ByteInts.FourDigits(n);
  }

  lemma SmallIsPositive(n: nat)
    requires n < 0x8000_0000
    ensures !SignBit(Digit(n / 0x1_0000_0000_0000))
  {
    assert n / 0x1_0000_0000_0000 == 0;
    assert Digit(0) == 0;
  }

  /** The bytes of a frame before its masking key. */
  function StartLength(form: Form): nat {
    match form case Bits7 => 2 case Bits16 => 4 case Bits64 => 10
  }

  lemma StartTests(f: Frame, s: seq<Byte>)
    requires Valid(f) && (Start(f) <= s || Start(f)[..2] <= s)
    ensures !ReservedBits(s[0]) && FinalBit(s[0]) && MaskBit(s[1]) && Opcode(s[0]) == f.opcode
    ensures KnownOpcode(Opcode(s[0]))
    ensures Low7(s[1]) == Length7(f.form, |f.payload|)
  {
    HeaderBits(f.opcode, Length7(f.form, |f.payload|));
    assert s[0] == Start(f)[0] && s[1] == Start(f)[1];
  }

  lemma Length16(f: Frame, s: seq<Byte>)
    requires Valid(f) && f.form.Bits16? && Start(f) <= s
    ensures PayloadLength(s) == Known(2, |f.payload|)
  {
    hide Digit, SignBit, Low7, Widened, ReservedBits, FinalBit, MaskBit, Opcode, KnownOpcode;
    StartTests(f, s);
    TwoDigits(|f.payload|);
    assert s[2] == Start(f)[2] && s[3] == Start(f)[3];
  }

  lemma Length64(f: Frame, s: seq<Byte>)
    requires Valid(f) && f.form.Bits64? && Start(f) <= s
    ensures |s| >= 10
    ensures PayloadLength(s) == if SignBit(s[3]) then LengthError else Known(8, Low32(|f.payload|))
  {
    hide Digit, SignBit, Low7, Widened, Low32, ReservedBits, FinalBit, MaskBit, Opcode, KnownOpcode;
    StartTests(f, s);
    EightDigits(|f.payload|);
    assert s[6] == Start(f)[6] && s[7] == Start(f)[7] && s[8] == Start(f)[8] && s[9] == Start(f)[9];
  }

  lemma Length7Bits(f: Frame, s: seq<Byte>)
    requires Valid(f) && f.form.Bits7? && Start(f) <= s
    ensures PayloadLength(s) == Known(0, |f.payload|)
  {
    hide SignBit, Low7, Widened, ReservedBits, FinalBit, MaskBit, Opcode, KnownOpcode;
    StartTests(f, s);
    ByteInts.ByteValue(|f.payload|);
  }

  /** The length the parser reads out of a frame, followed by anything. */
  lemma FrameLength(f: Frame, s: seq<Byte>)
    requires Valid(f) && Start(f) <= s
    ensures |Start(f)| == StartLength(f.form)
    ensures PayloadLength(s)
         == if f.form.Bits64? && SignBit(s[3]) then LengthError
            else Known(StartLength(f.form) - 2, if f.form.Bits64? then Low32(|f.payload|) else |f.payload|)
  {
    hide PayloadLength, SignBit, Low32, Digit;
    match f.form {
      case Bits7 => Length7Bits(f, s);
      case Bits16 => Length16(f, s);
      case Bits64 => Length64(f, s);
    }
  }

  lemma SignByte(f: Frame, s: seq<Byte>)
    requires Valid(f) && f.form.Bits64? && Start(f) <= s
    ensures s[3] == Digit(|f.payload| / 0x1_0000_0000_0000)
  {
    assert s[3] == Start(f)[3];
  }

  lemma ShortStart(f: Frame, s: seq<Byte>)
    requires Valid(f) && Start(f)[..2] <= s && |s| < StartLength(f.form)
    ensures PayloadLength(s) == LengthIncomplete
  {
    hide SignBit, Widened, Low7;
    StartTests(f, s);
  }

  lemma LongStart(f: Frame, s: seq<Byte>)
    requires Valid(f) && |f.payload| < 0x8000_0000 && Start(f) <= s
    ensures PayloadLength(s) == Known(StartLength(f.form) - 2, |f.payload|)
  {
    hide PayloadLength, Start, SignBit;
    FrameLength(f, s);
    if f.form.Bits64? {
      SmallIsPositive(|f.payload|);
      SignByte(f, s);
    }
  }

  /** A whole frame, whatever follows it: the outcome and the buffer afterwards. */
  lemma SingleFrame(f: Frame, rest: seq<Byte>)
    requires Valid(f) && |f.payload| < 0x8000_0000
    ensures Parse(Encode(f) + rest) == Accepted(f.opcode, |Header(f)|, |f.payload|, |rest|)
    ensures After(Encode(f) + rest) == Header(f) + f.payload + rest
  {
    hide ReservedBits, FinalBit, MaskBit, Opcode, KnownOpcode, PayloadLength, Start;
    var s := Encode(f) + rest;
    assert Start(f) <= s;
    FrameLength(f, s);
    StartTests(f, s);
    LongStart(f, s);
    var h := |Header(f)|;
    assert s[..h] == Header(f) && s[h - 4..h] == f.mask;
    assert s[h..h + |f.payload|] == Masked(f.mask, f.payload);
    assert s[h + |f.payload|..] == rest;
    MaskedTwice(f.mask, f.payload);
  }

  lemma LongRefused(f: Frame, rest: seq<Byte>)
    requires Valid(f) && |f.payload| >= 0x8000_0000
    ensures var o := Parse(Encode(f) + rest); o.Accepted? ==> o.length != |f.payload|
  {
    hide ReservedBits, FinalBit, MaskBit, Opcode, KnownOpcode, PayloadLength, Start, SignBit, Masked;
    var s := Encode(f) + rest;
    assert Start(f) <= s;
    FrameLength(f, s);
  }

  /**
   * The parser recovers a frame exactly when its payload is shorter than 2^31 bytes. Longer payloads
   * need the 64-bit form, of which only four bytes are read, as a signed number.
   */
  lemma RecoversExactly(f: Frame, rest: seq<Byte>)
    requires Valid(f)
    ensures (Parse(Encode(f) + rest) == Accepted(f.opcode, |Header(f)|, |f.payload|, |rest|)
             && After(Encode(f) + rest) == Header(f) + f.payload + rest)
       <==> |f.payload| < 0x8000_0000
  {
    hide Parse, After, Encode, Header;
    if |f.payload| < 0x8000_0000 {
      SingleFrame(f, rest);
    } else {
      LongRefused(f, rest);
    }
  }

  /** Every strict prefix of a frame is reported incomplete, and the buffer keeps its bytes. */
  lemma PrefixIncomplete(f: Frame, k: nat)
    requires Valid(f) && |f.payload| < 0x8000_0000 && k < |Encode(f)|
    ensures Parse(Encode(f)[..k]) == Incomplete && After(Encode(f)[..k]) == Encode(f)[..k]
  {
    hide ReservedBits, FinalBit, MaskBit, Opcode, KnownOpcode, PayloadLength, Start, Masked;
    var s, start := Encode(f)[..k], StartLength(f.form);
    FrameLength(f, Encode(f));
    if k >= 2 {
      assert Start(f)[..2] <= s by {
        assert Start(f)[..2] == Encode(f)[..2] == s[..2];
      }
      StartTests(f, s);
      if k >= start {
        assert Start(f) == Encode(f)[..start] == s[..start];
        LongStart(f, s);
      } else {
        ShortStart(f, s);
      }
    }
  }

  // ---- what is refused, and what is accepted ---------------------------------

  lemma HeaderNumbers(b: Byte)
    ensures FinalBit(b) <==> b as int >= 0x80
    ensures MaskBit(b) <==> b as int >= 0x80
    ensures SignBit(b) <==> b as int >= 0x80
    ensures ReservedBits(b) <==> b as int / 0x10 % 8 != 0
    ensures Opcode(b) as int == b as int % 0x10
    ensures Low7(b) as int == b as int % 0x80
  {
    hide FinalBit, MaskBit, SignBit, ReservedBits, Opcode, Low7;
    HighBit(b);
    MiddleBits(b);
    LowBits(b);
  }

  lemma HighBit(b: Byte)
    ensures FinalBit(b) <==> b as int >= 0x80
    ensures MaskBit(b) <==> b as int >= 0x80
    ensures SignBit(b) <==> b as int >= 0x80
  {
  }

  lemma MiddleBits(b: Byte)
    ensures ReservedBits(b) <==> b as int / 0x10 % 8 != 0
  {
  }

  lemma LowBits(b: Byte)
    ensures Opcode(b) as int == b as int % 0x10
    ensures Low7(b) as int == b as int % 0x80
  {
    hide Opcode, Low7;
    LowNibble(b);
    LowSeven(b);
  }

  lemma LowNibble(b: Byte)
    ensures b as int == ((b >> 4) as int) * 0x10 + Opcode(b) as int && Opcode(b) as int < 0x10
  {
  }

  lemma LowSeven(b: Byte)
    ensures b as int == ((b >> 7) as int) * 0x80 + Low7(b) as int && Low7(b) as int < 0x80
  {
  }

  lemma OpcodeNumbers(b: Byte)
    ensures KnownOpcode(b) <==> b as int in {1, 2, 8, 9, 10}
  {
  }

  /**
   * The exact condition for an error, on the bytes as numbers: not final, an extension bit, not masked,
   * an unknown opcode, or a 64-bit length whose second byte has its highest bit set.
   */
  lemma RefusedExactly(s: seq<Byte>)
    ensures Parse(s) == Error <==>
              && |s| >= 2
              && (|| (s[0] as int) < 0x80
                  || s[0] as int / 0x10 % 8 != 0
                  || (s[1] as int) < 0x80
                  || s[0] as int % 0x10 !in {1, 2, 8, 9, 10}
                  || (s[1] as int % 0x80 == 127 && |s| >= 10 && s[3] as int >= 0x80))
  {
    hide FinalBit, MaskBit, SignBit, ReservedBits, Opcode, Low7, KnownOpcode, Widened;
    if |s| >= 2 {
      HeaderNumbers(s[0]);
      HeaderNumbers(s[1]);
      OpcodeNumbers(Opcode(s[0]));
      LengthForm(Low7(s[1]));
      if |s| >= 4 {
        HeaderNumbers(s[3]);
      }
    }
  }

  lemma LengthForm(b: Byte)
    ensures b == 0x7f <==> b as int == 127
    ensures b == 0x7e <==> b as int == 126
  {
  }

  /** A frame without a payload is reported by its opcode alone, before its masking key has arrived. */
  lemma EmptyFrame(opcode: Byte, rest: seq<Byte>)
    requires opcode == 1 || opcode == 2 || opcode == 8 || opcode == 9 || opcode == 10
    ensures Parse([0x80 | opcode, 0x80] + rest) == Empty(opcode)
  {
    hide Widened, SignBit;
    var s := [0x80 | opcode, 0x80] + rest;
    assert s[0] == 0x80 | opcode && s[1] == 0x80 | 0;
    HeaderBits(opcode, 0);
  }

  /** A 64-bit length whose low four bytes are ff is widened to 2^64 - 1, and its sum with the header wraps to 13. */
  lemma LengthWraps(s: seq<Byte>)
    requires |s| >= 13 && s[0] == 0x82 && s[1] == 0xff && s[3] == 0
    requires s[6] == s[7] == s[8] == s[9] == 0xff
    ensures Parse(s) == Undefined
  {
    HeaderBits(2, 0x7f);
    assert s[0] == 0x80 | 2 && s[1] == 0x80 | 0x7f;
    assert Widened(0xff, 0xff, 0xff, 0xff) == 0xffff_ffff_ffff_ffff;
    assert PayloadLength(s) == Known(8, 0xffff_ffff_ffff_ffff);
    assert Wrapped(0x1_0000_0000_0000_000d) == 13;
  }

  /** How the payload of an accepted frame is unmasked: byte i is combined with byte i mod 4 of the key. */
  lemma UnmaskedBytes(s: seq<Byte>, i: nat)
    requires Parse(s).Accepted? && i < Parse(s).length
    ensures var at := Parse(s).start;
            After(s)[at + i] == s[at + i] ^ s[at - 4 + i % 4]
  {
    hide Parse, Combine;
    var at := Parse(s).start;
    var mask, data := s[at - 4..at], s[at..at + Parse(s).length];
    assert mask[i % 4] == s[at - 4 + i % 4] && data[i] == s[at + i];
    assert Masked(mask, data)[i] == Combine(data[i], mask[i % 4]);
    CombineIsXor(s[at + i], s[at - 4 + i % 4]);
  }

  lemma CombineIsXor(x: Byte, y: Byte)
    ensures Combine(x, y) == x ^ y
  {
  }

  /** The frame that an accepted buffer begins with. */
  function FrameIn(s: seq<Byte>): Frame
    requires Parse(s).Accepted?
  {
    var o := Parse(s);
    Frame(o.opcode, FormIn(s), s[o.start - 4..o.start], After(s)[o.start..o.start + o.length])
  }

  function FormIn(s: seq<Byte>): Form
    requires |s| >= 2
  {
    if Low7(s[1]) == 0x7e then Bits16 else if Low7(s[1]) == 0x7f then Bits64 else Bits7
  }

  lemma AcceptedTests(s: seq<Byte>)
    requires Parse(s).Accepted?
    ensures |s| >= 6 && KnownOpcode(Opcode(s[0])) && Parse(s).opcode == Opcode(s[0])
    ensures 0x80 | Opcode(s[0]) == s[0] && 0x80 | Low7(s[1]) == s[1]
    ensures |s| >= Parse(s).start == StartLength(FormIn(s)) + 4
    ensures PayloadLength(s) == Known(StartLength(FormIn(s)) - 2, Parse(s).length)
  {
    hide FinalBit, MaskBit, SignBit, ReservedBits, Opcode, Low7, KnownOpcode, Widened;
    FirstBytes(s[0], s[1]);
  }

  lemma FirstBytes(b0: Byte, b1: Byte)
    requires !ReservedBits(b0) && FinalBit(b0) && MaskBit(b1)
    ensures 0x80 | Opcode(b0) == b0 && 0x80 | Low7(b1) == b1
  {
  }

  /** A 64-bit length within the 31 bits that are read. */
  predicate ShortLength(s: seq<Byte>)
    requires |s| >= 2
  {
    FormIn(s).Bits64? && |s| >= 10 ==> s[2] == s[3] == s[4] == s[5] == 0 && (s[6] as int) < 0x80
  }

  lemma DigitBack(b: Byte, n: nat)
    requires n % 0x100 == b as int
    ensures Digit(n) == b
  {
    DigitValue(n);
    SameNumber(Digit(n), b);
  }

  lemma SameNumber(a: Byte, b: Byte)
    requires a as int == b as int
    ensures a == b
  {
  }

  lemma SmallByte(b: Byte)
    requires b as int < 126
    ensures Length7(Bits7, b as int) == b
  {
  }

  lemma Length7Back(s: seq<Byte>)
    requires |s| >= 2 && PayloadLength(s).Known?
    requires FormIn(s).Bits7?
    ensures PayloadLength(s).payload <= 125 && Length7(Bits7, PayloadLength(s).payload) == Low7(s[1])
  {
    hide SignBit, Widened, Low7;
    HeaderNumbers(s[1]);
    LengthForm(Low7(s[1]));
    SmallByte(Low7(s[1]));
  }

  lemma Length16Back(s: seq<Byte>)
    requires |s| >= 2 && PayloadLength(s).Known?
    requires FormIn(s).Bits16?
    ensures |s| >= 4 && PayloadLength(s).payload < 0x1_0000
    ensures Extended(Bits16, PayloadLength(s).payload) == s[2..4]
  {
    hide SignBit, Widened, Low7, Digit;
    var n := PayloadLength(s).payload;
    DigitBack(s[2], n / 0x100);
    DigitBack(s[3], n);
  }

  lemma Length64Back(s: seq<Byte>)
    requires |s| >= 2 && PayloadLength(s).Known?
    requires FormIn(s).Bits64? && ShortLength(s)
    ensures |s| >= 10 && PayloadLength(s).payload < 0x8000_0000
    ensures Extended(Bits64, PayloadLength(s).payload) == s[2..10]
  {
    hide SignBit, Widened, Low7, Digit;
    FourBack(s[6], s[7], s[8], s[9]);
    HighDigits(PayloadLength(s).payload);
  }

  lemma HighDigits(n: nat)
    requires n < 0x1_0000_0000
    ensures Digit(n / 0x100_0000_0000_0000) == Digit(n / 0x1_0000_0000_0000) == 0
    ensures Digit(n / 0x100_0000_0000) == Digit(n / 0x1_0000_0000) == 0
  {
    assert n / 0x100_0000_0000_0000 == n / 0x1_0000_0000_0000 == 0;
    assert n / 0x100_0000_0000 == n / 0x1_0000_0000 == 0;
    assert Digit(0) == 0;
  }

  lemma DigitsBack(n: nat, b6: Byte, b7: Byte, b8: Byte, b9: Byte)
    requires n / 0x100_0000 % 0x100 == b6 as int && n / 0x1_0000 % 0x100 == b7 as int
    requires n / 0x100 % 0x100 == b8 as int && n % 0x100 == b9 as int
    ensures Digit(n / 0x100_0000) == b6 && Digit(n / 0x1_0000) == b7 && Digit(n / 0x100) == b8 && Digit(n) == b9
  {
    hide Digit;
    DigitBack(b6, n / 0x100_0000);
    DigitBack(b7, n / 0x1_0000);
    DigitBack(b8, n / 0x100);
    DigitBack(b9, n);
  }

  lemma FourBack(b6: Byte, b7: Byte, b8: Byte, b9: Byte)
    requires (b6 as int) < 0x80
    ensures var n := Widened(b6, b7, b8, b9);
      && n < 0x8000_0000
      && Digit(n / 0x100_0000) == b6 && Digit(n / 0x1_0000) == b7 && Digit(n / 0x100) == b8 && Digit(n) == b9
  {
    hide Digit, Widened;
    WidenedSmall(b6, b7, b8, b9);
    WidenedDigits(b6, b7, b8, b9);
    DigitsBack(Widened(b6, b7, b8, b9), b6, b7, b8, b9);
  }

  lemma WidenedDigits(b6: Byte, b7: Byte, b8: Byte, b9: Byte)
    requires (b6 as int) < 0x80
    ensures var n := Widened(b6, b7, b8, b9);
      && n / 0x100_0000 % 0x100 == b6 as int && n / 0x1_0000 % 0x100 == b7 as int
      && n / 0x100 % 0x100 == b8 as int && n % 0x100 == b9 as int
  {
    hide Widened;
    WidenedSmall(b6, b7, b8, b9);
    ByteInts.FourBack(Widened(b6, b7, b8, b9), b6 as int, b7 as int, b8 as int, b9 as int);
  }

  lemma WidenedSmall(b6: Byte, b7: Byte, b8: Byte, b9: Byte)
    requires (b6 as int) < 0x80
    ensures Widened(b6, b7, b8, b9)
         == (b6 as int) * 0x100_0000 + (b7 as int) * 0x1_0000 + (b8 as int) * 0x100 + (b9 as int) < 0x8000_0000
  {
  }

  lemma LengthBack(s: seq<Byte>)
    requires |s| >= 2 && PayloadLength(s).Known? && ShortLength(s)
    ensures var form, n := FormIn(s), PayloadLength(s).payload;
      && n < 0x8000_0000 && Fits(form, n) && Length7(form, n) == Low7(s[1])
      && |s| >= StartLength(form) && Extended(form, n) == s[2..StartLength(form)]
  {
    hide PayloadLength, Low7, ShortLength, Digit;
    match FormIn(s) {
      case Bits7 => Length7Back(s);
      case Bits16 => Length16Back(s);
      case Bits64 => Length64Back(s);
    }
  }

  /**
   * Nothing but frames is accepted: the buffer begins with the bytes of a valid frame, unless a 64-bit
   * length has bits outside of the 31 that are read.
   */
  lemma AcceptedIsFrame(s: seq<Byte>)
    requires Parse(s).Accepted? && ShortLength(s)
    ensures Valid(FrameIn(s)) && |FrameIn(s).payload| < 0x8000_0000 && Encode(FrameIn(s)) <= s
  {
    hide Parse, After, FormIn, Start, ShortLength, Masked, KnownOpcode, Fits;
    AcceptedTests(s);
    StartBack(s);
    UnmaskedPart(s);
    var o, f := Parse(s), FrameIn(s);
    assert s[..o.start] == s[..o.start - 4] + s[o.start - 4..o.start];
    assert Header(f) == s[..o.start];
    assert s[..o.start + o.length] == s[..o.start] + s[o.start..o.start + o.length];
    assert Encode(f) == s[..o.start + o.length];
  }

  lemma StartBack(s: seq<Byte>)
    requires Parse(s).Accepted? && ShortLength(s)
    ensures Valid(FrameIn(s)) && |FrameIn(s).payload| < 0x8000_0000 && Start(FrameIn(s)) == s[..Parse(s).start - 4]
  {
    hide Parse, After, FormIn, ShortLength, Masked, KnownOpcode, Fits, Opcode, Low7, PayloadLength, Extended, Length7;
    AcceptedTests(s);
    LengthBack(s);
    assert s[..Parse(s).start - 4] == [s[0], s[1]] + s[2..Parse(s).start - 4];
  }

  lemma UnmaskedPart(s: seq<Byte>)
    requires Parse(s).Accepted?
    ensures var o := Parse(s);
            Masked(s[o.start - 4..o.start], After(s)[o.start..o.start + o.length]) == s[o.start..o.start + o.length]
  {
    hide Parse, Masked;
    var o := Parse(s);
    MaskedTwice(s[o.start - 4..o.start], s[o.start..o.start + o.length]);
  }

  // ---- a stream of frames --------------------------------------------------

  /** Frames laid end to end. */
  function Stream(fs: seq<Frame>): seq<Byte>
    requires forall f | f in fs :: Valid(f)
  {
    if fs == [] then [] else Encode(fs[0]) + Stream(fs[1..])
  }

  function Join(chunks: seq<seq<Byte>>): seq<Byte> {
    if chunks == [] then [] else chunks[0] + Join(chunks[1..])
  }

  /** What the sender meant by the frames. */
  function Messages(fs: seq<Frame>): seq<(Byte, seq<Byte>)> {
    if fs == [] then [] else [(fs[0].opcode, fs[0].payload)] + Messages(fs[1..])
  }

  /**
   * A receiver that calls the parser on all the bytes it holds: an incomplete frame is retried on the
   * same buffer with the next chunk appended, an accepted one is stepped over with morePacketLength.
   */
  function Receive(buffer: seq<Byte>, chunks: seq<seq<Byte>>): (out: seq<(Byte, seq<Byte>)>)
    decreases |chunks|, |buffer|
  {
    var o := Parse(buffer);
    if o.Accepted? then
      var data := After(buffer);
      [(o.opcode, data[o.start..o.start + o.length])] + Receive(data[|data| - o.more..], chunks)
    else if o.Incomplete? && chunks != [] then
      Receive(After(buffer) + chunks[0], chunks[1..])
    else []
  }

  /** However the stream is cut into chunks, the receiver gets the opcodes and payloads back. */
  lemma {:induction false} StreamRecovered(fs: seq<Frame>, buffer: seq<Byte>, chunks: seq<seq<Byte>>)
    requires forall f | f in fs :: Valid(f) && |f.payload| < 0x8000_0000
    requires buffer + Join(chunks) == Stream(fs)
    ensures Receive(buffer, chunks) == Messages(fs)
    decreases |chunks|, |buffer|
  {
    hide Parse, After, Encode, Header, Valid;
    if fs == [] {
      assert buffer == [];
      assert Parse([]) == Incomplete && After([]) == [] by { ParseNothing(); }
      if chunks != [] {
        assert chunks[0] == [] && buffer + chunks[0] == [];
        StreamRecovered(fs, [], chunks[1..]);
      }
    } else {
      var f := fs[0];
      var e := Encode(f);
      if |buffer| >= |e| {
        var rest := buffer[|e|..];
        assert buffer == e + rest by {
          assert buffer == (buffer + Join(chunks))[..|buffer|];
        }
        SingleFrame(f, rest);
        var data := After(buffer);
        EncodeLength(f);
        assert data[|Header(f)|..|Header(f)| + |f.payload|] == f.payload;
        assert data[|data| - |rest|..] == rest;
        assert rest + Join(chunks) == Stream(fs[1..]) by {
          assert (buffer + Join(chunks))[|e|..] == rest + Join(chunks);
          assert Stream(fs)[|e|..] == Stream(fs[1..]);
        }
        StreamRecovered(fs[1..], rest, chunks);
      } else {
        assert buffer == e[..|buffer|] by {
          assert buffer == (buffer + Join(chunks))[..|buffer|];
        }
        PrefixIncomplete(f, |buffer|);
        assert chunks != [];
        assert buffer + chunks[0] + Join(chunks[1..]) == buffer + Join(chunks);
        StreamRecovered(fs, buffer + chunks[0], chunks[1..]);
      }
    }
  }

  lemma EncodeLength(f: Frame)
    requires Valid(f)
    ensures |Encode(f)| == |Header(f)| + |f.payload| > 0
  {
  }

  lemma ParseNothing()
    ensures Parse([]) == Incomplete && After([]) == []
  {
  }
}
