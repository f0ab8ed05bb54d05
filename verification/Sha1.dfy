/** aw-sha1.h: SHA-1 with a 16-word ring for the message schedule and padding written in place. */
module Sha1 {
  import opened Fips180

  // ---- words and bytes -------------------------------------------------------

  /** The three shifts rotate by 1, 5 and 30 places. */
  lemma RotationsRotate(x: Word)
    ensures RotL1(x) == x.RotateLeft(1) && RotL5(x) == x.RotateLeft(5) && RotL30(x) == x.RotateLeft(30)
  {
    hide *;
    RotL1Rotates(x);
    RotL5Rotates(x);
    RotL30Rotates(x);
  }

  lemma RotL1Rotates(x: Word)
    ensures RotL1(x) == x.RotateLeft(1)
  {
  }

  lemma RotL5Rotates(x: Word)
    ensures RotL5(x) == x.RotateLeft(5)
  {
  }

  lemma RotL30Rotates(x: Word)
    ensures RotL30(x) == x.RotateLeft(30)
  {
  }

  /** Four bytes, most significant first, are the word they are written as in base 256. */
  predicate Spells(b0: Byte, b1: Byte, b2: Byte, b3: Byte, x: Word) {
    x == b0 as Word * 0x100_0000 + b1 as Word * 0x1_0000 + b2 as Word * 0x100 + b3 as Word
  }

  lemma PackSpells(b0: Byte, b1: Byte, b2: Byte, b3: Byte)
    ensures Spells(b0, b1, b2, b3, Pack(b0, b1, b2, b3))
  {
  }

  /** The four bytes of a word are its digits in base 256, most significant first, and packing them gives it back. */
  lemma BytesSpell(x: Word)
    ensures var b := BytesOf(x);
      && b[0] as Word == x / 0x100_0000 && b[1] as Word == x / 0x1_0000 % 0x100
      && b[2] as Word == x / 0x100 % 0x100 && b[3] as Word == x % 0x100
      && Spells(b[0], b[1], b[2], b[3], x) && Pack(b[0], b[1], b[2], b[3]) == x
  {
    hide Spells, Pack;
    BytesPack(x);
    BytesDivide(x);
    var b := BytesOf(x);
    PackSpells(b[0], b[1], b[2], b[3]);
  }

  lemma BytesPack(x: Word)
    ensures Pack(BytesOf(x)[0], BytesOf(x)[1], BytesOf(x)[2], BytesOf(x)[3]) == x
  {
  }

  lemma BytesDivide(x: Word)
    ensures var b := BytesOf(x);
      && b[0] as Word == x / 0x100_0000 && b[1] as Word == x / 0x1_0000 % 0x100
      && b[2] as Word == x / 0x100 % 0x100 && b[3] as Word == x % 0x100
  {
  }

  // ---- sha1mix -------------------------------------------------------------

  /** The header's form of Ch. */
  function MixCh(b: Word, c: Word, d: Word): Word { d ^ (b & (c ^ d)) }

  /** The header's form of Maj. */
  function MixMaj(b: Word, c: Word, d: Word): Word { (b & c) | (d & (b | c)) }

  lemma ChBits(b: Word, c: Word, d: Word)
    ensures d ^ (b & (c ^ d)) == (b & c) ^ (!b & d)
  {
  }

  lemma MajBits(b: Word, c: Word, d: Word)
    ensures (b & c) | (d & (b | c)) == (b & c) ^ (b & d) ^ (c & d)
  {
  }

  lemma MixChIsCh(b: Word, c: Word, d: Word)
    ensures MixCh(b, c, d) == Ch(b, c, d)
  {
    ChBits(b, c, d);
  }

  lemma MixMajIsMaj(b: Word, c: Word, d: Word)
    ensures MixMaj(b, c, d) == Maj(b, c, d)
  {
    MajBits(b, c, d);
  }

  /** One expansion of the macro mix, with f already evaluated. */
  function Mix(h: Hash, f: Word, v: Word, w: Word): Hash {
    Hash(f + v + RotL5(h.a) + h.e + w, h.a, RotL30(h.b), h.c, h.d)
  }

  lemma MixIsTurn(h: Hash, f: Word, v: Word, w: Word)
    ensures Mix(h, f, v, w) == Turn(h, f, v, w)
  {
  }

  /** The message "abc" as a padded block. */
  const ABC: seq<Word> := [0x61626380, 0, 0, 0, 0, 0, 0, 0, 0, 0, 0, 0, 0, 0, 0, 24]

  /** What the worked example of FIPS 180 for "abc" has after its first round, and its first expanded word. */
  lemma AbcBegins()
    ensures INITIAL == Hash(0x67452301, 0xefcdab89, 0x98badcfe, 0x10325476, 0xc3d2e1f0)
    ensures Rounds(ABC, INITIAL, 1) == Hash(0x0116fc33, 0x67452301, 0x7bf36ae2, 0x98badcfe, 0x10325476)
    ensures Schedule(ABC, 16) == 0xc2c4c700
  {
  }

  lemma MixIsRoundCh(h: Hash, t: nat, w: Word)
    requires t < 20
    ensures Mix(h, MixCh(h.b, h.c, h.d), 0x5a827999, w) == Round(h, t, w)
  {
    MixChIsCh(h.b, h.c, h.d);
    MixIsTurn(h, MixCh(h.b, h.c, h.d), 0x5a827999, w);
  }

  lemma MixIsRoundParity(h: Hash, t: nat, w: Word)
    requires 20 <= t < 40
    ensures Mix(h, h.b ^ h.c ^ h.d, 0x6ed9eba1, w) == Round(h, t, w)
  {
    MixIsTurn(h, h.b ^ h.c ^ h.d, 0x6ed9eba1, w);
  }

  lemma MixIsRoundMaj(h: Hash, t: nat, w: Word)
    requires 40 <= t < 60
    ensures Mix(h, MixMaj(h.b, h.c, h.d), 0x8f1bbcdc, w) == Round(h, t, w)
  {
    MixMajIsMaj(h.b, h.c, h.d);
    MixIsTurn(h, MixMaj(h.b, h.c, h.d), 0x8f1bbcdc, w);
  }

  lemma MixIsRoundLast(h: Hash, t: nat, w: Word)
    requires 60 <= t < 80
    ensures Mix(h, h.b ^ h.c ^ h.d, 0xca62c1d6, w) == Round(h, t, w)
  {
    MixIsTurn(h, h.b ^ h.c ^ h.d, 0xca62c1d6, w);
  }

  /** The 80-word message schedule of a block. */
  ghost function FullSchedule(block: seq<Word>): (ws: seq<Word>)
    requires |block| == 16
    ensures |ws| == 80 && forall t: nat | t < 80 :: ws[t] == Schedule(block, t)
  {
    seq(80, t requires 0 <= t < 80 => Schedule(block, t))
  }

  /** The ring before round t: slot j holds the last schedule word whose index is j modulo 16. */
  ghost predicate Ring(w: seq<Word>, ws: seq<Word>, t: nat)
    requires |w| == 16
  {
    t <= |ws| && forall s: nat {:trigger ws[s]} | s < t <= s + 16 :: w[s % 16] == ws[s]
  }

  /** What the slots (i + 13) & 15, (i + 8) & 15, (i + 2) & 15 and i & 15 hold before round t. */
  lemma RingSlots(w: seq<Word>, ws: seq<Word>, t: nat)
    requires |w| == 16 && 16 <= t < |ws| && Ring(w, ws, t)
    ensures w[(t + 13) % 16] == ws[t - 3] && w[(t + 8) % 16] == ws[t - 8]
    ensures w[(t + 2) % 16] == ws[t - 14] && w[t % 16] == ws[t - 16]
  {
    assert (t + 13) % 16 == (t - 3) % 16 && (t + 8) % 16 == (t - 8) % 16;
    assert (t + 2) % 16 == (t - 14) % 16 && t % 16 == (t - 16) % 16;
  }

  lemma RingKept(w: seq<Word>, ws: seq<Word>, t: nat)
    requires |w| == 16 && 16 <= t < |ws| && Ring(w, ws, t)
    ensures Ring(w[t % 16 := ws[t]], ws, t + 1)
  {
    forall s: nat | s < t + 1 <= s + 16
      ensures w[t % 16 := ws[t]][s % 16] == ws[s]
    {
      if s != t {
        assert s % 16 != t % 16;
      }
    }
  }

  lemma ScheduleStep(block: seq<Word>, t: nat)
    requires |block| == 16 && 16 <= t < 80
    ensures var ws := FullSchedule(block);
            ws[t] == RotL1(ws[t - 3] ^ ws[t - 8] ^ ws[t - 14] ^ ws[t - 16])
  {
    var _ := FullSchedule(block);
  }

  /** The schedule line of the loops from round 16 on: one slot of the ring is overwritten. */
  method ExpandSlot(w: array<Word>, i: nat, ghost block: seq<Word>)
    requires w.Length == 16 && |block| == 16 && 16 <= i < 80
    requires Ring(w[..], FullSchedule(block), i)
    modifies w
    ensures Ring(w[..], FullSchedule(block), i + 1) && w[i % 16] == Schedule(block, i)
  {
    ghost var ws := FullSchedule(block);
    RingSlots(w[..], ws, i);
    ScheduleStep(block, i);
    RingKept(w[..], ws, i);
    w[i % 16] := RotL1(w[(i + 13) % 16] ^ w[(i + 8) % 16] ^ w[(i + 2) % 16] ^ w[i % 16]);
  }

  function HashOf(r: seq<Word>): Hash
    requires |r| == 5
  {
    Hash(r[0], r[1], r[2], r[3], r[4])
  }

  lemma RingStart(block: seq<Word>)
    requires |block| == 16
    ensures Ring(block, FullSchedule(block), 16)
  {
  }

  /** The first loop of sha1mix: the block itself is the schedule. */
  method Rounds0To15(v0: Hash, w: array<Word>, ghost block: seq<Word>, ghost h: Hash) returns (v: Hash)
    requires w.Length == 16 && |block| == 16 && v0 == Rounds(block, h, 0)
    requires w[..] == block
    ensures v == Rounds(block, h, 16) && Ring(w[..], FullSchedule(block), 16)
  {
    v := v0;
    var i := 0;
    while i < 16
      invariant 0 <= i <= 16 && w[..] == block
      invariant v == Rounds(block, h, i)
    {
      assert w[i % 16] == block[i] == Schedule(block, i);
      MixIsRoundCh(v, i, w[i % 16]);
      v := Mix(v, MixCh(v.b, v.c, v.d), 0x5a827999, w[i % 16]);
      i := i + 1;
    }
    RingStart(block);
  }

  /** The second loop: the last rounds of Ch, with the ring being rewritten. */
  method Rounds16To19(v0: Hash, w: array<Word>, ghost block: seq<Word>, ghost h: Hash) returns (v: Hash)
    requires w.Length == 16 && |block| == 16 && v0 == Rounds(block, h, 16)
    requires Ring(w[..], FullSchedule(block), 16)
    modifies w
    ensures v == Rounds(block, h, 20) && Ring(w[..], FullSchedule(block), 20)
  {
    v := v0;
    var i := 16;
    while i < 20
      invariant 16 <= i <= 20 && Ring(w[..], FullSchedule(block), i)
      invariant v == Rounds(block, h, i)
    {
      ExpandSlot(w, i, block);
      MixIsRoundCh(v, i, w[i % 16]);
      v := Mix(v, MixCh(v.b, v.c, v.d), 0x5a827999, w[i % 16]);
      i := i + 1;
    }
  }

  /** The third loop. */
  method Rounds20To39(v0: Hash, w: array<Word>, ghost block: seq<Word>, ghost h: Hash) returns (v: Hash)
    requires w.Length == 16 && |block| == 16 && v0 == Rounds(block, h, 20)
    requires Ring(w[..], FullSchedule(block), 20)
    modifies w
    ensures v == Rounds(block, h, 40) && Ring(w[..], FullSchedule(block), 40)
  {
    v := v0;
    var i := 20;
    while i < 40
      invariant 20 <= i <= 40 && Ring(w[..], FullSchedule(block), i)
      invariant v == Rounds(block, h, i)
    {
      ExpandSlot(w, i, block);
      MixIsRoundParity(v, i, w[i % 16]);
      v := Mix(v, v.b ^ v.c ^ v.d, 0x6ed9eba1, w[i % 16]);
      i := i + 1;
    }
  }

  /** The fourth loop. */
  method Rounds40To59(v0: Hash, w: array<Word>, ghost block: seq<Word>, ghost h: Hash) returns (v: Hash)
    requires w.Length == 16 && |block| == 16 && v0 == Rounds(block, h, 40)
    requires Ring(w[..], FullSchedule(block), 40)
    modifies w
    ensures v == Rounds(block, h, 60) && Ring(w[..], FullSchedule(block), 60)
  {
    v := v0;
    var i := 40;
    while i < 60
      invariant 40 <= i <= 60 && Ring(w[..], FullSchedule(block), i)
      invariant v == Rounds(block, h, i)
    {
      ExpandSlot(w, i, block);
      MixIsRoundMaj(v, i, w[i % 16]);
      v := Mix(v, MixMaj(v.b, v.c, v.d), 0x8f1bbcdc, w[i % 16]);
      i := i + 1;
    }
  }

  /** The fifth loop. */
  method Rounds60To79(v0: Hash, w: array<Word>, ghost block: seq<Word>, ghost h: Hash) returns (v: Hash)
    requires w.Length == 16 && |block| == 16 && v0 == Rounds(block, h, 60)
    requires Ring(w[..], FullSchedule(block), 60)
    modifies w
    ensures v == Rounds(block, h, 80) && Ring(w[..], FullSchedule(block), 80)
  {
    v := v0;
    var i := 60;
    while i < 80
      invariant 60 <= i <= 80 && Ring(w[..], FullSchedule(block), i)
      invariant v == Rounds(block, h, i)
    {
      ExpandSlot(w, i, block);
      MixIsRoundLast(v, i, w[i % 16]);
      v := Mix(v, v.b ^ v.c ^ v.d, 0xca62c1d6, w[i % 16]);
      i := i + 1;
    }
  }

  lemma SumAdds(x: Word, y: Word)
    ensures Sum(x, y) == x + y
  {
  }

  /** The five additions that end sha1mix. */
  method AddInto(r: array<Word>, v: Hash)
    requires r.Length == 5
    modifies r
    ensures r[..] == [Sum(old(r[0]), v.a), Sum(old(r[1]), v.b), Sum(old(r[2]), v.c), Sum(old(r[3]), v.d), Sum(old(r[4]), v.e)]
    ensures HashOf(r[..]) == Plus(HashOf(old(r[..])), v)
  {
    hide Sum;
    r[0] := Sum(r[0], v.a);
    r[1] := Sum(r[1], v.b);
    r[2] := Sum(r[2], v.c);
    r[3] := Sum(r[3], v.d);
    r[4] := Sum(r[4], v.e);
  }

  /** sha1mix: r becomes the FIPS 180-4 compression of r with the block that w held. */
  method Sha1Mix(r: array<Word>, w: array<Word>)
    requires r.Length == 5 && w.Length == 16 && r != w
    modifies r, w
    ensures HashOf(r[..]) == Compress(HashOf(old(r[..])), old(w[..]))
  {
    ghost var block := w[..];
    ghost var h := HashOf(r[..]);
    var v := Hash(r[0], r[1], r[2], r[3], r[4]);
    v := Rounds0To15(v, w, block, h);
    v := Rounds16To19(v, w, block, h);
    v := Rounds20To39(v, w, block, h);
    v := Rounds40To59(v, w, block, h);
    v := Rounds60To79(v, w, block, h);
    AddInto(r, v);
  }

  // ---- sha1 ----------------------------------------------------------------

  lemma WordsConcat(a: seq<Byte>, b: seq<Byte>)
    requires |a| % 4 == 0
    ensures Words(a + b) == Words(a) + Words(b)
  {
    var q := |a| / 4;
    forall k: nat | k < |a + b| / 4
      ensures Words(a + b)[k] == (Words(a) + Words(b))[k]
    {
      if k >= q {
        assert 4 * k == |a| + 4 * (k - q);
      }
    }
  }

  lemma HashNone(h: Hash, bs: seq<Byte>)
    requires bs == []
    ensures HashWords(h, Words(bs)) == h
  {
  }

  lemma HashOneMore(h: Hash, ws: seq<Word>, block: seq<Word>)
    requires |block| == 16
    ensures HashWords(h, ws + block) == Compress(HashWords(h, ws), block)
  {
    assert (ws + block)[..|ws + block| - 16] == ws;
    assert (ws + block)[|ws + block| - 16..] == block;
  }

  /** A byte moved to place j of a big-endian word: shifted by (3 ^ j) << 3 bits. */
  function Place(x: Byte, j: nat): Word
    requires j < 4
  {
    if j == 0 then (x as Word) << 24
    else if j == 1 then (x as Word) << 16
    else if j == 2 then (x as Word) << 8
    else x as Word
  }

  function OrIn(w: Word, x: Byte, j: nat): Word
    requires j < 4
  {
    w | Place(x, j)
  }

  lemma OrBits0(b0: Byte)
    ensures OrIn(Pack(0, 0, 0, 0), b0, 0) == Pack(b0, 0, 0, 0)
  {
  }

  lemma OrBits1(b0: Byte, b1: Byte)
    ensures OrIn(Pack(b0, 0, 0, 0), b1, 1) == Pack(b0, b1, 0, 0)
  {
  }

  lemma OrBits2(b0: Byte, b1: Byte, b2: Byte)
    ensures OrIn(Pack(b0, b1, 0, 0), b2, 2) == Pack(b0, b1, b2, 0)
  {
  }

  lemma OrBits3(b0: Byte, b1: Byte, b2: Byte, b3: Byte)
    ensures OrIn(Pack(b0, b1, b2, 0), b3, 3) == Pack(b0, b1, b2, b3)
  {
  }

  lemma OrAt0(b: seq<Byte>, x: Byte)
    requires |b| == 4 && forall j :: 0 <= j < 4 ==> b[j] == 0
    ensures OrIn(PackSeq(b), x, 0) == PackSeq(b[0 := x])
  {
    OrBits0(x);
  }

  lemma OrAt1(b: seq<Byte>, x: Byte)
    requires |b| == 4 && forall j :: 1 <= j < 4 ==> b[j] == 0
    ensures OrIn(PackSeq(b), x, 1) == PackSeq(b[1 := x])
  {
    OrBits1(b[0], x);
  }

  lemma OrAt2(b: seq<Byte>, x: Byte)
    requires |b| == 4 && forall j :: 2 <= j < 4 ==> b[j] == 0
    ensures OrIn(PackSeq(b), x, 2) == PackSeq(b[2 := x])
  {
    OrBits2(b[0], b[1], x);
  }

  lemma OrAt3(b: seq<Byte>, x: Byte)
    requires |b| == 4 && forall j :: 3 <= j < 4 ==> b[j] == 0
    ensures OrIn(PackSeq(b), x, 3) == PackSeq(b[3 := x])
  {
    OrBits3(b[0], b[1], b[2], x);
  }

  /** Four bytes of which those from position i on are zero take one more byte at position i. */
  lemma OrByte(b: seq<Byte>, i: nat, x: Byte)
    requires |b| == 4 && i < 4 && forall j :: i <= j < 4 ==> b[j] == 0
    ensures OrIn(PackSeq(b), x, i) == PackSeq(b[i := x])
  {
    if i == 0 { OrAt0(b, x); }
    else if i == 1 { OrAt1(b, x); }
    else if i == 2 { OrAt2(b, x); }
    else { OrAt3(b, x); }
  }

  /** t followed by zero bytes, up to one block. */
  function Fill(t: seq<Byte>): (bs: seq<Byte>)
    requires |t| <= 64
    ensures |bs| == 64
  {
    t + Zeros(64 - |t|)
  }

  lemma WordAt(bs: seq<Byte>, k: nat)
    requires k < |bs| / 4
    ensures Words(bs)[k] == PackSeq(bs[4 * k..4 * k + 4])
  {
  }

  function PackSeq(b: seq<Byte>): Word
    requires |b| == 4
  {
    Pack(b[0], b[1], b[2], b[3])
  }

  lemma FillSlot(t: seq<Byte>, x: Byte)
    requires |t| < 64
    ensures var q := |t| / 4;
            OrIn(Words(Fill(t))[q], x, |t| % 4) == Words(Fill(t + [x]))[q]
  {
    var q, i := |t| / 4, |t| % 4;
    var b := Fill(t)[4 * q..4 * q + 4];
    assert Fill(t + [x])[4 * q..4 * q + 4] == b[i := x];
    WordAt(Fill(t), q);
    WordAt(Fill(t + [x]), q);
    OrByte(b, i, x);
  }

  /** Or-ing one byte into its word appends it to the zero-filled block. */
  lemma FillOne(t: seq<Byte>, x: Byte)
    requires |t| < 64
    ensures var w := Words(Fill(t));
            w[|t| / 4 := OrIn(w[|t| / 4], x, |t| % 4)] == Words(Fill(t + [x]))
  {
    var q := |t| / 4;
    FillSlot(t, x);
    forall k: nat | k < 16 && k != q
      ensures Words(Fill(t + [x]))[k] == Words(Fill(t))[k]
    {
      WordAt(Fill(t), k);
      WordAt(Fill(t + [x]), k);
      assert Fill(t + [x])[4 * k..4 * k + 4] == Fill(t)[4 * k..4 * k + 4];
    }
  }

  // ---- what sha1 feeds to sha1mix -------------------------------------------

  /** The low 32 bits of n << 3. */
  function LengthWord(n: nat): Word {
    (8 * n % 0x1_0000_0000) as Word
  }

  /** The bytes after the last whole block, and the mark 0x80. */
  function Tail(m: seq<Byte>): (t: seq<Byte>)
    ensures |t| == |m| % 64 + 1
  {
    m[64 * (|m| / 64)..] + [0x80]
  }

  /** The words of the last one or two calls of sha1mix. The test is n mod 64 > 56, not >= 56. */
  function LastWords(m: seq<Byte>, length: Word): (ws: seq<Word>)
    ensures |ws| == if |m| % 64 > 56 then 32 else 16
  {
    var w := Words(Fill(Tail(m)));
    if |m| % 64 > 56
    then w + Words(Fill([]))[15 := length]
    else w[15 := length]
  }

  function FedWords(m: seq<Byte>): (ws: seq<Word>) {
    Words(m[..64 * (|m| / 64)]) + LastWords(m, LengthWord(|m|))
  }

  /** The message lengths whose blocks are fed exactly as section 5.1.1 pads them. */
  predicate PaddedRight(n: nat) {
    n < 0x2000_0000 && n % 64 != 56
  }

  lemma HighWordZero(n: nat)
    requires n < 0x2000_0000_0000_0000
    ensures LengthWords(n)[0] == 0 <==> n < 0x2000_0000
    ensures LengthWords(n)[1] == LengthWord(n)
  {
  }

  lemma ZerosWord(bs: seq<Byte>, k: nat)
    requires k < |bs| / 4
    requires forall j :: 4 * k <= j < 4 * k + 4 ==> bs[j] == 0
    ensures Words(bs)[k] == 0
  {
    WordAt(bs, k);
    assert bs[4 * k..4 * k + 4] == [0, 0, 0, 0];
    assert PackSeq([0, 0, 0, 0]) == 0;
  }

  lemma Regroup(a: seq<Byte>, b: seq<Byte>, c: seq<Byte>, d: seq<Byte>)
    ensures a + b + c + d == a + (b + c + d)
  {
  }

  /** The words of the padded message, cut after the whole blocks of m. */
  lemma PaddedSplit(m: seq<Byte>)
    requires |m| < 0x2000_0000_0000_0000
    ensures PaddedWords(m) == Words(m[..64 * (|m| / 64)])
                            + (Words(Tail(m) + Zeros(PadLength(|m|))) + LengthWords(|m|))
  {
    hide Words, LengthWords, PadLength;
    var q := 64 * (|m| / 64);
    Multiple(|m| / 64);
    var whole, rest := m[..q], m[q..];
    assert m == whole + rest;
    assert Tail(m) == rest + [0x80];
    SplitWords(whole, rest, Zeros(PadLength(|m|)));
  }

  lemma Multiple(k: nat)
    ensures (64 * k) % 4 == 0 && (64 * k) % 64 == 0
  {
    assert 64 * k == 4 * (16 * k);
  }

  lemma SplitWords(whole: seq<Byte>, rest: seq<Byte>, z: seq<Byte>)
    requires |whole| % 4 == 0
    ensures Words(whole + rest + [0x80] + z) == Words(whole) + Words(rest + [0x80] + z)
  {
    Regroup(whole, rest, [0x80], z);
    WordsConcat(whole, rest + [0x80] + z);
  }

  lemma ShortWords(t: seq<Byte>, lo: Word)
    requires |t| == 56
    ensures Words(t + Zeros(8))[15 := lo] == Words(t) + [0, lo]
  {
    WordsConcat(t, Zeros(8));
    ZerosWord(Zeros(8), 0);
  }

  lemma LongWords(t: seq<Byte>, lo: Word)
    requires |t| == 64
    ensures Words(t) + Words(Zeros(64))[15 := lo] == Words(t + Zeros(56)) + [0, lo]
  {
    WordsConcat(t, Zeros(56));
    assert Zeros(64) == Zeros(56) + Zeros(8);
    ShortWords(Zeros(56), lo);
  }

  lemma LengthDecides(w: seq<Word>, n: nat)
    requires n < 0x2000_0000_0000_0000
    ensures w + [0, LengthWord(n)] == w + LengthWords(n) <==> n < 0x2000_0000
  {
    HighWordZero(n);
    assert (w + LengthWords(n))[|w|] == LengthWords(n)[0];
    assert (w + [0, LengthWord(n)])[|w|] == 0;
  }

  /** With at most 55 bytes left, one block is fed; it is right when the high length word is zero. */
  lemma LastShort(m: seq<Byte>)
    requires |m| < 0x2000_0000_0000_0000 && |m| % 64 < 56
    ensures LastWords(m, LengthWord(|m|)) == Words(Tail(m) + Zeros(PadLength(|m|))) + LengthWords(|m|)
       <==> |m| < 0x2000_0000
  {
    var t := Tail(m) + Zeros(PadLength(|m|));
    assert Fill(Tail(m)) == t + Zeros(8);
    ShortWords(t, LengthWord(|m|));
    LengthDecides(Words(t), |m|);
  }

  /** With more than 56 bytes left, two blocks are fed. */
  lemma LastLong(m: seq<Byte>)
    requires |m| < 0x2000_0000_0000_0000 && |m| % 64 > 56
    ensures LastWords(m, LengthWord(|m|)) == Words(Tail(m) + Zeros(PadLength(|m|))) + LengthWords(|m|)
       <==> |m| < 0x2000_0000
  {
    var t := Tail(m) + Zeros(PadLength(|m|));
    assert Fill([]) == Zeros(64);
    assert t == Fill(Tail(m)) + Zeros(56);
    LongWords(Fill(Tail(m)), LengthWord(|m|));
    LengthDecides(Words(t), |m|);
  }

  lemma SamePrefix(w: seq<Word>, a: seq<Word>, b: seq<Word>)
    ensures w + a == w + b <==> a == b
  {
    assert (w + a)[|w|..] == a && (w + b)[|w|..] == b;
  }

  /** sha1 feeds the padded message of section 5.1.1 exactly when n < 2^29 and n mod 64 is not 56. */
  lemma FedIsPadded(m: seq<Byte>)
    requires |m| < 0x2000_0000_0000_0000
    ensures FedWords(m) == PaddedWords(m) <==> PaddedRight(|m|)
  {
    PaddedSplit(m);
    var last := Words(Tail(m) + Zeros(PadLength(|m|))) + LengthWords(|m|);
    SamePrefix(Words(m[..64 * (|m| / 64)]), LastWords(m, LengthWord(|m|)), last);
    if |m| % 64 < 56 {
      LastShort(m);
    } else if |m| % 64 > 56 {
      LastLong(m);
    } else {
      assert |LastWords(m, LengthWord(|m|))| == 16 && |last| == 32;
    }
  }

  /** The shortest messages that are not padded have 56 bytes, for example 56 zeros. */
  lemma FiftySixZeros()
    ensures FedWords(Zeros(56)) != PaddedWords(Zeros(56))
    ensures forall m: seq<Byte> | |m| < 56 :: FedWords(m) == PaddedWords(m)
  {
    hide FedWords, PaddedWords;
    FedIsPadded(Zeros(56));
    forall m: seq<Byte> | |m| < 56 ensures FedWords(m) == PaddedWords(m) {
      FedIsPadded(m);
    }
  }

  /** "abc" is padded to the block of the worked example. */
  lemma AbcIsPadded()
    ensures PaddedWords([0x61, 0x62, 0x63]) == ABC && FedWords([0x61, 0x62, 0x63]) == ABC
  {
    hide FedWords, Words, LengthWords;
    var m: seq<Byte> := [0x61, 0x62, 0x63];
    FedIsPadded(m);
    var bs := m + [0x80] + Zeros(52);
    TwentyFourBits();
    assert Words(bs)[0] == 0x61626380 by {
      WordAt(bs, 0);
      assert bs[..4] == [0x61, 0x62, 0x63, 0x80];
      assert PackSeq([0x61, 0x62, 0x63, 0x80]) == 0x61626380;
    }
    forall k: nat | 1 <= k < 14 ensures Words(bs)[k] == 0 {
      ZerosWord(bs, k);
    }
    assert PaddedWords(m) == ABC;
  }

  lemma TwentyFourBits()
    ensures LengthWords(3) == [0, 24]
  {
  }

  // ---- sha1 ----------------------------------------------------------------

  /** Where byte start + d of the message goes: the word slot and the place in it. */
  lemma Slot(start: nat, d: nat)
    requires start % 64 == 0 && d < 64
    ensures (start + d) / 4 % 16 == d / 4 && (start + d) % 4 == d % 4
    ensures (start + d) % 64 == d
  {
    var c := start / 64;
    assert (start + d) / 4 == 16 * c + d / 4 && (16 * c + d / 4) % 16 == d / 4;
  }

  /** The do-while loop that loads one block: w becomes the words of p[start..start + 64]. */
  method LoadBlock(p: array<Byte>, start: nat, w: array<Word>) returns (i: nat)
    requires w.Length == 16 && start % 64 == 0 && start + 64 <= p.Length
    modifies w
    ensures i == start + 64 && w[..] == Words(p[start..start + 64])
  {
    i := start;
    ghost var block := p[start..start + 64];
    ghost var k := 0;
    while true
      invariant k < 16 && i == start + 4 * k
      invariant forall j: nat | j < k :: w[j] == Words(block)[j]
      decreases 16 - k
    {
      Slot(start, 4 * k);
      assert Words(block)[k] == Pack(p[i], p[i + 1], p[i + 2], p[i + 3]);
      w[i / 4 % 16] := Pack(p[i], p[i + 1], p[i + 2], p[i + 3]);
      i := i + 4;
      k := k + 1;
      if i % 64 == 0 {
        break;
      }
      if k < 16 {
        Slot(start, 4 * k);
      }
    }
  }

  /** memset(w, 0, sizeof w) */
  method ClearWords(w: array<Word>)
    requires w.Length == 16
    modifies w
    ensures w[..] == Words(Fill([]))
  {
    for j := 0 to 16
      invariant forall k :: 0 <= k < j ==> w[k] == 0
    {
      w[j] := 0;
    }
    forall k: nat | k < 16
      ensures w[..][k] == Words(Fill([]))[k]
    {
      ZerosWord(Fill([]), k);
    }
  }

  /** One statement w[i >> 2 & 0xf] |= x << ((3 ^ i & 3) << 3), for byte i = start + |t| of the message. */
  method OrInto(w: array<Word>, x: Byte, i: nat, ghost start: nat, ghost t: seq<Byte>)
    requires w.Length == 16 && start % 64 == 0 && |t| < 64 && i == start + |t|
    requires w[..] == Words(Fill(t))
    modifies w
    ensures w[..] == Words(Fill(t + [x]))
  {
    hide Words, OrIn;
    Slot(start, |t|);
    FillOne(t, x);
    w[i / 4 % 16] := OrIn(w[i / 4 % 16], x, i % 4);
  }

  /** The loop over the last n mod 64 bytes, and the mark after them. */
  method LoadTail(p: array<Byte>, start: nat, n: nat, w: array<Word>)
    requires w.Length == 16 && n <= p.Length && w[..] == Words(Fill([]))
    requires start % 64 == 0 && start <= n < start + 64
    modifies w
    ensures w[..] == Words(Fill(p[start..n] + [0x80]))
  {
    var i := start;
    assert p[start..start] == [];
    while i < n
      invariant start <= i <= n && w[..] == Words(Fill(p[start..i]))
    {
      OrInto(w, p[i], i, start, p[start..i]);
      assert p[start..i + 1] == p[start..i] + [p[i]];
      i := i + 1;
    }
    OrInto(w, 0x80, i, start, p[start..i]);
  }

  /** One call of sha1mix in a run over the words fed so far. */
  method HashBlock(r: array<Word>, w: array<Word>, ghost h: Hash, ghost fed: seq<Word>)
    requires r.Length == 5 && w.Length == 16 && r != w && HashOf(r[..]) == HashWords(h, fed)
    modifies r, w
    ensures HashOf(r[..]) == HashWords(h, fed + old(w[..]))
  {
    HashOneMore(h, fed, w[..]);
    Sha1Mix(r, w);
  }

  /** The loop over the whole blocks. */
  method HashWhole(r: array<Word>, w: array<Word>, p: array<Byte>, n: nat) returns (i: nat)
    requires r.Length == 5 && w.Length == 16 && r != w && n <= p.Length
    modifies r, w
    ensures i == 64 * (n / 64)
    ensures HashOf(r[..]) == HashWords(HashOf(old(r[..])), Words(p[..i]))
  {
    hide Compress, HashWords, Words;
    i := 0;
    ghost var h := HashOf(r[..]);
    HashNone(h, p[..0]);
    ghost var k := 0;
    while i < 64 * (n / 64)
      invariant i == 64 * k && k <= n / 64
      invariant HashOf(r[..]) == HashWords(h, Words(p[..64 * k]))
    {
      ghost var fed := p[..i];
      Multiple(k);
      i := LoadBlock(p, i, w);
      WordsConcat(fed, p[64 * k..i]);
      assert p[..i] == fed + p[64 * k..i];
      HashBlock(r, w, h, Words(fed));
      k := k + 1;
    }
  }

  /** The last one or two calls of sha1mix, on the tail already loaded into w. */
  method HashLast(r: array<Word>, w: array<Word>, n: nat, length: Word, ghost m: seq<Byte>, ghost h: Hash, ghost whole: seq<Word>)
    requires r.Length == 5 && w.Length == 16 && r != w && n == |m|
    requires w[..] == Words(Fill(Tail(m))) && HashOf(r[..]) == HashWords(h, whole)
    modifies r, w
    ensures HashOf(r[..]) == HashWords(h, whole + LastWords(m, length))
  {
    hide Compress, HashWords, Words;
    ghost var fed := whole;
    if n % 64 > 56 {
      fed := whole + w[..];
      HashBlock(r, w, h, whole);
      ClearWords(w);
    }
    ghost var last := w[..];
    w[15] := length;
    assert w[..] == last[15 := length];
    assert fed + w[..] == whole + LastWords(m, length);
    HashBlock(r, w, h, fed);
  }

  /** The four casts to unsigned char. */
  method StoreWord(h: array<Byte>, x: Word, i: nat)
    requires 4 * i + 4 <= h.Length
    modifies h
    ensures h[4 * i..4 * i + 4] == BytesOf(x)
    ensures Spells(h[4 * i], h[4 * i + 1], h[4 * i + 2], h[4 * i + 3], x)
    ensures h[..4 * i] == old(h[..4 * i]) && h[4 * i + 4..] == old(h[4 * i + 4..])
  {
    hide Spells;
    BytesSpell(x);
    h[4 * i] := ((x >> 0x18) & 0xff) as Byte;
    h[4 * i + 1] := ((x >> 0x10) & 0xff) as Byte;
    h[4 * i + 2] := ((x >> 0x08) & 0xff) as Byte;
    h[4 * i + 3] := ((x >> 0x00) & 0xff) as Byte;
    assert h[4 * i..4 * i + 4] == BytesOf(x);
  }

  lemma DigestPart(r: seq<Word>, i: nat)
    requires |r| == 5 && i < 5
    ensures var d := DigestBytes(HashOf(r)); d[..4 * i + 4] == d[..4 * i] + BytesOf(r[i])
  {
    if i == 0 {} else if i == 1 {} else if i == 2 {} else if i == 3 {}
  }

  /** The loop that writes the five words out, high byte first. */
  method StoreDigest(h: array<Byte>, r: array<Word>)
    requires h.Length == 20 && r.Length == 5 
    modifies h
    ensures h[..] == DigestBytes(HashOf(r[..]))
    ensures forall i :: 0 <= i < 5 ==> Spells(h[4 * i], h[4 * i + 1], h[4 * i + 2], h[4 * i + 3], r[i])
  {
    hide Spells, DigestBytes, HashOf;
    ghost var words := r[..];
    ghost var d := DigestBytes(HashOf(words));
    for i := 0 to 5
      invariant h[..4 * i] == d[..4 * i]
      invariant forall k :: 0 <= k < i ==> Spells(h[4 * k], h[4 * k + 1], h[4 * k + 2], h[4 * k + 3], words[k])
    {
      ghost var was := h[..4 * i];
      StoreWord(h, r[i], i);
      assert forall k :: 0 <= k < 4 * i ==> h[..4 * i][k] == was[k] == h[k];
      DigestPart(words, i);
      assert h[..4 * i + 4] == h[..4 * i] + h[4 * i..4 * i + 4];
    }
  }

  /**
   * sha1: h becomes the hash of the words fed to sha1mix, and hence the FIPS 180-4 digest of the
   * message p[..n] whenever those are the padded message.
   */
  method Sha1(h: array<Byte>, p: array<Byte>, n: nat)
    requires h.Length == 20 && n <= p.Length && h != p && n < 0x2000_0000_0000_0000
    modifies h
    ensures h[..] == DigestBytes(HashWords(INITIAL, FedWords(old(p[..n]))))
    ensures var d := HashWords(Hash(0x67452301, 0xefcdab89, 0x98badcfe, 0x10325476, 0xc3d2e1f0), FedWords(old(p[..n])));
      && Spells(h[0], h[1], h[2], h[3], d.a) && Spells(h[4], h[5], h[6], h[7], d.b)
      && Spells(h[8], h[9], h[10], h[11], d.c) && Spells(h[12], h[13], h[14], h[15], d.d)
      && Spells(h[16], h[17], h[18], h[19], d.e)
    ensures PaddedRight(n) ==> h[..] == Digest(old(p[..n]))
  {
    hide Compress, HashWords, Words, LengthWord, PaddedRight, Spells, DigestBytes;
    var w := new Word[16];
    var r := new Word[5] [0x67452301, 0xefcdab89, 0x98badcfe, 0x10325476, 0xc3d2e1f0];
    ghost var m := p[..n];
    var i := HashWhole(r, w, p, n);
    ClearWords(w);
    LoadTail(p, i, n, w);
    assert m[..i] == p[..i] && m[i..] == p[i..n];
    HashLast(r, w, n, LengthWord(n), m, INITIAL, Words(p[..i]));
    StoreDigest(h, r);
    assert Spells(h[4 * 0], h[1], h[2], h[3], r[0]) && Spells(h[4 * 1], h[5], h[6], h[7], r[1]);
    assert Spells(h[4 * 2], h[9], h[10], h[11], r[2]) && Spells(h[4 * 3], h[13], h[14], h[15], r[3]);
    FedIsPadded(m);
  }
}
