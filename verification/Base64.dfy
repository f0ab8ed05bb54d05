/** aw-base64.h: base 64 with the padding chosen by sign shifts instead of branches. */
module Base64 {
  import opened Rfc4648
  import ByteInts

  /** long long */
  type Long = x: int | -0x8000_0000_0000_0000 <= x < 0x8000_0000_0000_0000

  function Base64Len(n: nat): nat {
    (n + 2) / 3 * 4
  }

  /** The low byte of (d >> 31), an arithmetic shift of a 64-bit number. */
  function SignByte(d: Long): Byte {
    (d / 0x8000_0000 % 256) as Byte
  }

  /** The low byte of (s & '=') | (~s & c). */
  function Select(s: Byte, c: Byte): Byte {
    (s & PAD) | (!s & c)
  }

  lemma SelectEnds(c: Byte)
    ensures Select(0, c) == c && Select(0xff, c) == PAD
  {
  }

  lemma SignEnds(d: Long)
    requires -0x8000_0000 <= d < 0x8000_0000
    ensures SignByte(d) == if d < 0 then 0xff else 0
  {
  }

  /** The 24 bits x gathered from three bytes. */
  function Gather(b0: Byte, b1: Byte, b2: Byte): bv32 {
    ((b0 as bv32) << 16) | ((b1 as bv32) << 8) | (b2 as bv32)
  }

  /** x >> 3 * 6 & 0x3f and the like: six bits of x. */
  function Six(x: bv32, shift: bv32): (v: Byte)
    requires shift <= 18
    ensures v < 64
  {
    ((x >> shift) & 0x3f) as Byte
  }

  lemma GatherGroups(b0: Byte, b1: Byte, b2: Byte)
    ensures var x := Gather(b0, b1, b2);
      && Six(x, 18) == First(b0)
      && Six(x, 12) == Second(b0, b1)
      && Six(x, 6) == Third(b1, b2)
      && Six(x, 0) == Fourth(b2)
  {
  }

  // The table t[]
  const UPPER := "ABCDEFGHIJKLMNOPQRSTUVWXYZ"
  const LOWER := "abcdefghijklmnopqrstuvwxyz"
  const DIGITS := "0123456789"
  const TABLE := UPPER + LOWER + DIGITS + "+/"

  function Letter(v: Byte): Byte
    requires v < 64
  {
    TableSize();
    ByteNumber(v);
    (TABLE[v as int] as int % 256) as Byte
  }

  lemma TableSize()
    ensures |UPPER| == |LOWER| == 26 && |DIGITS| == 10 && |TABLE| == 64
  {
  }

  lemma ByteNumber(v: Byte)
    requires v < 64
    ensures 0 <= v as int < 64
  {
  }

  lemma UpperAt(k: nat)
    requires k < 26
    ensures UPPER[k] as int == 65 + k
  {
  }

  lemma LowerAt(k: nat)
    requires k < 26
    ensures LOWER[k] as int == 97 + k
  {
  }

  lemma DigitAt(k: nat)
    requires k < 10
    ensures DIGITS[k] as int == 48 + k
  {
  }

  function Code(k: nat): nat
    requires k < 64
  {
    if k < 26 then 65 + k else if k < 52 then 71 + k else if k < 62 then k - 4 else if k == 62 then 43 else 47
  }

  lemma TableAt(k: nat)
    requires k < 64
    ensures |TABLE| == 64 && TABLE[k] as int == Code(k)
  {
    hide UPPER, LOWER, DIGITS;
    TableSize();
    if k < 26 {
      UpperAt(k);
      assert TABLE[k] == UPPER[k];
    } else if k < 52 {
      LowerAt(k - 26);
      assert TABLE[k] == LOWER[k - 26];
    } else if k < 62 {
      DigitAt(k - 52);
      assert TABLE[k] == DIGITS[k - 52];
    } else {
      assert TABLE[62] == '+' && TABLE[63] == '/';
    }
  }

  /** The table is Table 1 of RFC 4648. */
  lemma LetterIsCharacter(v: Byte)
    requires v < 64
    ensures Letter(v) == Character(v)
  {
    hide TABLE, Character;
    ByteNumber(v);
    TableAt(v as int);
    ByteInts.ByteValue(Code(v as int));
    CharacterNumber(v);
    SameByte(Letter(v), Character(v));
  }

  /** Table 1 in character codes. */
  lemma CharacterNumber(v: Byte)
    requires v < 64
    ensures Character(v) as int == Code(v as int)
  {
  }

  lemma SameByte(a: Byte, b: Byte)
    requires a as int == b as int
    ensures a == b
  {
  }

  /** p[i] when i is inside the input, else 0 */
  function At(p: seq<Byte>, i: nat): Byte {
    if i < |p| then p[i] else 0
  }

  /** The four characters one turn of the loop writes, i being the index of its first byte. */
  function Turn(p: seq<Byte>, i: nat): (q: seq<Byte>)
    requires i < |p| < 0x8000_0000_0000_0000
    ensures |q| == 4
  {
    var x := Gather(p[i], At(p, i + 1), At(p, i + 2));
    [Letter(Six(x, 18)), Letter(Six(x, 12)),
     Select(SignByte(|p| - (i + 2)), Letter(Six(x, 6))),
     Select(SignByte(|p| - 1 - (i + 2)), Letter(Six(x, 0)))]
  }

  lemma LenStep(n: nat)
    ensures n >= 3 ==> Base64Len(n) == 4 + Base64Len(n - 3)
    ensures 0 < n < 3 ==> Base64Len(n) == 4
  {
  }

  /** Everything the loop writes from byte i on. */
  function Turns(p: seq<Byte>, i: nat): (text: seq<Byte>)
    requires |p| < 0x8000_0000_0000_0000
    decreases |p| - i
    ensures i <= |p| ==> |text| == Base64Len(|p| - i)
  {
    hide Turn;
    if i >= |p| then [] else LenStep(|p| - i); Turn(p, i) + Turns(p, i + 3)
  }

  /** Everything the loop writes. */
  function Text(p: seq<Byte>): (text: seq<Byte>)
    requires |p| < 0x8000_0000_0000_0000
    ensures |text| == Base64Len(|p|)
  {
    Turns(p, 0)
  }

  lemma TurnsStep(p: seq<Byte>, i: nat)
    requires i < |p| < 0x8000_0000_0000_0000
    ensures Turns(p, i) == Turn(p, i) + Turns(p, i + 3)
    ensures |Turns(p, i)| == Base64Len(|p| - i) == 4 + |Turns(p, i + 3)|
  {
  }

  /** Far enough from the end of a very long input, or for a short one, the shifts yield 0 or -1. */
  lemma TurnIsGroup(p: seq<Byte>, i: nat)
    requires i < |p| < 0x8000_0000_0000_0000 && |p| - i < 0x8000_0002
    ensures Turn(p, i) == Encode(p[i..if i + 3 <= |p| then i + 3 else |p|])
  {
    hide Gather, Six, First, Second, Third, Fourth, Character, Letter, Select, SignByte;
    var x := Gather(p[i], At(p, i + 1), At(p, i + 2));
    GatherGroups(p[i], At(p, i + 1), At(p, i + 2));
    SignEnds(|p| - (i + 2));
    SignEnds(|p| - 1 - (i + 2));
    SelectEnds(Letter(Six(x, 6)));
    SelectEnds(Letter(Six(x, 0)));
    LetterIsCharacter(Six(x, 18));
    LetterIsCharacter(Six(x, 12));
    LetterIsCharacter(Six(x, 6));
    LetterIsCharacter(Six(x, 0));
    assert Encode([]) == [];
  }

  lemma {:induction false} TurnsAreGroups(p: seq<Byte>, i: nat)
    requires i <= |p| && |p| - i < 0x8000_0002 && |p| < 0x8000_0000_0000_0000
    ensures Turns(p, i) == Encode(p[i..])
    decreases |p| - i
  {
    hide Turn, First, Second, Third, Fourth, Character;
    if i < |p| {
      TurnIsGroup(p, i);
      if i + 3 <= |p| {
        TurnsAreGroups(p, i + 3);
        assert p[i..][..3] == p[i..i + 3] && p[i..][3..] == p[i + 3..];
        EncodeSplit(p[i..]);
      } else {
        assert p[i..] == p[i..|p|];
      }
    }
  }

  lemma EncodeSplit(bs: seq<Byte>)
    requires |bs| >= 3
    ensures Encode(bs) == Encode(bs[..3]) + Encode(bs[3..])
  {
    hide First, Second, Third, Fourth, Character;
    assert bs[..3][3..] == [];
  }

  // ---- where the shifts go wrong ---------------------------------------------

  /** Where the characters of one group land. */
  lemma {:induction false} TurnsAt(p: seq<Byte>, i: nat, k: nat)
    requires |p| < 0x8000_0000_0000_0000 && i + 3 * k < |p|
    ensures 4 * k + 4 <= |Turns(p, i)| && Turns(p, i)[4 * k..4 * k + 4] == Turn(p, i + 3 * k)
    decreases k
  {
    hide Turn;
    TurnsStep(p, i);
    if k > 0 {
      TurnsAt(p, i + 3, k - 1);
      assert Turns(p, i)[4 * k..4 * k + 4] == Turns(p, i + 3)[4 * (k - 1)..4 * (k - 1) + 4];
    }
  }

  lemma {:induction false} EncodeAt(bs: seq<Byte>, k: nat)
    requires 3 * k + 3 <= |bs|
    ensures 4 * k + 4 <= |Encode(bs)| && Encode(bs)[4 * k..4 * k + 4] == Encode(bs[3 * k..3 * k + 3])
    decreases k
  {
    hide First, Second, Third, Fourth, Character;
    EncodeSplit(bs);
    assert |Encode(bs[..3])| == 4;
    if k > 0 {
      EncodeAt(bs[3..], k - 1);
      assert bs[3..][3 * (k - 1)..3 * (k - 1) + 3] == bs[3 * k..3 * k + 3];
      assert Encode(bs)[4 * k..4 * k + 4] == Encode(bs[3..])[4 * (k - 1)..4 * (k - 1) + 4];
    } else {
      assert bs[0..3] == bs[..3];
    }
  }

  /** The input of n bytes 0x40: all of its groups are Q, E, B, A. */
  function AllAt(n: nat): (p: seq<Byte>)
    ensures |p| == n
  {
    seq(n, _ => 0x40)
  }

  /** In the group whose third byte is between 2^31 and 2^31 + 2 bytes before the end, B becomes C. */
  lemma WrongGroup(n: nat, i: nat)
    requires i + 3 <= n < 0x8000_0000_0000_0000
    requires 0x8000_0000 <= n - (i + 2) < 0x1_0000_0000
    ensures Turn(AllAt(n), i)[2] == 0x43
    ensures Encode(AllAt(n)[i..i + 3])[2] == 0x42
  {
    var p := AllAt(n);
    assert SignByte(n - (i + 2)) == 1;
    var six := Six(Gather(0x40, 0x40, 0x40), 6);
    LetterIsCharacter(six);
    assert Character(six) == 0x42;
    assert Select(1, 0x42) == 0x43;
    assert Character(Third(0x40, 0x40)) == 0x42;
  }

  lemma WrongAbove(n: nat)
    requires 0x8000_0002 <= n < 0x8000_0000_0000_0000
    ensures Text(AllAt(n)) != Encode(AllAt(n))
  {
    hide Turn, Turns, Encode, AllAt;
    var k := (n - 2 - 0x8000_0000) / 3;
    TurnsAt(AllAt(n), 0, k);
    EncodeAt(AllAt(n), k);
    WrongGroup(n, 3 * k);
    assert Turns(AllAt(n), 0)[4 * k..4 * k + 4][2] != Encode(AllAt(n))[4 * k..4 * k + 4][2];
  }

  /** For every length n, all inputs of that length are encoded as RFC 4648 says exactly when n < 2^31 + 2. */
  lemma RefinesRfc4648(n: nat)
    requires n < 0x8000_0000_0000_0000
    ensures (forall p: seq<Byte> | |p| == n :: Text(p) == Encode(p)) <==> n < 0x8000_0002
  {
    hide Turns, Encode;
    if n < 0x8000_0002 {
      forall p: seq<Byte> | |p| == n
        ensures Text(p) == Encode(p)
      {
        TurnsAreGroups(p, 0);
        assert p[0..] == p;
      }
    } else {
      WrongAbove(n);
    }
  }

  /** The body of the loop: consumes up to three bytes and writes four characters. */
  method WriteTurn(buf: array<Byte>, at: nat, p: array<Byte>, n: nat, i0: nat) returns (i: nat)
    requires i0 < n <= p.Length && at + 4 <= buf.Length && buf != p
    requires n < 0x8000_0000_0000_0000
    modifies buf
    ensures i == i0 + 3
    ensures buf[at..at + 4] == Turn(p[..n], i0)
    ensures buf[..at] == old(buf[..at]) && buf[at + 4..] == old(buf[at + 4..])
  {
    hide Gather, Letter, Six, Select, SignByte;
    i := i0;
    var b0 := p[i];
    i := i + 1;
    var b1 := if i < n then p[i] else 0;
    i := i + 1;
    var b2 := if i < n then p[i] else 0;
    var x := Gather(b0, b1, b2);
    assert b0 == p[..n][i0] && b1 == At(p[..n], i0 + 1) && b2 == At(p[..n], i0 + 2);
    buf[at] := Letter(Six(x, 18));
    buf[at + 1] := Letter(Six(x, 12));
    buf[at + 2] := Select(SignByte(n - 0 - i), Letter(Six(x, 6)));
    buf[at + 3] := Select(SignByte(n - 1 - i), Letter(Six(x, 0)));
    i := i + 1;
  }

  /** base64: writes exactly Base64Len(nn) characters, or nothing when they do not fit. */
  method Base64(buf: array<Byte>, nbuf: nat, p: array<Byte>, nn: nat) returns (m: nat)
    requires nbuf <= buf.Length && nn <= p.Length && buf != p
    requires nn < 0x8000_0000_0000_0000
    modifies buf
    ensures m == Base64Len(nn)
    ensures nbuf < m ==> buf[..] == old(buf[..])
    ensures nbuf >= m ==> buf[..m] == Text(p[..nn]) && buf[m..] == old(buf[m..])
    ensures nbuf >= m && nn < 0x8000_0002 ==> buf[..m] == Encode(p[..nn])
  {
    hide Turn, Turns, Encode;
    m := Base64Len(nn);
    ghost var bs := p[..nn];
    if nbuf >= m {
      var i, n, at := 0, nn, 0;
      while i < n
        invariant i <= n ==> at + |Turns(bs, i)| == m
        invariant i > n ==> Turns(bs, i) == [] && at == m
        invariant buf[..at] + Turns(bs, i) == Turns(bs, 0)
        invariant buf[m..] == old(buf[m..])
      {
        ghost var done := buf[..at];
        TurnsStep(bs, i);
        ghost var rest := Turns(bs, i + 3);
        i := WriteTurn(buf, at, p, n, i);
        assert buf[..at + 4] == done + buf[at..at + 4];
        at := at + 4;
        if i >= n {
          TurnsEnd(bs, i);
        }
      }
      TurnsEnd(bs, i);
    }
    RefinesRfc4648(nn);
  }

  lemma TurnsEnd(p: seq<Byte>, i: nat)
    requires |p| <= i && |p| < 0x8000_0000_0000_0000
    ensures Turns(p, i) == []
  {
  }
}
