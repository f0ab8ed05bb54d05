/** Bytes as 8-bit words and as numbers. */
module ByteInts {
  type Byte = bv8

  lemma ByteValue(k: nat)
    requires k < 0x100
    ensures (k as Byte) as int == k
  {
  }

  lemma TwoDigits(n: nat)
    requires n < 0x1_0000
    ensures (n / 0x100 % 0x100) * 0x100 + n % 0x100 == n
  {
  }

  lemma FourDigits(n: nat)
    ensures (n / 0x100_0000 % 0x100) * 0x100_0000 + (n / 0x1_0000 % 0x100) * 0x1_0000
          + (n / 0x100 % 0x100) * 0x100 + n % 0x100 == n % 0x1_0000_0000
    ensures n / 0x100_0000 % 0x100 >= 0x80 <==> n % 0x1_0000_0000 >= 0x8000_0000
  {
    var a := n / 0x100;
    var b := a / 0x100;
    var c := b / 0x100;
    var d := c / 0x100;
    assert n / 0x1_0000 == b && n / 0x100_0000 == c && n / 0x1_0000_0000 == d;
  }

  lemma FourBack(n: nat, a: nat, b: nat, c: nat, d: nat)
    requires a < 0x100 && b < 0x100 && c < 0x100 && d < 0x100
    requires n == a * 0x100_0000 + b * 0x1_0000 + c * 0x100 + d
    ensures n / 0x100_0000 % 0x100 == a && n / 0x1_0000 % 0x100 == b && n / 0x100 % 0x100 == c && n % 0x100 == d
  {
    assert n / 0x100 == a * 0x1_0000 + b * 0x100 + c;
    assert n / 0x1_0000 == a * 0x100 + b;
    assert n / 0x100_0000 == a;
  }
}
