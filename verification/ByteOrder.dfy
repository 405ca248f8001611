/** Integers as sequences of bytes. */
module ByteOrder {
  import opened Framing

  function Pow256(n: nat): (r: nat)
    ensures r > 0
  {
    if n == 0 then 1 else 256 * Pow256(n - 1)
  }

  function LittleEndian(b: Bytes): nat {
    if b == [] then 0 else b[0] as int + 256 * LittleEndian(b[1..])
  }

  function ToLittleEndian(n: nat, size: nat): (b: Bytes)
    ensures |b| == size
  {
    if size == 0 then [] else [n % 256] + ToLittleEndian(n / 256, size - 1)
  }

  lemma {:induction false} LittleEndianReadBack(n: nat, size: nat)
    requires n < Pow256(size)
    ensures LittleEndian(ToLittleEndian(n, size)) == n
  {
    if size > 0 {
      LittleEndianReadBack(n / 256, size - 1);
      assert ToLittleEndian(n, size)[1..] == ToLittleEndian(n / 256, size - 1);
    }
  }

  /** The number in big-endian order. */
  function FromBytes(b: Bytes): nat {
    if b == [] then 0 else 256 * FromBytes(b[..|b| - 1]) + b[|b| - 1] as int
  }

  function ToBytes(n: nat, size: nat): (b: Bytes)
    ensures |b| == size
  {
    if size == 0 then [] else ToBytes(n / 256, size - 1) + [n % 256]
  }

  lemma {:induction false} BytesReadBack(n: nat, size: nat)
    requires n < Pow256(size)
    ensures FromBytes(ToBytes(n, size)) == n
  {
    if size > 0 {
      var b := ToBytes(n, size);
      BytesReadBack(n / 256, size - 1);
      assert b[..|b| - 1] == ToBytes(n / 256, size - 1);
    }
  }

  lemma PowersOf256()
    ensures Pow256(0) == 1 && Pow256(1) == 0x100 && Pow256(2) == 0x1_0000 && Pow256(3) == 0x100_0000
    ensures Pow256(4) == 0x1_0000_0000 && Pow256(7) == 0x100_0000_0000_0000 && Pow256(8) == 0x1_0000_0000_0000_0000
  {
    assert Pow256(2) == 256 * Pow256(1) && Pow256(4) == 256 * Pow256(3);
    assert Pow256(5) == 256 * Pow256(4) && Pow256(6) == 256 * Pow256(5);
  }

  /** Of the bytes of a number in little-endian order the i-th is the digit of weight 256^i. */
  lemma {:induction false} LittleEndianByte(n: nat, size: nat, i: nat)
    requires i < size
    ensures ToLittleEndian(n, size)[i] as int == n / Pow256(i) % 256
  {
    if i > 0 {
      LittleEndianByte(n / 256, size - 1, i - 1);
      DivideTwice(n, 256, Pow256(i - 1));
    }
  }

  /** In big-endian order it is the one of weight 256^i from the end. */
  lemma {:induction false} BigEndianByte(n: nat, size: nat, i: nat)
    requires i < size
    ensures ToBytes(n, size)[size - 1 - i] as int == n / Pow256(i) % 256
  {
    if i > 0 {
      BigEndianByte(n / 256, size - 1, i - 1);
      DivideTwice(n, 256, Pow256(i - 1));
    }
  }

  lemma DivideTwice(n: nat, a: nat, b: nat)
    requires a > 0 && b > 0
    ensures a * b > 0 && n / a / b == n / (a * b)
  {
    AtLeast(a, b);
    var m, s := n / a, n % a;
    Recombine(n, a, b, m, m / b, m % b, s);
    Unique(n, a * b, m / b, a * (m % b) + s);
  }

  lemma Recombine(n: nat, a: nat, b: nat, m: nat, q: nat, r: nat, s: nat)
    requires n == a * m + s && m == b * q + r && s < a && r < b
    ensures n == a * b * q + (a * r + s) && 0 <= a * r + s < a * b
  {
    Multiply(a, b, q, r);
    AtLeast(a, b - r);
  }

  lemma Multiply(a: nat, b: nat, q: nat, r: nat)
    ensures a * (b * q + r) == a * b * q + a * r && a * r >= 0
    ensures a * (b - r) == a * b - a * r
  {
    Grows(a, r);
  }

  /** Quotient and remainder are determined. */
  lemma Unique(n: nat, a: nat, q: nat, r: nat)
    requires 0 <= r < a && n == a * q + r
    ensures n / a == q && n % a == r
  {
    var d := q - n / a;
    assert a * d == a * q - a * (n / a);
    Small(a, d);
  }

  lemma Small(a: int, d: int)
    requires -a < a * d < a
    ensures d == 0
  {
    if d > 0 {
      AtLeast(a, d);
    } else if d < 0 {
      AtLeast(a, -d);
    }
  }

  lemma AtLeast(a: int, d: int)
    requires a >= 0 && d > 0
    ensures a * d >= a
  {
    Grows(a, d - 1);
    assert a * (d - 1) == a * d - a;
  }

  lemma Grows(a: int, d: int)
    requires a >= 0 && d >= 0
    ensures a * d >= 0
  {
  }
}
