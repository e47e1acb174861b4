// Fixed-width little-endian integers and two's complement, as used by every
// binary format of the MySQL proxy.
module Bytes {

  type byte = x: int | 0 <= x < 256

  const TWO_63 := 0x8000_0000_0000_0000
  const TWO_64 := 0x1_0000_0000_0000_0000

  // The number of values a width of w bytes can hold.
  function Capacity(w: nat): (c: nat)
    ensures c >= 1
  {
    if w == 0 then 1 else 256 * Capacity(w - 1)
  }

  // The w low bytes of n, least significant first.
  function LE(n: nat, w: nat): (b: seq<byte>)
    ensures |b| == w
    decreases w, n
  {
    if w == 0 then [] else [n % 256] + LE(n / 256, w - 1)
  }

  lemma ThreeBytes(n: nat)
    ensures LE(n, 3) == [n % 256, n / 256 % 256, n / 256 / 256 % 256]
  {
    assert LE(n / 256, 2) == [n / 256 % 256] + LE(n / 256 / 256, 1);
    assert LE(n / 256 / 256, 1) == [n / 256 / 256 % 256] + [];
  }

  function FromLE(b: seq<byte>): (n: nat)
  {
    if b == [] then 0 else b[0] + 256 * FromLE(b[1..])
  }

  lemma {:induction false} FromLEBound(b: seq<byte>)
    ensures FromLE(b) < Capacity(|b|)
    decreases |b|
  {
    if b != [] {
      FromLEBound(b[1..]);
    }
  }

  // Writing a number that fits and reading it back gives the number.
  lemma {:induction false} ReadWritten(n: nat, w: nat)
    requires n < Capacity(w)
    ensures FromLE(LE(n, w)) == n
    decreases w
  {
    if w > 0 {
      ReadWritten(n / 256, w - 1);
      assert LE(n, w)[1..] == LE(n / 256, w - 1);
    }
  }

  lemma LowByte(b: byte, m: nat)
    ensures (b + 256 * m) % 256 == b && (b + 256 * m) / 256 == m
  {
  }

  // Reading bytes and writing the number back gives the bytes.
  lemma {:induction false} WriteRead(b: seq<byte>)
    ensures LE(FromLE(b), |b|) == b
    decreases |b|
  {
    if b != [] {
      WriteRead(b[1..]);
      LowByte(b[0], FromLE(b[1..]));
      assert b == [b[0]] + b[1..];
    }
  }

  lemma Capacities()
    ensures Capacity(1) == 256
    ensures Capacity(2) == 0x1_0000
    ensures Capacity(3) == 0x100_0000
    ensures Capacity(4) == 0x1_0000_0000
    ensures Capacity(8) == TWO_64
  {
    assert Capacity(2) == 256 * Capacity(1);
    assert Capacity(3) == 256 * Capacity(2);
    assert Capacity(4) == 256 * Capacity(3);
    assert Capacity(5) == 256 * Capacity(4);
    assert Capacity(6) == 256 * Capacity(5);
    assert Capacity(7) == 256 * Capacity(6);
    assert Capacity(8) == 256 * Capacity(7);
  }

  // The conversion of an unsigned value of 2 * half possible values to the
  // signed type of the same width.
  function Signed(u: nat, half: nat): (v: int)
    requires u < 2 * half
    ensures 0 - half <= v < half
  {
    if u < half then u else u - 2 * half
  }

  // The conversion of a signed value to the unsigned type of the same width.
  function Unsigned(v: int, half: nat): (u: nat)
    requires 0 - half <= v < half
    ensures u < 2 * half && Signed(u, half) == v
  {
    if v >= 0 then v else v + 2 * half
  }

  // The value an int64 variable holds after an arithmetic result of v.
  function Wrap64(v: int): (r: int)
    ensures -TWO_63 <= r < TWO_63
    ensures -TWO_63 <= v < TWO_63 ==> r == v
    ensures TWO_63 <= v < TWO_64 ==> r == v - TWO_64
  {
    Signed(v % TWO_64, TWO_63)
  }

  function Concat(parts: seq<seq<byte>>): (r: seq<byte>)
  {
    if parts == [] then [] else parts[0] + Concat(parts[1..])
  }
}
