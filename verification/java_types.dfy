/** Java's fixed-width integer types and the two's-complement arithmetic the
    hashing code relies on, written out over Dafny's unbounded integers. */
module JavaTypes {

  /** A Java `byte`, kept as its 8-bit pattern. */
  type byte = bv8

  /** A Java `int` and a Java `long`, kept as their numeric values. */
  type int32 = x: int | -0x8000_0000 <= x < 0x8000_0000
  type int64 = x: int | -0x8000_0000_0000_0000 <= x < 0x8000_0000_0000_0000

  const IntModulus: int := 0x1_0000_0000

  /** The value Java gives a byte when it widens it to `int` (sign extension). */
  function SignedByte(b: byte): (v: int32)
    ensures -128 <= v < 128
    ensures (v - b as int) % 256 == 0
    ensures v < 0 <==> b as int >= 128
  {
    if b < 0x80 then b as int else b as int - 256
  }

  /** The `int` Java's wrapping arithmetic produces for the exact value `x`. */
  function Wrap32(x: int): (r: int32)
    ensures (r - x) % IntModulus == 0
    ensures -0x8000_0000 <= x < 0x8000_0000 ==> r == x
  {
    (x + 0x8000_0000) % IntModulus - 0x8000_0000
  }

  /** Wrapping depends only on the residue modulo 2^32. */
  lemma Wrap32Congruent(x: int, y: int)
    requires (x - y) % IntModulus == 0
    ensures Wrap32(x) == Wrap32(y)
  {
    var k := (x - y) / IntModulus;
    assert x + 0x8000_0000 == (y + 0x8000_0000) + k * IntModulus;
    ModuloShift(y + 0x8000_0000, k);
  }

  lemma ModuloShift(a: int, k: int)
    ensures (a + k * IntModulus) % IntModulus == a % IntModulus
  {
  }

  /** One step of Java's `31 * h + x` hash fold: wrapping every step gives the
      same `int` as computing exactly and wrapping once. */
  lemma {:induction false} Wrap32Step(h: int, x: int)
    ensures Wrap32(31 * Wrap32(h) + x) == Wrap32(31 * h + x)
  {
    var w := Wrap32(h);
    var d := w - h;
    var k := d / IntModulus;
    assert d == k * IntModulus;
    assert 31 * d == (31 * k) * IntModulus;
    ModuloShift(0, 31 * k);
    assert (31 * w + x) - (31 * h + x) == 31 * d;
    Wrap32Congruent(31 * w + x, 31 * h + x);
  }

  function Pow2(n: nat): (p: nat)
    ensures p >= 1
  {
    if n == 0 then 1 else 2 * Pow2(n - 1)
  }

  /** Bitwise exclusive or of the low `n` bits of two naturals, bit by bit. */
  function Xor(a: nat, b: nat, n: nat): (r: nat)
    ensures r < Pow2(n)
  {
    if n == 0 then 0
    else (if a % 2 == b % 2 then 0 else 1) + 2 * Xor(a / 2, b / 2, n - 1)
  }

  /** Exclusive or with zero keeps every bit. */
  lemma {:induction false} XorZero(a: nat, n: nat)
    requires a < Pow2(n)
    ensures Xor(a, 0, n) == a
  {
    if n > 0 {
      XorZero(a / 2, n - 1);
    }
  }

  /** The `int` Java's `(int) (v ^ (v >>> 32))` yields for a `long` `v`:
      the low and high 32-bit halves of the two's-complement pattern, XOR-ed. */
  function LongHash(v: int64): int32
  {
    var bits := if v < 0 then v + 0x1_0000_0000_0000_0000 else v;
    Wrap32(Xor(bits % IntModulus, bits / IntModulus, 32))
  }

  /** A `long` that fits in 32 unsigned bits has an empty high half, so its
      hash is its own value read as an `int`. */
  lemma LongHashOfUnsignedInt(v: int64)
    requires 0 <= v < IntModulus
    ensures LongHash(v) == Wrap32(v)
  {
    Pow2Value();
    assert v % IntModulus == v && v / IntModulus == 0;
    XorZero(v, 32);
  }

  lemma {:induction false} Pow2Add(a: nat, b: nat)
    ensures Pow2(a + b) == Pow2(a) * Pow2(b)
  {
    if a > 0 {
      Pow2Add(a - 1, b);
    }
  }

  lemma Pow2Value()
    ensures Pow2(32) == 0x1_0000_0000
  {
    assert Pow2(1) == 2;
    Pow2Add(1, 1);
    assert Pow2(2) == 4;
    Pow2Add(2, 2);
    assert Pow2(4) == 0x10;
    Pow2Add(4, 4);
    assert Pow2(8) == 0x100;
    Pow2Add(8, 8);
    assert Pow2(16) == 0x1_0000;
    Pow2Add(16, 16);
  }
}
