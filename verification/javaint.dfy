/** Java `int` arithmetic: 32-bit two's-complement results and division that
    truncates toward zero. */
module JavaInt {

  const Modulus: int := 0x1_0000_0000

  type Int32 = x: int | -0x8000_0000 <= x < 0x8000_0000

  /** Two's-complement wrap-around of a Java `int` result. */
  function Wrap32(x: int): (r: Int32)
    ensures (r - x) % Modulus == 0
    ensures -0x8000_0000 <= x < 0x8000_0000 ==> r == x
  {
    (x + 0x8000_0000) % Modulus - 0x8000_0000
  }

  /** Integer division truncating toward zero: the quotient of the
      magnitudes, negated when the signs differ. */
  function TruncDiv(a: int, b: int): (q: int)
    requires b != 0
    ensures var m := a - q * b;
            && (m == 0 || (m > 0 <==> a > 0))
            && (if m >= 0 then m else -m) < (if b >= 0 then b else -b)
  {
    var n: nat := if a >= 0 then a else -a;
    var d := if b > 0 then b else -b;
    var q0 := n / d;
    NegProduct(q0, d);
    if (a >= 0) == (b > 0) then q0 else -q0
  }

  /** Flipping the sign of both factors keeps a product; flipping one negates it. */
  lemma NegProduct(q: int, d: int)
    requires d > 0
    ensures (-q) * (-d) == q * d && (-q) * d == -(q * d) && q * (-d) == -(q * d)
  {
  }

  /** The remainder is determined by any decomposition a = Modulus*q + r with
      0 <= r < Modulus. */
  lemma ModUnique(a: int, q: int, r: int)
    requires a == Modulus * q + r && 0 <= r < Modulus
    ensures a % Modulus == r
  {
    var q', r' := a / Modulus, a % Modulus;
    assert a == Modulus * q' + r';
    assert Modulus * (q - q') == r' - r;
  }

  /** Wrapping an intermediate result first changes nothing: Java `int`
      arithmetic is arithmetic modulo 2^32. */
  lemma {:induction false} WrapAdd(x: int, d: int)
    ensures Wrap32(Wrap32(x) + d) == Wrap32(x + d)
  {
    var y := x + 0x8000_0000;
    var q, r := y / Modulus, y % Modulus;
    assert Wrap32(x) == r - 0x8000_0000;
    var z := Wrap32(x) + d + 0x8000_0000;
    var q2, r2 := z / Modulus, z % Modulus;
    assert z == Modulus * q2 + r2;
    assert x + d + 0x8000_0000 == Modulus * (q2 + q) + r2;
    ModUnique(x + d + 0x8000_0000, q2 + q, r2);
  }

  /** Adding one and then subtracting one, each wrapped, is the identity on
      `int`, and so is the reverse. */
  lemma IncDecInverse(c: Int32)
    ensures Wrap32(Wrap32(c + 1) - 1) == c
    ensures Wrap32(Wrap32(c - 1) + 1) == c
  {
    WrapAdd(c + 1, -1);
    WrapAdd(c - 1, 1);
  }

  /** The largest `int` plus one is the smallest. */
  lemma MaxWrapsToMin()
    ensures Wrap32(0x7FFF_FFFF + 1) == -0x8000_0000
  {
  }
}
