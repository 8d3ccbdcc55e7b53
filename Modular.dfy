/** Facts about products, quotients and ring positions shared by the modules of this project. */
module Modular {

  /** A value stored into a 32-bit `int`: taken modulo 2^32 and read as a signed number. */
  function ToInt32(v: int): (r: int)
    ensures -0x8000_0000 <= r < 0x8000_0000
    ensures -0x8000_0000 <= v < 0x8000_0000 ==> r == v
  {
    var w := v % 0x1_0000_0000;
    if w < 0x8000_0000 then w else w - 0x1_0000_0000
  }

  lemma MulBounds(k: int, c: int)
    requires c > 0
    ensures k <= 0 ==> k * c <= 0
    ensures k >= 1 ==> k * c >= c
  {
  }

  /** Multiplying by a natural number keeps the order. */
  lemma {:induction false} MulLe(a: nat, b: nat, c: nat)
    requires b <= c
    ensures a * b <= a * c
    decreases c - b
  {
    if b < c {
      MulLe(a, b, c - 1);
      assert a * c == a * (c - 1) + a;
    }
  }

  /** Quotient and remainder are the only pair with 0 <= r < b and a == q * b + r. */
  lemma DivModOf(a: int, b: int, q: int, r: int)
    requires b > 0 && 0 <= r < b && a == q * b + r
    ensures a / b == q && a % b == r
  {
    var q', r' := a / b, a % b;
    assert (q - q') * b == r' - r;
    MulBounds(q - q', b);
    MulBounds(q' - q, b);
  }

  /** Fewer than c consecutive steps never come back to the same slot. */
  lemma ModDistinct(a: int, i: int, j: int, c: int)
    requires c > 0 && 0 <= i < j && j - i < c
    ensures (a + i) % c != (a + j) % c
  {
    var x, y := a + i, a + j;
    if x % c == y % c {
      var qx, qy := x / c, y / c;
      assert x == qx * c + x % c;
      assert y == qy * c + y % c;
      assert (qy - qx) * c == qy * c - qx * c;
      MulBounds(qy - qx, c);
    }
  }
}
