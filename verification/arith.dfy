/** Integer facts the cost computations need: a product divided by one of
    its factors gives the other back exactly. */
module Arith {
  function Abs(x: int): (r: nat)
    ensures r == x || r == -x
  {
    if x < 0 then -x else x
  }

  lemma MulAbs(a: int, b: int)
    ensures Abs(a * b) == Abs(a) * Abs(b)
  {
    if a < 0 && b < 0 { assert a * b == (-a) * (-b); }
    else if a < 0 { assert a * b == -((-a) * b); }
    else if b < 0 { assert a * b == -(a * (-b)); }
  }

  lemma MulAtLeast(a: nat, b: nat)
    requires b >= 1
    ensures a * b >= a
  {
    assert a * b == a * (b - 1) + a;
  }

  lemma MulDivExact(p: nat, q: int)
    requires q != 0
    ensures (p * q) % q == 0 && (p * q) / q == p
  {
    var a := p * q;
    var d := a / q;
    var m := a % q;
    assert a == q * d + m;
    assert q * (p - d) == q * p - q * d;
    assert q * (p - d) == m;
    if p - d != 0 {
      MulAbs(q, p - d);
      MulAtLeast(Abs(q), Abs(p - d));
      assert false;
    }
  }
}
