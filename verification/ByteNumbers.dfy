/** Powers of 256, and the bytes of a number. */
module ByteNumbers {
  import opened Arith

  /** 256^n. */
  function Pow256(n: nat): (r: nat)
    ensures r > 0
  {
    if n == 0 then 1 else 256 * Pow256(n - 1)
  }

  lemma {:induction false} Pow256Sum(i: nat, j: nat, k: nat)
    requires k == i + j
    ensures Pow256(k) == Pow256(i) * Pow256(j)
  {
    if i > 0 {
      Pow256Sum(i - 1, j, k - 1);
      MulAssoc(256, Pow256(i - 1), Pow256(j));
    }
  }

  lemma EightBytes(n: nat)
    requires n == 8
    ensures Pow256(n) == 0x1_00000000_00000000
  {
    assert Pow256(4) == 0x1_00000000;
    Pow256Sum(4, 4, n);
  }

  lemma SixteenBytes(n: nat)
    requires n == 16
    ensures Pow256(n) == 0x1_00000000_00000000_00000000_00000000
  {
    assert Pow256(4) == 0x1_00000000;
    Pow256Sum(4, 4, 8);
    Pow256Sum(8, 8, n);
  }

  lemma ByteOfRemainder(x: nat)
    requires x < 256
    ensures (x as bv8) as nat == x
  {
    var b := x as bv8;
    if x < 16 { assert b as nat == x; }
    else if x < 64 { assert b as nat == x; }
    else if x < 128 { assert b as nat == x; }
    else { assert b as nat == x; }
  }

  lemma RemainderStep(x: nat, q: nat)
    requires q > 0
    ensures x % 256 + 256 * ((x / 256) % q) == x % (256 * q)
  {
    var y := x / 256;
    var k, m := y / q, y % q;
    MulAssoc(256, k, q);
    MulAssoc(k, 256, q);
    assert k * (256 * q) == 256 * (k * q);
    assert y == k * q + m;
    ModUnique(x, 256 * q, k, 256 * m + x % 256);
  }
}
