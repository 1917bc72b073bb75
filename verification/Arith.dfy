/** Small facts about products, remainders and sequences that the solver needs spelled out. */
module Arith {

  lemma MulAssoc(a: int, b: int, c: int)
    ensures a * (b * c) == (a * b) * c
  {
  }

  lemma MulAdd(a: int, b: int, c: int)
    ensures (a + b) * c == a * c + b * c
  {
  }

  /** Multiplying every term of  t + c * e  by `r`. */
  lemma MulTerm(r: int, t: int, c: int, e: int)
    ensures r * t + c * (r * e) == r * (t + c * e)
  {
    MulAssoc(c, r, e);
    MulAssoc(r, c, e);
    MulAdd(t, c * e, r);
  }

  lemma MulFactor(r: int, t: int, c: int, rt: int, e: int)
    requires rt == r * t && e == r
    ensures rt + c * e == (t + c) * r
  {
    MulAdd(t, c, r);
  }

  lemma MulAtLeast(t: int, d: nat)
    requires t >= 1
    ensures t * d >= d
  {
    MulAdd(t - 1, 1, d);
  }

  lemma MulMono(a: nat, b: nat, x: nat, y: nat)
    requires a <= x && b <= y
    ensures a * b <= x * y
  {
    MulAdd(a, x - a, b);
    MulAdd(b, y - b, x);
  }

  lemma ModUnique(x: int, d: nat, k: int, m: nat)
    requires m < d && x == k * d + m
    ensures x % d == m && x / d == k
  {
    var q := x / d;
    assert x == q * d + x % d;
    if q > k {
      MulAdd(q, -k, d);
      MulAtLeast(q - k, d);
    } else if q < k {
      MulAdd(k, -q, d);
      MulAtLeast(k - q, d);
    }
  }

  /** Numbers that differ by a multiple of `d` have the same residue. */
  lemma ModShift(x: int, y: int, d: nat, k: int)
    requires d > 0 && x == y + k * d
    ensures x % d == y % d
  {
    var q := y / d;
    assert y == q * d + y % d;
    MulAdd(q, k, d);
    ModUnique(x, d, q + k, y % d);
  }

  /** A product depends on its first factor only up to the residue. */
  lemma ModMul(x: int, y: int, d: nat, r: int)
    requires d > 0 && x % d == y % d
    ensures (x * r) % d == (y * r) % d
  {
    var p, q := x / d, y / d;
    assert x == p * d + x % d && y == q * d + y % d;
    assert x - y == (p - q) * d by { MulAdd(p, -q, d); }
    calc {
      x * r - y * r;
      { MulAdd(x, -y, r); }
      ((p - q) * d) * r;
      { MulAssoc(p - q, d, r); MulAssoc(p - q, r, d); }
      ((p - q) * r) * d;
    }
    ModShift(x * r, y * r, d, (p - q) * r);
  }

  lemma SeqAssoc<T>(a: seq<T>, b: seq<T>, c: seq<T>)
    ensures (a + b) + c == a + (b + c)
  {
  }

  /** Taking one more slice of `data` after the first `i` elements. */
  lemma SeqExtend<T>(f: seq<T>, data: seq<T>, i: nat, n: nat)
    requires i + n <= |data|
    ensures (f + data[..i]) + data[i..i + n] == f + data[..i + n]
  {
  }

  /** Writing a piece after the part already written. */
  lemma SeqSpliced<T>(first: seq<T>, before: seq<T>, after: seq<T>, written: seq<T>, piece: seq<T>)
    requires |written| + |piece| <= |first| && before == written + first[|written|..]
    requires after == before[..|written|] + piece + before[|written| + |piece|..]
    ensures after == (written + piece) + first[|written| + |piece|..]
    ensures |written + piece| == |written| + |piece|
  {
  }

  /** What follows a piece that was written is as it was. */
  lemma SeqRestStays<T>(was: seq<T>, piece: seq<T>, now: seq<T>, i: nat, j: nat)
    requires j == i + |piece| <= |was| && now == was[..i] + piece + was[j..]
    ensures now[j..] == was[j..]
  {
  }

  /** Sequences that agree from `i` on agree from any later position on. */
  lemma SeqSuffix<T>(s: seq<T>, t: seq<T>, i: nat, j: nat)
    requires i <= j <= |s| == |t| && s[i..] == t[i..]
    ensures s[j..] == t[j..]
  {
    assert s[j..] == s[i..][j - i..];
    assert t[j..] == t[i..][j - i..];
  }

  /** One more element of a slice. */
  lemma SeqSliceNext<T>(out: seq<T>, input: seq<T>, i: nat, j: nat)
    requires i <= j < |input|
    ensures (out + input[i..j]) + [input[j]] == out + input[i..j + 1]
  {
  }
}
