/** Numbers written in base 16. */
module Hexadecimal {
  import opened Arith

  const LOWER := "0123456789abcdef"
  const UPPER := "0123456789ABCDEF"

  predicate IsHex(c: char) {
    '0' <= c <= '9' || 'A' <= c <= 'F' || 'a' <= c <= 'f'
  }

  function Place(c: char): (v: nat)
    requires IsHex(c)
    ensures v < 16
  {
    if c <= '9' then (c as int) - ('0' as int)
    else if c <= 'F' then (c as int) - ('A' as int) + 10
    else (c as int) - ('a' as int) + 10
  }

  /** The digits are those of the two alphabets, each standing for its place there. */
  lemma Alphabets(c: char, v: nat)
    requires v < 16
    ensures IsHex(c) && Place(c) == v <==> c == LOWER[v] || c == UPPER[v]
  {
  }

  /** An alphabet to write numbers in; the letters may be of either case. */
  predicate IsAlphabet(alphabet: string) {
    |alphabet| == 16 && forall v :: 0 <= v < 16 ==> alphabet[v] == LOWER[v] || alphabet[v] == UPPER[v]
  }

  lemma AlphabetDigit(alphabet: string, v: nat)
    requires IsAlphabet(alphabet) && v < 16
    ensures IsHex(alphabet[v]) && Place(alphabet[v]) == v
  {
    Alphabets(alphabet[v], v);
  }

  predicate AllHex(digits: string) {
    forall i :: 0 <= i < |digits| ==> IsHex(digits[i])
  }

  /** The number that digits stand for, the highest first. */
  function HexValue(digits: string): nat
    requires AllHex(digits)
  {
    if |digits| == 0 then 0 else HexValue(digits[..|digits| - 1]) * 16 + Place(digits[|digits| - 1])
  }

  /** A number in the digits of an alphabet, by division. */
  function Hex(n: nat, alphabet: string): (digits: string)
    requires |alphabet| == 16
    ensures |digits| > 0
  {
    (if n < 16 then "" else Hex(n / 16, alphabet)) + [alphabet[n % 16]]
  }

  /** Reading the digits gives the number back. */
  lemma {:induction false} HexReads(n: nat, alphabet: string)
    requires IsAlphabet(alphabet)
    ensures AllHex(Hex(n, alphabet)) && HexValue(Hex(n, alphabet)) == n
  {
    if n >= 16 {
      HexReads(n / 16, alphabet);
    }
    AlphabetDigit(alphabet, n % 16);
    HexAppend(if n < 16 then "" else Hex(n / 16, alphabet), alphabet[n % 16]);
  }

  lemma HexAppend(digits: string, c: char)
    requires AllHex(digits) && IsHex(c)
    ensures AllHex(digits + [c]) && HexValue(digits + [c]) == HexValue(digits) * 16 + Place(c)
  {
    assert (digits + [c])[..|digits|] == digits;
  }

  /** 16^k */
  function Pow16(k: nat): (r: nat)
    ensures r >= 1
  {
    if k == 0 then 1 else 16 * Pow16(k - 1)
  }

  lemma {:induction false} HexLength(n: nat, alphabet: string, k: nat)
    requires |alphabet| == 16 && n < Pow16(k) && k > 0
    ensures |Hex(n, alphabet)| <= k
  {
    if n >= 16 {
      assert k > 1 by { assert Pow16(0) == 1; }
      HexLength(n / 16, alphabet, k - 1);
    }
  }

  lemma {:induction false} Pow16Sum(i: nat, j: nat, k: nat)
    requires k == i + j
    ensures Pow16(k) == Pow16(i) * Pow16(j)
  {
    if i > 0 {
      Pow16Sum(i - 1, j, k - 1);
      assert Pow16(i) * Pow16(j) == 16 * (Pow16(i - 1) * Pow16(j)) by { MulAssoc(16, Pow16(i - 1), Pow16(j)); }
    }
  }

  lemma SixteenDigits(k: nat)
    requires k == 16
    ensures Pow16(k) == 0x1_0000_0000_0000_0000
  {
    assert Pow16(4) == 0x1_0000;
    Pow16Sum(4, 4, 8);
    Pow16Sum(8, 8, k);
  }

  /** The numbers of 64 bits have at most 16 digits. */
  lemma HexFits(n: nat, alphabet: string)
    requires |alphabet| == 16 && n < 0x1_0000_0000_0000_0000
    ensures |Hex(n, alphabet)| <= 16
  {
    var k := 16;
    SixteenDigits(k);
    HexLength(n, alphabet, k);
  }
}
