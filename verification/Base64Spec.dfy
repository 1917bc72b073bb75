/** Base64 (section 4 of RFC 4648) as functions, for both alphabets. */
module Base64Spec {

  type Octet = x: nat | x < 256

  // ---------- the tables ----------

  /** to_base64 */
  function ToChar(x: nat): (c: char)
    requires x < 64
  {
    if x < 26 then (('A' as int) + x) as char
    else if x < 52 then (('a' as int) + (x - 26)) as char
    else if x < 62 then (('0' as int) + (x - 52)) as char
    else if x == 62 then '+'
    else '/'
  }

  /** A byte that is no digit of either alphabet. */
  const NONE: Octet := 255

  /** from_base64; of the characters outside the alphabets, '<' stands for zero. */
  function FromChar(c: char): Octet {
    if 'A' <= c <= 'Z' then (c as int) - ('A' as int)
    else if 'a' <= c <= 'z' then (c as int) - ('a' as int) + 26
    else if '0' <= c <= '9' then (c as int) - ('0' as int) + 52
    else if c == '+' || c == '-' then 62
    else if c == '/' || c == '_' then 63
    else if c == '<' then 0
    else NONE
  }

  /** Tables 1 and 2 of RFC 4648. */
  const STANDARD := "ABCDEFGHIJKLMNOPQRSTUVWXYZ" + "abcdefghijklmnopqrstuvwxyz" + "0123456789" + "+/"
  const URL := "ABCDEFGHIJKLMNOPQRSTUVWXYZ" + "abcdefghijklmnopqrstuvwxyz" + "0123456789" + "-_"

  lemma Letters(i: nat)
    requires i < 26
    ensures "ABCDEFGHIJKLMNOPQRSTUVWXYZ"[i] == (('A' as int) + i) as char
    ensures "abcdefghijklmnopqrstuvwxyz"[i] == (('a' as int) + i) as char
  {
  }

  lemma DecimalDigits(i: nat)
    requires i < 10
    ensures "0123456789"[i] == (('0' as int) + i) as char
  {
  }

  /** The digits are those of the two tables. */
  lemma TableOf(x: nat)
    requires x < 64
    ensures ToChar(x) == STANDARD[x] && URL[x] == ToUrl(STANDARD[x])
  {
    if x < 26 {
      Letters(x);
    } else if x < 52 {
      Letters(x - 26);
    } else if x < 62 {
      DecimalDigits(x - 52);
    }
  }

  /** Which characters have the value `x`. */
  lemma CharsOf(c: char, x: nat)
    requires x < 64
    ensures FromChar(c) == x <==> c == ToChar(x) || c == ToUrl(ToChar(x)) || (c == '<' && x == 0)
  {
  }

  /** A character has the value of its place in either table; of the others only '<' has one. */
  lemma ValueOf(c: char, x: nat)
    requires x < 64
    ensures FromChar(c) == x <==> c == STANDARD[x] || c == URL[x] || (c == '<' && x == 0)
    ensures FromChar(c) < 64 || FromChar(c) == NONE
  {
    TableOf(x);
    CharsOf(c, x);
  }

  lemma FromTo(x: nat)
    requires x < 64
    ensures FromChar(ToChar(x)) == x && ToChar(x) != '='
  {
  }

  /** The URL alphabet stands for the same values. */
  function ToUrl(c: char): (d: char)
    ensures FromChar(d) == FromChar(c)
  {
    if c == '+' then '-' else if c == '/' then '_' else c
  }

  // ---------- sizes ----------

  function EncodedSize(n: nat): nat {
    4 * ((n + 2) / 3)
  }

  function DecodedSize(n: nat): nat {
    3 * ((n + 3) / 4)
  }

  // ---------- encoding ----------

  /** Three bytes as four digits of six bits. */
  function Group(a: Octet, b: Octet, c: Octet): (s: string)
    ensures |s| == 4
  {
    [ToChar(a / 4), ToChar(a % 4 * 16 + b / 16), ToChar(b % 16 * 4 + c / 64), ToChar(c % 64)]
  }

  /** The number of 24 bits that four digits stand for. */
  function Number(s: string): nat
    requires |s| == 4
  {
    ((FromChar(s[0]) * 64 + FromChar(s[1])) * 64 + FromChar(s[2])) * 64 + FromChar(s[3])
  }

  /** Four digits stand for the same 24 bits as the three bytes. */
  lemma GroupNumber(a: Octet, b: Octet, c: Octet)
    ensures Number(Group(a, b, c)) == (a * 256 + b) * 256 + c
  {
    FromTo(a / 4);
    FromTo(a % 4 * 16 + b / 16);
    FromTo(b % 16 * 4 + c / 64);
    FromTo(c % 64);
  }

  function ByteAt(s: seq<Octet>, i: nat): Octet {
    if i < |s| then s[i] else 0
  }

  function Drop<T>(s: seq<T>, n: nat): (r: seq<T>)
    ensures |r| == if n <= |s| then |s| - n else 0
  {
    if n <= |s| then s[n..] else []
  }

  function Encode(s: seq<Octet>): string {
    if |s| == 0 then ""
    else if |s| == 1 then Group(s[0], 0, 0)[..2] + "=="
    else if |s| == 2 then Group(s[0], s[1], 0)[..3] + "="
    else Group(s[0], s[1], s[2]) + Encode(s[3..])
  }

  lemma {:induction false} EncodeSize(s: seq<Octet>)
    ensures |Encode(s)| == EncodedSize(|s|)
  {
    if |s| > 2 {
      EncodeSize(s[3..]);
      Thirds(|s|);
    }
  }

  lemma Thirds(n: nat)
    requires n >= 3
    ensures EncodedSize(n) == 4 + EncodedSize(n - 3)
  {
  }

  lemma Quarters(n: nat)
    requires n > 0
    ensures DecodedSize(n) == 3 + DecodedSize(if n < 4 then 0 else n - 4)
  {
  }

  // ---------- decoding ----------

  function DigitAt(s: string, i: nat): Octet {
    if i < |s| then FromChar(s[i]) else NONE
  }

  /** Up to three bytes of four digits; the byte a missing digit would complete is not there. */
  function Bytes(d0: Octet, d1: Octet, d2: Octet, d3: Octet): (s: seq<Octet>)
    ensures |s| <= 3
  {
    (if d1 != NONE then [d0 % 64 * 4 + d1 / 16 % 4] else [])
    + (if d2 != NONE then [d1 % 16 * 16 + d2 / 4 % 16] else [])
    + (if d3 != NONE then [d2 % 4 * 64 + d3 % 64] else [])
  }

  function Decode(s: string): seq<Octet>
    decreases |s|
  {
    if |s| == 0 then []
    else Bytes(DigitAt(s, 0), DigitAt(s, 1), DigitAt(s, 2), DigitAt(s, 3)) + Decode(Drop(s, 4))
  }

  lemma {:induction false} DecodeSize(s: string)
    ensures |Decode(s)| <= DecodedSize(|s|)
    decreases |s|
  {
    if |s| > 0 {
      DecodeSize(Drop(s, 4));
      Quarters(|s|);
    }
  }

  // ---------- round trips ----------

  /** Digits that stand for the same values; where one string ends, the other may have characters that stand for none. */
  ghost predicate SameDigits(s: string, t: string) {
    (|s| + 3) / 4 == (|t| + 3) / 4 && forall i: nat :: DigitAt(s, i) == DigitAt(t, i)
  }

  /** Decoding looks at nothing but the values of the digits. */
  lemma {:induction false} DecodeSame(s: string, t: string)
    requires SameDigits(s, t)
    ensures Decode(s) == Decode(t)
    decreases |s|
  {
    if |s| > 0 {
      forall i: nat
        ensures DigitAt(Drop(s, 4), i) == DigitAt(Drop(t, 4), i)
      {
        DropDigit(s, i);
        DropDigit(t, i);
      }
      DecodeSame(Drop(s, 4), Drop(t, 4));
    }
  }

  lemma DropDigit(s: string, i: nat)
    ensures DigitAt(Drop(s, 4), i) == DigitAt(s, 4 + i)
  {
  }

  /** The six-bit pieces of three bytes make the bytes again. */
  lemma Pieces(a: Octet, b: Octet, c: Octet, d0: nat, d1: nat, d2: nat, d3: nat)
    requires d0 == a / 4 && d1 == a % 4 * 16 + b / 16 && d2 == b % 16 * 4 + c / 64 && d3 == c % 64
    ensures d0 < 64 && d1 < 64 && d2 < 64 && d3 < 64
    ensures d0 * 4 + d1 / 16 == a && d1 % 16 * 16 + d2 / 4 == b && d2 % 4 * 64 + d3 == c
  {
  }

  lemma BytesOfDigits(d0: Octet, d1: Octet, d2: Octet, d3: Octet)
    requires d0 < 64 && d1 < 64 && d2 < 64 && d3 < 64
    ensures Bytes(d0, d1, d2, d3) == [d0 * 4 + d1 / 16, d1 % 16 * 16 + d2 / 4, d2 % 4 * 64 + d3]
    ensures Bytes(d0, d1, d2, NONE) == [d0 * 4 + d1 / 16, d1 % 16 * 16 + d2 / 4]
    ensures d1 % 16 == 0 ==> Bytes(d0, d1, NONE, NONE) == [d0 * 4 + d1 / 16]
  {
    assert d0 % 64 == d0 && d3 % 64 == d3 && d1 / 16 % 4 == d1 / 16 && d2 / 4 % 16 == d2 / 4;
  }

  lemma BytesOfGroup(a: Octet, b: Octet, c: Octet)
    ensures var g := Group(a, b, c);
            && Bytes(FromChar(g[0]), FromChar(g[1]), FromChar(g[2]), FromChar(g[3])) == [a, b, c]
            && Bytes(FromChar(g[0]), FromChar(g[1]), FromChar(g[2]), NONE) == [a, b]
            && (b == 0 ==> Bytes(FromChar(g[0]), FromChar(g[1]), NONE, NONE) == [a])
  {
    Pieces(a, b, c, a / 4, a % 4 * 16 + b / 16, b % 16 * 4 + c / 64, c % 64);
    BytesOfDigits(a / 4, a % 4 * 16 + b / 16, b % 16 * 4 + c / 64, c % 64);
    FromTo(a / 4);
    FromTo(a % 4 * 16 + b / 16);
    FromTo(b % 16 * 4 + c / 64);
    FromTo(c % 64);
  }

  /** What was encoded is decoded. */
  lemma {:induction false} DecodeEncode(s: seq<Octet>)
    ensures Decode(Encode(s)) == s
  {
    if |s| == 1 {
      DecodeShort(s[0]);
    } else if |s| == 2 {
      DecodeMiddle(s[0], s[1]);
    } else if |s| > 2 {
      DecodeEncode(s[3..]);
      DecodeGroup(s[0], s[1], s[2], Encode(s[3..]));
      ThreeAndRest(s);
    }
  }

  lemma ThreeAndRest(s: seq<Octet>)
    requires |s| > 2
    ensures s == [s[0], s[1], s[2]] + s[3..]
  {
  }

  lemma DecodeGroup(a: Octet, b: Octet, c: Octet, rest: string)
    ensures Decode(Group(a, b, c) + rest) == [a, b, c] + Decode(rest)
  {
    var t := Group(a, b, c) + rest;
    BytesOfGroup(a, b, c);
    assert Drop(t, 4) == rest;
    assert t[0] == Group(a, b, c)[0] && t[1] == Group(a, b, c)[1] && t[2] == Group(a, b, c)[2] && t[3] == Group(a, b, c)[3];
  }

  lemma DecodeShort(a: Octet)
    ensures Decode(Group(a, 0, 0)[..2] + "==") == [a]
  {
    BytesOfGroup(a, 0, 0);
    DecodeOne(Group(a, 0, 0)[..2] + "==");
  }

  lemma DecodeMiddle(a: Octet, b: Octet)
    ensures Decode(Group(a, b, 0)[..3] + "=") == [a, b]
  {
    BytesOfGroup(a, b, 0);
    DecodeOne(Group(a, b, 0)[..3] + "=");
  }

  lemma DecodeOne(t: string)
    requires |t| == 4
    ensures Decode(t) == Bytes(FromChar(t[0]), FromChar(t[1]), FromChar(t[2]), FromChar(t[3]))
  {
    assert Decode(Drop(t, 4)) == [];
  }

  /**
   Also when padding was dropped, and digits were replaced by those of the other alphabet: whatever stands for
   the same values decodes to the same bytes.
   */
  lemma RoundTrip(s: seq<Octet>, t: string)
    requires |t| <= |Encode(s)|
    requires forall i :: 0 <= i < |t| ==> FromChar(t[i]) == FromChar(Encode(s)[i])
    requires forall i :: |t| <= i < |Encode(s)| ==> Encode(s)[i] == '='
    ensures Decode(t) == s
  {
    PaddingIsShort(s, |t|);
    DecodeSame(Encode(s), t);
    DecodeEncode(s);
  }

  lemma {:induction false} PaddingIsShort(s: seq<Octet>, n: nat)
    requires n <= |Encode(s)| && forall i :: n <= i < |Encode(s)| ==> Encode(s)[i] == '='
    ensures (n + 3) / 4 == (|Encode(s)| + 3) / 4
  {
    EncodeSize(s);
    if |s| > 0 {
      SecondDigit(s);
      RoundUp(|Encode(s)|, (|s| + 2) / 3, n);
    }
  }

  lemma RoundUp(m: nat, k: nat, n: nat)
    requires m == 4 * k && m - 3 < n <= m
    ensures (n + 3) / 4 == k == (m + 3) / 4
  {
  }

  /** At most the last two characters are padding. */
  lemma {:induction false} SecondDigit(s: seq<Octet>)
    requires |s| > 0
    ensures |Encode(s)| >= 4 && Encode(s)[|Encode(s)| - 3] != '='
  {
    EncodeSize(s);
    if |s| > 3 {
      SecondDigit(s[3..]);
    } else {
      FromTo(s[0] % 4 * 16 + ByteAt(s, 1) / 16);
      if |s| == 3 { assert Encode(s) == Group(s[0], s[1], s[2]) + Encode(s[3..]); }
    }
  }

  /** The digits without the padding. */
  function Unpadded(t: string): (u: string) {
    if |t| > 0 && t[|t| - 1] == '=' then Unpadded(t[..|t| - 1]) else t
  }

  lemma {:induction false} UnpaddedIs(t: string)
    ensures var u := Unpadded(t); |u| <= |t| && u == t[..|u|] && forall i :: |u| <= i < |t| ==> t[i] == '='
  {
    if |t| > 0 && t[|t| - 1] == '=' {
      UnpaddedIs(t[..|t| - 1]);
    }
  }

  function Url(t: string): (u: string)
    ensures |u| == |t|
  {
    seq(|t|, i requires 0 <= i < |t| => ToUrl(t[i]))
  }

  /** Unpadded, and in the URL alphabet, and both. */
  lemma RoundTrips(s: seq<Octet>)
    ensures Decode(Unpadded(Encode(s))) == s && Decode(Url(Encode(s))) == s && Decode(Url(Unpadded(Encode(s)))) == s
  {
    UnpaddedIs(Encode(s));
    RoundTrip(s, Unpadded(Encode(s)));
    RoundTrip(s, Url(Encode(s)));
    RoundTrip(s, Url(Unpadded(Encode(s))));
  }

  lemma EncodeCons(a: Octet, b: Octet, c: Octet, rest: seq<Octet>)
    ensures Encode([a, b, c] + rest) == Group(a, b, c) + Encode(rest)
  {
    assert ([a, b, c] + rest)[3..] == rest;
  }

  lemma Groups()
    ensures Group(0x66, 0x6f, 0x6f) == "Zm9v" && Group(0x62, 0x61, 0x72) == "YmFy"
    ensures Group(0x62, 0x61, 0)[..3] == "YmE" && Group(0x62, 0, 0)[..2] == "Yg"
  {
  }

  lemma Tails(a: Octet, b: Octet, c: Octet)
    ensures Encode([a, b, c]) == Group(a, b, c) && Encode([a, b]) == Group(a, b, 0)[..3] + "=" && Encode([a]) == Group(a, 0, 0)[..2] + "=="
  {
    EncodeCons(a, b, c, []);
    assert [a, b, c] + [] == [a, b, c];
  }

  /** Whole groups of digits, with no padding. */
  predicate AllStandard(t: string) {
    |t| % 4 == 0 && forall i :: 0 <= i < |t| ==> FromChar(t[i]) < 64 && ToChar(FromChar(t[i])) == t[i]
  }

  lemma DigitsOfBytes(w: nat, x: nat, y: nat, z: nat)
    requires w < 64 && x < 64 && y < 64 && z < 64
    ensures var a, b, c := w * 4 + x / 16, x % 16 * 16 + y / 4, y % 4 * 64 + z;
            && a < 256 && b < 256 && c < 256
            && a / 4 == w && a % 4 * 16 + b / 16 == x && b % 16 * 4 + c / 64 == y && c % 64 == z
  {
  }

  /** The three bytes of four digits, written with four digits. */
  lemma GroupOfBytes(w: Octet, x: Octet, y: Octet, z: Octet) returns (a: Octet, b: Octet, c: Octet)
    requires w < 64 && x < 64 && y < 64 && z < 64
    ensures Bytes(w, x, y, z) == [a, b, c] && Group(a, b, c) == [ToChar(w), ToChar(x), ToChar(y), ToChar(z)]
  {
    BytesOfDigits(w, x, y, z);
    DigitsOfBytes(w, x, y, z);
    a, b, c := w * 4 + x / 16, x % 16 * 16 + y / 4, y % 4 * 64 + z;
    GroupIs(a, b, c, w, x, y, z);
  }

  lemma GroupIs(a: Octet, b: Octet, c: Octet, w: nat, x: nat, y: nat, z: nat)
    requires w < 64 && x < 64 && y < 64 && z < 64
    requires a / 4 == w && a % 4 * 16 + b / 16 == x && b % 16 * 4 + c / 64 == y && c % 64 == z
    ensures Group(a, b, c) == [ToChar(w), ToChar(x), ToChar(y), ToChar(z)]
  {
  }

  lemma FourAndRest(t: string)
    requires |t| >= 4
    ensures t == [t[0], t[1], t[2], t[3]] + t[4..]
  {
  }

  lemma DecodeCons(t: string, bytes: seq<Octet>)
    requires |t| >= 4 && bytes == Bytes(FromChar(t[0]), FromChar(t[1]), FromChar(t[2]), FromChar(t[3]))
    ensures Decode(t) == bytes + Decode(t[4..])
  {
    assert Drop(t, 4) == t[4..];
  }

  /** One group, decoded and encoded again. */
  lemma GroupAgain(t: string, bytes: seq<Octet>)
    requires |t| >= 4 && AllStandard(t) && Decode(t[4..]) == bytes
    ensures Encode(Decode(t)) == [t[0], t[1], t[2], t[3]] + Encode(bytes)
  {
    var a, b, c := GroupOfBytes(FromChar(t[0]), FromChar(t[1]), FromChar(t[2]), FromChar(t[3]));
    DecodeCons(t, [a, b, c]);
    EncodeCons(a, b, c, bytes);
  }

  /** The other way round: encoding what whole groups of digits were decoded to gives them back. */
  lemma {:induction false} EncodeDecode(t: string)
    requires AllStandard(t)
    ensures Encode(Decode(t)) == t
  {
    if |t| > 0 {
      EncodeDecode(t[4..]);
      GroupAgain(t, Decode(t[4..]));
      FourAndRest(t);
    }
  }

  /** Examples of section 10 of RFC 4648: "foobar", "fooba" and "foob". */
  lemma EncodeVectors()
    ensures Encode([0x66, 0x6f, 0x6f] + [0x62, 0x61, 0x72]) == "Zm9v" + "YmFy"
    ensures Encode([0x66, 0x6f, 0x6f] + [0x62, 0x61]) == "Zm9v" + "YmE="
    ensures Encode([0x66, 0x6f, 0x6f] + [0x62]) == "Zm9v" + "Yg=="
  {
    Groups();
    Tails(0x62, 0x61, 0x72);
    EncodeCons(0x66, 0x6f, 0x6f, [0x62, 0x61, 0x72]);
    EncodeCons(0x66, 0x6f, 0x6f, [0x62, 0x61]);
    EncodeCons(0x66, 0x6f, 0x6f, [0x62]);
  }
}
