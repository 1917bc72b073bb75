/** ChaCha20 and Poly1305 combined as in section 2.8 of RFC 8439. */
module Aead {
  import opened Options
  import opened ChaCha20Spec
  import opened ChaCha20Cipher
  import opened CounterStream
  import opened Poly1305Spec
  import Poly1305Mac
  import opened ByteStrings

  /** Zeros up to a multiple of 16. */
  function Padding(n: nat): (k: nat)
    ensures k < 16 && (n + k) % 16 == 0
  {
    if n % 16 == 0 then 0 else 16 - n % 16
  }

  /** What the authenticator is computed over. */
  function MacInput(aad: seq<bv8>, text: seq<bv8>): seq<bv8> {
    aad + Zeros(Padding(|aad|)) + text + Zeros(Padding(|text|)) + LeBytes(|aad|, 8) + LeBytes(|text|, 8)
  }

  /** The least multiple of 16 that is not below `n`. */
  function RoundUp(n: nat): (k: nat)
    ensures n <= k < n + 16 && k % 16 == 0
  {
    (n + 15) / 16 * 16
  }

  predicate ZerosIn(m: seq<bv8>, i: nat, j: nat)
    requires j <= |m|
  {
    forall k :: i <= k < j ==> m[k] == 0
  }

  /** Section 2.8 of RFC 8439, by position: two parts that begin at multiples of 16, zeros between them, and two lengths. */
  predicate MacLayout(m: seq<bv8>, aad: seq<bv8>, text: seq<bv8>) {
    var k := RoundUp(|aad|);
    var e := k + RoundUp(|text|);
    && |m| == e + 16
    && m[..|aad|] == aad && ZerosIn(m, |aad|, k)
    && m[k..k + |text|] == text && ZerosIn(m, k + |text|, e)
    && LeNum(m[e..e + 8]) == |aad| % 0x1_00000000_00000000
    && LeNum(m[e + 8..]) == |text| % 0x1_00000000_00000000
  }

  lemma PaddingRoundsUp(n: nat)
    ensures n + Padding(n) == RoundUp(n)
  {
  }

  /** A part and its padding. */
  lemma Padded(s: seq<bv8>, n: nat, p: seq<bv8>)
    requires p == s + Zeros(n)
    ensures |p| == |s| + n && p[..|s|] == s && ZerosIn(p, |s|, |p|)
  {
    forall i | |s| <= i < |p|
      ensures p[i] == 0
    {
      ZerosAt(n, i - |s|);
    }
  }

  lemma FourParts(p: seq<bv8>, q: seq<bv8>, a: seq<bv8>, b: seq<bv8>, m: seq<bv8>)
    requires m == p + q + a + b && |a| == |b| == 8
    ensures |m| == |p| + |q| + 16 && m[..|p|] == p && m[|p|..|p| + |q|] == q
    ensures m[|p| + |q|..|p| + |q| + 8] == a && m[|p| + |q| + 8..] == b
  {
  }

  lemma MacInputLayout(aad: seq<bv8>, text: seq<bv8>)
    ensures MacLayout(MacInput(aad, text), aad, text)
  {
    var n := 8;
    var p, q := aad + Zeros(Padding(|aad|)), text + Zeros(Padding(|text|));
    var m, k := MacInput(aad, text), |p|;
    assert m == p + q + LeBytes(|aad|, n) + LeBytes(|text|, n);
    FourParts(p, q, LeBytes(|aad|, n), LeBytes(|text|, n), m);
    Padded(aad, Padding(|aad|), p);
    Padded(text, Padding(|text|), q);
    PaddingRoundsUp(|aad|);
    PaddingRoundsUp(|text|);
    Low64(|aad|, LeBytes(|aad|, n), n);
    Low64(|text|, LeBytes(|text|, n), n);
    PartOf(m, p, 0, |aad|);
    PartOf(m, q, k, |text|);
  }

  /** Where a padded part is in `m`, the part and its zeros are. */
  lemma PartOf(m: seq<bv8>, p: seq<bv8>, k: nat, n: nat)
    requires k + |p| <= |m| && m[k..k + |p|] == p && n <= |p| && ZerosIn(p, n, |p|)
    ensures m[k..k + n] == p[..n] && ZerosIn(m, k + n, k + |p|)
  {
    forall i | k + n <= i < k + |p|
      ensures m[i] == 0
    {
      assert m[i] == m[k..k + |p|][i - k];
    }
    assert m[k..k + n] == m[k..k + |p|][..n];
  }

  lemma SmallRemainder(n: nat)
    requires n < 0x1_00000000_00000000
    ensures n % 0x1_00000000_00000000 == n
  {
  }

  /** Different data or text below 2^64 bytes are authenticated differently: the lengths tell where the parts end. */
  lemma MacInputInjective(aad: seq<bv8>, text: seq<bv8>, aad': seq<bv8>, text': seq<bv8>)
    requires |aad| < 0x1_00000000_00000000 && |text| < 0x1_00000000_00000000
    requires |aad'| < 0x1_00000000_00000000 && |text'| < 0x1_00000000_00000000
    requires MacInput(aad, text) == MacInput(aad', text')
    ensures aad == aad' && text == text'
  {
    var m := MacInput(aad, text);
    MacInputLayout(aad, text);
    MacInputLayout(aad', text');
    LayoutsAgree(m, aad, text, aad', text');
  }

  lemma LayoutsAgree(m: seq<bv8>, aad: seq<bv8>, text: seq<bv8>, aad': seq<bv8>, text': seq<bv8>)
    requires |aad| < 0x1_00000000_00000000 && |text| < 0x1_00000000_00000000
    requires |aad'| < 0x1_00000000_00000000 && |text'| < 0x1_00000000_00000000
    requires MacLayout(m, aad, text) && MacLayout(m, aad', text')
    ensures aad == aad' && text == text'
  {
    SmallRemainder(|aad|);
    SmallRemainder(|text|);
    SmallRemainder(|aad'|);
    SmallRemainder(|text'|);
    assert |m| - 16 == RoundUp(|aad|) + RoundUp(|text|) == RoundUp(|aad'|) + RoundUp(|text'|);
  }

  /** The first 32 key bytes make the one-time key of the authenticator. */
  function OneTimeKey(m: Engine, c: Cipher): (key: seq<bv8>)
    ensures |key| == 32
  {
    CryptBytes(m, c, None, 32)
  }

  /** The text is encrypted from byte 64 on. */
  function Body(m: Engine, c: Cipher, text: seq<bv8>): (s: seq<bv8>)
    ensures |s| == |text|
  {
    CryptBytes(m, Ahead(m, c, 64), Some(text), |text|)
  }

  /** The authenticator of an encrypted text. */
  function MacOf(m: Engine, c: Cipher, aad: seq<bv8>, sealed: seq<bv8>): (tag: seq<bv8>)
    ensures |tag| == 16
  {
    Tag(OneTimeKey(m, c), MacInput(aad, sealed))
  }

  /** A tag is accepted when it is a non-empty prefix of the authenticator. */
  predicate Accepts(m: Engine, c: Cipher, aad: seq<bv8>, tag: seq<bv8>, sealed: seq<bv8>) {
    0 < |tag| <= 16 && tag == MacOf(m, c, aad, sealed)[..|tag|]
  }

  /** The layout leaves no byte open. */
  lemma LayoutUnique(m: seq<bv8>, m': seq<bv8>, aad: seq<bv8>, text: seq<bv8>)
    requires MacLayout(m, aad, text) && MacLayout(m', aad, text)
    ensures m == m'
  {
    var k := RoundUp(|aad|);
    var e := k + RoundUp(|text|);
    LeNumUnique(m[e..e + 8], m'[e..e + 8]);
    LeNumUnique(m[e + 8..], m'[e + 8..]);
    ZerosAgree(m, m', |aad|, k);
    ZerosAgree(m, m', k + |text|, e);
    SixParts(m, |aad|, k, k + |text|, e);
    SixParts(m', |aad|, k, k + |text|, e);
  }

  lemma ZerosAgree(m: seq<bv8>, m': seq<bv8>, i: nat, j: nat)
    requires i <= j <= |m| == |m'| && ZerosIn(m, i, j) && ZerosIn(m', i, j)
    ensures m[i..j] == m'[i..j]
  {
  }

  lemma SixParts(m: seq<bv8>, a: nat, k: nat, b: nat, e: nat)
    requires a <= k <= b <= e && e + 8 <= |m|
    ensures m == m[..a] + m[a..k] + m[k..b] + m[b..e] + m[e..e + 8] + m[e + 8..]
  {
  }

  /**
   The authenticator is the tag, as a number, of whatever has the layout of section 2.8 of RFC 8439, under the
   one-time key.
   */
  lemma MacIsTag(m: Engine, c: Cipher, aad: seq<bv8>, sealed: seq<bv8>, input: seq<bv8>)
    requires MacLayout(input, aad, sealed)
    ensures LeNum(MacOf(m, c, aad, sealed)) == TagNumber(KeyR(OneTimeKey(m, c)), KeyS(OneTimeKey(m, c)), input)
  {
    MacInputLayout(aad, sealed);
    LayoutUnique(input, MacInput(aad, sealed), aad, sealed);
    var key := OneTimeKey(m, c);
    TagValue(KeyR(key), KeyS(key), input, MacOf(m, c, aad, sealed));
  }

  /** Encrypting what was encrypted from the same state decrypts it. */
  lemma BodyTwice(m: Engine, rounds: nat, c: Cipher, text: seq<bv8>)
    requires Runs(m, rounds)
    ensures Body(m, c, Body(m, c, text)) == text
  {
    CryptTwice(m, rounds, Ahead(m, c, 64), text);
  }

  /** Objects at a block boundary differ in nothing but the state. */
  lemma SameState(m: Engine, m': Engine, rounds: nat, c: Cipher, d: Cipher, aad: seq<bv8>, text: seq<bv8>)
    requires Runs(m, rounds) && Runs(m', rounds)
    requires Unused(c.pos) == 0 && Unused(d.pos) == 0 && c.state == d.state
    ensures Body(m, c, text) == Body(m', d, text) && MacOf(m, c, aad, text) == MacOf(m', d, aad, text)
  {
    OnlyStateMatters(m, m', rounds, c, d, None, 32);
    OnlyStateMatters(m, m', rounds, c, d, None, 64);
    var e := Ahead(m, c, 64);
    assert Unused(e.pos) == 0;
    OnlyStateMatters(m, m', rounds, e, e, Some(text), |text|);
  }

  /**
   Sections 2.6 and 2.8 of RFC 8439, for a cipher at a block boundary: the one-time key is the first half of
   the current block, and the text is combined with the blocks after it.
   */
  lemma Layout(m: Engine, rounds: nat, c: Cipher, text: seq<bv8>)
    requires Runs(m, rounds) && Unused(c.pos) == 0
    ensures forall i :: 0 <= i < 32 ==> OneTimeKey(m, c)[i] == BlockByte(Block(c.state, rounds), i)
    ensures forall i :: 0 <= i < |text| ==>
              Body(m, c, text)[i]
              == text[i] ^ BlockByte(Block(Later<State>(Next, c.state, 1 + i / 64), rounds), i % 64)
  {
    forall i | 0 <= i < 32
      ensures OneTimeKey(m, c)[i] == BlockByte(Block(c.state, rounds), i)
    {
      KeyLayout(m, rounds, c, i);
    }
    forall i | 0 <= i < |text|
      ensures Body(m, c, text)[i]
           == text[i] ^ BlockByte(Block(Later<State>(Next, c.state, 1 + i / 64), rounds), i % 64)
    {
      BodyLayout(m, rounds, c, text, i);
    }
  }

  lemma KeyLayout(m: Engine, rounds: nat, c: Cipher, i: nat)
    requires Runs(m, rounds) && Unused(c.pos) == 0 && i < 32
    ensures OneTimeKey(m, c)[i] == BlockByte(Block(c.state, rounds), i)
  {
    StreamByte(m, rounds, c, None, 32, i);
    BoundaryFirst(rounds, c.state, i);
  }

  lemma BodyLayout(m: Engine, rounds: nat, c: Cipher, text: seq<bv8>, i: nat)
    requires Runs(m, rounds) && Unused(c.pos) == 0 && i < |text|
    ensures Body(m, c, text)[i]
         == text[i] ^ BlockByte(Block(Later<State>(Next, c.state, 1 + i / 64), rounds), i % 64)
  {
    SecondBlock(m, rounds, c);
    StreamByte(m, rounds, Ahead(m, c, 64), Some(text), |text|, i);
    LaterSum<State>(Next, c.state, 1, i / 64);
  }

  lemma SecondBlock(m: Engine, rounds: nat, c: Cipher)
    requires Runs(m, rounds) && Unused(c.pos) == 0
    ensures Unused(Ahead(m, c, 64).pos) == 0 && Ahead(m, c, 64).state == Later<State>(Next, c.state, 1)
  {
    LaterSame(m, rounds, c.state, 1);
    BlocksAreQuotient(63);
  }

  /**
   Two ciphers at a block boundary in the same state: what one seals the other opens, and a tag is accepted
   exactly when it is a non-empty prefix of the one computed when sealing.
   */
  lemma SealThenOpen(m: Engine, m': Engine, rounds: nat, c: Cipher, d: Cipher,
                     aad: seq<bv8>, plain: seq<bv8>, tag: seq<bv8>)
    requires Runs(m, rounds) && Runs(m', rounds)
    requires Unused(c.pos) == 0 && Unused(d.pos) == 0 && c.state == d.state
    ensures Body(m', d, Body(m, c, plain)) == plain
    ensures Accepts(m', d, aad, tag, Body(m, c, plain))
       <==> 0 < |tag| <= 16 && tag == MacOf(m, c, aad, Body(m, c, plain))[..|tag|]
  {
    SameState(m, m', rounds, c, d, aad, Body(m, c, plain));
    BodyTwice(m, rounds, c, plain);
  }

  /** All differences of two lists of bytes, in one byte. */
  function MaskOf(mac: seq<bv8>, tag: seq<bv8>, n: nat): bv8
    requires n <= |tag| && n <= |mac|
  {
    if n == 0 then 0 else MaskOf(mac, tag, n - 1) | (mac[n - 1] ^ tag[n - 1])
  }

  lemma {:induction false} MaskIsZero(mac: seq<bv8>, tag: seq<bv8>, n: nat)
    requires n <= |tag| && n <= |mac|
    ensures MaskOf(mac, tag, n) == 0 <==> mac[..n] == tag[..n]
  {
    if n > 0 {
      MaskIsZero(mac, tag, n - 1);
      OrIsZero(MaskOf(mac, tag, n - 1), mac[n - 1], tag[n - 1]);
      assert mac[..n] == mac[..n - 1] + [mac[n - 1]] && tag[..n] == tag[..n - 1] + [tag[n - 1]];
      assert mac[..n] == tag[..n] ==> mac[..n][n - 1] == tag[..n][n - 1] && mac[..n][..n - 1] == tag[..n][..n - 1];
    }
  }

  lemma OrIsZero(m: bv8, x: bv8, y: bv8)
    ensures m | (x ^ y) == 0 <==> m == 0 && x == y
  {
  }

  /** STORE64LE: the eight low bytes of a number, lowest first. */
  method StoreLength(temp: array<bv8>, n: nat)
    requires temp.Length >= 8
    modifies temp
    ensures temp[..8] == LeBytes(n, 8)
  {
    var x := n;
    for i := 0 to 8
      invariant temp[..i] + LeBytes(x, 8 - i) == LeBytes(n, 8)
    {
      temp[i] := (x % 256) as bv8;
      x := x / 256;
    }
  }

  /** Twice 32 bytes are one block. */
  lemma KeyThenRest(m: Engine, c: Cipher, d: Cipher)
    requires d == Ahead(m, c, 32)
    ensures Ahead(m, d, 32) == Ahead(m, c, 64)
  {
    CryptMore(m, c, d, None, 32, 32, 64);
  }

  class ChaCha20Poly1305 {
    const cipher: ChaCha20
    const mac: Poly1305Mac.Poly1305
    var aad: seq<bv8>
    var tag: seq<bv8>

    /** The storage of the object: two parts that have nothing in common. */
    ghost predicate Shape() {
      && cipher.Shape() && mac.Shape()
      && cipher.Repr() !! mac.Repr() && this !in cipher.Repr() && this !in mac.Repr()
    }

    ghost predicate Valid()
      reads cipher`rounds, cipher`engine
    {
      Shape() && cipher.Valid()
    }

    constructor ()
      ensures Valid() && fresh(cipher.Repr()) && fresh(mac.Repr()) && aad == [] && tag == [] && cipher.pos == 0 && cipher.rounds == 20
    {
      cipher := new ChaCha20();
      mac := new Poly1305Mac.Poly1305();
      aad, tag := [], [];
      new;
      var ok := cipher.SetRounds(20);
    }

    method SetKey(key: seq<bv8>) returns (ok: bool)
      requires Valid()
      modifies cipher.state
      ensures ok == (|key| == 16 || |key| == 32)
      ensures cipher.state[..] == if ok then KeyWords(key) + old(cipher.state[12..]) else old(cipher.state[..])
    {
      ok := cipher.SetKey(key);
    }

    method SetIv(iv: seq<bv8>) returns (ok: bool)
      requires Valid()
      modifies cipher.state
      ensures ok == (|iv| == 8 || |iv| == 12)
      ensures cipher.state[..] == if ok then old(cipher.state[..12]) + IvWords(iv) else old(cipher.state[..])
    {
      ok := cipher.SetIv(iv);
    }

    method SetAad(data: seq<bv8>)
      modifies `aad
      ensures aad == data
    {
      aad := data;
    }

    method SetTag(data: seq<bv8>)
      modifies `tag
      ensures tag == data
    {
      tag := data;
    }

    method GetTag() returns (data: seq<bv8>)
      requires Shape()
      ensures data == mac.digest[..]
    {
      data := mac.digest[..];
    }

    /** memset(temp, 0, n) and an update with it. */
    method UpdateZeros(temp: array<bv8>, n: nat)
      requires mac.Valid() && temp !in mac.Repr() && n <= temp.Length
      modifies mac, mac.a, mac.buffer, temp
      ensures mac.Valid() && mac.k == old(mac.k) && mac.addend == old(mac.addend)
      ensures mac.fed == old(mac.fed) + Zeros(n)
    {
      for i := 0 to n
        invariant temp[..i] == Zeros(i)
        invariant mac.fed == old(mac.fed) && mac.k == old(mac.k) && mac.addend == old(mac.addend) && mac.Valid()
      {
        temp[i] := 0;
      }
      mac.Update(temp[..n]);
    }

    /** STORE64LE(n, temp) and an update with it. */
    method UpdateLength(temp: array<bv8>, n: nat)
      requires mac.Valid() && temp !in mac.Repr() && temp.Length >= 8
      modifies mac, mac.a, mac.buffer, temp
      ensures mac.Valid() && mac.k == old(mac.k) && mac.addend == old(mac.addend)
      ensures mac.fed == old(mac.fed) + LeBytes(n, 8)
    {
      StoreLength(temp, n);
      mac.Update(temp[..8]);
    }

    /** An update with `s` and one with its padding. */
    method UpdatePadded(temp: array<bv8>, s: seq<bv8>)
      requires mac.Valid() && temp !in mac.Repr() && temp.Length >= 16
      modifies mac, mac.a, mac.buffer, temp
      ensures mac.Valid() && mac.k == old(mac.k) && mac.addend == old(mac.addend)
      ensures mac.fed == old(mac.fed) + s + Zeros(Padding(|s|))
    {
      mac.Update(s);
      UpdateZeros(temp, Padding(|s|));
    }

    /** The updates after the key is set; `temp` is scratch. */
    method UpdateAll(temp: array<bv8>, text: seq<bv8>)
      requires mac.Valid() && mac.fed == [] && temp !in mac.Repr() && temp.Length == 32
      modifies mac, mac.a, mac.buffer, temp
      ensures mac.Valid() && mac.k == old(mac.k) && mac.addend == old(mac.addend)
      ensures mac.fed == MacInput(aad, text) && MacLayout(mac.fed, aad, text)
    {
      MacInputLayout(aad, text);
      UpdateTexts(temp, text);
      UpdateLength(temp, |aad|);
      UpdateLength(temp, |text|);
    }

    /** The associated data and the text, each with its padding. */
    method UpdateTexts(temp: array<bv8>, text: seq<bv8>)
      requires mac.Valid() && mac.fed == [] && temp !in mac.Repr() && temp.Length == 32
      modifies mac, mac.a, mac.buffer, temp
      ensures mac.Valid() && mac.k == old(mac.k) && mac.addend == old(mac.addend)
      ensures mac.fed == aad + Zeros(Padding(|aad|)) + text + Zeros(Padding(|text|))
    {
      UpdatePadded(temp, aad);
      assert [] + aad == aad;
      UpdatePadded(temp, text);
    }

    /** The tag of a text and the associated data under the key in `temp`. */
    method Authenticate(temp: array<bv8>, ghost key: seq<bv8>, text: seq<bv8>)
      requires mac.Shape() && temp !in mac.Repr() && temp.Length == 32 == |key| && temp[..] == key
      modifies mac, mac.Repr(), temp
      ensures mac.Shape() && mac.digest[..] == Tag(key, MacInput(aad, text))
    {
      assert temp[..][..32] == key;
      mac.SetKey(temp[..]);
      UpdateAll(temp, text);
      mac.Complete();
    }

    /** Writes the one-time key, and skips the rest of the first block. */
    method TakeKey() returns (temp: array<bv8>, ghost key: seq<bv8>)
      requires Valid()
      modifies cipher`pos, cipher.state, cipher.block
      ensures cipher.Abs() == Ahead(cipher.engine, old(cipher.Abs()), 64)
      ensures fresh(temp) && temp !in mac.Repr() && temp.Length == 32
      ensures temp[..] == key == OneTimeKey(cipher.engine, old(cipher.Abs()))
    {
      temp := new bv8[32];
      assert temp !in mac.Repr();
      ghost var start := cipher.Abs();
      key := OneTimeKey(cipher.engine, start);
      cipher.Crypt(null, 32, temp);
      assert temp[..] == key;
      KeyThenRest(cipher.engine, start, cipher.Abs());
      cipher.Crypt(null, 32, null);
    }

    /** The text in `input` goes encrypted, or decrypted, to `output`. */
    method Transcribe(input: array<bv8>, size: nat, output: array<bv8>, ghost start: Cipher)
      requires Valid() && cipher.Abs() == Ahead(cipher.engine, start, 64)
      requires size <= input.Length && size <= output.Length
      modifies cipher`pos, cipher.state, cipher.block, output
      ensures cipher.Abs() == Ahead(cipher.engine, start, 64 + size)
      ensures output[..] == Body(cipher.engine, start, old(input[..size])) + old(output[size..])
    {
      ghost var here := cipher.Abs();
      CryptPrefix(cipher.engine, here, input[..], size);
      CryptMore(cipher.engine, start, here, None, 64, size, 64 + size);
      cipher.Crypt(input, size, output);
    }

    method Encrypt(input: array<bv8>, size: nat, output: array<bv8>)
      requires Valid() && size <= input.Length && size <= output.Length
      requires input !in mac.Repr() && output !in mac.Repr()
      modifies cipher`pos, cipher.state, cipher.block, mac, mac.Repr(), output
      ensures cipher.Abs() == Ahead(cipher.engine, old(cipher.Abs()), 64 + size)
      ensures output[..] == Body(cipher.engine, old(cipher.Abs()), old(input[..size])) + old(output[size..])
      ensures mac.digest[..] == MacOf(cipher.engine, old(cipher.Abs()), aad, output[..size])
    {
      ghost var start := cipher.Abs();
      var temp, key := TakeKey();
      Transcribe(input, size, output, start);
      Authenticate(temp, key, output[..size]);
    }

    /** Compares without stopping early. */
    method TagMatches() returns (ok: bool)
      requires mac.Shape() && |tag| <= 16
      ensures ok <==> tag == mac.digest[..|tag|]
    {
      var mask: bv8 := 0;
      for i := 0 to |tag|
        invariant mask == MaskOf(mac.digest[..], tag, i)
      {
        mask := mask | (mac.digest[i] ^ tag[i]);
      }
      MaskIsZero(mac.digest[..], tag, |tag|);
      assert mac.digest[..][..|tag|] == mac.digest[..|tag|] && tag[..|tag|] == tag;
      ok := mask == 0;
    }

    /** Decrypts in any case; without a tag to compare with, nothing is done. */
    method Decrypt(input: array<bv8>, size: nat, output: array<bv8>) returns (ok: bool)
      requires Valid() && size <= input.Length && size <= output.Length && |tag| <= 16
      requires input !in mac.Repr() && output !in mac.Repr()
      modifies cipher`pos, cipher.state, cipher.block, mac, mac.Repr(), output
      ensures ok == Accepts(cipher.engine, old(cipher.Abs()), aad, tag, old(input[..size]))
      ensures tag == [] ==> cipher.Abs() == old(cipher.Abs()) && output[..] == old(output[..])
      ensures tag != [] ==> cipher.Abs() == Ahead(cipher.engine, old(cipher.Abs()), 64 + size)
      ensures tag != [] ==> output[..] == Body(cipher.engine, old(cipher.Abs()), old(input[..size])) + old(output[size..])
    {
      if |tag| == 0 {
        return false;
      }
      ok := DecryptAndCompare(input, size, output);
    }

    /** The authenticator of the input, and the text, in this order. */
    method CheckAndTranscribe(temp: array<bv8>, ghost key: seq<bv8>, input: array<bv8>, size: nat, output: array<bv8>,
                              ghost start: Cipher)
      requires Valid() && cipher.Abs() == Ahead(cipher.engine, start, 64)
      requires size <= input.Length && size <= output.Length && output !in mac.Repr()
      requires temp !in mac.Repr() && temp != output && temp != input && temp.Length == 32 == |key| && temp[..] == key
      requires temp !in cipher.Repr() && input !in mac.Repr()
      modifies cipher`pos, cipher.state, cipher.block, mac, mac.Repr(), temp, output
      ensures mac.digest[..] == Tag(key, MacInput(aad, old(input[..size])))
      ensures cipher.Abs() == Ahead(cipher.engine, start, 64 + size)
      ensures output[..] == Body(cipher.engine, start, old(input[..size])) + old(output[size..])
    {
      Authenticate(temp, key, input[..size]);
      Transcribe(input, size, output, start);
    }

    method DecryptAndCompare(input: array<bv8>, size: nat, output: array<bv8>) returns (ok: bool)
      requires Valid() && size <= input.Length && size <= output.Length && 0 < |tag| <= 16
      requires input !in mac.Repr() && output !in mac.Repr()
      modifies cipher`pos, cipher.state, cipher.block, mac, mac.Repr(), output
      ensures ok == Accepts(cipher.engine, old(cipher.Abs()), aad, tag, old(input[..size]))
      ensures cipher.Abs() == Ahead(cipher.engine, old(cipher.Abs()), 64 + size)
      ensures output[..] == Body(cipher.engine, old(cipher.Abs()), old(input[..size])) + old(output[size..])
    {
      ghost var start := cipher.Abs();
      var temp, key := TakeKey();
      CheckAndTranscribe(temp, key, input, size, output, start);
      ok := TagMatches();
    }
  }

  /** A fresh object with a key, a nonce and associated data. */
  method Prepared(key: seq<bv8>, iv: seq<bv8>, aad: seq<bv8>) returns (o: ChaCha20Poly1305)
    requires |key| in {16, 32} && |iv| in {8, 12}
    ensures fresh(o) && fresh(o.cipher.Repr()) && fresh(o.mac.Repr()) && o.Valid() && o.cipher.rounds == 20
    ensures o.cipher.pos == 0 && o.cipher.state[..] == KeyWords(key) + IvWords(iv) && o.aad == aad && o.tag == []
  {
    o := new ChaCha20Poly1305();
    var keyOk := o.SetKey(key);
    var ivOk := o.SetIv(iv);
    o.SetAad(aad);
  }

  lemma Whole(s: seq<bv8>, t: seq<bv8>)
    ensures s[..|s|] == s && t + [] == t
  {
  }

  /** Encrypts a whole array into another. */
  method Seal(o: ChaCha20Poly1305, plain: array<bv8>, sealed: array<bv8>) returns (tag: seq<bv8>)
    requires o.Valid() && plain !in o.mac.Repr() && sealed !in o.mac.Repr() && plain.Length == sealed.Length && plain != sealed
    modifies o.cipher`pos, o.cipher.state, o.cipher.block, o.mac, o.mac.Repr(), sealed
    ensures sealed[..] == Body(o.cipher.engine, old(o.cipher.Abs()), old(plain[..]))
    ensures tag == MacOf(o.cipher.engine, old(o.cipher.Abs()), o.aad, sealed[..])
  {
    Whole(plain[..], Body(o.cipher.engine, o.cipher.Abs(), plain[..]));
    o.Encrypt(plain, plain.Length, sealed);
    assert sealed[..sealed.Length] == sealed[..];
    tag := o.GetTag();
  }

  /** Decrypts a whole array into another, with a tag to compare. */
  method Open(o: ChaCha20Poly1305, sealed: array<bv8>, tag: seq<bv8>, plain: array<bv8>) returns (ok: bool)
    requires o.Valid() && plain !in o.mac.Repr() && sealed !in o.mac.Repr() && plain.Length == sealed.Length && plain != sealed
    requires 0 < |tag| <= 16
    modifies o, o.cipher`pos, o.cipher.state, o.cipher.block, o.mac, o.mac.Repr(), plain
    ensures plain[..] == Body(o.cipher.engine, old(o.cipher.Abs()), old(sealed[..]))
    ensures ok == Accepts(o.cipher.engine, old(o.cipher.Abs()), old(o.aad), tag, old(sealed[..]))
  {
    o.SetTag(tag);
    Whole(sealed[..], Body(o.cipher.engine, o.cipher.Abs(), sealed[..]));
    ok := o.Decrypt(sealed, sealed.Length, plain);
  }

  /** What was sealed in the state of `c` opens in the same state. */
  lemma Opens(m: Engine, m': Engine, rounds: nat, c: Cipher, d: Cipher,
              aad: seq<bv8>, first: seq<bv8>, sealed: seq<bv8>, tag: seq<bv8>)
    requires Runs(m, rounds) && Runs(m', rounds)
    requires Unused(c.pos) == 0 && Unused(d.pos) == 0 && c.state == d.state
    requires sealed == Body(m, c, first) && 0 < |tag| <= 16 && tag == MacOf(m, c, aad, sealed)[..|tag|]
    ensures Body(m', d, sealed) == first && Accepts(m', d, aad, tag, sealed)
  {
    SealThenOpen(m, m', rounds, c, d, aad, first, tag);
  }

  /** The receiving side: `m` and `c` are the sender's cipher when it encrypted `first`. */
  method Receive(receiver: ChaCha20Poly1305, sealed: array<bv8>, tag: seq<bv8>, plain: array<bv8>,
                 ghost m: Engine, ghost c: Cipher, ghost first: seq<bv8>) returns (ok: bool)
    requires receiver.Valid() && Runs(m, receiver.cipher.rounds)
    requires plain !in receiver.mac.Repr() && sealed !in receiver.mac.Repr() && plain.Length == sealed.Length && plain != sealed
    requires Unused(c.pos) == 0 && Unused(receiver.cipher.pos) == 0 && c.state == receiver.cipher.state[..]
    requires sealed[..] == Body(m, c, first) && 0 < |tag| <= 16
    requires tag == MacOf(m, c, receiver.aad, sealed[..])[..|tag|]
    modifies receiver, receiver.cipher`pos, receiver.cipher.state, receiver.cipher.block, receiver.mac, receiver.mac.Repr(), plain
    ensures ok && plain[..] == first
  {
    Opens(m, receiver.cipher.engine, receiver.cipher.rounds, c, receiver.cipher.Abs(), receiver.aad, first, sealed[..], tag);
    ok := Open(receiver, sealed, tag, plain);
  }

  /** Two objects at a block boundary, with equal state and associated data: what one encrypts the other decrypts. */
  method Exchange(sender: ChaCha20Poly1305, receiver: ChaCha20Poly1305,
                  text: array<bv8>, sealed: array<bv8>, plain: array<bv8>, tagSize: nat) returns (ok: bool)
    requires sender.Valid() && receiver.Valid() && sender.cipher.rounds == receiver.cipher.rounds
    requires {sender} + sender.cipher.Repr() + sender.mac.Repr() !! {receiver} + receiver.cipher.Repr() + receiver.mac.Repr()
    requires {text, sealed, plain} !! sender.mac.Repr() + receiver.mac.Repr() && text != sealed && sealed != plain
    requires text.Length == sealed.Length == plain.Length && 0 < tagSize <= 16
    requires Unused(sender.cipher.pos) == 0 && Unused(receiver.cipher.pos) == 0
    requires sender.cipher.state[..] == receiver.cipher.state[..] && sender.aad == receiver.aad
    modifies sender.cipher`pos, sender.cipher.state, sender.cipher.block, sender.mac, sender.mac.Repr()
    modifies receiver, receiver.cipher`pos, receiver.cipher.state, receiver.cipher.block, receiver.mac, receiver.mac.Repr()
    modifies sealed, plain
    ensures ok && plain[..] == old(text[..])
  {
    ghost var m, c, first := sender.cipher.engine, sender.cipher.Abs(), text[..];
    var tag := Seal(sender, text, sealed);
    ok := Receive(receiver, sealed, tag[..tagSize], plain, m, c, first);
  }

  /** The same for new objects with equal key, nonce and associated data. */
  method ExchangeFresh(key: seq<bv8>, iv: seq<bv8>, aad: seq<bv8>, text: array<bv8>, tagSize: nat)
    returns (ok: bool, plain: array<bv8>)
    requires |key| in {16, 32} && |iv| in {8, 12} && 0 < tagSize <= 16
    ensures ok && plain[..] == text[..]
  {
    var sealed := new bv8[text.Length];
    plain := new bv8[text.Length];
    var sender := Prepared(key, iv, aad);
    var receiver := Prepared(key, iv, aad);
    ok := Exchange(sender, receiver, text, sealed, plain, tagSize);
  }
}
