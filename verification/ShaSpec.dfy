/** SHA-1 and SHA-256 on words of 32 bits: constants and functions of FIPS 180-4. */
module ShaSpec {
  import opened Words
  import opened WordMemory
  import opened BlockHash
  import Sha1Rounds
  import Sha2Rounds

  datatype Algorithm = Sha1 | Sha256

  /** How many words a digest has. */
  function Count(alg: Algorithm): nat {
    if alg.Sha1? then 5 else 8
  }

  // ---------- the macros ----------

  function Rol1(x: bv32): bv32 { (x << 1) | (x >> 31) }

  function Rol5(x: bv32): bv32 { (x << 5) | (x >> 27) }

  function Rol30(x: bv32): bv32 { (x << 30) | (x >> 2) }

  function Ch(x: bv32, y: bv32, z: bv32): bv32 { (x & y) | (!x & z) }

  function Parity(x: bv32, y: bv32, z: bv32): bv32 { x ^ y ^ z }

  function Maj(x: bv32, y: bv32, z: bv32): bv32 { (x & y) | (x & z) | (y & z) }

  function Big0(x: bv32): bv32 { ((x >> 2) | (x << 30)) ^ ((x >> 13) | (x << 19)) ^ ((x >> 22) | (x << 10)) }

  function Big1(x: bv32): bv32 { ((x >> 6) | (x << 26)) ^ ((x >> 11) | (x << 21)) ^ ((x >> 25) | (x << 7)) }

  function Small0(x: bv32): bv32 { ((x >> 7) | (x << 25)) ^ ((x >> 18) | (x << 14)) ^ (x >> 3) }

  function Small1(x: bv32): bv32 { ((x >> 17) | (x << 15)) ^ ((x >> 19) | (x << 13)) ^ (x >> 10) }

  /** The functions as section 4.1 of FIPS 180-4 writes them. */
  lemma ChAndMaj(x: bv32, y: bv32, z: bv32)
    ensures Ch(x, y, z) == (x & y) ^ (!x & z)
    ensures Maj(x, y, z) == (x & y) ^ (x & z) ^ (y & z)
  {
  }

  /** Left and right rotations, for the distances that occur. */
  lemma Rotations(x: bv32)
    ensures Rol1(x) == x.RotateLeft(1) && Rol5(x) == x.RotateLeft(5) && Rol30(x) == x.RotateLeft(30)
    ensures Big0(x) == x.RotateRight(2) ^ x.RotateRight(13) ^ x.RotateRight(22)
    ensures Big1(x) == x.RotateRight(6) ^ x.RotateRight(11) ^ x.RotateRight(25)
    ensures Small0(x) == x.RotateRight(7) ^ x.RotateRight(18) ^ (x >> 3)
    ensures Small1(x) == x.RotateRight(17) ^ x.RotateRight(19) ^ (x >> 10)
  {
  }

  // ---------- constants ----------

  const K1: seq<bv32> := [0x5A827999, 0x6ED9EBA1, 0x8F1BBCDC, 0xCA62C1D6]

  const K256: seq<bv32> :=
    [0x428A2F98, 0x71374491, 0xB5C0FBCF, 0xE9B5DBA5, 0x3956C25B, 0x59F111F1, 0x923F82A4, 0xAB1C5ED5,
     0xD807AA98, 0x12835B01, 0x243185BE, 0x550C7DC3, 0x72BE5D74, 0x80DEB1FE, 0x9BDC06A7, 0xC19BF174]
    + [0xE49B69C1, 0xEFBE4786, 0x0FC19DC6, 0x240CA1CC, 0x2DE92C6F, 0x4A7484AA, 0x5CB0A9DC, 0x76F988DA,
       0x983E5152, 0xA831C66D, 0xB00327C8, 0xBF597FC7, 0xC6E00BF3, 0xD5A79147, 0x06CA6351, 0x14292967]
    + [0x27B70A85, 0x2E1B2138, 0x4D2C6DFC, 0x53380D13, 0x650A7354, 0x766A0ABB, 0x81C2C92E, 0x92722C85,
       0xA2BFE8A1, 0xA81A664B, 0xC24B8B70, 0xC76C51A3, 0xD192E819, 0xD6990624, 0xF40E3585, 0x106AA070]
    + [0x19A4C116, 0x1E376C08, 0x2748774C, 0x34B0BCB5, 0x391C0CB3, 0x4ED8AA4A, 0x5B9CCA4F, 0x682E6FF3,
       0x748F82EE, 0x78A5636F, 0x84C87814, 0x8CC70208, 0x90BEFFFA, 0xA4506CEB, 0xBEF9A3F7, 0xC67178F2]

  const INIT1: seq<bv32> := [0x67452301, 0xefcdab89, 0x98badcfe, 0x10325476, 0xc3d2e1f0]

  const INIT256: seq<bv32> := [0x6A09E667, 0xBB67AE85, 0x3C6EF372, 0xA54FF53A, 0x510E527F, 0x9B05688C, 0x1F83D9AB, 0x5BE0CD19]

  function Init(alg: Algorithm): (d: seq<bv32>)
    ensures |d| == Count(alg)
  {
    if alg.Sha1? then INIT1 else INIT256
  }

  // ---------- compression ----------

  function Ops1(): Sha1Rounds.Ops1<bv32> {
    Sha1Rounds.Ops1((x, y) => x + y, (x, y) => x ^ y, Rol1, Rol5, Rol30, Ch, Parity, Maj, t => if t < 4 then K1[t] else 0)
  }

  function Ops256(): Sha2Rounds.Ops2<bv32> {
    Sha2Rounds.Ops2((x, y) => x + y, Ch, Maj, Big0, Big1, Small0, Small1, t => if t < 64 then K256[t] else 0)
  }

  lemma AddCommutes()
    ensures Sha2Rounds.Commutes(Ops256())
  {
    forall x: bv32, y: bv32
      ensures Ops256().add(x, y) == Ops256().add(y, x)
    {
      Commute(x, y);
    }
  }

  lemma Commute(x: bv32, y: bv32)
    ensures x + y == y + x
  {
  }

  /** One block of 64 bytes, read as words with the highest byte first. */
  function CompressBlock(alg: Algorithm, d: seq<bv32>, block: seq<bv8>): (r: seq<bv32>)
    ensures |d| == Count(alg) ==> |r| == Count(alg)
  {
    if |d| != Count(alg) || |block| != 64 then d
    else if alg.Sha1? then Sha1Rounds.Compress(Ops1(), d, BigWords(block))
    else Sha2Rounds.Compress(Ops256(), d, BigWords(block))
  }

  function Compression(alg: Algorithm): Compressor<seq<bv32>> {
    (d, block) => CompressBlock(alg, d, block)
  }

  /** The words of a digest as bytes, highest byte first. */
  function DigestBytes(d: seq<bv32>): (s: seq<bv8>)
    ensures |s| == 4 * |d|
  {
    if |d| == 0 then [] else DigestBytes(d[..|d| - 1]) + WordBytes(Swap(d[|d| - 1]))
  }

  /** Sections 6.1 and 6.2 of FIPS 180-4. */
  function Hash(alg: Algorithm, m: seq<bv8>): seq<bv8> {
    HashFrom(alg, Init(alg), m, |m|)
  }

  /** What an object in any state makes of its bytes: `d` is what it compresses them into, `total` the length it has counted. */
  function HashFrom(alg: Algorithm, d: seq<bv32>, m: seq<bv8>, total: nat): seq<bv8> {
    DigestBytes(Blocks(Compression(alg), d, PadFor(m, total)))
  }
}
