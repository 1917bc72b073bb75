/** The block function and key stream of sections 2.1 to 2.4 of RFC 8439. */
module ChaCha20Spec {
  import opened ChaCha20Rounds
  import opened CounterStream
  import opened Words

  type State = s: seq<bv32> | |s| == 16 witness seq(16, _ => 0)

  // ROL32 for the four distances of the quarter round
  function Rol16(x: bv32): bv32 { (x << 16) | (x >> 16) }

  function Rol12(x: bv32): bv32 { (x << 12) | (x >> 20) }

  function Rol8(x: bv32): bv32 { (x << 8) | (x >> 24) }

  function Rol7(x: bv32): bv32 { (x << 7) | (x >> 25) }

  lemma Rotations(x: bv32)
    ensures Rol16(x) == x.RotateLeft(16) && Rol12(x) == x.RotateLeft(12)
    ensures Rol8(x) == x.RotateLeft(8) && Rol7(x) == x.RotateLeft(7)
  {
  }

  /** 32-bit words: addition modulo 2^32. */
  const Ops := WordOps((x: bv32, y: bv32) => x + y, (x: bv32, y: bv32) => x ^ y, Rol16, Rol12, Rol8, Rol7)

  /** The block of a state, as words. */
  function Block(s: State, rounds: nat): State {
    BlockWords(Ops, s, rounds)
  }

  const SIGMA: seq<bv32> := [0x61707865, 0x3320646E, 0x79622D32, 0x6B206574]
  const TAU: seq<bv32> := [0x61707865, 0x3120646E, 0x79622D36, 0x6B206574]

  /** The words spell "expand 32-byte k" and "expand 16-byte k". */
  lemma ConstantsAreAscii()
    ensures SIGMA == Load([0x65, 0x78, 0x70, 0x61, 0x6e, 0x64, 0x20, 0x33, 0x32, 0x2d, 0x62, 0x79, 0x74, 0x65, 0x20, 0x6b])
    ensures TAU == Load([0x65, 0x78, 0x70, 0x61, 0x6e, 0x64, 0x20, 0x31, 0x36, 0x2d, 0x62, 0x79, 0x74, 0x65, 0x20, 0x6b])
  {
  }

  /** Words 0 to 11 for a key of 32 bytes, or of 16 bytes used twice. */
  function KeyWords(key: seq<bv8>): (ws: seq<bv32>)
    requires |key| == 16 || |key| == 32
    ensures |ws| == 12
  {
    if |key| == 16 then TAU + Load(key) + Load(key) else SIGMA + Load(key)
  }

  /** Words 12 to 15: a zero counter of one word before a 12-byte nonce, of two before an 8-byte one. */
  function IvWords(iv: seq<bv8>): (ws: seq<bv32>)
    requires |iv| == 8 || |iv| == 12
    ensures |ws| == 4
  {
    (if |iv| == 8 then [0, 0] else [0]) + Load(iv)
  }

  /** The state of the next block: word 12 counts, its overflow goes to word 13. */
  function Next(s: State): State {
    if s[12] + 1 == 0 then s[12 := 0][13 := s[13] + 1] else s[12 := s[12] + 1]
  }

  /** Words 12 and 13 as one number. */
  function Counter(s: State): nat {
    Value(s[12]) + 0x1_0000_0000 * Value(s[13])
  }

  /** RFC 8439 section 2.1.1. */
  lemma QuarterRoundVector()
    ensures QuarterRound(Ops, 0x11111111, 0x01020304, 0x9b8d6f43, 0x01234567)
         == (0xea2a92f4, 0xcb1cf8ce, 0x4581472e, 0x5881c4bb)
  {
  }

  /** The two words count blocks modulo 2^64: word 13 takes the carry. */
  lemma CounterNext(s: State)
    ensures Counter(Next(s)) == (Counter(s) + 1) % 0x1_0000_0000_0000_0000
  {
    ValueNext(s[12], s[12] + 1);
    ValueNext(s[13], s[13] + 1);
    CountStep(Value(s[12]), Value(s[13]), Value(Next(s)[12]), Value(Next(s)[13]));
  }

  lemma CountStep(low: nat, high: nat, low': nat, high': nat)
    requires low < 0x1_0000_0000 && high < 0x1_0000_0000
    requires if low == 0xFFFF_FFFF then low' == 0 && high' == (if high == 0xFFFF_FFFF then 0 else high + 1)
             else low' == low + 1 && high' == high
    ensures low' + 0x1_0000_0000 * high' == (low + 0x1_0000_0000 * high + 1) % 0x1_0000_0000_0000_0000
  {
  }

  lemma CounterBound(s: State)
    ensures Counter(s) < 0x1_0000_0000_0000_0000
  {
    ValueBound(s[12]);
    ValueBound(s[13]);
  }

  /** Block `n` of a stream is the block of counter c + n. */
  lemma {:induction false} CounterLater(s: State, n: nat)
    ensures Counter(Later(Next, s, n)) == (Counter(s) + n) % 0x1_0000_0000_0000_0000
  {
    if n == 0 {
      CounterBound(s);
    } else {
      CounterLater(s, n - 1);
      CountOn(Counter(s), n, Later(Next, s, n - 1));
    }
  }

  lemma CountOn(c: nat, n: nat, s: State)
    requires n > 0 && Counter(s) == (c + (n - 1)) % 0x1_0000_0000_0000_0000
    ensures Counter(Next(s)) == (c + n) % 0x1_0000_0000_0000_0000
  {
    CounterNext(s);
    AddOne(c + (n - 1), Counter(s), Counter(Next(s)));
  }

  lemma AddOne(c: nat, x: nat, y: nat)
    requires x == c % 0x1_0000_0000_0000_0000 && y == (x + 1) % 0x1_0000_0000_0000_0000
    ensures y == (c + 1) % 0x1_0000_0000_0000_0000
  {
  }

  /** The words other than the counter never change. */
  lemma {:induction false} LaterKeeps(s: State, n: nat)
    ensures Later(Next, s, n)[..12] == s[..12] && Later(Next, s, n)[14..] == s[14..]
  {
    if n > 0 {
      LaterKeeps(s, n - 1);
      NextKeeps(Later(Next, s, n - 1));
    }
  }

  lemma NextKeeps(s: State)
    ensures Next(s)[..12] == s[..12] && Next(s)[14..] == s[14..]
  {
  }

  /** Until word 12 overflows, word 13 — part of a 12-byte nonce — keeps its value. */
  lemma {:induction false} NonceKept(s: State, n: nat)
    requires Value(s[12]) + n < 0x1_0000_0000
    ensures Value(Later(Next, s, n)[12]) == Value(s[12]) + n && Later(Next, s, n)[13..] == s[13..]
  {
    if n > 0 {
      NonceKept(s, n - 1);
      NextWithoutCarry(Later(Next, s, n - 1));
    }
  }

  lemma NextWithoutCarry(s: State)
    requires Value(s[12]) < 0xFFFF_FFFF
    ensures Value(Next(s)[12]) == Value(s[12]) + 1 && Next(s)[13..] == s[13..]
  {
    ValueNext(s[12], s[12] + 1);
  }
}
