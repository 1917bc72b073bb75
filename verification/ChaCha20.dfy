/** The ChaCha20 object: a resumable cipher over arrays of words. */
module ChaCha20Cipher {
  import opened Arith
  import opened Options
  import opened ChaCha20Rounds
  import opened ChaCha20Spec
  import opened CounterStream
  import opened Words

  type Cipher = Cursor<State, State>

  /** Byte `j` of a block. */
  function BlockByte(block: State, j: nat): bv8 {
    if j < 64 then GetByte(block[j / 4], j % 4) else 0
  }

  function Xor(x: bv8, y: bv8): bv8 {
    x ^ y
  }

  type Engine = Machine<State, State, bv8>

  /** The cipher of a number of rounds. */
  function Rounds(rounds: nat): Engine {
    Machine(Next, s => Block(s, rounds), BlockByte, Xor)
  }

  /** The same, for use where only the equations about particular states are wanted. */
  ghost predicate Runs(m: Engine, rounds: nat) {
    && (forall s: State {:trigger Next(s)} :: m.next(s) == Next(s))
    && (forall s: State {:trigger Block(s, rounds)} :: m.gen(s) == Block(s, rounds))
    && (forall b: State, j: nat {:trigger BlockByte(b, j)} :: m.at(b, j) == BlockByte(b, j))
    && (forall x: bv8, y: bv8 {:trigger Xor(x, y)} :: m.xor(x, y) == Xor(x, y))
  }

  /** The cipher after `n` bytes. */
  function Ahead(m: Engine, c: Cipher, n: nat): Cipher {
    After<State, State, bv8>(m, c, n)
  }

  /** `n` bytes of input, or of nothing, combined with the next `n` key bytes. */
  function CryptBytes(m: Engine, c: Cipher, input: Option<seq<bv8>>, n: nat): (r: seq<bv8>)
    requires input.Some? ==> n <= |input.value|
    ensures |r| == n
  {
    Combined<State, State, bv8>(m, c, input, n)
  }

  /** Two calls one after the other produce what one call produces, and leave the same cipher. */
  lemma CryptMore(m: Engine, start: Cipher, here: Cipher, text: Option<seq<bv8>>, i: nat, n: nat, next: nat)
    requires here == Ahead(m, start, i) && next == i + n
    requires text.Some? ==> next <= |text.value|
    ensures Ahead(m, here, n) == Ahead(m, start, next)
    ensures CryptBytes(m, start, text, next)
         == CryptBytes(m, start, text, i) + CryptBytes(m, here, Rest(text, i), n)
  {
    CombinedMore<State, State, bv8>(m, start, here, text, i, n, next);
  }

  lemma WrittenMore(m: Engine, start: Cipher, here: Cipher, text: Option<seq<bv8>>,
                    first: seq<bv8>, before: seq<bv8>, after: seq<bv8>, i: nat, n: nat, next: nat)
    requires here == Ahead(m, start, i) && next == i + n <= |first|
    requires text.Some? ==> next <= |text.value|
    requires before == CryptBytes(m, start, text, i) + first[i..]
    requires after == before[..i] + CryptBytes(m, here, Rest(text, i), n) + before[next..]
    ensures after == CryptBytes(m, start, text, next) + first[next..]
  {
    CryptMore(m, start, here, text, i, n, next);
    SeqSpliced(first, before, after, CryptBytes(m, start, text, i), CryptBytes(m, here, Rest(text, i), n));
  }

  /** Only the bytes that are read matter. */
  lemma CryptPrefix(m: Engine, c: Cipher, input: seq<bv8>, n: nat)
    requires n <= |input|
    ensures CryptBytes(m, c, Some(input), n) == CryptBytes(m, c, Some(input[..n]), n)
  {
    var key := KeyStream<State, State, bv8>(m, c);
    MaskedSame(m.xor, key, key, Some(input), Some(input[..n]), n);
  }

  /** A second object in the same state undoes the first. */
  lemma CryptTwice(m: Engine, rounds: nat, c: Cipher, input: seq<bv8>)
    requires Runs(m, rounds)
    ensures CryptBytes(m, c, Some(CryptBytes(m, c, Some(input), |input|)), |input|) == input
  {
    forall x: bv8, k: bv8
      ensures m.xor(m.xor(x, k), k) == x
    {
      XorTwice(x, k);
    }
    CombinedTwice<State, State, bv8>(m, c, input);
  }

  lemma XorTwice(x: bv8, k: bv8)
    ensures Xor(Xor(x, k), k) == x
  {
  }

  /** Key byte `i` from a block boundary: byte i % 64 of the block i / 64 states further on. */
  function BoundaryByte(rounds: nat, s: State, i: nat): bv8 {
    BlockByte(Block(Later<State>(Next, s, i / 64), rounds), i % 64)
  }

  lemma {:induction false} LaterSame(m: Engine, rounds: nat, s: State, n: nat)
    requires Runs(m, rounds)
    ensures Later<State>(m.next, s, n) == Later<State>(Next, s, n)
  {
    if n > 0 {
      LaterSame(m, rounds, s, n - 1);
    }
  }

  lemma KeyFromBoundary(m: Engine, rounds: nat, c: Cipher, i: nat)
    requires Runs(m, rounds)
    requires Unused(c.pos) == 0
    ensures KeyByte<State, State, bv8>(m, c, i) == BoundaryByte(rounds, c.state, i)
  {
    BlocksAreQuotient(i);
    LaterSame(m, rounds, c.state, i / 64);
    assert m.gen(Later<State>(Next, c.state, i / 64)) == Block(Later<State>(Next, c.state, i / 64), rounds);
  }

  /** From a block boundary, byte `i` is combined with byte i % 64 of block i / 64. */
  lemma StreamByte(m: Engine, rounds: nat, c: Cipher, input: Option<seq<bv8>>, n: nat, i: nat)
    requires Runs(m, rounds)
    requires Unused(c.pos) == 0 && i < n && (input.Some? ==> n <= |input.value|)
    ensures CryptBytes(m, c, input, n)[i]
         == if input.Some? then input.value[i] ^ BoundaryByte(rounds, c.state, i) else BoundaryByte(rounds, c.state, i)
  {
    CombinedAt<State, State, bv8>(m, c, input, n, i);
    KeyFromBoundary(m, rounds, c, i);
    if input.Some? {
      XorIs(m, rounds, input.value[i], BoundaryByte(rounds, c.state, i));
    }
  }

  lemma XorIs(m: Engine, rounds: nat, x: bv8, y: bv8)
    requires Runs(m, rounds)
    ensures m.xor(x, y) == x ^ y
  {
    assert m.xor(x, y) == Xor(x, y);
  }

  /** Four bytes of a block are one of its words, the lowest first. */
  lemma BlockWord(block: State, i: nat)
    requires i < 16
    ensures LittleEndian(BlockByte(block, 4 * i), BlockByte(block, 4 * i + 1), BlockByte(block, 4 * i + 2), BlockByte(block, 4 * i + 3))
         == block[i]
  {
    FourInWord(i);
    BytesMakeWord(block[i]);
  }

  lemma FourInWord(i: nat)
    ensures (4 * i) / 4 == (4 * i + 1) / 4 == (4 * i + 2) / 4 == (4 * i + 3) / 4 == i
    ensures (4 * i) % 4 == 0 && (4 * i + 1) % 4 == 1 && (4 * i + 2) % 4 == 2 && (4 * i + 3) % 4 == 3
  {
  }

  lemma BytesMakeWord(w: bv32)
    ensures LittleEndian(GetByte(w, 0), GetByte(w, 1), GetByte(w, 2), GetByte(w, 3)) == w
  {
  }

  /** The key stream from a block boundary, read as little-endian words, is the block of the state. */
  lemma StreamWords(m: Engine, rounds: nat, c: Cipher)
    requires Runs(m, rounds) && Unused(c.pos) == 0
    ensures Load(CryptBytes(m, c, None, 64)) == Block(c.state, rounds)
  {
    var s, b := CryptBytes(m, c, None, 64), Block(c.state, rounds);
    forall j | 0 <= j < 64
      ensures s[j] == BlockByte(b, j)
    {
      FirstBlockByte(m, rounds, c, j);
    }
    WordsOfBlock(s, b);
  }

  lemma BoundaryFirst(rounds: nat, s: State, i: nat)
    requires i < 64
    ensures BoundaryByte(rounds, s, i) == BlockByte(Block(s, rounds), i)
  {
    assert i / 64 == 0 && i % 64 == i && Later<State>(Next, s, 0) == s;
  }

  lemma FirstBlockByte(m: Engine, rounds: nat, c: Cipher, j: nat)
    requires Runs(m, rounds) && Unused(c.pos) == 0 && j < 64
    ensures CryptBytes(m, c, None, 64)[j] == BlockByte(Block(c.state, rounds), j)
  {
    StreamByte(m, rounds, c, None, 64, j);
    BoundaryFirst(rounds, c.state, j);
  }

  lemma WordsOfBlock(s: seq<bv8>, b: State)
    requires |s| == 64 && forall j :: 0 <= j < 64 ==> s[j] == BlockByte(b, j)
    ensures Load(s) == b
  {
    forall i | 0 <= i < 16
      ensures Load(s)[i] == b[i]
    {
      BlockWord(b, i);
    }
  }

  /** Block `n` is the one of counter c + n modulo 2^64: all other words of the state stay the same. */
  lemma BlockCounter(s: State, n: nat)
    ensures var t := Later<State>(Next, s, n);
            && Counter(t) == (Counter(s) + n) % 0x1_0000_0000_0000_0000
            && t[..12] == s[..12] && t[14..] == s[14..]
  {
    CounterLater(s, n);
    LaterKeeps(s, n);
  }

  /** Objects at a block boundary with the same number of rounds and the same state do the same. */
  lemma OnlyStateMatters(m: Engine, m': Engine, rounds: nat, c: Cipher, d: Cipher, input: Option<seq<bv8>>, n: nat)
    requires Runs(m, rounds) && Runs(m', rounds)
    requires Unused(c.pos) == 0 && Unused(d.pos) == 0 && c.state == d.state
    requires input.Some? ==> n <= |input.value|
    ensures CryptBytes(m, c, input, n) == CryptBytes(m', d, input, n)
    ensures n > 0 ==> Ahead(m, c, n) == Ahead(m', d, n)
  {
    forall i | 0 <= i < n
      ensures CryptBytes(m, c, input, n)[i] == CryptBytes(m', d, input, n)[i]
    {
      StreamByte(m, rounds, c, input, n, i);
      StreamByte(m', rounds, d, input, n, i);
    }
    if n > 0 {
      SameCursor(m, m', rounds, c, d, n);
    }
  }

  lemma SameCursor(m: Engine, m': Engine, rounds: nat, c: Cipher, d: Cipher, n: nat)
    requires Runs(m, rounds) && Runs(m', rounds)
    requires Unused(c.pos) == 0 && Unused(d.pos) == 0 && c.state == d.state && n > 0
    ensures Ahead(m, c, n) == Ahead(m', d, n)
  {
    var k := Moved(c.pos, n).0;
    StateAndBlock(m, rounds, c.state, k);
    StateAndBlock(m', rounds, c.state, k);
    assert Moved(d.pos, n).0 == k && Moved(d.pos, n).1 == Moved(c.pos, n).1;
  }

  lemma StateAndBlock(m: Engine, rounds: nat, s: State, k: nat)
    requires Runs(m, rounds) && k > 0
    ensures Later<State>(m.next, s, k) == Later<State>(Next, s, k)
    ensures m.gen(Later<State>(m.next, s, k - 1)) == Block(Later<State>(Next, s, k - 1), rounds)
  {
    LaterSame(m, rounds, s, k);
    LaterSame(m, rounds, s, k - 1);
  }

  /** Within one block the key bytes are the block's bytes from `pos` on. */
  lemma CryptWithinBlock(m: Engine, rounds: nat, c: Cipher, d: Cipher, input: Option<seq<bv8>>, n: nat)
    requires Runs(m, rounds)
    requires d == Refill<State, State, bv8>(m, c)
    requires 0 < n && d.pos + n <= 64 && (input.Some? ==> n <= |input.value|)
    ensures Ahead(m, c, n) == Cursor(d.pos + n, d.state, d.block)
    ensures CryptBytes(m, c, input, n) == Masked(Xor, BlockStream(d.block, d.pos), input, n)
  {
    CombinedWithinBlock<State, State, bv8>(m, c, BlockStream(d.block, d.pos), input, n);
  }

  /** The bytes of one block from `pos` on. */
  function BlockStream(block: State, pos: nat): nat -> bv8 {
    (i: nat) => BlockByte(block, pos + i)
  }

  /** A run of assignments w[i], w[i + 1], ... of the words `ws`. */
  method StoreWords<T>(w: array<T>, i: nat, ws: seq<T>)
    requires i + |ws| <= w.Length
    modifies w
    ensures w[..] == old(w[..i]) + ws + old(w[i + |ws|..])
  {
    for j := 0 to |ws|
      invariant forall k :: 0 <= k < j ==> w[i + k] == ws[k]
      invariant forall k :: 0 <= k < w.Length && !(i <= k < i + j) ==> w[k] == old(w[k])
    {
      w[i + j] := ws[j];
    }
  }

  /** output[i] = input[i] ^ key[i], or key[i] without input, for `n` bytes from `off` on. */
  method Combine<T>(xor: (T, T) -> T, key: nat -> T, input: array?<T>, output: array<T>, off: nat, n: nat)
    requires off + n <= output.Length && (input != null ==> off + n <= input.Length)
    modifies output
    ensures output[..] == old(output[..off])
                        + Masked(xor, key, if input == null then None else Some(old(input[off..])), n)
                        + old(output[off + n..])
  {
    ghost var text := if input == null then None else Some(input[off..]);
    ghost var bytes := [];
    for i := 0 to n
      invariant bytes == Masked(xor, key, text, i)
      invariant forall j :: 0 <= j < i ==> output[off + j] == bytes[j]
      invariant forall j :: 0 <= j < output.Length && !(off <= j < off + i) ==> output[j] == old(output[j])
      invariant input != null ==> forall j :: off + i <= j < input.Length ==> input[j] == old(input[j])
    {
      if input != null {
        assert input[off + i] == text.value[i];
        output[off + i] := xor(input[off + i], key(i));
      } else {
        output[off + i] := key(i);
      }
      bytes := bytes + [output[off + i]];
    }
  }

  class ChaCha20 {
    var rounds: nat
    ghost var engine: Engine
    var pos: nat
    const state: array<bv32>
    const block: array<bv32>

    /** The storage of the object. */
    ghost predicate Shape() {
      state.Length == 16 && block.Length == 16 && state != block
    }

    ghost predicate Valid()
      reads `rounds, `engine
    {
      Shape() && rounds in {8, 12, 20} && Runs(engine, rounds)
    }

    ghost function Repr(): set<object> {
      {this, state, block}
    }

    ghost function Abs(): Cipher
      reads this, state, block
      requires Shape()
    {
      Cursor(pos, state[..], block[..])
    }

    constructor ()
      ensures Valid() && rounds == 20 && pos == 0 && fresh(state) && fresh(block)
    {
      rounds, engine, pos := 20, Rounds(20), 0;
      state, block := new bv32[16], new bv32[16];
    }

    /** Accepts 8, 12 or 20 rounds; anything else is the source's exception. */
    method SetRounds(n: nat) returns (ok: bool)
      requires Valid()
      modifies `rounds, `engine
      ensures Valid() && ok == (n in {8, 12, 20}) && rounds == if ok then n else old(rounds)
    {
      ok := n == 8 || n == 12 || n == 20;
      if ok {
        rounds, engine := n, Rounds(n);
      }
    }

    /** Computes the block of the current state. */
    method Transform()
      requires Valid()
      modifies block
      ensures block[..] == Block(state[..], rounds)
    {
      ComputeBlock(Ops, state, block, rounds);
    }

    // state[12]++; if(state[12] == 0) state[13]++
    method Count()
      requires Valid()
      modifies state
      ensures state[..] == Next(old(state[..]))
    {
      state[12] := state[12] + 1;
      if state[12] == 0 {
        state[13] := state[13] + 1;
      }
    }

    /** A new block when the old one is used up; the counter words move on. */
    method NextBlock()
      requires Valid()
      modifies `pos, state, block
      ensures Abs() == Refill<State, State, bv8>(engine, old(Abs())) && pos < 64
    {
      if pos == 0 || pos >= 64 {
        Transform();
        Count();
        pos := 0;
      }
    }

    /** Combines `n` input bytes with the next bytes of the block; without input the block bytes are written. */
    method Apply(input: array?<bv8>, output: array<bv8>, off: nat, n: nat, ghost text: Option<seq<bv8>>, ghost next: nat)
      requires Valid() && pos + n <= 64 && next == off + n <= output.Length
      requires input != null ==> next <= input.Length
      requires text == if input == null then None else Some(input[off..])
      modifies output
      ensures output[..] == old(output[..off]) + Masked(Xor, BlockStream(block[..], pos), text, n) + old(output[next..])
      ensures output[next..] == old(output[next..])
    {
      ghost var was := output[..];
      Combine(Xor, BlockStream(block[..], pos), input, output, off, n);
      SeqRestStays(was, Masked(Xor, BlockStream(block[..], pos), text, n), output[..], off, next);
    }

    /** One turn of the loop: as many bytes as the current block still has, or as are left. */
    method Turn(input: array?<bv8>, size: nat, output: array?<bv8>, off: nat)
      returns (next: nat, ghost n: nat)
      requires Valid() && off < size
      requires input != null ==> size <= input.Length
      requires output != null ==> size <= output.Length
      modifies `pos, state, block, if output == null then {} else {output}
      ensures next == off + n && 0 < n <= size - off
      ensures Abs() == Ahead(engine, old(Abs()), n)
      ensures output != null ==>
                output[..] == old(output[..off])
                            + CryptBytes(engine, old(Abs()), if input == null then None else Some(old(input[off..])), n)
                            + old(output[next..])
      ensures input != null ==> input[next..] == old(input[next..])
    {
      ghost var here, text := Abs(), if input == null then None else Some(input[off..]);
      NextBlock();
      var length := if size - off < 64 - pos then size - off else 64 - pos;
      n, next := length, off + length;
      CryptWithinBlock(engine, rounds, here, Abs(), text, n);
      if output != null {
        Apply(input, output, off, length, text, next);
      }
      pos := pos + length;
    }

    /** The same, against the text and the output as they were at first. */
    method TurnFrom(input: array?<bv8>, size: nat, output: array?<bv8>, off: nat,
                    ghost text: Option<seq<bv8>>, ghost first: seq<bv8>, ghost start: Cipher)
      returns (next: nat)
      requires Valid() && off < size
      requires text.Some? == (input != null)
      requires input != null ==> size <= input.Length == |text.value| && input[off..] == text.value[off..]
      requires output != null ==> size <= output.Length == |first|
      requires output != null ==> output[..] == CryptBytes(engine, start, text, off) + first[off..]
      requires Abs() == Ahead(engine, start, off)
      modifies `pos, state, block, if output == null then {} else {output}
      ensures off < next <= size
      ensures Abs() == Ahead(engine, start, next)
      ensures input != null ==> input[next..] == text.value[next..]
      ensures output != null ==> output[..] == CryptBytes(engine, start, text, next) + first[next..]
    {
      assert Rest(text, off) == if input == null then None else Some(input[off..]);
      ghost var here, before := Abs(), if output == null then [] else output[..];
      ghost var unread := if input == null then [] else input[..];
      ghost var n;
      next, n := Turn(input, size, output, off);
      CryptMore(engine, start, here, text, off, n, next);
      if output != null {
        WrittenMore(engine, start, here, text, first, before, output[..], off, n, next);
      }
      if input != null {
        SeqSuffix(unread, text.value, off, next);
      }
    }

    /** Key stream for `size` bytes: XORed with the input, written without input, skipped without output. */
    method Crypt(input: array?<bv8>, size: nat, output: array?<bv8>)
      requires Valid()
      requires input != null ==> size <= input.Length
      requires output != null ==> size <= output.Length
      modifies `pos, state, block, if output == null then {} else {output}
      ensures Abs() == Ahead(engine, old(Abs()), size)
      ensures output != null ==>
                output[..] == CryptBytes(engine, old(Abs()), if input == null then None else Some(old(input[..])), size)
                            + old(output[size..])
    {
      ghost var start, text := Abs(), if input == null then None else Some(input[..]);
      ghost var first := if output == null then [] else output[..];
      var off := 0;
      assert output != null ==> output[..] == CryptBytes(engine, start, text, 0) + first[0..];
      while off < size
        invariant Valid() && off <= size
        invariant Abs() == Ahead(engine, start, off)
        invariant input != null ==> input[off..] == text.value[off..]
        invariant output != null ==> output[..] == CryptBytes(engine, start, text, off) + first[off..]
      {
        off := TurnFrom(input, size, output, off, text, first, start);
      }
    }

    /** Accepts keys of 16 or 32 bytes; any other length is the source's exception.  Keeps `pos` and `block`. */
    method SetKey(key: seq<bv8>) returns (ok: bool)
      requires Valid()
      modifies state
      ensures Valid() && ok == (|key| == 16 || |key| == 32)
      ensures state[..] == if ok then KeyWords(key) + old(state[12..]) else old(state[..])
    {
      ok := |key| == 16 || |key| == 32;
      if ok {
        if |key| == 16 {
          StoreKey(TAU, Load(key), Load(key));
        } else {
          StoreKey(SIGMA, Load(key)[..4], Load(key)[4..]);
        }
      }
    }

    method StoreKey(constant: seq<bv32>, k0: seq<bv32>, k1: seq<bv32>)
      requires Valid() && |constant| == |k0| == |k1| == 4
      modifies state
      ensures state[..] == constant + (k0 + k1) + old(state[12..])
    {
      StoreWords(state, 0, constant);
      StoreWords(state, 4, k0);
      StoreWords(state, 8, k1);
    }

    /** Accepts nonces of 8 or 12 bytes; any other length is the source's exception.  Keeps `pos` and `block`. */
    method SetIv(iv: seq<bv8>) returns (ok: bool)
      requires Valid()
      modifies state
      ensures Valid() && ok == (|iv| == 8 || |iv| == 12)
      ensures state[..] == if ok then old(state[..12]) + IvWords(iv) else old(state[..])
    {
      ok := |iv| == 8 || |iv| == 12;
      if !ok {
        return;
      }
      if |iv| == 8 {
        StoreWords(state, 12, [0, 0]);
        StoreWords(state, 14, Load(iv));
      } else {
        StoreWords(state, 12, [0]);
        StoreWords(state, 13, Load(iv));
      }
    }
  }
}
