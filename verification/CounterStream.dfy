/**
 A key stream made of 64-byte blocks, read in pieces of any size: which block and which byte of it
 comes next.  The block generator and the step to the next state are parameters.
 */
module CounterStream {
  import opened Options

  /** `pos` bytes of `block` have been used; 0, or 64 and more, mean that none are left. */
  datatype Cursor<S, B> = Cursor(pos: nat, state: S, block: B)

  function Unused(pos: nat): (n: nat)
    ensures n < 64
  {
    if 0 < pos < 64 then 64 - pos else 0
  }

  /** n / 64 and n % 64, one block at a time. */
  function Blocks(n: nat): (r: (nat, nat))
    ensures r.1 < 64
  {
    if n < 64 then (0, n) else (Blocks(n - 64).0 + 1, Blocks(n - 64).1)
  }

  lemma {:induction false} BlocksAreQuotient(n: nat)
    ensures Blocks(n) == (n / 64, n % 64)
  {
    if n >= 64 {
      BlocksAreQuotient(n - 64);
    }
  }

  /** How many blocks are computed for `n` more bytes, and the position in the last one. */
  function Moved(pos: nat, n: nat): (nat, nat) {
    if n <= Unused(pos) then (0, pos + n)
    else
      var m := Blocks(n - Unused(pos) - 1);
      (m.0 + 1, m.1 + 1)
  }

  /** Which block, counted from 1 (0 is the current one), and which byte of it, is used `i` bytes from now. */
  function Used(pos: nat, i: nat): (r: (nat, nat))
    ensures r.1 < 64
  {
    if i < Unused(pos) then (0, pos + i)
    else (Blocks(i - Unused(pos)).0 + 1, Blocks(i - Unused(pos)).1)
  }

  lemma MovedSum(pos: nat, m: nat, n: nat)
    ensures Moved(pos, m + n)
         == (Moved(pos, m).0 + Moved(Moved(pos, m).1, n).0, Moved(Moved(pos, m).1, n).1)
  {
    if m > Unused(pos) && n > 0 {
      BlocksOn(m - Unused(pos) - 1, n);
    }
  }

  lemma UsedAfter(pos: nat, m: nat, i: nat)
    ensures Used(pos, m + i) == (Moved(pos, m).0 + Used(Moved(pos, m).1, i).0, Used(Moved(pos, m).1, i).1)
  {
    if m > Unused(pos) {
      BlocksOn(m - Unused(pos) - 1, i + 1);
    }
  }

  lemma {:induction false} BlocksOn(x: nat, y: nat)
    ensures var (q, r) := Blocks(x);
            Blocks(x + y) == if r + y < 64 then (q, r + y) else (q + 1 + Blocks(r + y - 64).0, Blocks(r + y - 64).1)
  {
    if x >= 64 {
      BlocksOn(x - 64, y);
    }
  }

  /** The state `n` blocks later. */
  function Later<S>(next: S -> S, s: S, n: nat): S {
    if n == 0 then s else next(Later(next, s, n - 1))
  }

  lemma {:induction false} LaterSum<S>(next: S -> S, s: S, m: nat, n: nat)
    ensures Later(next, Later(next, s, m), n) == Later(next, s, m + n)
  {
    if n > 0 {
      LaterSum(next, s, m, n - 1);
    }
  }

  /** The step to the next state, the block of a state, the bytes of a block, and how a byte is combined with a key byte. */
  datatype Machine<!S, !B, !T> = Machine(next: S -> S, gen: S -> B, at: (B, nat) -> T, xor: (T, T) -> T)

  /** The key byte that byte `i` from now is combined with. */
  function KeyByte<S, B, T>(m: Machine<S, B, T>, c: Cursor<S, B>, i: nat): T {
    var (k, j) := Used(c.pos, i);
    m.at(if k == 0 then c.block else m.gen(Later(m.next, c.state, k - 1)), j)
  }

  /** The cursor after `n` more bytes. */
  function After<S, B, T>(m: Machine<S, B, T>, c: Cursor<S, B>, n: nat): Cursor<S, B> {
    var (k, pos) := Moved(c.pos, n);
    Cursor(pos, Later(m.next, c.state, k), if k == 0 then c.block else m.gen(Later(m.next, c.state, k - 1)))
  }

  /** What is done before the first byte of a block is used. */
  function Refill<S, B, T>(m: Machine<S, B, T>, c: Cursor<S, B>): Cursor<S, B> {
    if Unused(c.pos) > 0 then c else Cursor(0, m.next(c.state), m.gen(c.state))
  }

  /** Advancing in two steps is advancing once. */
  lemma AfterSum<S, B, T>(m: Machine<S, B, T>, c: Cursor<S, B>, i: nat, n: nat)
    ensures After(m, After(m, c, i), n) == After(m, c, i + n)
  {
    MovedSum(c.pos, i, n);
    var k := Moved(c.pos, i).0;
    var l := Moved(Moved(c.pos, i).1, n).0;
    LaterSum(m.next, c.state, k, l);
    if l > 0 {
      LaterSum(m.next, c.state, k, l - 1);
    }
  }

  /** After `i` bytes the key continues where it was. */
  lemma KeyAfter<S, B, T>(m: Machine<S, B, T>, c: Cursor<S, B>, i: nat, j: nat)
    ensures KeyByte(m, After(m, c, i), j) == KeyByte(m, c, i + j)
  {
    UsedAfter(c.pos, i, j);
    var l := Used(Moved(c.pos, i).1, j).0;
    if l > 0 {
      LaterSum(m.next, c.state, Moved(c.pos, i).0, l - 1);
    }
  }

  /** One turn of the loop: at most the rest of one block is used. */
  lemma OneTurn<S, B, T>(m: Machine<S, B, T>, c: Cursor<S, B>, n: nat)
    requires 0 < n && Refill(m, c).pos + n <= 64
    ensures var d := Refill(m, c);
            && After(m, c, n) == Cursor(d.pos + n, d.state, d.block)
            && forall i :: 0 <= i < n ==> KeyByte(m, c, i) == m.at(d.block, d.pos + i)
  {
    assert Later(m.next, c.state, 0) == c.state;
    assert Later(m.next, c.state, 1) == m.next(c.state);
  }

  // ---------- combining input with key bytes ----------

  /** `n` elements of the input combined with the key, or the key itself when there is no input. */
  function Masked<T>(xor: (T, T) -> T, key: nat -> T, input: Option<seq<T>>, n: nat): (r: seq<T>)
    requires input.Some? ==> n <= |input.value|
    ensures |r| == n
  {
    if n == 0 then []
    else
      Masked(xor, key, input, n - 1) + [if input.Some? then xor(input.value[n - 1], key(n - 1)) else key(n - 1)]
  }

  lemma {:induction false} MaskedAt<T>(xor: (T, T) -> T, key: nat -> T, input: Option<seq<T>>, n: nat, i: nat)
    requires i < n && (input.Some? ==> n <= |input.value|)
    ensures Masked(xor, key, input, n)[i] == if input.Some? then xor(input.value[i], key(i)) else key(i)
  {
    if i < n - 1 {
      MaskedAt(xor, key, input, n - 1, i);
    }
  }

  /** Only the first `n` elements of the input and of the key matter. */
  lemma {:induction false} MaskedSame<T>(xor: (T, T) -> T, key: nat -> T, key': nat -> T,
                                         input: Option<seq<T>>, input': Option<seq<T>>, n: nat)
    requires input.Some? <==> input'.Some?
    requires input.Some? ==> n <= |input.value| && n <= |input'.value| && input.value[..n] == input'.value[..n]
    requires forall i: nat :: i < n ==> key(i) == key'(i)
    ensures Masked(xor, key, input, n) == Masked(xor, key', input', n)
  {
    if n > 0 {
      if input.Some? {
        assert forall i :: 0 <= i < n ==> input.value[i] == input.value[..n][i] == input'.value[..n][i];
      }
      MaskedSame(xor, key, key', input, input', n - 1);
    }
  }

  function Rest<T>(input: Option<seq<T>>, n: nat): Option<seq<T>>
    requires input.Some? ==> n <= |input.value|
  {
    if input.Some? then Some(input.value[n..]) else None
  }

  /** Two pieces one after the other, the second with the key that comes later, are the whole at once. */
  lemma {:induction false} MaskedSplit<T>(xor: (T, T) -> T, key: nat -> T, key': nat -> T,
                                          input: Option<seq<T>>, m: nat, n: nat)
    requires input.Some? ==> m + n <= |input.value|
    requires forall i: nat :: i < n ==> key'(i) == key(m + i)
    ensures Masked(xor, key, input, m + n) == Masked(xor, key, input, m) + Masked(xor, key', Rest(input, m), n)
  {
    if n > 0 {
      MaskedSplit(xor, key, key', input, m, n - 1);
    }
  }

  /** Combining twice with the same key gives the input back, when combining is its own inverse. */
  lemma MaskedTwice<T(!new)>(xor: (T, T) -> T, key: nat -> T, input: seq<T>)
    requires forall x, k :: xor(xor(x, k), k) == x
    ensures Masked(xor, key, Some(Masked(xor, key, Some(input), |input|)), |input|) == input
  {
    var once := Masked(xor, key, Some(input), |input|);
    forall i | 0 <= i < |input|
      ensures Masked(xor, key, Some(once), |input|)[i] == input[i]
    {
      MaskedAt(xor, key, Some(input), |input|, i);
      MaskedAt(xor, key, Some(once), |input|, i);
    }
  }

  // ---------- input combined with the key stream ----------

  function KeyStream<S, B, T>(m: Machine<S, B, T>, c: Cursor<S, B>): nat -> T {
    (i: nat) => KeyByte(m, c, i)
  }

  /** `n` elements of input, or of nothing, combined with the next `n` of the key. */
  function Combined<S, B, T>(m: Machine<S, B, T>, c: Cursor<S, B>, input: Option<seq<T>>, n: nat): (r: seq<T>)
    requires input.Some? ==> n <= |input.value|
    ensures |r| == n
  {
    Masked(m.xor, KeyStream(m, c), input, n)
  }

  /** Element `i` is combined with key byte `i`. */
  lemma CombinedAt<S, B, T>(m: Machine<S, B, T>, c: Cursor<S, B>, input: Option<seq<T>>, n: nat, i: nat)
    requires i < n && (input.Some? ==> n <= |input.value|)
    ensures Combined(m, c, input, n)[i]
         == if input.Some? then m.xor(input.value[i], KeyByte(m, c, i)) else KeyByte(m, c, i)
  {
    MaskedAt(m.xor, KeyStream(m, c), input, n, i);
  }

  /** Two calls one after the other produce what one call produces, and leave the same cursor. */
  lemma CombinedMore<S, B, T>(m: Machine<S, B, T>, start: Cursor<S, B>, here: Cursor<S, B>,
                              text: Option<seq<T>>, i: nat, n: nat, next: nat)
    requires here == After(m, start, i) && next == i + n
    requires text.Some? ==> next <= |text.value|
    ensures After(m, here, n) == After(m, start, next)
    ensures Combined(m, start, text, next) == Combined(m, start, text, i) + Combined(m, here, Rest(text, i), n)
  {
    AfterSum(m, start, i, n);
    CombinedSplit(m, start, here, text, i, n);
  }

  lemma CombinedSplit<S, B, T>(m: Machine<S, B, T>, start: Cursor<S, B>, here: Cursor<S, B>,
                               text: Option<seq<T>>, i: nat, n: nat)
    requires here == After(m, start, i) && (text.Some? ==> i + n <= |text.value|)
    ensures Combined(m, start, text, i + n) == Combined(m, start, text, i) + Combined(m, here, Rest(text, i), n)
  {
    forall j: nat
      ensures KeyStream(m, here)(j) == KeyStream(m, start)(i + j)
    {
      KeyAfter(m, start, i, j);
    }
    MaskedSplit(m.xor, KeyStream(m, start), KeyStream(m, here), text, i, n);
  }

  /** A second machine in the same state undoes the first. */
  lemma CombinedTwice<S, B, T(!new)>(m: Machine<S, B, T>, c: Cursor<S, B>, input: seq<T>)
    requires forall x, k :: m.xor(m.xor(x, k), k) == x
    ensures Combined(m, c, Some(Combined(m, c, Some(input), |input|)), |input|) == input
  {
    MaskedTwice(m.xor, KeyStream(m, c), input);
  }

  /** Within one block the key bytes are the block's bytes. */
  lemma CombinedWithinBlock<S, B, T>(m: Machine<S, B, T>, c: Cursor<S, B>, key: nat -> T, input: Option<seq<T>>, n: nat)
    requires 0 < n && Refill(m, c).pos + n <= 64 && (input.Some? ==> n <= |input.value|)
    requires forall i: nat :: key(i) == m.at(Refill(m, c).block, Refill(m, c).pos + i)
    ensures var d := Refill(m, c);
            && After(m, c, n) == Cursor(d.pos + n, d.state, d.block)
            && Combined(m, c, input, n) == Masked(m.xor, key, input, n)
  {
    OneTurn(m, c, n);
    MaskedSame(m.xor, KeyStream(m, c), key, input, input, n);
  }
}
