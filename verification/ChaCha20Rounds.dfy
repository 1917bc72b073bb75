/**
 The ChaCha block function over any kind of word, given the operations on words that it uses,
 and the array code that runs it in place.
 */
module ChaCha20Rounds {

  /** Addition, exclusive or and the four rotations. */
  datatype WordOps<!T> = WordOps(add: (T, T) -> T, xor: (T, T) -> T,
                                 rol16: T -> T, rol12: T -> T, rol8: T -> T, rol7: T -> T)

  function QuarterRound<T>(o: WordOps<T>, a: T, b: T, c: T, d: T): (T, T, T, T) {
    var a1 := o.add(a, b);
    var d1 := o.rol16(o.xor(d, a1));
    var c1 := o.add(c, d1);
    var b1 := o.rol12(o.xor(b, c1));
    var a2 := o.add(a1, b1);
    var d2 := o.rol8(o.xor(d1, a2));
    var c2 := o.add(c1, d2);
    var b2 := o.rol7(o.xor(b1, c2));
    (a2, b2, c2, d2)
  }

  /** QUARTERROUND(x, y, z, w) on a state of 16 words. */
  function OnWords<T>(o: WordOps<T>, s: seq<T>, x: nat, y: nat, z: nat, w: nat): (r: seq<T>)
    requires |s| == 16 && x < 16 && y < 16 && z < 16 && w < 16
    ensures |r| == 16
  {
    var q := QuarterRound(o, s[x], s[y], s[z], s[w]);
    s[x := q.0][y := q.1][z := q.2][w := q.3]
  }

  /** The word of row `j` that quarter round `k` works on: columns first, then diagonals. */
  function WordOf(k: nat, j: nat): (i: nat)
    requires k < 8 && j < 4
    ensures 4 * j <= i < 4 * j + 4
  {
    4 * j + (if k < 4 then k else (k + j) % 4)
  }

  /** The first `k` quarter rounds of a double round. */
  function QuarterRounds<T>(o: WordOps<T>, s: seq<T>, k: nat): (r: seq<T>)
    requires |s| == 16 && k <= 8
    ensures |r| == 16
  {
    if k == 0 then s
    else
      OnWords(o, QuarterRounds(o, s, k - 1), WordOf(k - 1, 0), WordOf(k - 1, 1), WordOf(k - 1, 2), WordOf(k - 1, 3))
  }

  function DoubleRounds<T>(o: WordOps<T>, s: seq<T>, n: nat): (r: seq<T>)
    requires |s| == 16
    ensures |r| == 16
  {
    if n == 0 then s else QuarterRounds(o, DoubleRounds(o, s, n - 1), 8)
  }

  function AddWords<T>(o: WordOps<T>, s: seq<T>, t: seq<T>): (r: seq<T>)
    requires |s| == 16 && |t| == 16
    ensures |r| == 16 && forall i :: 0 <= i < 16 ==> r[i] == o.add(s[i], t[i])
  {
    seq(16, i requires 0 <= i < 16 => o.add(s[i], t[i]))
  }

  /** The block of a state: the mixed words added to the words one started from. */
  function BlockWords<T>(o: WordOps<T>, s: seq<T>, rounds: nat): (r: seq<T>)
    requires |s| == 16
    ensures |r| == 16
  {
    AddWords(o, DoubleRounds(o, s, rounds / 2), s)
  }

  // the first and the second half of CHACHA_QUARTER_ROUND, on four words of the array
  method HalfQuarterRound<T>(o: WordOps<T>, r1: T -> T, r2: T -> T, w: array<T>, a: nat, b: nat, c: nat, d: nat)
    requires a < b < c < d < w.Length
    modifies w
    ensures var (x, y, z, u) := (old(w[a]), old(w[b]), old(w[c]), old(w[d]));
            var a1 := o.add(x, y);
            var d1 := r1(o.xor(u, a1));
            var c1 := o.add(z, d1);
            var b1 := r2(o.xor(y, c1));
            w[..] == old(w[..])[a := a1][b := b1][c := c1][d := d1]
  {
    w[a] := o.add(w[a], w[b]);
    w[d] := o.xor(w[d], w[a]);
    w[d] := r1(w[d]);
    w[c] := o.add(w[c], w[d]);
    w[b] := o.xor(w[b], w[c]);
    w[b] := r2(w[b]);
  }

  method QuarterRoundAt<T>(o: WordOps<T>, w: array<T>, a: nat, b: nat, c: nat, d: nat)
    requires w.Length == 16 && a < b < c < d < 16
    modifies w
    ensures w[..] == OnWords(o, old(w[..]), a, b, c, d)
  {
    HalfQuarterRound(o, o.rol16, o.rol12, w, a, b, c, d);
    HalfQuarterRound(o, o.rol8, o.rol7, w, a, b, c, d);
  }

  /** Columns first, then diagonals. */
  method DoubleRound<T>(o: WordOps<T>, w: array<T>)
    requires w.Length == 16
    modifies w
    ensures w[..] == QuarterRounds(o, old(w[..]), 8)
  {
    QuarterRoundAt(o, w, 0, 4, 8, 12);
    assert w[..] == QuarterRounds(o, old(w[..]), 1);
    QuarterRoundAt(o, w, 1, 5, 9, 13);
    assert w[..] == QuarterRounds(o, old(w[..]), 2);
    QuarterRoundAt(o, w, 2, 6, 10, 14);
    assert w[..] == QuarterRounds(o, old(w[..]), 3);
    QuarterRoundAt(o, w, 3, 7, 11, 15);
    assert w[..] == QuarterRounds(o, old(w[..]), 4);

    QuarterRoundAt(o, w, 0, 5, 10, 15);
    assert w[..] == QuarterRounds(o, old(w[..]), 5);
    QuarterRoundAt(o, w, 1, 6, 11, 12);
    assert w[..] == QuarterRounds(o, old(w[..]), 6);
    QuarterRoundAt(o, w, 2, 7, 8, 13);
    assert w[..] == QuarterRounds(o, old(w[..]), 7);
    QuarterRoundAt(o, w, 3, 4, 9, 14);
  }

  method CopyWords<T>(state: array<T>, w: array<T>)
    requires w.Length == 16 && state.Length == 16 && w != state
    modifies w
    ensures w[..] == state[..]
  {
    for i := 0 to 16
      invariant w[..i] == state[..i]
    {
      w[i] := state[i];
    }
    assert w[..] == w[..16] && state[..] == state[..16];
  }

  method NextDoubleRound<T>(o: WordOps<T>, w: array<T>, ghost s: seq<T>, ghost n: nat)
    requires w.Length == 16 && |s| == 16 && w[..] == DoubleRounds(o, s, n)
    modifies w
    ensures w[..] == DoubleRounds(o, s, n + 1)
  {
    DoubleRound(o, w);
  }

  /** Two rounds a turn, `n` turns. */
  method MixTurns<T>(o: WordOps<T>, w: array<T>, rounds: nat, ghost s: seq<T>) returns (ghost n: nat)
    requires w.Length == 16 && rounds % 2 == 0 && w[..] == s
    modifies w
    ensures rounds == 2 * n && |s| == 16 && w[..] == DoubleRounds(o, s, n)
  {
    var i := 0;
    n := 0;
    while i < rounds
      invariant i == 2 * n <= rounds
      invariant w[..] == DoubleRounds(o, s, n)
    {
      NextDoubleRound(o, w, s, n);
      EvenStep(rounds, n);
      i, n := i + 2, n + 1;
    }
  }

  lemma EvenStep(rounds: nat, n: nat)
    requires rounds % 2 == 0 && 2 * n < rounds
    ensures 2 * n + 2 <= rounds
  {
  }

  lemma Half(rounds: nat, n: nat)
    requires rounds == 2 * n
    ensures rounds / 2 == n
  {
  }

  method Mix<T>(o: WordOps<T>, w: array<T>, rounds: nat)
    requires w.Length == 16 && rounds % 2 == 0
    modifies w
    ensures w[..] == DoubleRounds(o, old(w[..]), rounds / 2)
  {
    ghost var n := MixTurns(o, w, rounds, w[..]);
    Half(rounds, n);
  }

  method AddState<T>(o: WordOps<T>, state: array<T>, w: array<T>)
    requires w.Length == 16 && state.Length == 16 && w != state
    modifies w
    ensures w[..] == AddWords(o, old(w[..]), state[..])
  {
    for j := 0 to 16
      invariant forall k :: 0 <= k < j ==> w[k] == o.add(old(w[k]), state[k])
      invariant forall k :: j <= k < 16 ==> w[k] == old(w[k])
    {
      w[j] := o.add(w[j], state[j]);
    }
  }

  /** Copies the state, mixes it two rounds a turn, and adds the state back. */
  method ComputeBlock<T>(o: WordOps<T>, state: array<T>, w: array<T>, rounds: nat)
    requires w.Length == 16 && state.Length == 16 && w != state && rounds % 2 == 0
    modifies w
    ensures w[..] == BlockWords(o, state[..], rounds)
  {
    CopyWords(state, w);
    Mix(o, w, rounds);
    AddState(o, state, w);
  }
}
