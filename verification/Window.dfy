/** 16 words of a longer sequence: word `j` is kept at j % 16 until word j + 16 takes its place. */
module Window {

  /** Which word position `i` holds when the words before `t` have been made. */
  function Latest(t: nat, i: nat): (j: nat)
    requires i < 16
  {
    if t < 16 then i
    else if i < t % 16 then t / 16 * 16 + i
    else (t / 16 - 1) * 16 + i
  }

  ghost predicate Holds<T>(w: seq<T>, words: nat -> T, t: nat) {
    |w| == 16 && forall i :: 0 <= i < 16 ==> w[i] == words(Latest(t, i))
  }

  /** Word t - k, where the loop looks for it. */
  lemma HeldAt<T>(w: seq<T>, words: nat -> T, t: nat, k: nat, i: nat)
    requires Holds(w, words, t) && 1 <= k <= 16 <= t && i == (t + (16 - k)) % 16
    ensures w[i] == words(t - k)
  {
    LatestBefore(t, k);
  }

  lemma LatestBefore(t: nat, k: nat)
    requires 1 <= k <= 16 <= t
    ensures Latest(t, (t + (16 - k)) % 16) == t - k
  {
    var q, r := t / 16, t % 16;
    if r >= k {
      Split(t + (16 - k), q + 1, r - k);
    } else {
      Split(t + (16 - k), q, r + 16 - k);
    }
  }

  lemma Split(n: nat, q: nat, r: nat)
    requires n == 16 * q + r && r < 16
    ensures n / 16 == q && n % 16 == r
  {
  }

  /** Putting word `t` in its place. */
  lemma HeldNext<T>(w: seq<T>, words: nat -> T, t: nat, i: nat)
    requires Holds(w, words, t) && t >= 16 && i == t % 16
    ensures Holds(w[i := words(t)], words, t + 1)
  {
    forall k | 0 <= k < 16
      ensures Latest(t + 1, k) == if k == i then t else Latest(t, k)
    {
      LatestNext(t, k);
    }
  }

  lemma LatestNext(t: nat, i: nat)
    requires t >= 16 && i < 16
    ensures Latest(t + 1, i) == if i == t % 16 then t else Latest(t, i)
  {
    var q, r := t / 16, t % 16;
    if r == 15 {
      Split(t + 1, q + 1, 0);
    } else {
      Split(t + 1, q, r + 1);
    }
  }

  /** The first 16 words are there from the start. */
  lemma HeldAtFirst<T>(w: seq<T>, words: nat -> T, t: nat)
    requires |w| == 16 && t <= 16 && forall i :: 0 <= i < 16 ==> w[i] == words(i)
    ensures Holds(w, words, t)
  {
  }

  /** Until then nothing has to be made. */
  lemma StillFirst<T>(w: seq<T>, words: nat -> T, t: nat)
    requires Holds(w, words, t) && t < 16
    ensures Holds(w, words, t + 1)
  {
    forall i | 0 <= i < 16
      ensures Latest(t + 1, i) == Latest(t, i)
    {
    }
  }

  /** Word `t`, once it is made. */
  lemma HeldNow<T>(w: seq<T>, words: nat -> T, t: nat)
    requires Holds(w, words, t + 1)
    ensures w[t % 16] == words(t)
  {
    if t >= 16 {
      LatestNext(t, t % 16);
    } else {
      assert Latest(t + 1, t) == t;
    }
  }

  /** The function applied to every element. */
  function Mapped<T>(g: T -> T, w: seq<T>): (s: seq<T>)
    ensures |s| == |w|
  {
    if |w| == 0 then [] else Mapped(g, w[..|w| - 1]) + [g(w[|w| - 1])]
  }

  lemma {:induction false} MappedAt<T>(g: T -> T, w: seq<T>, i: nat)
    requires i < |w|
    ensures Mapped(g, w)[i] == g(w[i])
  {
    if i < |w| - 1 {
      MappedAt(g, w[..|w| - 1], i);
    }
  }

  /** The same in place. */
  method MapInPlace<T>(g: T -> T, w: array<T>)
    modifies w
    ensures w[..] == Mapped(g, old(w[..]))
  {
    for t := 0 to w.Length
      invariant forall j :: 0 <= j < t ==> w[j] == g(old(w[j]))
      invariant forall j :: t <= j < w.Length ==> w[j] == old(w[j])
    {
      w[t] := g(w[t]);
    }
    forall i | 0 <= i < w.Length
      ensures Mapped(g, old(w[..]))[i] == w[i]
    {
      MappedAt(g, old(w[..]), i);
    }
  }
}
