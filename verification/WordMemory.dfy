/** Arrays of words used as memory: bytes are put into them one by one. */
module WordMemory {
  import opened Words
  import opened Window

  function WordBytes(w: bv32): (s: seq<bv8>)
    ensures |s| == 4
  {
    [GetByte(w, 0), GetByte(w, 1), GetByte(w, 2), GetByte(w, 3)]
  }

  /** The bytes of words in memory. */
  function Bytes(ws: seq<bv32>): (s: seq<bv8>)
    ensures |s| == 4 * |ws|
  {
    if |ws| == 0 then [] else Bytes(ws[..|ws| - 1]) + WordBytes(ws[|ws| - 1])
  }

  lemma {:induction false} BytesAt(ws: seq<bv32>, i: nat, k: nat)
    requires i < |ws| && k < 4
    ensures Bytes(ws)[4 * i + k] == WordBytes(ws[i])[k]
  {
    if i < |ws| - 1 {
      BytesAt(ws[..|ws| - 1], i, k);
    }
  }

  /** The words of a byte string, highest byte first. */
  function BigWords(s: seq<bv8>): (ws: seq<bv32>)
    requires |s| % 4 == 0
    ensures |ws| == |s| / 4
  {
    if |s| == 0 then []
    else
      var n := |s| - 4;
      BigWords(s[..n]) + [BigEndian(s[n], s[n + 1], s[n + 2], s[n + 3])]
  }

  /** Swapping the words in memory makes them those of the byte string. */
  lemma {:induction false} BigIsSwapped(ws: seq<bv32>)
    ensures Mapped(Swap, ws) == BigWords(Bytes(ws))
  {
    if |ws| > 0 {
      var n := |ws| - 1;
      var s := Bytes(ws);
      BigIsSwapped(ws[..n]);
      SwapIsBigEndian(ws[n]);
      assert s[..4 * n] == Bytes(ws[..n]);
      assert s[4 * n..] == WordBytes(ws[n]);
      FourBytes(s, 4 * n, ws[n]);
    }
  }

  lemma FourBytes(s: seq<bv8>, n: nat, w: bv32)
    requires |s| == n + 4 && s[n..] == WordBytes(w)
    ensures BigEndian(s[n], s[n + 1], s[n + 2], s[n + 3])
         == BigEndian(GetByte(w, 0), GetByte(w, 1), GetByte(w, 2), GetByte(w, 3))
  {
    assert s[n..][0] == s[n] && s[n..][1] == s[n + 1] && s[n..][2] == s[n + 2] && s[n..][3] == s[n + 3];
  }

  lemma SetWordBytes(w: bv32, k: nat, b: bv8)
    requires k < 4
    ensures WordBytes(SetByte(w, k, b)) == WordBytes(w)[k := b]
  {
    GetSetByte(w, k, b, 0);
    GetSetByte(w, k, b, 1);
    GetSetByte(w, k, b, 2);
    GetSetByte(w, k, b, 3);
  }

  /** Replacing a word replaces its four bytes. */
  lemma {:induction false} BytesReplace(ws: seq<bv32>, i: nat, w: bv32)
    requires i < |ws|
    ensures Bytes(ws[i := w]) == Bytes(ws)[..4 * i] + WordBytes(w) + Bytes(ws)[4 * i + 4..]
  {
    var n := |ws| - 1;
    if i < n {
      BytesReplace(ws[..n], i, w);
      assert ws[i := w][..n] == ws[..n][i := w];
    } else {
      assert ws[i := w][..n] == ws[..n];
    }
  }

  lemma BytesSet(ws: seq<bv32>, p: nat, b: bv8)
    requires p < 4 * |ws|
    ensures Bytes(ws[p / 4 := SetByte(ws[p / 4], p % 4, b)]) == Bytes(ws)[p := b]
  {
    var i, k := p / 4, p % 4;
    SetWordBytes(ws[i], k, b);
    BytesReplace(ws, i, SetByte(ws[i], k, b));
    BytesAt(ws, i, 0);
    BytesAt(ws, i, 1);
    BytesAt(ws, i, 2);
    BytesAt(ws, i, 3);
    InOneWord(Bytes(ws), 4 * i, k, WordBytes(ws[i]), b);
  }

  lemma InOneWord(s: seq<bv8>, n: nat, k: nat, w: seq<bv8>, b: bv8)
    requires n + 4 <= |s| && k < 4 && |w| == 4
    requires s[n] == w[0] && s[n + 1] == w[1] && s[n + 2] == w[2] && s[n + 3] == w[3]
    ensures s[..n] + w[k := b] + s[n + 4..] == s[n + k := b]
  {
  }

  lemma NextByte(was: seq<bv8>, now: seq<bv8>, piece: seq<bv8>, at: nat, k: nat)
    requires k < |piece| && at + |piece| <= |was| && now == was[..at] + piece[..k] + was[at + k..]
    ensures now[at + k := piece[k]] == was[..at] + piece[..k + 1] + was[at + (k + 1)..]
  {
  }

  method PutByte(w: array<bv32>, p: nat, b: bv8)
    requires p < 4 * w.Length
    modifies w
    ensures Bytes(w[..]) == old(Bytes(w[..]))[p := b]
  {
    ghost var before := w[..];
    BytesSet(before, p, b);
    w[p / 4] := SetByte(w[p / 4], p % 4, b);
    assert w[..] == before[p / 4 := SetByte(before[p / 4], p % 4, b)];
  }

  /** memcpy into the bytes of the words. */
  method CopyBytes(w: array<bv32>, at: nat, piece: seq<bv8>)
    requires at + |piece| <= 4 * w.Length
    modifies w
    ensures Bytes(w[..]) == old(Bytes(w[..]))[..at] + piece + old(Bytes(w[..]))[at + |piece|..]
  {
    ghost var was := Bytes(w[..]);
    for k := 0 to |piece|
      invariant Bytes(w[..]) == was[..at] + piece[..k] + was[at + k..]
    {
      NextByte(was, Bytes(w[..]), piece, at, k);
      PutByte(w, at + k, piece[k]);
    }
    assert piece[..|piece|] == piece;
  }

  /** The four low bytes of a number, highest first. */
  function LowBytes(n: nat): (s: seq<bv8>)
    ensures |s| == 4
  {
    [(n / 256 / 256 / 256 % 256) as bv8, (n / 256 / 256 % 256) as bv8, (n / 256 % 256) as bv8, (n % 256) as bv8]
  }

  /** The word of a number, without what is above 32 bits. */
  function ToWord(n: nat): bv32 {
    var s := LowBytes(n);
    BigEndian(s[0], s[1], s[2], s[3])
  }

  /** A word stored after swapping reads as its number, highest byte first. */
  lemma SwapToWord(n: nat)
    ensures WordBytes(Swap(ToWord(n))) == LowBytes(n)
  {
    var s := LowBytes(n);
    SwapBytes(s[0], s[1], s[2], s[3]);
  }

  lemma SwapBytes(b0: bv8, b1: bv8, b2: bv8, b3: bv8)
    ensures WordBytes(Swap(BigEndian(b0, b1, b2, b3))) == [b0, b1, b2, b3]
  {
    BytesOfWord(b3, b2, b1, b0);
    SwapIsBigEndian(BigEndian(b0, b1, b2, b3));
    BytesOfWord(b0, b1, b2, b3);
  }
}
