/** The loops of encode and decode, which write through an advancing output position. */
module Base64 {
  import opened Arith
  import opened Base64Spec

  /** Counts up to the next multiple of three, and how many steps that takes. */
  method RoundUpTo3(n: nat) returns (rounded: nat, missing: nat)
    ensures rounded == 3 * ((n + 2) / 3) && missing == rounded - n
  {
    rounded, missing := n, 0;
    while rounded % 3 != 0
      invariant n <= rounded <= 3 * ((n + 2) / 3) && missing == rounded - n
      decreases 3 * ((n + 2) / 3) - rounded
    {
      NotYet3(rounded, (n + 2) / 3);
      rounded, missing := rounded + 1, missing + 1;
    }
    Between(n, rounded, (n + 2) / 3);
  }

  method RoundUpTo4(n: nat) returns (rounded: nat)
    ensures rounded == 4 * ((n + 3) / 4)
  {
    rounded := n;
    while rounded % 4 != 0
      invariant n <= rounded <= 4 * ((n + 3) / 4)
      decreases 4 * ((n + 3) / 4) - rounded
    {
      NotYet4(rounded, (n + 3) / 4);
      rounded := rounded + 1;
    }
    assert rounded == 4 * (rounded / 4);
  }

  lemma NotYet3(x: nat, k: nat)
    requires x % 3 != 0 && x <= 3 * k
    ensures x < 3 * k
  {
  }

  lemma NotYet4(x: nat, k: nat)
    requires x % 4 != 0 && x <= 4 * k
    ensures x < 4 * k
  {
  }

  lemma Between(n: nat, x: nat, k: nat)
    requires x % 3 == 0 && n <= x <= 3 * k && k == (n + 2) / 3
    ensures x == 3 * k
  {
    assert x == 3 * (x / 3);
  }

  method EncodedSizeOf(n: nat) returns (size: nat)
    ensures size == EncodedSize(n)
  {
    var rounded, missing := RoundUpTo3(n);
    size := 4 * rounded / 3;
  }

  method DecodedSizeOf(n: nat) returns (size: nat)
    ensures size == DecodedSize(n)
  {
    var rounded := RoundUpTo4(n);
    size := 3 * rounded / 4;
  }

  // ---------- encode ----------

  /** Whole groups, with zeros for the bytes that are missing in the last one. */
  function Groups(s: seq<Octet>): string
    decreases |s|
  {
    if |s| == 0 then "" else Group(ByteAt(s, 0), ByteAt(s, 1), ByteAt(s, 2)) + Groups(Drop(s, 3))
  }

  /** The padding takes the place of the last digits. */
  lemma {:induction false} GroupsThenPadding(s: seq<Octet>, missing: nat)
    requires missing == 3 * ((|s| + 2) / 3) - |s|
    ensures |Groups(s)| == EncodedSize(|s|) && missing <= |Groups(s)|
    ensures Encode(s) == Groups(s)[..|Groups(s)| - missing] + Padding(missing)
    decreases |s|
  {
    if |s| > 2 {
      var rest := Drop(s, 3);
      GroupsThenPadding(rest, missing);
      Thirds(|s|);
      PrefixAfter(Group(s[0], s[1], s[2]), Groups(rest), missing);
    } else if |s| > 0 {
      assert Groups(s) == Group(ByteAt(s, 0), ByteAt(s, 1), ByteAt(s, 2)) + "";
      assert Padding(1) == "=" && Padding(2) == "==";
    }
  }

  lemma PrefixAfter(g: string, rest: string, n: nat)
    requires n <= |rest|
    ensures (g + rest)[..|g + rest| - n] == g + rest[..|rest| - n]
  {
  }

  function Padding(n: nat): (p: string)
    ensures |p| == n && forall i :: 0 <= i < n ==> p[i] == '='
  {
    if n == 0 then "" else "=" + Padding(n - 1)
  }

  // one turn of the loop: three bytes are read, four digits are written
  method EncodeGroup(src: seq<Octet>, index: nat, result: array<char>, buf: nat)
    requires buf + 4 <= result.Length
    modifies result
    ensures result[..] == old(result[..buf])
                        + Group(ByteAt(src, index), ByteAt(src, index + 1), ByteAt(src, index + 2))
                        + old(result[buf + 4..])
  {
    var b0: Octet := if index < |src| then src[index] else 0;
    var b1: Octet := if index + 1 < |src| then src[index + 1] else 0;
    var b2: Octet := if index + 2 < |src| then src[index + 2] else 0;
    result[buf] := ToChar(b0 / 4);
    result[buf + 1] := ToChar(b0 % 4 * 16 + b1 / 16);
    result[buf + 2] := ToChar(b1 % 16 * 4 + b2 / 64);
    result[buf + 3] := ToChar(b2 % 64);
  }

  lemma NextGroup(src: seq<Octet>, index: nat)
    requires index < |src|
    ensures Groups(Drop(src, index))
         == Group(ByteAt(src, index), ByteAt(src, index + 1), ByteAt(src, index + 2)) + Groups(Drop(src, index + 3))
  {
    assert Drop(Drop(src, index), 3) == Drop(src, index + 3);
  }

  lemma AllGroups(n: nat, i: nat)
    requires i == EncodedSize(n) / 4
    ensures 3 * i >= n && EncodedSize(n) == 4 * i
  {
  }

  method EncodeGroups(src: seq<Octet>, result: array<char>, size: nat)
    requires size == EncodedSize(|src|) <= result.Length
    modifies result
    ensures result[..] == Groups(src) + old(result[size..])
  {
    ghost var done, first := "", result[..];
    var buf := 0;
    AllGroups(|src|, size / 4);
    assert Drop(src, 0) == src && "" + Groups(src) == Groups(src) && first == "" + first[0..];
    for i := 0 to size / 4
      invariant |done| == buf == 4 * i && done + Groups(Drop(src, 3 * i)) == Groups(src)
      invariant result[..] == done + first[|done|..]
    {
      buf := EncodeNext(src, 3 * i, result, buf, done, first);
      done := done + Group(ByteAt(src, 3 * i), ByteAt(src, 3 * i + 1), ByteAt(src, 3 * i + 2));
    }
    assert done + "" == done;
  }

  method EncodeNext(src: seq<Octet>, index: nat, result: array<char>, buf: nat, ghost done: string, ghost first: string)
    returns (buf': nat)
    requires index < |src| && buf + 4 <= result.Length == |first| && |done| == buf
    requires done + Groups(Drop(src, index)) == Groups(src) && result[..] == done + first[|done|..]
    modifies result
    ensures var done' := done + Group(ByteAt(src, index), ByteAt(src, index + 1), ByteAt(src, index + 2));
            && buf' == buf + 4 == |done'| && done' + Groups(Drop(src, index + 3)) == Groups(src)
            && result[..] == done' + first[|done'|..]
  {
    ghost var was, g := result[..], Group(ByteAt(src, index), ByteAt(src, index + 1), ByteAt(src, index + 2));
    NextGroup(src, index);
    SeqAssoc(done, g, Groups(Drop(src, index + 3)));
    EncodeGroup(src, index, result, buf);
    SeqSpliced(first, was, result[..], done, g);
    buf' := buf + 4;
  }

  lemma PadNext(was: string, digits: string, size: nat, i: nat, rest: string)
    requires |digits| == size && i < size && was == digits[..size - i] + Padding(i) + rest
    ensures was[size - i - 1 := '='] == digits[..size - (i + 1)] + Padding(i + 1) + rest
  {
  }

  method Encode64(src: seq<Octet>, result: array<char>)
    requires EncodedSize(|src|) <= result.Length
    modifies result
    ensures result[..] == Encode(src) + old(result[EncodedSize(|src|)..])
  {
    var rounded, missing := RoundUpTo3(|src|);
    var size := 4 * rounded / 3;
    EncodeGroups(src, result, size);
    GroupsThenPadding(src, missing);
    ghost var digits, rest := Groups(src), old(result[size..]);
    for i := 0 to missing
      invariant result[..] == digits[..size - i] + Padding(i) + rest
    {
      PadNext(result[..], digits, size, i, rest);
      result[size - i - 1] := '=';
    }
  }

  // ---------- decode ----------

  // (_src[i] <= 'z') ? from_base64[_src[i]] : 0xff
  method LookUp(s: string, i: nat) returns (d: Octet)
    ensures d == DigitAt(s, i)
  {
    d := if i < |s| && s[i] <= 'z' then FromChar(s[i]) else 255;
  }

  /** Writes a byte after those written, or none. */
  method PutIf(result: array<Octet>, buf: nat, present: bool, x: Octet, ghost done: seq<Octet>, ghost first: seq<Octet>)
    returns (buf': nat, ghost done': seq<Octet>)
    requires buf == |done| < result.Length == |first| && result[..] == done + first[|done|..]
    modifies result
    ensures done' == done + (if present then [x] else []) && buf' == |done'| && result[..] == done' + first[|done'|..]
  {
    buf', done' := buf, done;
    if present {
      result[buf] := x;
      buf', done' := buf + 1, done + [x];
    }
  }

  /** One turn of the loop: up to four digits are read, up to three bytes are written. */
  method DecodeGroup(src: string, i: nat, result: array<Octet>, buf: nat, ghost done: seq<Octet>, ghost first: seq<Octet>)
    returns (buf': nat, ghost done': seq<Octet>)
    requires buf + 3 <= result.Length == |first| && |done| == buf && result[..] == done + first[|done|..]
    modifies result
    ensures done' == done + Bytes(DigitAt(src, i), DigitAt(src, i + 1), DigitAt(src, i + 2), DigitAt(src, i + 3))
    ensures buf' == |done'| && result[..] == done' + first[|done'|..]
  {
    var d0 := LookUp(src, i);
    var d1 := LookUp(src, i + 1);
    var d2 := LookUp(src, i + 2);
    var d3 := LookUp(src, i + 3);
    buf', done' := PutIf(result, buf, d1 != 255, d0 % 64 * 4 + d1 / 16 % 4, done, first);
    buf', done' := PutIf(result, buf', d2 != 255, d1 % 16 * 16 + d2 / 4 % 16, done', first);
    buf', done' := PutIf(result, buf', d3 != 255, d2 % 4 * 64 + d3 % 64, done', first);
  }

  method DecodeNext(src: string, i: nat, result: array<Octet>, buf: nat, ghost done: seq<Octet>, ghost first: seq<Octet>)
    returns (buf': nat, ghost done': seq<Octet>)
    requires buf + 3 <= result.Length == |first| && |done| == buf && result[..] == done + first[|done|..]
    requires i < |src| && done + Decode(Drop(src, i)) == Decode(src)
    modifies result
    ensures buf' == |done'| <= buf + 3 && result[..] == done' + first[|done'|..]
    ensures done' + Decode(Drop(src, i + 4)) == Decode(src)
  {
    NextBytes(src, i, done);
    buf', done' := DecodeGroup(src, i, result, buf, done, first);
  }

  lemma NothingDone(src: string, first: seq<Octet>)
    ensures [] + Decode(Drop(src, 0)) == Decode(src) && first == [] + first[0..]
  {
    assert Drop(src, 0) == src;
  }

  lemma NothingLeft(src: string, n: nat, done: seq<Octet>)
    requires n >= |src|
    ensures done + Decode(Drop(src, n)) == done
  {
    assert Drop(src, n) == "";
  }

  lemma NextBytes(src: string, i: nat, done: seq<Octet>)
    requires i < |src|
    ensures var bytes := Bytes(DigitAt(src, i), DigitAt(src, i + 1), DigitAt(src, i + 2), DigitAt(src, i + 3));
            done + Decode(Drop(src, i)) == (done + bytes) + Decode(Drop(src, i + 4))
  {
    assert Drop(Drop(src, i), 4) == Drop(src, i + 4);
  }

  lemma Turns(n: nat, size: nat) returns (k: nat)
    requires size == 4 * ((n + 3) / 4)
    ensures size == 4 * k && DecodedSize(n) == 3 * k && n <= size < n + 4
  {
    k := (n + 3) / 4;
  }

  lemma Inside(n: nat, k: nat, q: nat)
    requires 4 * k < n + 4 && 4 * q < 4 * k
    ensures 4 * q < n && q < k
  {
  }

  /** All turns of the loop; each of the `k` has room for three bytes. */
  method DecodeGroups(src: string, result: array<Octet>, size: nat, ghost k: nat) returns (n: nat)
    requires size == 4 * k && |src| <= size < |src| + 4 && 3 * k <= result.Length
    modifies result
    ensures n == |Decode(src)| <= 3 * k && result[..] == Decode(src) + old(result[n..])
  {
    ghost var done: seq<Octet>, first, q: nat := [], result[..], 0;
    n := 0;
    var i: nat := 0;
    NothingDone(src, first);
    while i < size
      invariant i == 4 * q && q <= k && |done| == n && n <= 3 * q
      invariant done + Decode(Drop(src, i)) == Decode(src) && result[..] == done + first[|done|..]
    {
      Inside(|src|, k, q);
      n, done := DecodeNext(src, i, result, n, done, first);
      i, q := i + 4, q + 1;
    }
    NothingLeft(src, i, done);
    assert done == Decode(src);
  }

  method Decode64(src: string, result: array<Octet>) returns (n: nat)
    requires DecodedSize(|src|) <= result.Length
    modifies result
    ensures n == |Decode(src)| <= DecodedSize(|src|) && result[..] == Decode(src) + old(result[n..])
  {
    var size := RoundUpTo4(|src|);
    ghost var k := Turns(|src|, size);
    n := DecodeGroups(src, result, size, k);
  }

  /** From array to array: what is encoded is decoded, and both fit. */
  method Exchange(src: seq<Octet>) returns (decoded: seq<Octet>)
    ensures decoded == src
  {
    var size := EncodedSizeOf(|src|);
    var text := new char[size];
    Encode64(src, text);
    EncodeSize(src);
    assert text[..] == Encode(src);
    var room := DecodedSizeOf(size);
    var bytes := new Octet[room];
    var n := Decode64(text[..], bytes);
    DecodeEncode(src);
    decoded := bytes[..n];
  }
}
