/** Post-processing of the streamed inference output: 128-bit chunks are byte-reversed, then
    the filler words 0xFFFF are dropped. */
module StreamPost {
  import opened Wrappers

  type byte = x: int | 0 <= x < 256
  type word = x: int | 0 <= x < 0x1_0000

  const CHUNK := 16
  const FILLER: word := 0xFFFF

  function Reverse<T>(s: seq<T>): (r: seq<T>)
    ensures |r| == |s|
  {
    if s == [] then [] else Reverse(s[1..]) + [s[0]]
  }

  function Flip(data: seq<byte>): seq<byte>
  {
    if |data| < CHUNK then [] else Reverse(data[..CHUNK]) + Flip(data[CHUNK..])
  }

  function Join(lo: int, hi: int): (w: word)
    requires 0 <= lo < 256 && 0 <= hi < 256
    ensures w % 256 == lo && w / 256 == hi
  {
    lo + 256 * hi
  }

  /** struct.unpack of little-endian 16-bit values. */
  function Words(data: seq<byte>): seq<word>
  {
    if |data| < 2 then [] else [Join(data[0], data[1])] + Words(data[2..])
  }

  function Keep(ws: seq<word>): seq<word>
  {
    if ws == [] then [] else (if ws[0] != FILLER then [ws[0]] else []) + Keep(ws[1..])
  }

  /** data[::-1], as the slice builds it. */
  method ReverseChunk(chunk: seq<byte>) returns (r: seq<byte>)
    ensures r == Reverse(chunk)
  {
    r := [];
    var i := |chunk|;
    while i > 0
      invariant 0 <= i <= |chunk| && r == Reverse(chunk[i..])
    {
      i := i - 1;
      assert chunk[i..][1..] == chunk[i + 1..];
      r := r + [chunk[i]];
    }
    assert chunk[0..] == chunk;
  }

  method FlipEndianness(data: seq<byte>) returns (flipped: seq<byte>)
    ensures flipped == Flip(data)
  {
    flipped := [];
    var n, i := |data| / CHUNK, 0;
    assert data[CHUNK * 0..] == data;
    while i < n
      invariant 0 <= i <= n && flipped + Flip(data[CHUNK * i..]) == Flip(data)
    {
      var rest := data[CHUNK * i..];
      var chunk := data[CHUNK * i..CHUNK * (i + 1)];
      assert chunk == rest[..CHUNK] && rest[CHUNK..] == data[CHUNK * (i + 1)..];
      var r := ReverseChunk(chunk);
      assert flipped + (r + Flip(rest[CHUNK..])) == (flipped + r) + Flip(rest[CHUNK..]);
      flipped := flipped + r;
      i := i + 1;
    }
    assert flipped + [] == flipped;
  }

  /** struct.unpack of as many values as the data hold; it fails on an odd number of bytes. */
  method UnpackWords(data: seq<byte>) returns (r: Option<seq<word>>)
    ensures r == if |data| % 2 == 0 then Some(Words(data)) else None
  {
    var n, i := |data| / 2, 0;
    if |data| != 2 * n { return None; }
    var ws: seq<word> := [];
    assert data[2 * 0..] == data;
    while i < n
      invariant 0 <= i <= n && ws + Words(data[2 * i..]) == Words(data)
    {
      ghost var rest := data[2 * i..];
      assert rest[2..] == data[2 * (i + 1)..];
      assert ws + ([Join(rest[0], rest[1])] + Words(rest[2..])) == (ws + [Join(rest[0], rest[1])]) + Words(rest[2..]);
      ws := ws + [Join(data[2 * i], data[2 * i + 1])];
      i := i + 1;
    }
    assert ws + [] == ws;
    return Some(ws);
  }

  /** The comprehension that filters. */
  method DropFillers(ws: seq<word>) returns (kept: seq<word>)
    ensures kept == Keep(ws)
  {
    kept := [];
    var i := 0;
    while i < |ws|
      invariant 0 <= i <= |ws| && kept == Keep(ws[..i])
    {
      assert ws[..i + 1] == ws[..i] + [ws[i]];
      KeepLast(ws[..i], ws[i]);
      if ws[i] != FILLER {
        kept := kept + [ws[i]];
      }
      i := i + 1;
    }
    assert ws[..i] == ws;
  }

  lemma KeepLast(ws: seq<word>, w: word)
    ensures Keep(ws + [w]) == Keep(ws) + if w != FILLER then [w] else []
  {
    KeepAppend(ws, [w]);
    assert [w][1..] == [];
  }

  /** struct.pack, least significant byte first. */
  method PackWords(ws: seq<word>) returns (data: seq<byte>)
    ensures Words(data) == ws && |data| == 2 * |ws|
  {
    data := [];
    var i := 0;
    while i < |ws|
      invariant 0 <= i <= |ws| && |data| == 2 * i && Words(data) == ws[..i]
    {
      var lo: byte, hi: byte := ws[i] % 256, ws[i] / 256;
      WordsAppend(data, [lo, hi]);
      assert [lo, hi][2..] == [] && Words([lo, hi]) == [ws[i]];
      data := data + [lo, hi];
      i := i + 1;
    }
  }

  /** remove_invalid_fp16_values: the result holds exactly the words of the input other than
      0xFFFF, in order. */
  method RemoveInvalid(data: seq<byte>) returns (r: Option<seq<byte>>)
    ensures r.None? <==> |data| % 2 != 0
    ensures r.Some? ==> Words(r.value) == Keep(Words(data)) && |r.value| == 2 * |Keep(Words(data))|
  {
    var values := UnpackWords(data);
    if values.None? { return None; }
    var kept := DropFillers(values.value);
    var packed := PackWords(kept);
    return Some(packed);
  }

  /** What filtering means: no filler is left, every other word occurs as often as before. */
  lemma {:induction false} KeepCounts(ws: seq<word>, w: word)
    ensures multiset(Keep(ws))[w] == if w == 0xFFFF then 0 else multiset(ws)[w]
  {
    if ws != [] {
      KeepCounts(ws[1..], w);
      assert ws == [ws[0]] + ws[1..];
    }
  }

  /** And the order is that of the input. */
  lemma {:induction false} KeepInOrder(ws: seq<word>)
    ensures Subsequence(Keep(ws), ws)
  {
    if ws != [] {
      KeepInOrder(ws[1..]);
      if ws[0] != FILLER {
        assert Keep(ws)[0] == ws[0] && Keep(ws)[1..] == Keep(ws[1..]);
      } else {
        assert Keep(ws) == Keep(ws[1..]);
      }
    }
  }

  ghost predicate Subsequence(a: seq<word>, b: seq<word>)
    decreases |b|
  {
    a == [] || (b != [] && ((a[0] == b[0] && Subsequence(a[1..], b[1..])) || Subsequence(a, b[1..])))
  }

  /** process_file, between its two files. */
  method Process(data: seq<byte>) returns (r: Option<seq<byte>>)
    ensures r.Some? && Words(r.value) == Expected(data) == Keep(Words(Flip(data))) && |r.value| == 2 * |Expected(data)|
    ensures |Expected(data)| == Valid(Words(data[..|data| / CHUNK * CHUNK]))
  {
    var flipped := FlipEndianness(data);
    r := RemoveInvalid(flipped);
    EvenLength(data);
    FlipThenKeep(data);
    CountKept(data);
  }

  lemma {:induction false} EvenLength(data: seq<byte>)
    ensures |Flip(data)| % 2 == 0
  {
    if |data| >= CHUNK { EvenLength(data[CHUNK..]); }
  }

  // ---- What the pipeline does ---------------------------------------------------------------

  lemma {:induction false} ReverseAppend<T>(a: seq<T>, b: seq<T>)
    ensures Reverse(a + b) == Reverse(b) + Reverse(a)
  {
    if a == [] {
      assert a + b == b;
    } else {
      assert (a + b)[1..] == a[1..] + b;
      ReverseAppend(a[1..], b);
    }
  }

  lemma {:induction false} ReverseTwice<T>(s: seq<T>)
    ensures Reverse(Reverse(s)) == s
  {
    if s != [] {
      ReverseAppend(Reverse(s[1..]), [s[0]]);
      ReverseTwice(s[1..]);
    }
  }

  lemma {:induction false} FlipLength(data: seq<byte>)
    ensures |Flip(data)| == |data| / 16 * 16
  {
    if |data| >= CHUNK { FlipLength(data[CHUNK..]); }
  }

  lemma {:induction false} ReverseAt<T>(s: seq<T>, k: nat)
    requires k < |s|
    ensures Reverse(s)[k] == s[|s| - 1 - k]
  {
    if k < |s| - 1 { ReverseAt(s[1..], k); }
  }

  /** Byte j of chunk c comes from the other end of that chunk. */
  lemma {:induction false} FlipAt(data: seq<byte>, c: nat, j: nat)
    requires j < 16 && 16 * c + 16 <= |data|
    ensures 16 * c + j < |Flip(data)| && Flip(data)[16 * c + j] == data[16 * c + 15 - j]
  {
    if c == 0 {
      ReverseAt(data[..CHUNK], j);
    } else {
      FlipAt(data[CHUNK..], c - 1, j);
      assert Flip(data)[16 * c + j] == Flip(data[CHUNK..])[16 * (c - 1) + j];
    }
  }

  /** A word is two bytes, the low one first. */
  lemma {:induction false} WordAt(data: seq<byte>, k: nat)
    requires 2 * k + 1 < |data|
    ensures var lo: int, hi: int := data[2 * k], data[2 * k + 1];
      k < |Words(data)| && Words(data)[k] == lo + 256 * hi
  {
    if k > 0 { WordAt(data[2..], k - 1); }
  }

  /** So word j of chunk c, before filtering, is made of bytes 15 - 2j and 14 - 2j of that chunk. */
  lemma FlippedWordAt(data: seq<byte>, c: nat, j: nat)
    requires j < 8 && 16 * c + 16 <= |data|
    ensures 8 * c + j < |Words(Flip(data))|
    ensures var lo: int, hi: int := data[16 * c + 15 - 2 * j], data[16 * c + 14 - 2 * j];
      Words(Flip(data))[8 * c + j] == lo + 256 * hi
  {
    FlipAt(data, c, 2 * j);
    FlipAt(data, c, 2 * j + 1);
    WordAt(Flip(data), 8 * c + j);
  }

  /** On whole chunks, flipping twice changes nothing. */
  lemma {:induction false} FlipTwice(data: seq<byte>)
    requires |data| % CHUNK == 0
    ensures Flip(Flip(data)) == data
  {
    if |data| >= CHUNK {
      var first, rest := Reverse(data[..CHUNK]), Flip(data[CHUNK..]);
      assert (first + rest)[..CHUNK] == first && (first + rest)[CHUNK..] == rest;
      ReverseTwice(data[..CHUNK]);
      FlipTwice(data[CHUNK..]);
    }
  }

  lemma {:induction false} WordsAppend(a: seq<byte>, b: seq<byte>)
    requires |a| % 2 == 0
    ensures Words(a + b) == Words(a) + Words(b)
  {
    if a == [] {
      assert a + b == b;
    } else {
      assert (a + b)[2..] == a[2..] + b;
      WordsAppend(a[2..], b);
    }
  }

  function Swap(w: word): word {
    w % 256 * 256 + w / 256
  }

  function SwapAll(ws: seq<word>): seq<word>
  {
    if ws == [] then [] else SwapAll(ws[..|ws| - 1]) + [Swap(ws[|ws| - 1])]
  }

  /** Reversing bytes reverses the words and swaps the bytes of each. */
  lemma {:induction false} WordsOfReverse(s: seq<byte>)
    requires |s| % 2 == 0
    ensures Words(Reverse(s)) == SwapAll(Reverse(Words(s)))
  {
    if s != [] {
      var rest := s[2..];
      assert s == [s[0], s[1]] + rest;
      ReverseAppend([s[0], s[1]], rest);
      assert Reverse([s[0], s[1]]) == [s[1], s[0]];
      WordsAppend(Reverse(rest), [s[1], s[0]]);
      WordsOfReverse(rest);
      var w := Join(s[0], s[1]);
      assert [s[1], s[0]][2..] == [];
      assert Words([s[1], s[0]]) == [Swap(w)];
      var r := Reverse(Words(rest)) + [w];
      assert r[..|r| - 1] == Reverse(Words(rest));
    }
  }

  /** Chunk by chunk, the words of the input in reverse order, byte-swapped, without fillers. */
  function Expected(data: seq<byte>): seq<word>
  {
    if |data| < CHUNK then [] else Keep(SwapAll(Reverse(Words(data[..CHUNK])))) + Expected(data[CHUNK..])
  }

  lemma {:induction false} KeepAppend(a: seq<word>, b: seq<word>)
    ensures Keep(a + b) == Keep(a) + Keep(b)
  {
    if a == [] {
      assert a + b == b;
    } else {
      assert (a + b)[1..] == a[1..] + b;
      KeepAppend(a[1..], b);
    }
  }

  lemma {:induction false} FlipThenKeep(data: seq<byte>)
    ensures Keep(Words(Flip(data))) == Expected(data)
  {
    if |data| >= CHUNK {
      var chunk, rest := data[..CHUNK], data[CHUNK..];
      WordsAppend(Reverse(chunk), Flip(rest));
      WordsOfReverse(chunk);
      KeepAppend(Words(Reverse(chunk)), Words(Flip(rest)));
      FlipThenKeep(rest);
    }
  }

  // ---- No valid word is lost ------------------------------------------------------------------

  function Valid(ws: seq<word>): nat {
    if ws == [] then 0 else (if ws[0] != FILLER then 1 else 0) + Valid(ws[1..])
  }

  lemma {:induction false} ValidAppend(a: seq<word>, b: seq<word>)
    ensures Valid(a + b) == Valid(a) + Valid(b)
  {
    if a == [] {
      assert a + b == b;
    } else {
      assert (a + b)[1..] == a[1..] + b;
      ValidAppend(a[1..], b);
    }
  }

  lemma {:induction false} KeepCount(ws: seq<word>)
    ensures |Keep(ws)| == Valid(ws)
  {
    if ws != [] { KeepCount(ws[1..]); }
  }

  lemma {:induction false} ReverseCount(ws: seq<word>)
    ensures Valid(Reverse(ws)) == Valid(ws)
  {
    if ws != [] {
      ValidAppend(Reverse(ws[1..]), [ws[0]]);
      ReverseCount(ws[1..]);
    }
  }

  lemma {:induction false} SwapCount(ws: seq<word>)
    ensures Valid(SwapAll(ws)) == Valid(ws)
  {
    if ws != [] {
      var front, last := ws[..|ws| - 1], ws[|ws| - 1];
      SwapCount(front);
      ValidAppend(SwapAll(front), [Swap(last)]);
      ValidAppend(front, [last]);
      assert ws == front + [last];
      assert Swap(last) == FILLER <==> last == FILLER;
    }
  }

  /** The number of valid words in the whole chunks is the number that come out. */
  lemma {:induction false} CountKept(data: seq<byte>)
    ensures |Expected(data)| == Valid(Words(data[..|data| / CHUNK * CHUNK]))
  {
    var whole := data[..|data| / CHUNK * CHUNK];
    if |data| >= CHUNK {
      var chunk, rest := data[..CHUNK], data[CHUNK..];
      assert whole == chunk + rest[..|rest| / CHUNK * CHUNK];
      WordsAppend(chunk, rest[..|rest| / CHUNK * CHUNK]);
      ValidAppend(Words(chunk), Words(rest[..|rest| / CHUNK * CHUNK]));
      KeepCount(SwapAll(Reverse(Words(chunk))));
      SwapCount(Reverse(Words(chunk)));
      ReverseCount(Words(chunk));
      CountKept(rest);
    }
  }
}
