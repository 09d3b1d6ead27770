/** The character-window chunker of the simple ingestion script
    (`load_and_chunk_pdf`): the page texts of one PDF are joined, then a
    window of `chunk_size` characters is cut every `chunk_size - chunk_overlap`
    characters. */
module Chunker {
  import opened Wrappers
  import opened Text

  /** The defaults of `load_and_chunk_pdf`, which the ingestion run relies on. */
  const DefaultChunkSize: nat := 1000
  const DefaultChunkOverlap: nat := 200

  /** Python's `range(0, n, 0)` raises `ValueError`. */
  datatype ChunkError = ZeroStep

  function Min(a: int, b: int): int
  {
    if a <= b then a else b
  }

  /** The offset of chunk `k`, `k * step`, written as repeated addition so
      that the proofs stay in linear arithmetic. */
  function Offset(k: nat, step: nat): nat
  {
    if k == 0 then 0 else Offset(k - 1, step) + step
  }

  lemma {:induction false} OffsetIsProduct(k: nat, step: nat)
    ensures Offset(k, step) == k * step
  {
    if k > 0 {
      OffsetIsProduct(k - 1, step);
    }
  }

  /** The number of elements of `range(0, n, step)` for a positive step: the
      least count whose windows reach `n`. */
  function ChunkCount(n: nat, step: nat): (c: nat)
    requires step > 0
    ensures Offset(c, step) >= n
    ensures c == 0 || Offset(c - 1, step) < n
    ensures c == 0 <==> n == 0
    decreases n
  {
    if n == 0 then 0 else 1 + ChunkCount(n - Min(step, n), step)
  }

  lemma {:induction false} OffsetMono(j: nat, k: nat, step: nat)
    requires j <= k
    ensures Offset(j, step) <= Offset(k, step)
    decreases k
  {
    if j < k {
      OffsetMono(j, k - 1, step);
    }
  }

  /** The count is ceil(n / step). */
  lemma ChunkCountIsCeiling(n: nat, step: nat)
    requires step > 0
    ensures ChunkCount(n, step) == (n + step - 1) / step
  {
    var c := ChunkCount(n, step);
    var d := (n + step - 1) / step;
    DivisionBounds(n + step - 1, step);
    OffsetIsProduct(d, step);
    OffsetIsProduct(c, step);
    if c < d {
      OffsetMono(c + 1, d, step);
    } else if d < c {
      OffsetMono(d + 1, c, step);
      OffsetIsProduct(c - 1, step);
      OffsetMono(d, c - 1, step);
    }
  }

  lemma DivisionBounds(m: nat, step: nat)
    requires step > 0
    ensures (m / step) * step <= m < (m / step) * step + step
  {
  }

  /** Python's `text[start : start + size]` for `0 <= start <= len(text)`,
      on strings and on lists alike. */
  function Window<T>(text: seq<T>, start: nat, size: nat): (w: seq<T>)
    requires start <= |text|
    ensures |w| == Min(size, |text| - start)
  {
    text[start..Min(start + size, |text|)]
  }

  /** The windows cut by the loop of `load_and_chunk_pdf` from offset `start`
      on: one at `start`, `start + step`, ... while the offset is inside the
      text. */
  function ChunksFrom<T>(text: seq<T>, size: nat, step: nat, start: nat): (cs: seq<seq<T>>)
    requires step > 0
    ensures start >= |text| <==> cs == []
    decreases |text| - start
  {
    if start >= |text| then []
    else [Window(text, start, size)] + ChunksFrom(text, size, step, start + step)
  }

  lemma {:induction false} ChunksFromLength<T>(text: seq<T>, size: nat, step: nat, start: nat)
    requires step > 0
    requires start <= |text|
    ensures |ChunksFrom(text, size, step, start)| == ChunkCount(|text| - start, step)
    decreases |text| - start
  {
    if start < |text| && start + step < |text| {
      ChunksFromLength(text, size, step, start + step);
    }
  }

  /** The chunks of a whole text. */
  function Chunks<T>(text: seq<T>, size: nat, step: nat): (cs: seq<seq<T>>)
    requires step > 0
  {
    ChunksFrom(text, size, step, 0)
  }

  /** `load_and_chunk_pdf`: join the page texts, then cut a window at every
      element of `range(0, len(text), chunk_size - chunk_overlap)`. */
  method LoadAndChunkPdf(pages: seq<string>, size: nat, overlap: int)
    returns (r: Result<seq<string>, ChunkError>)
    ensures r.Failure? <==> size == overlap
    ensures size < overlap ==> r == Success([])
    ensures size > overlap ==> r == Success(Chunks(Flatten(pages), size, size - overlap))
  {
    var text := Flatten(pages);
    var step := size - overlap;
    if step == 0 {
      return Failure(ZeroStep);
    }
    var chunks: seq<string> := [];
    if step < 0 {
      return Success(chunks);
    }
    var i: nat := 0;
    while i < |text|
      invariant chunks + ChunksFrom(text, size, step, i) == Chunks(text, size, step)
      decreases |text| - i
    {
      var rest := ChunksFrom(text, size, step, i + step);
      assert ChunksFrom(text, size, step, i) == [text[i..Min(i + size, |text|)]] + rest;
      assert chunks + ([text[i..Min(i + size, |text|)]] + rest)
          == (chunks + [text[i..Min(i + size, |text|)]]) + rest;
      chunks := chunks + [text[i..Min(i + size, |text|)]];
      i := i + step;
    }
    assert chunks + [] == chunks;
    return Success(chunks);
  }

  /** Chunk `k` of the run from `start` is the window at `start + k * step`. */
  lemma {:induction false} ChunksFromAt<T>(text: seq<T>, size: nat, step: nat, start: nat, k: nat)
    requires step > 0
    requires k < |ChunksFrom(text, size, step, start)|
    ensures start + Offset(k, step) < |text|
    ensures ChunksFrom(text, size, step, start)[k] == Window(text, start + Offset(k, step), size)
    decreases k
  {
    if k > 0 {
      ChunksFromAt(text, size, step, start + step, k - 1);
    }
  }

  /** Chunk `k` is the window at offset `k * step`: it starts inside the
      text, and its length is `size` or whatever remains of the text. */
  lemma ChunkOffsets<T>(text: seq<T>, size: nat, step: nat, k: nat)
    requires 0 < step
    requires k < |Chunks(text, size, step)|
    ensures Offset(k, step) < |text|
    ensures Chunks(text, size, step)[k] == text[Offset(k, step)..Min(Offset(k, step) + size, |text|)]
    ensures |Chunks(text, size, step)[k]| == Min(size, |text| - Offset(k, step)) <= size
  {
    ChunksFromAt(text, size, step, 0, k);
  }

  /** The number of chunks is ceil(|text| / step); an empty text has none. */
  lemma ChunkCountOfText<T>(text: seq<T>, size: nat, step: nat)
    requires 0 < step
    ensures |Chunks(text, size, step)| == (|text| + step - 1) / step
    ensures Chunks(text, size, step) == [] <==> text == []
  {
    ChunksFromLength(text, size, step, 0);
    ChunkCountIsCeiling(|text|, step);
  }

  /** What survives of each chunk once the part it shares with its successor
      is cut: its first `step` characters. */
  function Heads<T>(cs: seq<seq<T>>, step: nat): (hs: seq<seq<T>>)
    ensures |hs| == |cs|
  {
    if |cs| == 0 then [] else [cs[0][..Min(step, |cs[0]|)]] + Heads(cs[1..], step)
  }

  lemma {:induction false} HeadsFrom<T>(text: seq<T>, size: nat, step: nat, start: nat)
    requires 0 < step <= size
    requires start <= |text|
    ensures Flatten(Heads(ChunksFrom(text, size, step, start), step)) == text[start..]
    decreases |text| - start
  {
    var cs := ChunksFrom(text, size, step, start);
    if start < |text| {
      var next := start + step;
      var head := text[start..Min(next, |text|)];
      assert cs[1..] == ChunksFrom(text, size, step, next);
      assert cs[0] == text[start..Min(start + size, |text|)];
      assert cs[0][..Min(step, |cs[0]|)] == head;
      assert Heads(cs, step) == [head] + Heads(ChunksFrom(text, size, step, next), step);
      if next < |text| {
        HeadsFrom(text, size, step, next);
        assert text[start..] == head + text[next..];
      } else {
        assert Heads(ChunksFrom(text, size, step, next), step) == [];
      }
    }
  }

  /** Dropping from every chunk what it shares with the next one and
      concatenating the rest gives back the text exactly. */
  lemma RoundTrip<T>(text: seq<T>, size: nat, overlap: nat)
    requires overlap < size
    ensures Flatten(Heads(Chunks(text, size, size - overlap), size - overlap)) == text
  {
    HeadsFrom(text, size, size - overlap, 0);
  }

  /** A full-length chunk ends with the `overlap` characters its successor
      starts with. */
  lemma Overlap<T>(text: seq<T>, size: nat, overlap: nat, k: nat)
    requires overlap < size
    requires k + 1 < |Chunks(text, size, size - overlap)|
    requires |Chunks(text, size, size - overlap)[k]| == size
    ensures |Chunks(text, size, size - overlap)[k + 1]| >= overlap
    ensures Chunks(text, size, size - overlap)[k][size - overlap..]
         == Chunks(text, size, size - overlap)[k + 1][..overlap]
  {
    var step := size - overlap;
    var cs := Chunks(text, size, step);
    ChunksFromAt(text, size, step, 0, k);
    ChunksFromAt(text, size, step, 0, k + 1);
    var a := Offset(k, step);
    assert Offset(k + 1, step) == a + step;
    assert cs[k] == text[a..a + size];
    var e := Min(a + step + size, |text|);
    assert cs[k + 1] == text[a + step..e];
    SubSlice(text, a, a + size, step, size);
    SubSlice(text, a + step, e, 0, overlap);
  }

  lemma SubSlice<T>(t: seq<T>, a: nat, b: nat, i: nat, j: nat)
    requires a <= b <= |t|
    requires i <= j <= b - a
    ensures t[a..b][i..j] == t[a + i..a + j]
  {
    var u := t[a..b];
    forall k | 0 <= k < j - i
      ensures u[i..j][k] == t[a + i..a + j][k]
    {
      assert u[i..j][k] == u[i + k] == t[a + i + k];
    }
  }

  lemma SliceDrop<T>(t: seq<T>, a: nat, s: nat)
    requires a + s <= |t|
    ensures t[a..][s..] == t[a + s..]
  {
  }

  /** A chunk starting within the last `overlap` characters of the text is
      the tail of its predecessor: it adds no new character to the index. */
  lemma TailContained<T>(text: seq<T>, size: nat, overlap: nat, k: nat)
    requires overlap < size
    requires 0 < k < |Chunks(text, size, size - overlap)|
    requires |text| - Offset(k, size - overlap) <= overlap
    ensures |Chunks(text, size, size - overlap)[k - 1]| > size - overlap
    ensures Chunks(text, size, size - overlap)[k - 1][size - overlap..]
         == Chunks(text, size, size - overlap)[k]
  {
    var step := size - overlap;
    var cs := Chunks(text, size, step);
    ChunksFromAt(text, size, step, 0, k - 1);
    ChunksFromAt(text, size, step, 0, k);
    var a := Offset(k - 1, step);
    assert Offset(k, step) == a + step;
    assert Min(a + size, |text|) == |text|;
    assert Min(a + step + size, |text|) == |text|;
    SliceDrop(text, a, step);
  }

  /** With the defaults, a 1700-character text gives three chunks of which the
      last two are shorter than the chunk size. */
  lemma ShortTailExample(text: string)
    requires |text| == 1700
    ensures |Chunks(text, DefaultChunkSize, DefaultChunkSize - DefaultChunkOverlap)| == 3
    ensures var cs := Chunks(text, DefaultChunkSize, DefaultChunkSize - DefaultChunkOverlap);
      |cs[0]| == 1000 && |cs[1]| == 900 && |cs[2]| == 100
  {
    var cs := Chunks(text, DefaultChunkSize, DefaultChunkSize - DefaultChunkOverlap);
    ChunksFromLength(text, 1000, 800, 0);
    ChunksFromAt(text, 1000, 800, 0, 0);
    ChunksFromAt(text, 1000, 800, 0, 1);
    ChunksFromAt(text, 1000, 800, 0, 2);
  }
}
