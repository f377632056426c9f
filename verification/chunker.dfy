/** The sliding-window chunker of `ingest_notes.chunk_text`: windows of
    `chunk_size` characters start every `chunk_size - overlap` characters;
    each window is stripped and kept only when more than 50 characters remain. */
module Chunker {
  import opened Text

  /** A stripped window must be longer than this to become a chunk. */
  const MinChunkLength: nat := 50

  /** The parameters the upload and ingestion paths pass. */
  const IngestChunkSize: int := 500
  const IngestOverlap: int := 50

  /** A kept window: where it starts in the text, and its stripped contents. */
  datatype Chunk = Chunk(start: nat, text: string)

  /** The window starting at `start`, stripped: `text[start:start+size].strip()`. */
  function Window(text: string, start: nat, size: int): string {
    Strip(Slice(text, start, start + size))
  }

  /** The window of `size` characters at each offset of `text`. */
  function WindowOf(text: string, size: int): nat -> string {
    (start: nat) => Window(text, start, size)
  }

  /** The most characters a window of `size` can hold in a text of length
      `n`: `size` itself, or for a negative size, whose stop index counts
      from the end of the text, what is left of the text once `-size`
      characters are cut off its end. */
  function MaxWindow(n: nat, size: int): nat {
    if 0 <= size then size else if n + size <= 0 then 0 else n + size
  }

  /** A stripped window holds at most `MaxWindow` characters. */
  lemma WindowLength(text: string, start: nat, size: int)
    ensures |Window(text, start, size)| <= MaxWindow(|text|, size)
  {
  }

  function Starts(cs: seq<Chunk>): (r: seq<nat>)
    ensures |r| == |cs| && forall i :: 0 <= i < |cs| ==> r[i] == cs[i].start
  {
    if |cs| == 0 then [] else [cs[0].start] + Starts(cs[1..])
  }

  function Texts(cs: seq<Chunk>): (r: seq<string>)
    ensures |r| == |cs| && forall i :: 0 <= i < |cs| ==> r[i] == cs[i].text
  {
    if |cs| == 0 then [] else [cs[0].text] + Texts(cs[1..])
  }

  /** Offset `s` is reached from `from` by whole steps of `step`. */
  predicate Reached(s: int, from: int, step: int)
    requires step > 0
    decreases s - from
  {
    s == from || (s >= from + step && Reached(s, from + step, step))
  }

  lemma ReachedNext(s: int, from: int, step: int)
    requires step > 0 && Reached(s, from, step) && s != from
    ensures from + step <= s && Reached(s, from + step, step)
  {
  }

  /** How many window starts `from, from + step, ...` lie below `from + n`. */
  function WindowCount(n: int, step: int): nat
    requires step > 0
    decreases n
  {
    if n <= 0 then 0 else 1 + WindowCount(n - step, step)
  }

  /** The offsets the loop of `chunk_text` visits from `start` on, each with
      what `win` makes of it: while the offset is below `n`, take it and move
      on by `step`. */
  function Windows(n: int, step: int, start: nat, win: nat -> string): seq<Chunk>
    requires 0 < step
    decreases n - start
  {
    if start >= n then [] else [Chunk(start, win(start))] + Windows(n, step, start + step, win)
  }

  /** The windows the loop keeps: those whose strip is longer than 50 characters. */
  function Kept(ws: seq<Chunk>): (r: seq<Chunk>)
    ensures |r| <= |ws|
    ensures forall i :: 0 <= i < |r| ==> MinChunkLength < |r[i].text|
    ensures forall c :: c in r <==> c in ws && MinChunkLength < |c.text|
  {
    if |ws| == 0 then []
    else if MinChunkLength < |ws[0].text| then [ws[0]] + Kept(ws[1..])
    else Kept(ws[1..])
  }

  /** Every offset visited is below `n` and reached from `start` by whole
      steps, and carries what `win` makes of it. */
  lemma {:induction false} WindowsPlaced(n: int, step: int, start: nat, win: nat -> string)
    requires 0 < step
    ensures forall c :: c in Windows(n, step, start, win) ==>
      start <= c.start < n && Reached(c.start, start, step) && c.text == win(c.start)
    decreases n - start
  {
    if start < n {
      WindowsPlaced(n, step, start + step, win);
    }
  }

  /** Every offset the loop reaches below `n` is visited. */
  lemma {:induction false} WindowsComplete(n: int, step: int, start: nat, win: nat -> string, s: nat)
    requires 0 < step
    requires start <= s < n && Reached(s, start, step)
    ensures Chunk(s, win(s)) in Windows(n, step, start, win)
    decreases n - start
  {
    if s != start {
      ReachedNext(s, start, step);
      WindowsComplete(n, step, start + step, win, s);
    }
  }

  /** The loop visits one offset per step until it reaches `n`. */
  lemma {:induction false} WindowsCount(n: int, step: int, start: nat, win: nat -> string)
    requires 0 < step
    ensures |Windows(n, step, start, win)| == WindowCount(n - start, step)
    decreases n - start
  {
    if start < n {
      WindowsCount(n, step, start + step, win);
    }
  }

  predicate StrictlyIncreasing(xs: seq<nat>) {
    forall i, j :: 0 <= i < j < |xs| ==> xs[i] < xs[j]
  }

  /** A chunk placed before chunks that all start later keeps the starts increasing. */
  lemma IncreasingPrepend(c: Chunk, cs: seq<Chunk>)
    requires StrictlyIncreasing(Starts(cs)) && forall d :: d in cs ==> c.start < d.start
    ensures StrictlyIncreasing(Starts([c] + cs))
  {
    var ys := Starts([c] + cs);
    forall i, j | 0 <= i < j < |ys|
      ensures ys[i] < ys[j]
    {
      assert ([c] + cs)[j] == cs[j - 1];
      if i > 0 {
        assert ([c] + cs)[i] == cs[i - 1];
      }
    }
  }

  /** The loop visits offsets in strictly increasing order. */
  lemma {:induction false} WindowsIncreasing(n: int, step: int, start: nat, win: nat -> string)
    requires 0 < step
    ensures StrictlyIncreasing(Starts(Windows(n, step, start, win)))
    decreases n - start
  {
    if start < n {
      WindowsIncreasing(n, step, start + step, win);
      WindowsAfter(n, step, start + step, win);
      IncreasingPrepend(Chunk(start, win(start)), Windows(n, step, start + step, win));
    }
  }

  /** Every offset visited from `start` on is at least `start`. */
  lemma {:induction false} WindowsAfter(n: int, step: int, start: nat, win: nat -> string)
    requires 0 < step
    ensures forall c :: c in Windows(n, step, start, win) ==> start <= c.start
    decreases n - start
  {
    if start < n {
      WindowsAfter(n, step, start + step, win);
    }
  }

  /** Filtering keeps the starts strictly increasing. */
  lemma {:induction false} KeptIncreasing(ws: seq<Chunk>)
    requires StrictlyIncreasing(Starts(ws))
    ensures StrictlyIncreasing(Starts(Kept(ws)))
  {
    if |ws| > 0 {
      var tail := ws[1..];
      assert Starts(ws) == [ws[0].start] + Starts(tail);
      assert StrictlyIncreasing(Starts(tail)) by {
        forall i, j | 0 <= i < j < |tail|
          ensures tail[i].start < tail[j].start
        {
          assert Starts(ws)[i + 1] < Starts(ws)[j + 1];
        }
      }
      KeptIncreasing(tail);
      if MinChunkLength < |ws[0].text| {
        forall d | d in Kept(tail)
          ensures ws[0].start < d.start
        {
          var j :| 0 <= j < |tail| && tail[j] == d;
          assert Starts(ws)[0] < Starts(ws)[j + 1];
        }
        IncreasingPrepend(ws[0], Kept(tail));
      }
    }
  }

  /** The chunks `chunk_text` produces, with the offsets they start at. */
  function ChunksOf(text: string, chunkSize: int, overlap: int): seq<Chunk>
    requires overlap < chunkSize
  {
    Kept(Windows(|text|, chunkSize - overlap, 0, WindowOf(text, chunkSize)))
  }

  /** Every chunk is the stripped window at its own offset, an offset inside
      the text and a whole number of steps from 0; there is at most one
      chunk per step. */
  lemma ChunksOfPlaced(text: string, chunkSize: int, overlap: int)
    requires overlap < chunkSize
    ensures forall c :: c in ChunksOf(text, chunkSize, overlap) ==>
      && c.start < |text|
      && Reached(c.start, 0, chunkSize - overlap)
      && c.text == Window(text, c.start, chunkSize)
    ensures |ChunksOf(text, chunkSize, overlap)| <= WindowCount(|text|, chunkSize - overlap)
  {
    var win := WindowOf(text, chunkSize);
    WindowsPlaced(|text|, chunkSize - overlap, 0, win);
    WindowsCount(|text|, chunkSize - overlap, 0, win);
  }

  /** Every chunk holds at most `MaxWindow` characters. */
  lemma ChunksOfBounded(text: string, chunkSize: int, overlap: int)
    requires overlap < chunkSize
    ensures forall c :: c in ChunksOf(text, chunkSize, overlap) ==> |c.text| <= MaxWindow(|text|, chunkSize)
  {
    ChunksOfPlaced(text, chunkSize, overlap);
    forall c | c in ChunksOf(text, chunkSize, overlap)
      ensures |c.text| <= MaxWindow(|text|, chunkSize)
    {
      WindowLength(text, c.start, chunkSize);
    }
  }

  /** `chunk_text(text, chunk_size, overlap)`. The source loops forever on a
      non-empty text when `overlap >= chunk_size`, hence the precondition.
      A negative `chunk_size` is a stop index counted from the end of the
      text, so a chunk can then be longer than `chunk_size`. */
  function ChunkText(text: string, chunkSize: int, overlap: int): (chunks: seq<string>)
    requires overlap < chunkSize
    ensures |text| == 0 ==> chunks == []
    ensures forall i :: 0 <= i < |chunks| ==> MinChunkLength < |chunks[i]| <= MaxWindow(|text|, chunkSize)
    ensures |chunks| <= WindowCount(|text|, chunkSize - overlap)
  {
    ChunksOfPlaced(text, chunkSize, overlap);
    ChunksOfBounded(text, chunkSize, overlap);
    ChunkLengths(ChunksOf(text, chunkSize, overlap), MaxWindow(|text|, chunkSize));
    Texts(ChunksOf(text, chunkSize, overlap))
  }

  /** Kept windows of at most `bound` characters give chunk texts longer
      than 50 and at most `bound` characters. */
  lemma ChunkLengths(r: seq<Chunk>, bound: int)
    requires forall i :: 0 <= i < |r| ==> MinChunkLength < |r[i].text|
    requires forall c :: c in r ==> |c.text| <= bound
    ensures forall i :: 0 <= i < |Texts(r)| ==> MinChunkLength < |Texts(r)[i]| <= bound
  {
    assert forall i :: 0 <= i < |r| ==> r[i] in r;
  }

  /** Start offsets of the windows `chunk_text` keeps, one per chunk. */
  function ChunkStarts(text: string, chunkSize: int, overlap: int): seq<nat>
    requires overlap < chunkSize
  {
    Starts(ChunksOf(text, chunkSize, overlap))
  }

  lemma StartsMember(cs: seq<Chunk>, c: Chunk)
    requires c in cs
    ensures c.start in Starts(cs)
  {
    var i :| 0 <= i < |cs| && cs[i] == c;
    assert Starts(cs)[i] == c.start;
  }

  /** Euclidean division is determined by its defining equation. */
  lemma DivModUnique(a: int, d: int, q: int, r: int)
    requires d > 0 && 0 <= r < d && a == q * d + r
    ensures a / d == q && a % d == r
  {
    var q', r' := a / d, a % d;
    var z := q - q';
    assert z * d == r' - r by {
      assert z * d == q * d - q' * d;
    }
    if z >= 1 {
      MultipleAtLeast(z, d);
    } else if z <= -1 {
      MultipleAtLeast(-z, d);
    }
  }

  /** A positive multiple of a positive number is at least that number. */
  lemma {:induction false} MultipleAtLeast(z: int, d: int)
    requires z >= 1 && d > 0
    ensures z * d >= d
    decreases z
  {
    if z > 1 {
      MultipleAtLeast(z - 1, d);
      assert z * d == (z - 1) * d + d;
    }
  }

  /** Reaching `s` by whole steps means `s - from` is a multiple of `step`. */
  lemma {:induction false} ReachedIsMultiple(s: int, from: int, step: int)
    requires step > 0 && from <= s
    ensures Reached(s, from, step) <==> (s - from) % step == 0
    decreases s - from
  {
    if s - from < step {
      DivModUnique(s - from, step, 0, s - from);
    } else {
      ReachedIsMultiple(s, from + step, step);
      var x := s - from - step;
      DivModUnique(x + step, step, x / step + 1, x % step);
    }
  }

  /** The number of window starts is the ceiling of `n / step`. */
  lemma {:induction false} WindowCountIsCeiling(n: nat, step: int)
    requires step > 0
    ensures WindowCount(n, step) == (n + step - 1) / step
    decreases n
  {
    if n == 0 {
      DivModUnique(step - 1, step, 0, step - 1);
    } else if n <= step {
      DivModUnique(n + step - 1, step, 1, n - 1);
    } else {
      WindowCountIsCeiling(n - step, step);
      var x := n - 1;
      DivModUnique(x + step, step, x / step + 1, x % step);
    }
  }

  /** Chunk `i` is the stripped window at offset `ChunkStarts[i]`, an offset
      inside the text and a multiple of `chunk_size - overlap`. */
  lemma ChunkTextWindows(text: string, chunkSize: int, overlap: int)
    requires overlap < chunkSize
    ensures |ChunkStarts(text, chunkSize, overlap)| == |ChunkText(text, chunkSize, overlap)|
    ensures forall i :: 0 <= i < |ChunkText(text, chunkSize, overlap)| ==>
      && ChunkStarts(text, chunkSize, overlap)[i] < |text|
      && ChunkStarts(text, chunkSize, overlap)[i] % (chunkSize - overlap) == 0
      && ChunkText(text, chunkSize, overlap)[i]
         == Window(text, ChunkStarts(text, chunkSize, overlap)[i], chunkSize)
  {
    var r := ChunksOf(text, chunkSize, overlap);
    ChunksOfPlaced(text, chunkSize, overlap);
    ChunksOnGrid(text, chunkSize, overlap);
    forall i | 0 <= i < |r|
      ensures r[i].start < |text| && r[i].start % (chunkSize - overlap) == 0
      ensures r[i].text == Window(text, r[i].start, chunkSize)
    {
      assert r[i] in r;
    }
    assert ChunkText(text, chunkSize, overlap) == Texts(r);
    assert ChunkStarts(text, chunkSize, overlap) == Starts(r);
  }

  lemma ChunksOnGrid(text: string, chunkSize: int, overlap: int)
    requires overlap < chunkSize
    ensures forall c :: c in ChunksOf(text, chunkSize, overlap) ==> c.start % (chunkSize - overlap) == 0
  {
    ChunksOfPlaced(text, chunkSize, overlap);
    forall c | c in ChunksOf(text, chunkSize, overlap)
      ensures c.start % (chunkSize - overlap) == 0
    {
      ReachedIsMultiple(c.start, 0, chunkSize - overlap);
    }
  }

  /** The chunks come out in strictly increasing order of offset. */
  lemma ChunkStartsIncreasing(text: string, chunkSize: int, overlap: int)
    requires overlap < chunkSize
    ensures StrictlyIncreasing(ChunkStarts(text, chunkSize, overlap))
  {
    var win := WindowOf(text, chunkSize);
    WindowsIncreasing(|text|, chunkSize - overlap, 0, win);
    KeptIncreasing(Windows(|text|, chunkSize - overlap, 0, win));
  }

  /** No long-enough window is skipped: every offset inside the text that is
      a multiple of `chunk_size - overlap` and whose stripped window has more
      than 50 characters starts a chunk. */
  lemma ChunkTextComplete(text: string, chunkSize: int, overlap: int, s: nat)
    requires overlap < chunkSize
    requires s < |text| && s % (chunkSize - overlap) == 0
    requires MinChunkLength < |Window(text, s, chunkSize)|
    ensures s in ChunkStarts(text, chunkSize, overlap)
  {
    var win := WindowOf(text, chunkSize);
    ReachedIsMultiple(s, 0, chunkSize - overlap);
    WindowsComplete(|text|, chunkSize - overlap, 0, win, s);
    StartsMember(ChunksOf(text, chunkSize, overlap), Chunk(s, Window(text, s, chunkSize)));
  }

  /** At most `ceil(len(text) / (chunk_size - overlap))` chunks are produced. */
  lemma ChunkCountBound(text: string, chunkSize: int, overlap: int)
    requires overlap < chunkSize
    ensures |ChunkText(text, chunkSize, overlap)|
      <= (|text| + (chunkSize - overlap) - 1) / (chunkSize - overlap)
  {
    WindowCountIsCeiling(|text|, chunkSize - overlap);
  }

  /** Text that fits in one window and strips to at most 50 characters gives no chunk:
      every later window is a piece of it and strips to no more. */
  lemma ShortTextNoChunks(text: string, chunkSize: int, overlap: int)
    requires overlap < chunkSize
    requires |text| <= chunkSize && |Strip(text)| <= MinChunkLength
    ensures ChunkText(text, chunkSize, overlap) == []
  {
    var r := ChunksOf(text, chunkSize, overlap);
    ChunksOfPlaced(text, chunkSize, overlap);
    WindowsInShortText(text, chunkSize);
    assert forall i :: 0 <= i < |r| ==> r[i] in r;
  }

  /** When the text fits in one window, every window is a piece of it and
      strips to no more than the whole text does. */
  lemma WindowsInShortText(text: string, size: int)
    requires |text| <= size
    ensures forall s: nat :: s < |text| ==> |Window(text, s, size)| <= |Strip(text)|
  {
    forall s: nat | s < |text|
      ensures |Window(text, s, size)| <= |Strip(text)|
    {
      assert Slice(text, s, s + size) == text[s..|text|];
      StripInfixShorter(text, s, |text|);
    }
  }

  /** A window over text without whitespace is the slice itself. */
  lemma SolidWindow(text: string, start: nat, end: nat, size: int)
    requires forall k :: 0 <= k < |text| ==> !IsSpace(text[k])
    requires start <= end <= |text| && end == (if start + size <= |text| then start + size else |text|)
    ensures Window(text, start, size) == text[start..end]
  {
    assert Slice(text, start, start + size) == text[start..end];
    StripNoSpace(text[start..end]);
  }

  /** The windows over 1200 characters with a step of 450 start at 0, 450
      and 900. */
  lemma TwelveHundredWindows(text: string)
    requires |text| == 1200 && forall k :: 0 <= k < |text| ==> !IsSpace(text[k])
    ensures Windows(1200, 450, 0, WindowOf(text, 500))
      == [Chunk(0, text[0..500]), Chunk(450, text[450..950]), Chunk(900, text[900..1200])]
  {
    var win := WindowOf(text, 500);
    SolidWindow(text, 0, 500, 500);
    SolidWindow(text, 450, 950, 500);
    SolidWindow(text, 900, 1200, 500);
    assert Windows(1200, 450, 1350, win) == [];
    assert Windows(1200, 450, 900, win) == [Chunk(900, text[900..1200])];
    assert Windows(1200, 450, 450, win) == [Chunk(450, text[450..950]), Chunk(900, text[900..1200])];
  }

  /** Text of 1200 non-whitespace characters chunked with size 500 and
      overlap 50 gives three chunks, the windows at offsets 0, 450 and 900. */
  lemma TwelveHundredCharacters(text: string)
    requires |text| == 1200 && forall k :: 0 <= k < |text| ==> !IsSpace(text[k])
    ensures ChunkText(text, 500, 50) == [text[0..500], text[450..950], text[900..1200]]
  {
    TwelveHundredChunks(text);
    var w := ChunksOf(text, 500, 50);
    assert Texts(w) == [w[0].text] + Texts(w[1..]);
    assert Texts(w[1..]) == [w[1].text] + Texts(w[2..]);
  }

  /** The offsets of those three chunks. */
  lemma TwelveHundredStarts(text: string)
    requires |text| == 1200 && forall k :: 0 <= k < |text| ==> !IsSpace(text[k])
    ensures ChunkStarts(text, 500, 50) == [0, 450, 900]
  {
    TwelveHundredChunks(text);
  }

  /** All three windows are long enough to be kept. */
  lemma TwelveHundredChunks(text: string)
    requires |text| == 1200 && forall k :: 0 <= k < |text| ==> !IsSpace(text[k])
    ensures ChunksOf(text, 500, 50) == [Chunk(0, text[0..500]), Chunk(450, text[450..950]), Chunk(900, text[900..1200])]
  {
    var w := [Chunk(0, text[0..500]), Chunk(450, text[450..950]), Chunk(900, text[900..1200])];
    TwelveHundredWindows(text);
    assert |w[0].text| == 500 && |w[1].text| == 500 && |w[2].text| == 300;
    KeptAll(w);
  }

  /** Windows that are all longer than 50 characters are all kept. */
  lemma {:induction false} KeptAll(ws: seq<Chunk>)
    requires forall i :: 0 <= i < |ws| ==> MinChunkLength < |ws[i].text|
    ensures Kept(ws) == ws
  {
    if |ws| > 0 {
      KeptAll(ws[1..]);
    }
  }

  /** A negative `chunk_size` slices up to a stop counted from the end of
      the text: 100 non-blank characters with size -5 and overlap -10 (a
      step of 5) give one chunk of 95 characters, since the first window
      is `text[0:-5]` and every later window `text[s:s-5]` is empty. */
  lemma NegativeSizeCountsFromEnd(text: string)
    requires |text| == 100 && forall k :: 0 <= k < |text| ==> !IsSpace(text[k])
    ensures ChunkText(text, -5, -10) == [text[0..95]]
  {
    NegativeSizeChunks(text);
  }

  /** The one window kept there starts at 0. */
  lemma NegativeSizeChunks(text: string)
    requires |text| == 100 && forall k :: 0 <= k < |text| ==> !IsSpace(text[k])
    ensures ChunksOf(text, -5, -10) == [Chunk(0, text[0..95])]
  {
    var win := WindowOf(text, -5);
    FirstNegativeWindow(text);
    LaterWindowsEmpty(text, 5);
    assert Windows(100, 5, 0, win) == [Chunk(0, text[0..95])] + Windows(100, 5, 5, win);
  }

  /** The first window of size -5 is `text[0:-5]`. */
  lemma FirstNegativeWindow(text: string)
    requires |text| == 100 && forall k :: 0 <= k < |text| ==> !IsSpace(text[k])
    ensures Window(text, 0, -5) == text[0..95]
  {
    assert Slice(text, 0, -5) == text[0..95];
    StripNoSpace(text[0..95]);
  }

  /** Past its size, a window of negative size is empty, so none is kept. */
  lemma {:induction false} LaterWindowsEmpty(text: string, start: nat)
    requires 5 <= start
    ensures Kept(Windows(|text|, 5, start, WindowOf(text, -5))) == []
    decreases |text| - start
  {
    if start < |text| {
      assert Slice(text, start, start - 5) == [];
      LaterWindowsEmpty(text, start + 5);
    }
  }
}
