/** Token estimation and token-budget chunking of an ordered list of texts
    (internal/chunker/chunker.go). */
module Chunker {

  /** One byte of a Go string; Go's `len` on a string counts these. */
  newtype Byte = b: int | 0 <= b < 256

  /** A text item, as the bytes of its UTF-8 encoding. */
  type Text = seq<Byte>

  /** An ordered group of texts sent together to a translator. */
  type Batch = seq<Text>

  /** The budget used when the caller passes a non-positive one. */
  const DefaultMaxTokens: nat := 3000

  /** About four bytes per token, never zero for a non-empty text. */
  function EstimateTokens(text: Text): (n: nat)
    ensures n == 0 <==> text == []
    ensures 0 < |text| < 4 ==> n == 1
    ensures |text| >= 4 ==> 4 * n <= |text| < 4 * n + 4
  {
    if |text| == 0 then 0
    else
      var tokens := |text| / 4;
      if tokens == 0 then 1 else tokens
  }

  /** The budget actually used for a requested `maxTokens`. */
  function EffectiveMax(maxTokens: int): (m: nat)
    ensures m > 0
    ensures maxTokens > 0 ==> m == maxTokens
    ensures maxTokens <= 0 ==> m == DefaultMaxTokens
  {
    if maxTokens <= 0 then DefaultMaxTokens else maxTokens
  }

  /** Sum of the token estimates of a batch. */
  function Tokens(batch: Batch): nat
  {
    if batch == [] then 0 else Tokens(batch[..|batch| - 1]) + EstimateTokens(batch[|batch| - 1])
  }

  /** The batches laid end to end. */
  function Flatten(batches: seq<Batch>): seq<Text>
  {
    if batches == [] then [] else Flatten(batches[..|batches| - 1]) + batches[|batches| - 1]
  }

  // ---------------------------------------------------------------------------
  // The scan of ChunkByTokens as a fold over the texts

  /** The variables of the scan: the chunks emitted so far, the chunk being
      filled and its running token total. */
  datatype ScanState = ScanState(chunks: seq<Batch>, current: Batch, currentTokens: int)

  /** Closes the chunk being filled, if it holds anything. */
  function Flush(st: ScanState): ScanState
  {
    if |st.current| > 0 then ScanState(st.chunks + [st.current], [], 0) else st
  }

  /** One iteration of the scan on `text` under budget `max`. */
  function Step(max: nat, st: ScanState, text: Text): ScanState
  {
    var textTokens := EstimateTokens(text);
    if textTokens > max then
      var flushed := Flush(st);
      ScanState(flushed.chunks + [[text]], flushed.current, flushed.currentTokens)
    else
      var open := if st.currentTokens + textTokens > max && |st.current| > 0 then Flush(st) else st;
      ScanState(open.chunks, open.current + [text], open.currentTokens + textTokens)
  }

  /** The scan state after the texts have been visited in order. */
  function Run(max: nat, texts: seq<Text>): ScanState
  {
    if texts == [] then ScanState([], [], 0)
    else Step(max, Run(max, texts[..|texts| - 1]), texts[|texts| - 1])
  }

  /** What ChunkByTokens returns. */
  function ChunkSpec(texts: seq<Text>, maxTokens: int): seq<Batch>
  {
    if |texts| == 0 then [] else Flush(Run(EffectiveMax(maxTokens), texts)).chunks
  }

  /** Splits `texts` into consecutive chunks whose estimated token total stays
      within `maxTokens` (or DefaultMaxTokens when it is not positive); a text
      over budget on its own gets a chunk to itself. */
  method ChunkByTokens(texts: seq<Text>, maxTokens: int) returns (chunks: seq<Batch>)
    ensures chunks == ChunkSpec(texts, maxTokens)
  {
    if |texts| == 0 {
      return [];
    }
    var max := maxTokens;
    if max <= 0 {
      max := DefaultMaxTokens;
    }
    assert max == EffectiveMax(maxTokens);
    chunks := [];
    var currentChunk: Batch := [];
    var currentTokens := 0;
    for i := 0 to |texts|
      invariant ScanState(chunks, currentChunk, currentTokens) == Run(max, texts[..i])
    {
      assert texts[..i + 1][..i] == texts[..i];
      var text := texts[i];
      var textTokens := EstimateTokens(text);
      if textTokens > max {
        if |currentChunk| > 0 {
          chunks := chunks + [currentChunk];
          currentChunk := [];
          currentTokens := 0;
        }
        chunks := chunks + [[text]];
        continue;
      }
      if currentTokens + textTokens > max && |currentChunk| > 0 {
        chunks := chunks + [currentChunk];
        currentChunk := [];
        currentTokens := 0;
      }
      currentChunk := currentChunk + [text];
      currentTokens := currentTokens + textTokens;
    }
    assert texts[..|texts|] == texts;
    if |currentChunk| > 0 {
      chunks := chunks + [currentChunk];
    }
  }

  // ---------------------------------------------------------------------------
  // What every chunking promises

  /** A chunk is non-empty and within budget, or it is one text that is over
      budget on its own. */
  predicate Fits(max: nat, chunk: Batch)
  {
    |chunk| > 0 && (Tokens(chunk) <= max || (|chunk| == 1 && EstimateTokens(chunk[0]) > max))
  }

  /** Every chunk was closed only because the next text did not fit. */
  predicate Greedy(max: nat, chunks: seq<Batch>)
  {
    forall j :: 0 < j < |chunks| ==>
      |chunks[j]| > 0 && Tokens(chunks[j - 1]) + EstimateTokens(chunks[j][0]) > max
  }

  /** The invariant of the scan. */
  ghost predicate ScanInv(max: nat, st: ScanState)
  {
    && st.currentTokens == Tokens(st.current) <= max
    && (forall j :: 0 <= j < |st.chunks| ==> Fits(max, st.chunks[j]))
    && Greedy(max, st.chunks)
    && (|st.chunks| > 0 && |st.current| > 0 ==>
          Tokens(st.chunks[|st.chunks| - 1]) + EstimateTokens(st.current[0]) > max)
    && (|st.chunks| > 0 && |st.current| == 0 ==> Tokens(st.chunks[|st.chunks| - 1]) > max)
  }

  lemma TokensAppend(batch: Batch, text: Text)
    ensures Tokens(batch + [text]) == Tokens(batch) + EstimateTokens(text)
  {
    assert (batch + [text])[..|batch|] == batch;
  }

  lemma FlattenAppend(batches: seq<Batch>, batch: Batch)
    ensures Flatten(batches + [batch]) == Flatten(batches) + batch
  {
    assert (batches + [batch])[..|batches|] == batches;
  }

  /** A chunk's total is at least the estimate of each of its texts. */
  lemma {:induction false} TokensBound(batch: Batch, k: nat)
    requires k < |batch|
    ensures EstimateTokens(batch[k]) <= Tokens(batch)
  {
    if k < |batch| - 1 {
      TokensBound(batch[..|batch| - 1], k);
    }
  }

  /** Non-empty batches flatten to at least one text each. */
  lemma {:induction false} FlattenLength(batches: seq<Batch>)
    requires forall j :: 0 <= j < |batches| ==> |batches[j]| > 0
    ensures |Flatten(batches)| >= |batches|
  {
    if batches != [] {
      FlattenLength(batches[..|batches| - 1]);
    }
  }

  /** Closing a chunk that fits and that the previous chunk could not take in
      keeps the chunks well formed. */
  lemma AppendChunkKeeps(max: nat, chunks: seq<Batch>, chunk: Batch)
    requires forall j :: 0 <= j < |chunks| ==> Fits(max, chunks[j])
    requires Greedy(max, chunks)
    requires Fits(max, chunk)
    requires |chunks| > 0 ==> Tokens(chunks[|chunks| - 1]) + EstimateTokens(chunk[0]) > max
    ensures forall j :: 0 <= j < |chunks + [chunk]| ==> Fits(max, (chunks + [chunk])[j])
    ensures Greedy(max, chunks + [chunk])
  {
    var all := chunks + [chunk];
    forall j | 0 < j < |all|
      ensures |all[j]| > 0 && Tokens(all[j - 1]) + EstimateTokens(all[j][0]) > max
    {
      if j < |chunks| {
        assert all[j] == chunks[j] && all[j - 1] == chunks[j - 1];
      }
    }
  }

  lemma FlushKeeps(max: nat, st: ScanState)
    requires ScanInv(max, st)
    ensures Flush(st).current == [] && Flush(st).currentTokens == 0
    ensures forall j :: 0 <= j < |Flush(st).chunks| ==> Fits(max, Flush(st).chunks[j])
    ensures Greedy(max, Flush(st).chunks)
    ensures |Flush(st).chunks| > 0 && |st.current| == 0 ==> Tokens(Flush(st).chunks[|Flush(st).chunks| - 1]) > max
  {
    if |st.current| > 0 {
      AppendChunkKeeps(max, st.chunks, st.current);
    }
  }

  /** A text over budget: the open chunk is closed, then the text is a chunk of its own. */
  lemma StepOversized(max: nat, st: ScanState, text: Text)
    requires ScanInv(max, st) && EstimateTokens(text) > max
    ensures ScanInv(max, Step(max, st, text))
  {
    FlushKeeps(max, st);
    var flushed := Flush(st);
    var next := ScanState(flushed.chunks + [[text]], [], 0);
    assert Step(max, st, text) == next;
    TokensAppend([], text);
    assert [] + [text] == [text];
    assert Fits(max, [text]);
    AppendChunkKeeps(max, flushed.chunks, [text]);
  }

  /** A text within budget joins the open chunk, which is closed first if the
      text would push it over budget. */
  lemma StepWithin(max: nat, st: ScanState, text: Text)
    requires ScanInv(max, st) && EstimateTokens(text) <= max
    ensures ScanInv(max, Step(max, st, text))
  {
    var textTokens := EstimateTokens(text);
    FlushKeeps(max, st);
    var open := if st.currentTokens + textTokens > max && |st.current| > 0 then Flush(st) else st;
    var next := ScanState(open.chunks, open.current + [text], open.currentTokens + textTokens);
    assert Step(max, st, text) == next;
    TokensAppend(open.current, text);
    assert next.current[0] == if |open.current| > 0 then open.current[0] else text;
  }

  lemma StepKeeps(max: nat, st: ScanState, text: Text)
    requires ScanInv(max, st)
    ensures ScanInv(max, Step(max, st, text))
  {
    if EstimateTokens(text) > max {
      StepOversized(max, st, text);
    } else {
      StepWithin(max, st, text);
    }
  }

  /** The texts a scan state holds, in order. */
  function Consumed(st: ScanState): seq<Text>
  {
    Flatten(st.chunks) + st.current
  }

  lemma FlushConsumes(st: ScanState)
    ensures Consumed(Flush(st)) == Consumed(st)
  {
    if |st.current| > 0 {
      FlattenAppend(st.chunks, st.current);
    }
  }

  lemma StepConsumes(max: nat, st: ScanState, text: Text)
    ensures Consumed(Step(max, st, text)) == Consumed(st) + [text]
  {
    FlushConsumes(st);
    var flushed := Flush(st);
    if EstimateTokens(text) > max {
      assert Step(max, st, text) == ScanState(flushed.chunks + [[text]], flushed.current, flushed.currentTokens);
      FlattenAppend(flushed.chunks, [text]);
    } else {
      var open := if st.currentTokens + EstimateTokens(text) > max && |st.current| > 0 then flushed else st;
      assert Consumed(open) == Consumed(st);
      assert Step(max, st, text) == ScanState(open.chunks, open.current + [text], open.currentTokens + EstimateTokens(text));
    }
  }

  /** The scan keeps its invariant. */
  lemma {:induction false} RunKeeps(max: nat, texts: seq<Text>)
    ensures ScanInv(max, Run(max, texts))
  {
    if texts != [] {
      RunKeeps(max, texts[..|texts| - 1]);
      StepKeeps(max, Run(max, texts[..|texts| - 1]), texts[|texts| - 1]);
    }
  }

  /** The scan has consumed exactly the texts it saw, in order. */
  lemma {:induction false} RunConsumes(max: nat, texts: seq<Text>)
    ensures Consumed(Run(max, texts)) == texts
  {
    if texts != [] {
      var init, last := texts[..|texts| - 1], texts[|texts| - 1];
      var prev := Run(max, init);
      RunConsumes(max, init);
      StepConsumes(max, prev, last);
      assert Run(max, texts) == Step(max, prev, last);
      LastSplit(texts);
    }
  }

  /** A non-empty sequence is its prefix followed by its last element. */
  lemma LastSplit<T>(s: seq<T>)
    requires s != []
    ensures s[..|s| - 1] + [s[|s| - 1]] == s
  {
  }

  /** The chunks, the budget they were cut for and the facts all others rest on. */
  lemma ChunkFacts(texts: seq<Text>, maxTokens: int)
    ensures var r := ChunkSpec(texts, maxTokens);
      && Flatten(r) == texts
      && (forall j :: 0 <= j < |r| ==> Fits(EffectiveMax(maxTokens), r[j]))
      && Greedy(EffectiveMax(maxTokens), r)
  {
    if |texts| > 0 {
      var max := EffectiveMax(maxTokens);
      RunKeeps(max, texts);
      FlushKeeps(max, Run(max, texts));
      RunConsumes(max, texts);
      FlushConsumes(Run(max, texts));
    }
  }

  /** Empty input gives no chunks at all, not one empty chunk. */
  lemma ChunkEmptyInput(maxTokens: int)
    ensures ChunkSpec([], maxTokens) == []
  {
  }

  /** A budget of zero or less means DefaultMaxTokens. */
  lemma ChunkDefaultBudget(texts: seq<Text>, maxTokens: int)
    requires maxTokens <= 0
    ensures ChunkSpec(texts, maxTokens) == ChunkSpec(texts, DefaultMaxTokens)
  {
  }

  /** Laying the chunks end to end gives back the input: no text is lost,
      repeated, reordered or split. */
  lemma ChunkConcat(texts: seq<Text>, maxTokens: int)
    ensures Flatten(ChunkSpec(texts, maxTokens)) == texts
  {
    ChunkFacts(texts, maxTokens);
  }

  /** No chunk is empty, so there are at most as many chunks as texts. */
  lemma ChunkNonEmpty(texts: seq<Text>, maxTokens: int)
    ensures var r := ChunkSpec(texts, maxTokens);
      && (forall j :: 0 <= j < |r| ==> |r[j]| > 0)
      && |r| <= |texts|
  {
    ChunkFacts(texts, maxTokens);
    FlattenLength(ChunkSpec(texts, maxTokens));
  }

  /** Each chunk stays within the effective budget, or is a single text that
      exceeds it alone. */
  lemma ChunkWithinBudget(texts: seq<Text>, maxTokens: int)
    ensures var r, max := ChunkSpec(texts, maxTokens), EffectiveMax(maxTokens);
      forall j :: 0 <= j < |r| ==>
        Tokens(r[j]) <= max || (|r[j]| == 1 && EstimateTokens(r[j][0]) > max)
  {
    ChunkFacts(texts, maxTokens);
  }

  /** A text over budget is alone in its chunk. */
  lemma ChunkOversizedAlone(texts: seq<Text>, maxTokens: int)
    ensures var r, max := ChunkSpec(texts, maxTokens), EffectiveMax(maxTokens);
      forall j, k :: 0 <= j < |r| && 0 <= k < |r[j]| && EstimateTokens(r[j][k]) > max ==> r[j] == [r[j][k]]
  {
    var r, max := ChunkSpec(texts, maxTokens), EffectiveMax(maxTokens);
    ChunkFacts(texts, maxTokens);
    forall j, k | 0 <= j < |r| && 0 <= k < |r[j]| && EstimateTokens(r[j][k]) > max
      ensures r[j] == [r[j][k]]
    {
      assert Fits(max, r[j]);
      TokensBound(r[j], k);
    }
  }

  /** A chunk is closed only when the next text would push it over budget. */
  lemma ChunkGreedy(texts: seq<Text>, maxTokens: int)
    ensures var r, max := ChunkSpec(texts, maxTokens), EffectiveMax(maxTokens);
      forall j :: 0 < j < |r| ==> |r[j]| > 0 && Tokens(r[j - 1]) + EstimateTokens(r[j][0]) > max
  {
    ChunkFacts(texts, maxTokens);
  }

  // ---------------------------------------------------------------------------
  // The greedy chunking is the only one with these properties

  /** `chunks` lays out `texts` in order, every chunk fits, and every chunk was
      closed only because the next text did not fit. */
  ghost predicate GreedyChunking(max: nat, chunks: seq<Batch>, texts: seq<Text>)
  {
    && Flatten(chunks) == texts
    && (forall j :: 0 <= j < |chunks| ==> Fits(max, chunks[j]))
    && Greedy(max, chunks)
  }

  lemma {:induction false} FlattenCons(chunk: Batch, rest: seq<Batch>)
    ensures Flatten([chunk] + rest) == chunk + Flatten(rest)
  {
    if rest != [] {
      var init := rest[..|rest| - 1];
      FlattenCons(chunk, init);
      assert ([chunk] + rest)[..|rest|] == [chunk] + init;
    }
  }

  /** A longer prefix costs at least as much. */
  lemma {:induction false} TokensPrefix(batch: Batch, n: nat, m: nat)
    requires n <= m <= |batch|
    ensures Tokens(batch[..n]) <= Tokens(batch[..m])
  {
    if n < m {
      TokensPrefix(batch, n, m - 1);
      assert batch[..m][..m - 1] == batch[..m - 1];
    }
  }

  /** The texts of a chunking are its first chunk followed by the texts of the rest. */
  lemma FlattenFirst(chunks: seq<Batch>)
    requires chunks != []
    ensures Flatten(chunks) == chunks[0] + Flatten(chunks[1..])
  {
    assert chunks == [chunks[0]] + chunks[1..];
    FlattenCons(chunks[0], chunks[1..]);
  }

  /** Dropping the first chunk keeps the others fitting and greedy. */
  lemma GreedyTail(max: nat, chunks: seq<Batch>)
    requires chunks != []
    requires forall j :: 0 <= j < |chunks| ==> Fits(max, chunks[j])
    requires Greedy(max, chunks)
    ensures forall j :: 0 <= j < |chunks[1..]| ==> Fits(max, chunks[1..][j])
    ensures Greedy(max, chunks[1..])
  {
    var rest := chunks[1..];
    forall j | 0 < j < |rest|
      ensures |rest[j]| > 0 && Tokens(rest[j - 1]) + EstimateTokens(rest[j][0]) > max
    {
      assert rest[j] == chunks[j + 1] && rest[j - 1] == chunks[j];
    }
  }

  /** A greedy chunking starts with a chunk, then the greedy chunking of the rest. */
  lemma GreedyChunkingTail(max: nat, chunks: seq<Batch>, texts: seq<Text>)
    requires GreedyChunking(max, chunks, texts) && chunks != []
    ensures |chunks[0]| <= |texts| && chunks[0] == texts[..|chunks[0]|]
    ensures GreedyChunking(max, chunks[1..], texts[|chunks[0]|..])
    ensures |chunks| == 1 ==> chunks[0] == texts
    ensures |chunks| > 1 ==> |chunks[0]| < |texts| && chunks[1][0] == texts[|chunks[0]|]
  {
    FlattenFirst(chunks);
    GreedyTail(max, chunks);
    var rest := chunks[1..];
    if |chunks| > 1 {
      FlattenFirst(rest);
      assert |rest[0]| > 0 && rest[0] == chunks[1];
    } else {
      assert rest == [];
    }
  }

  /** A batch that extends a prefix by a text the prefix could not take is
      over budget. */
  lemma ExtensionOverBudget(max: nat, batch: Batch, n: nat)
    requires n < |batch|
    requires Tokens(batch[..n]) + EstimateTokens(batch[n]) > max
    ensures Tokens(batch) > max
  {
    assert batch[..n + 1][..n] == batch[..n];
    assert Tokens(batch[..n + 1]) == Tokens(batch[..n]) + EstimateTokens(batch[n]);
    TokensPrefix(batch, n + 1, |batch|);
    assert batch[..|batch|] == batch;
  }

  /** Of two greedy chunkings of the same texts, the first chunk of one is not
      longer than that of the other. */
  lemma FirstChunkNotLonger(max: nat, p: seq<Batch>, q: seq<Batch>, texts: seq<Text>)
    requires GreedyChunking(max, p, texts) && GreedyChunking(max, q, texts)
    requires p != [] && q != []
    ensures |p[0]| >= |q[0]|
  {
    GreedyChunkingTail(max, p, texts);
    GreedyChunkingTail(max, q, texts);
    var a, b := |p[0]|, |q[0]|;
    if a < b {
      var first := q[0];
      assert Fits(max, first) && |first| > 1;
      assert first[..a] == p[0] && first[a] == p[1][0];
      ExtensionOverBudget(max, first, a);
      assert false;
    }
  }

  /** Two greedy chunkings of the same texts are equal. */
  lemma {:induction false} GreedyChunkingUnique(max: nat, p: seq<Batch>, q: seq<Batch>, texts: seq<Text>)
    requires GreedyChunking(max, p, texts) && GreedyChunking(max, q, texts)
    decreases |texts|
    ensures p == q
  {
    if p == [] || q == [] {
      FlattenLength(p);
      FlattenLength(q);
    } else {
      FirstChunkNotLonger(max, p, q, texts);
      FirstChunkNotLonger(max, q, p, texts);
      GreedyChunkingTail(max, p, texts);
      GreedyChunkingTail(max, q, texts);
      assert |p[0]| > 0;
      GreedyChunkingUnique(max, p[1..], q[1..], texts[|p[0]|..]);
      assert p == [p[0]] + p[1..] && q == [q[0]] + q[1..];
    }
  }

  /** ChunkByTokens returns the one list of chunks that lays the texts out in
      order, keeps every chunk within budget (or a lone oversized text) and
      closes a chunk only when the next text does not fit. */
  lemma ChunkUnique(texts: seq<Text>, maxTokens: int, chunks: seq<Batch>)
    ensures GreedyChunking(EffectiveMax(maxTokens), chunks, texts) <==> chunks == ChunkSpec(texts, maxTokens)
  {
    ChunkFacts(texts, maxTokens);
    if GreedyChunking(EffectiveMax(maxTokens), chunks, texts) {
      GreedyChunkingUnique(EffectiveMax(maxTokens), chunks, ChunkSpec(texts, maxTokens), texts);
    }
  }

  /** Two lists of batches with the same number of batches, pairwise of the
      same length. */
  predicate SameShape(a: seq<Batch>, b: seq<Batch>)
  {
    |a| == |b| && forall j :: 0 <= j < |a| ==> |a[j]| == |b[j]|
  }

  /** Batches of the same shape flatten to lists of the same length. */
  lemma {:induction false} FlattenSameShape(a: seq<Batch>, b: seq<Batch>)
    requires SameShape(a, b)
    ensures |Flatten(a)| == |Flatten(b)|
  {
    if a != [] {
      FlattenSameShape(a[..|a| - 1], b[..|b| - 1]);
    }
  }

  // ---------------------------------------------------------------------------
  // The package's test vectors

  /** The bytes of an ASCII string. */
  function Ascii(s: string): (t: Text)
    requires forall i :: 0 <= i < |s| ==> s[i] as int < 128
    ensures |t| == |s|
  {
    seq(|s|, i requires 0 <= i < |s| => s[i] as int as Byte)
  }

  /** `n` copies of one byte. */
  function Repeat(b: Byte, n: nat): (t: Text)
    ensures |t| == n
  {
    seq(n, _ => b)
  }

  /** The long Spanish description of the package's tests: 73 characters but
      76 bytes, since each of its three accented letters takes two bytes in
      UTF-8. */
  function LongDescription(): (t: Text)
    ensures |t| == 76
  {
    Ascii("Este es un art") + [0xC3, 0xAD] + Ascii("culo de alta calidad con muchas caracter")
    + [0xC3, 0xAD] + Ascii("sticas incre") + [0xC3, 0xAD] + Ascii("bles")
  }

  /** The estimates the package's tests expect: empty text costs nothing, two
      bytes cost one token, 28 bytes seven and the 76-byte description 19. */
  lemma EstimateTokensExamples()
    ensures EstimateTokens([]) == 0
    ensures EstimateTokens(Ascii("Hi")) == 1
    ensures EstimateTokens(Ascii("iPhone 12 Pro en buen estado")) == 7
    ensures EstimateTokens(LongDescription()) == 19
  {
  }

  lemma RunSnoc(max: nat, texts: seq<Text>, text: Text)
    ensures Run(max, texts + [text]) == Step(max, Run(max, texts), text)
  {
    assert (texts + [text])[..|texts|] == texts;
  }

  /** The scan over three texts is three steps from the empty state. */
  lemma RunThree(max: nat, a: Text, b: Text, c: Text)
    ensures Run(max, [a, b, c]) == Step(max, Step(max, Step(max, ScanState([], [], 0), a), b), c)
  {
    RunSnoc(max, [], a);
    RunSnoc(max, [a], b);
    RunSnoc(max, [a, b], c);
    assert [] + [a] == [a];
    assert [a] + [b] == [a, b];
    assert [a, b] + [c] == [a, b, c];
  }

  /** Three texts that each fit, but no two neighbours together, take a
      chunk each. */
  lemma ThreeApart(max: nat, a: Text, b: Text, c: Text)
    requires EstimateTokens(a) <= max && EstimateTokens(b) <= max && EstimateTokens(c) <= max
    requires EstimateTokens(a) + EstimateTokens(b) > max && EstimateTokens(b) + EstimateTokens(c) > max
    ensures Run(max, [a, b, c]) == ScanState([[a], [b]], [c], EstimateTokens(c))
  {
    RunThree(max, a, b, c);
    var s1 := Step(max, ScanState([], [], 0), a);
    assert s1 == ScanState([], [a], EstimateTokens(a));
    var s2 := Step(max, s1, b);
    assert s2 == ScanState([[a]], [b], EstimateTokens(b));
    assert Step(max, s2, c) == ScanState([[a], [b]], [c], EstimateTokens(c));
  }

  /** An oversized text between two small ones separates them. */
  lemma OversizedBetween(max: nat, a: Text, x: Text, b: Text)
    requires EstimateTokens(a) <= max && EstimateTokens(x) > max && EstimateTokens(b) <= max
    ensures Run(max, [a, x, b]) == ScanState([[a], [x]], [b], EstimateTokens(b))
  {
    RunThree(max, a, x, b);
    var s1 := Step(max, ScanState([], [], 0), a);
    assert s1 == ScanState([], [a], EstimateTokens(a));
    var s2 := Step(max, s1, x);
    assert s2 == ScanState([[a], [x]], [], 0);
    assert Step(max, s2, b) == ScanState([[a], [x]], [b], EstimateTokens(b));
  }

  /** Three texts that fit together share the open chunk. */
  lemma ThreeTogether(max: nat, a: Text, b: Text, c: Text)
    requires EstimateTokens(a) + EstimateTokens(b) + EstimateTokens(c) <= max
    ensures Run(max, [a, b, c]) == ScanState([], [a, b, c], EstimateTokens(a) + EstimateTokens(b) + EstimateTokens(c))
  {
    RunThree(max, a, b, c);
  }

  /** A single text within the budget is the open chunk. */
  lemma OneFits(max: nat, t: Text)
    requires EstimateTokens(t) <= max
    ensures Run(max, [t]) == ScanState([], [t], EstimateTokens(t))
  {
    RunSnoc(max, [], t);
    assert [] + [t] == [t];
  }

  /** The scan over two texts is two steps from the empty state. */
  lemma RunTwo(max: nat, a: Text, b: Text)
    ensures Run(max, [a, b]) == Step(max, Step(max, ScanState([], [], 0), a), b)
  {
    RunSnoc(max, [], a);
    RunSnoc(max, [a], b);
    assert [] + [a] == [a];
    assert [a] + [b] == [a, b];
  }

  /** Two texts that do not fit together take a chunk each. */
  lemma TwoApart(max: nat, a: Text, b: Text)
    requires EstimateTokens(a) <= max && EstimateTokens(b) <= max
    requires EstimateTokens(a) + EstimateTokens(b) > max
    ensures Run(max, [a, b]) == ScanState([[a]], [b], EstimateTokens(b))
  {
    RunTwo(max, a, b);
    var s1 := Step(max, ScanState([], [], 0), a);
    assert s1 == ScanState([], [a], EstimateTokens(a));
    assert Step(max, s1, b) == ScanState([[a]], [b], EstimateTokens(b));
  }

  /** Three 10-token texts under a budget of 15 take a chunk each. */
  lemma ChunkExampleThreeTexts()
    ensures ChunkSpec([Repeat(97, 40), Repeat(98, 40), Repeat(99, 40)], 15)
         == [[Repeat(97, 40)], [Repeat(98, 40)], [Repeat(99, 40)]]
  {
    var a, b, c := Repeat(97, 40), Repeat(98, 40), Repeat(99, 40);
    assert EstimateTokens(a) == 10 && EstimateTokens(b) == 10 && EstimateTokens(c) == 10;
    ThreeApart(15, a, b, c);
  }

  /** Two 10-token texts under a budget of exactly 10 take a chunk each. */
  lemma ChunkExampleExactFit()
    ensures ChunkSpec([Repeat(97, 40), Repeat(98, 40)], 10) == [[Repeat(97, 40)], [Repeat(98, 40)]]
  {
    var a, b := Repeat(97, 40), Repeat(98, 40);
    assert EstimateTokens(a) == 10 && EstimateTokens(b) == 10;
    TwoApart(10, a, b);
  }

  /** A 50-token text under a budget of 20 splits two small texts that would
      have fitted together. */
  lemma ChunkExampleOversized()
    ensures ChunkSpec([Ascii("small"), Repeat(120, 200), Ascii("another")], 20)
         == [[Ascii("small")], [Repeat(120, 200)], [Ascii("another")]]
  {
    var a, x, b := Ascii("small"), Repeat(120, 200), Ascii("another");
    assert EstimateTokens(a) == 1 && EstimateTokens(x) == 50 && EstimateTokens(b) == 1;
    OversizedBetween(20, a, x, b);
  }

  /** Small texts share one chunk. */
  lemma ChunkExampleOneChunk()
    ensures ChunkSpec([Ascii("Hello"), Ascii("World"), Ascii("Test")], 100)
         == [[Ascii("Hello"), Ascii("World"), Ascii("Test")]]
  {
    var a, b, c := Ascii("Hello"), Ascii("World"), Ascii("Test");
    assert EstimateTokens(a) == 1 && EstimateTokens(b) == 1 && EstimateTokens(c) == 1;
    ThreeTogether(100, a, b, c);
  }

  /** A budget of 0 means the default, under which a short text fits. */
  lemma ChunkExampleDefaultBudget()
    ensures ChunkSpec([Ascii("test")], 0) == [[Ascii("test")]]
  {
    var t := Ascii("test");
    assert EstimateTokens(t) == 1;
    OneFits(DefaultMaxTokens, t);
  }
}
