/** What an embedding call sends, in the backend's terms. */
module EmbedSending {
  import opened Ids
  import opened EmbedPacking
  import opened EmbedPipeline
  import opened EmbedClient

  /** Chunk `i` of a text holds 480 tokens, the last one what is left. */
  lemma ChunkLengths(tok: Tokenizer, text: string, chunks: seq<TokenChunk>, i: nat)
    requires ChunksOf(tok, text, chunks) && i < |chunks| && tok.tokenize(text).value != []
    ensures var n := |tok.tokenize(text).value|;
      && 480 * (|chunks| - 1) < n <= 480 * |chunks|
      && chunks[i].tokenCount == if i + 1 < |chunks| then 480 else n - 480 * (|chunks| - 1)
  {
    assert ChunkIs(tok, tok.tokenize(text).value, i, chunks[i]);
  }

  /** When the client owns the task prefix, a text is cleaned, chunked, and each chunk is sent behind
      the prefix of its task, within the context. */
  lemma ClientSends(config: Config, texts: seq<string>, worker: bool, backend: Backend, d: Delivery, i: nat)
    returns (raw: seq<TokenChunk>)
    requires Delivered(config, texts, worker, backend, d) && config.prefixOwner == "client" && i < |texts|
    ensures ChunksOf(config.tokenizer, CleanText(texts[i]), raw) && |d.parts| == |texts| && |d.parts[i]| == |raw| > 0
    ensures forall j :: 0 <= j < |raw| ==>
      && d.parts[i][j].text == (if worker then "search_document: " else "search_query: ") + raw[j].text
      && config.tokenizer.tokenize(d.parts[i][j].text).Some?
      && d.parts[i][j].tokenCount == |config.tokenizer.tokenize(d.parts[i][j].text).value| <= 510
  {
    hide ChunksOf, CleanText, PrefixedChunk, Packed, AllAnswered;
    assert EffectiveChunks(config, worker, texts[i], d.parts[i]);
    raw :| ChunksOf(config.tokenizer, Prepared(config, texts[i]), raw) && Prefixed(config, worker, raw, d.parts[i]);
    forall j | 0 <= j < |raw|
      ensures
        && d.parts[i][j].text == (if worker then "search_document: " else "search_query: ") + raw[j].text
        && config.tokenizer.tokenize(d.parts[i][j].text).Some?
        && d.parts[i][j].tokenCount == |config.tokenizer.tokenize(d.parts[i][j].text).value| <= 510
    {
      PrefixedAt(config, worker, raw[j], d.parts[i][j]);
    }
  }

  lemma PrefixedAt(config: Config, worker: bool, raw: TokenChunk, chunk: TokenChunk)
    requires config.prefixOwner == "client" && PrefixedChunk(config, worker, raw, chunk)
    ensures chunk.text == (if worker then "search_document: " else "search_query: ") + raw.text
    ensures config.tokenizer.tokenize(chunk.text).Some?
    ensures chunk.tokenCount == |config.tokenizer.tokenize(chunk.text).value| <= 510
  {
  }

  /** Otherwise the chunks of the text itself are sent as they are. */
  lemma LegacySends(config: Config, texts: seq<string>, worker: bool, backend: Backend, d: Delivery, i: nat)
    requires Delivered(config, texts, worker, backend, d) && config.prefixOwner != "client" && i < |texts|
    ensures |d.parts| == |texts| && ChunksOf(config.tokenizer, texts[i], d.parts[i])
  {
    hide ChunksOf, CleanText, Packed, AllAnswered;
    assert EffectiveChunks(config, worker, texts[i], d.parts[i]);
    var raw :| ChunksOf(config.tokenizer, Prepared(config, texts[i]), raw) && Prefixed(config, worker, raw, d.parts[i]);
    forall j | 0 <= j < |raw|
      ensures raw[j] == d.parts[i][j]
    {
      assert PrefixedChunk(config, worker, raw[j], d.parts[i][j]);
    }
    assert raw == d.parts[i];
  }

  /** The chunks go out in the fewest requests of at most the configured tokens, or 512. */
  lemma FewestRequests(config: Config, texts: seq<string>, worker: bool, backend: Backend, d: Delivery,
                       other: seq<seq<TokenChunk>>)
    requires Delivered(config, texts, worker, backend, d)
    requires Partition(other, Flatten(d.parts), if config.packTokenLimit > 0 then config.packTokenLimit else 512)
    ensures Partition(d.batches, Flatten(d.parts), if config.packTokenLimit > 0 then config.packTokenLimit else 512)
    ensures |d.batches| <= |other|
  {
    hide EffectiveChunks, AllAnswered, Partition, Greedy;
    var whole := Flatten(d.parts);
    assert whole[0..] == whole;
    GreedyStaysAhead(d.batches, other, whole, 0, if config.packTokenLimit > 0 then config.packTokenLimit else 512);
  }
}
