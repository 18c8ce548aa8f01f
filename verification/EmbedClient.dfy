/** The embedding client: clean the texts, chunk them by tokens, embed, and pool. */
module EmbedClient {
  import opened Ids
  import opened EmbedPacking
  import opened EmbedPipeline

  /** The tokenizer endpoints; a missing value is a failed round trip. */
  datatype Tokenizer = Tokenizer(tokenize: string -> Option<seq<int>>, detokenize: seq<int> -> Option<string>)

  // ----- exact token partition -----

  function ChunkCount(n: nat): nat
  {
    (n + CHUNK_TOKEN_LIMIT - 1) / CHUNK_TOKEN_LIMIT
  }

  /** The tokens of chunk `i`. */
  function TokenRange(tokens: seq<int>, i: nat): seq<int>
    requires i < ChunkCount(|tokens|)
  {
    var start := i * CHUNK_TOKEN_LIMIT;
    tokens[start..if start + CHUNK_TOKEN_LIMIT > |tokens| then |tokens| else start + CHUNK_TOKEN_LIMIT]
  }

  /** The ranges hold every source token once, in order; each is non-empty and within the limit. */
  lemma {:induction false} RangesPartition(tokens: seq<int>, n: nat)
    requires n <= ChunkCount(|tokens|)
    ensures
      var covered := if n == ChunkCount(|tokens|) then |tokens| else n * CHUNK_TOKEN_LIMIT;
      covered <= |tokens|
      && Flatten(seq(n, i requires 0 <= i < n => TokenRange(tokens, i))) == tokens[..covered]
    ensures forall i :: 0 <= i < n ==> 1 <= |TokenRange(tokens, i)| <= 480
    ensures forall i :: 0 <= i < n && i + 1 < ChunkCount(|tokens|) ==> |TokenRange(tokens, i)| == 480
  {
    var ranges := seq(n, i requires 0 <= i < n => TokenRange(tokens, i));
    if n > 0 {
      var before := seq(n - 1, i requires 0 <= i < n - 1 => TokenRange(tokens, i));
      RangesPartition(tokens, n - 1);
      assert ranges == before + [TokenRange(tokens, n - 1)];
      FlattenAppend(before, TokenRange(tokens, n - 1));
    }
  }

  datatype ChunkError = TokenizeFailed | NoTokens | OverBudget | DetokenizeFailed

  datatype Chunked = Chunks(chunks: seq<TokenChunk>) | Refused(error: ChunkError)

  predicate IsSpace(c: char)
  {
    c in "\t\n\U{0B}\U{0C}\r \U{85}\U{A0}\U{1680}\U{2028}\U{2029}\U{202F}\U{205F}\U{3000}"
    || '\U{2000}' <= c <= '\U{200A}'
  }

  /** The white space of Unicode, by code. */
  lemma SpaceCodes(c: char)
    ensures IsSpace(c) <==>
      || 9 <= c as int <= 13 || c as int == 32 || c as int == 0x85 || c as int == 0xA0 || c as int == 0x1680
      || 0x2000 <= c as int <= 0x200A || c as int == 0x2028 || c as int == 0x2029 || c as int == 0x202F
      || c as int == 0x205F || c as int == 0x3000
  {
  }

  function TrimLeft(s: string): string
  {
    if s != [] && IsSpace(s[0]) then TrimLeft(s[1..]) else s
  }

  function TrimRight(s: string): string
  {
    if s != [] && IsSpace(s[|s| - 1]) then TrimRight(s[..|s| - 1]) else s
  }

  function TrimSpace(s: string): string
  {
    TrimRight(TrimLeft(s))
  }

  /** The chunks of a text: its token ranges, or the text itself when it has no tokens. */
  ghost predicate ChunksOf(tok: Tokenizer, text: string, chunks: seq<TokenChunk>)
  {
    && tok.tokenize(text).Some?
    && var tokens := tok.tokenize(text).value;
       if tokens == [] then TrimSpace(text) == "" && chunks == [TokenChunk(text, 0)]
       else
         && |chunks| == ChunkCount(|tokens|)
         && forall i :: 0 <= i < |chunks| ==> ChunkIs(tok, tokens, i, chunks[i])
  }

  ghost predicate ChunkIs(tok: Tokenizer, tokens: seq<int>, i: nat, chunk: TokenChunk)
    requires i < ChunkCount(|tokens|)
  {
    tok.detokenize(TokenRange(tokens, i)) == Some(chunk.text) && chunk.tokenCount == |TokenRange(tokens, i)|
  }

  /** What each chunking error means. */
  ghost predicate RefusedFor(tok: Tokenizer, text: string, maxChunks: int, error: ChunkError)
  {
    match tok.tokenize(text)
    case None => error == TokenizeFailed
    case Some(tokens) =>
      match error
      case TokenizeFailed => false
      case NoTokens => tokens == [] && TrimSpace(text) != ""
      case OverBudget => 0 < maxChunks < ChunkCount(|tokens|)
      case DetokenizeFailed =>
        exists i :: 0 <= i < ChunkCount(|tokens|) && tok.detokenize(TokenRange(tokens, i)).None?
  }

  ghost predicate WithinBudget(maxChunks: int, chunks: seq<TokenChunk>)
  {
    maxChunks <= 0 || |chunks| <= maxChunks
  }

  /** A text is either chunked within its budget or refused. */
  lemma ChunkedNotRefused(tok: Tokenizer, text: string, maxChunks: int, chunks: seq<TokenChunk>, error: ChunkError)
    requires ChunksOf(tok, text, chunks) && WithinBudget(maxChunks, chunks)
    ensures !RefusedFor(tok, text, maxChunks, error)
  {
    var tokens := tok.tokenize(text).value;
    forall i | 0 <= i < ChunkCount(|tokens|)
      ensures tok.detokenize(TokenRange(tokens, i)).Some?
    {
      assert ChunkIs(tok, tokens, i, chunks[i]);
    }
  }

  /** Chunk one text; the ranges are detokenized in any order. */
  method ChunkOne(tok: Tokenizer, text: string, maxChunks: int) returns (r: Chunked)
    ensures r.Chunks? ==> ChunksOf(tok, text, r.chunks) && r.chunks != []
    ensures r.Chunks? ==> WithinBudget(maxChunks, r.chunks)
    ensures r.Refused? ==> RefusedFor(tok, text, maxChunks, r.error)
  {
    var tokenized := tok.tokenize(text);
    if tokenized.None? {
      return Refused(TokenizeFailed);
    }
    var tokens := tokenized.value;
    if |tokens| == 0 {
      if TrimSpace(text) != "" {
        return Refused(NoTokens);
      }
      return Chunks([TokenChunk(text, 0)]);
    }
    var chunkCount := (|tokens| + CHUNK_TOKEN_LIMIT - 1) / CHUNK_TOKEN_LIMIT;
    if maxChunks > 0 && chunkCount > maxChunks {
      return Refused(OverBudget);
    }
    assert chunkCount == ChunkCount(|tokens|);
    var chunks := seq(chunkCount, _ => TokenChunk("", 0));
    var pending := Range(chunkCount);
    while pending != {}
      invariant |chunks| == chunkCount
      invariant forall i :: i in pending ==> 0 <= i < chunkCount
      invariant forall i :: 0 <= i < chunkCount && i !in pending ==> ChunkIs(tok, tokens, i, chunks[i])
      decreases pending
    {
      hide TokenRange, ChunkCount;
      var index :| index in pending;
      RangeBounds(tokens, index);
      var start := index * CHUNK_TOKEN_LIMIT;
      var end := start + CHUNK_TOKEN_LIMIT;
      if end > |tokens| {
        end := |tokens|;
      }
      var content := tok.detokenize(tokens[start..end]);
      if content.None? {
        return Refused(DetokenizeFailed);
      }
      chunks := chunks[index := TokenChunk(content.value, end - start)];
      pending := pending - {index};
    }
    return Chunks(chunks);
  }

  lemma RangeBounds(tokens: seq<int>, i: nat)
    requires i < ChunkCount(|tokens|)
    ensures var start := i * CHUNK_TOKEN_LIMIT;
      var end := if start + CHUNK_TOKEN_LIMIT > |tokens| then |tokens| else start + CHUNK_TOKEN_LIMIT;
      start <= end <= |tokens| && tokens[start..end] == TokenRange(tokens, i)
  {
  }

  datatype ChunkedTexts = AllChunks(chunks: seq<seq<TokenChunk>>) | RefusedText(index: nat, error: ChunkError)

  /** Chunk many texts in any order of completion, keeping their places. */
  method ChunkTexts(tok: Tokenizer, texts: seq<string>, maxChunks: int) returns (r: ChunkedTexts)
    ensures r.AllChunks? ==> |r.chunks| == |texts| && forall i :: 0 <= i < |texts| ==>
      ChunksOf(tok, texts[i], r.chunks[i]) && r.chunks[i] != [] && WithinBudget(maxChunks, r.chunks[i])
    ensures r.RefusedText? ==> r.index < |texts| && RefusedFor(tok, texts[r.index], maxChunks, r.error)
  {
    hide ChunksOf, RefusedFor, WithinBudget;
    var out: seq<seq<TokenChunk>> := seq(|texts|, _ => []);
    var pending := Range(|texts|);
    while pending != {}
      invariant |out| == |texts|
      invariant forall i :: i in pending ==> 0 <= i < |texts|
      invariant forall i :: 0 <= i < |texts| && i !in pending ==>
        ChunksOf(tok, texts[i], out[i]) && out[i] != [] && WithinBudget(maxChunks, out[i])
      decreases pending
    {
      var index :| index in pending;
      var chunked := ChunkOne(tok, texts[index], maxChunks);
      if chunked.Refused? {
        return RefusedText(index, chunked.error);
      }
      out := out[index := chunked.chunks];
      pending := pending - {index};
    }
    return AllChunks(out);
  }

  // ----- task prefixes -----

  const QUERY_PREFIX := "search_query:"
  const DOCUMENT_PREFIX := "search_document:"

  predicate HasPrefix(s: string, prefix: string)
  {
    |prefix| <= |s| && s[..|prefix|] == prefix
  }

  predicate HasTaskPrefix(s: string)
  {
    HasPrefix(s, QUERY_PREFIX) || HasPrefix(s, DOCUMENT_PREFIX)
  }

  function AfterTaskPrefix(s: string): (r: string)
    requires HasTaskPrefix(s)
    ensures |r| < |s|
  {
    if HasPrefix(s, QUERY_PREFIX) then s[|QUERY_PREFIX|..] else s[|DOCUMENT_PREFIX|..]
  }

  lemma {:induction false} TrimLeftFacts(s: string)
    ensures |TrimLeft(s)| <= |s| && (TrimLeft(s) != [] ==> !IsSpace(TrimLeft(s)[0]))
    ensures TrimLeft(s) != [] ==> TrimLeft(s)[|TrimLeft(s)| - 1] == s[|s| - 1]
  {
    if s != [] && IsSpace(s[0]) {
      TrimLeftFacts(s[1..]);
    }
  }

  lemma {:induction false} TrimRightFacts(s: string)
    ensures |TrimRight(s)| <= |s| && (TrimRight(s) != [] ==> !IsSpace(TrimRight(s)[|TrimRight(s)| - 1]))
    ensures TrimRight(s) != [] ==> TrimRight(s)[0] == s[0]
  {
    if s != [] && IsSpace(s[|s| - 1]) {
      TrimRightFacts(s[..|s| - 1]);
    }
  }

  /** No space at either end. */
  predicate Trimmed(s: string)
  {
    s != [] ==> !IsSpace(s[0]) && !IsSpace(s[|s| - 1])
  }

  lemma TrimSpaceFacts(s: string)
    ensures |TrimSpace(s)| <= |s| && Trimmed(TrimSpace(s))
    ensures Trimmed(s) ==> TrimSpace(s) == s
  {
    TrimLeftFacts(s);
    TrimRightFacts(TrimLeft(s));
  }

  /** A text without surrounding space and without leading task prefixes. */
  function Strip(s: string): string
    decreases |s|
  {
    if HasTaskPrefix(s) then
      TrimSpaceFacts(AfterTaskPrefix(s));
      Strip(TrimSpace(AfterTaskPrefix(s)))
    else s
  }

  function CleanText(text: string): string
  {
    Strip(TrimSpace(text))
  }

  lemma {:induction false} StripClean(s: string)
    requires Trimmed(s)
    ensures Trimmed(Strip(s)) && !HasTaskPrefix(Strip(s))
    decreases |s|
  {
    if HasTaskPrefix(s) {
      TrimSpaceFacts(AfterTaskPrefix(s));
      StripClean(TrimSpace(AfterTaskPrefix(s)));
    }
  }

  lemma AfterWord(word: string, c: string)
    requires word == QUERY_PREFIX || word == DOCUMENT_PREFIX
    ensures HasTaskPrefix(word + (" " + c)) && AfterTaskPrefix(word + (" " + c)) == " " + c
  {
    var s := word + (" " + c);
    assert s[..|word|] == word && s[|word|..] == " " + c;
    assert s[7] == word[7];
    if word == DOCUMENT_PREFIX {
      assert QUERY_PREFIX[7] == 'q' && DOCUMENT_PREFIX[7] == 'd';
    }
  }

  /** Prefixing a clean text with a task and cleaning again gives it back. */
  lemma PrefixedCleans(word: string, c: string)
    requires word == QUERY_PREFIX || word == DOCUMENT_PREFIX
    requires c != "" && Trimmed(c) && !HasTaskPrefix(c)
    ensures CleanText(word + (" " + c)) == c
  {
    hide HasTaskPrefix, AfterTaskPrefix, TrimSpace;
    var s := word + (" " + c);
    assert s[0] == 's' && s[|s| - 1] == c[|c| - 1];
    AfterWord(word, c);
    TrimSpaceFacts(s);
    SpaceBefore(c);
    assert Strip(s) == Strip(TrimSpace(AfterTaskPrefix(s)));
    assert Strip(c) == c;
  }

  lemma SpaceBefore(c: string)
    requires Trimmed(c)
    ensures TrimSpace(" " + c) == c
  {
    assert (" " + c)[1..] == c;
    TrimSpaceFacts(c);
  }

  // ----- what trimming and cleaning take away -----

  predicate AllSpace(s: string)
  {
    forall i :: 0 <= i < |s| ==> IsSpace(s[i])
  }

  lemma {:induction false} TrimLeftSplit(s: string) returns (front: string)
    ensures s == front + TrimLeft(s) && AllSpace(front)
  {
    if s != [] && IsSpace(s[0]) {
      var rest := TrimLeftSplit(s[1..]);
      assert s == [s[0]] + s[1..] && TrimLeft(s) == TrimLeft(s[1..]);
      hide TrimLeft, IsSpace;
      assert [s[0]] + (rest + TrimLeft(s)) == ([s[0]] + rest) + TrimLeft(s);
      front := [s[0]] + rest;
    } else {
      front := "";
    }
  }

  lemma {:induction false} TrimRightSplit(s: string) returns (back: string)
    ensures s == TrimRight(s) + back && AllSpace(back)
  {
    if s != [] && IsSpace(s[|s| - 1]) {
      var n := |s| - 1;
      var rest := TrimRightSplit(s[..n]);
      assert s == s[..n] + [s[n]] && TrimRight(s) == TrimRight(s[..n]);
      hide TrimRight, IsSpace;
      assert (TrimRight(s) + rest) + [s[n]] == TrimRight(s) + (rest + [s[n]]);
      back := rest + [s[n]];
    } else {
      back := "";
    }
  }

  /** Trimming takes away surrounding space only. */
  lemma TrimSpaceSplit(s: string) returns (front: string, back: string)
    ensures s == front + TrimSpace(s) + back && AllSpace(front) && AllSpace(back)
  {
    front := TrimLeftSplit(s);
    back := TrimRightSplit(TrimLeft(s));
    hide TrimLeft, TrimRight;
    assert s == front + (TrimRight(TrimLeft(s)) + back);
  }

  predicate Skippable(p: string)
  {
    p == "search_query:" || p == "search_document:" || (|p| == 1 && IsSpace(p[0]))
  }

  ghost predicate AllSkippable(parts: seq<string>)
  {
    forall p :: p in parts ==> Skippable(p)
  }

  /** Spaces and task prefixes, in any number and order. */
  ghost predicate SpacesAndPrefixes(s: string)
  {
    exists parts: seq<string> :: AllSkippable(parts) && Flatten(parts) == s
  }

  lemma FlattenStep(parts: seq<string>)
    requires parts != []
    ensures Flatten(parts) == parts[0] + Flatten(parts[1..])
  {
  }

  lemma {:induction false} FlattenConcat(a: seq<string>, b: seq<string>)
    ensures Flatten(a + b) == Flatten(a) + Flatten(b)
  {
    if a == [] {
      assert a + b == b;
    } else {
      assert (a + b)[1..] == a[1..] + b && (a + b)[0] == a[0];
      FlattenStep(a);
      FlattenStep(a + b);
      hide Flatten;
      FlattenConcat(a[1..], b);
      assert a[0] + (Flatten(a[1..]) + Flatten(b)) == (a[0] + Flatten(a[1..])) + Flatten(b);
    }
  }

  lemma SkipsJoin(a: string, b: string)
    requires SpacesAndPrefixes(a) && SpacesAndPrefixes(b)
    ensures SpacesAndPrefixes(a + b)
  {
    var p :| AllSkippable(p) && Flatten(p) == a;
    var q :| AllSkippable(q) && Flatten(q) == b;
    FlattenConcat(p, q);
    assert AllSkippable(p + q);
  }

  lemma OneSkip(p: string)
    requires Skippable(p)
    ensures SpacesAndPrefixes(p)
  {
    assert Flatten([p]) == p + Flatten<char>([]);
    assert AllSkippable([p]);
  }

  lemma {:induction false} SpacesAreSkipped(a: string)
    requires AllSpace(a)
    ensures SpacesAndPrefixes(a)
  {
    if a == "" {
      assert AllSkippable([]) && Flatten<char>([]) == a;
    } else {
      hide SpacesAndPrefixes;
      SpacesAreSkipped(a[1..]);
      OneSkip([a[0]]);
      SkipsJoin([a[0]], a[1..]);
      assert a == [a[0]] + a[1..];
    }
  }

  /** A task prefix and what follows it. */
  lemma PrefixCut(s: string) returns (prefix: string)
    requires HasTaskPrefix(s)
    ensures s == prefix + AfterTaskPrefix(s) && SpacesAndPrefixes(prefix)
  {
    prefix := if HasPrefix(s, QUERY_PREFIX) then QUERY_PREFIX else DOCUMENT_PREFIX;
    assert s == s[..|prefix|] + s[|prefix|..];
    OneSkip(prefix);
  }

  lemma Nested(outer: string, f: string, middle: string, b: string, f2: string, c: string, b2: string)
    requires outer == f + middle + b && middle == f2 + c + b2
    ensures outer == (f + f2) + c + (b2 + b)
  {
  }

  /** What lies around a text, inside of what lies around it. */
  lemma Around(outer: string, f: string, middle: string, b: string, f2: string, c: string, b2: string)
    requires outer == f + middle + b && middle == f2 + c + b2
    requires SpacesAndPrefixes(f) && SpacesAndPrefixes(f2) && AllSpace(b) && AllSpace(b2)
    ensures outer == (f + f2) + c + (b2 + b) && SpacesAndPrefixes(f + f2) && AllSpace(b2 + b)
  {
    SkipsJoin(f, f2);
    Nested(outer, f, middle, b, f2, c, b2);
  }

  lemma {:induction false} StripSplit(s: string) returns (front: string, back: string)
    ensures s == front + Strip(s) + back && SpacesAndPrefixes(front) && AllSpace(back)
    decreases |s|
  {
    if HasTaskPrefix(s) {
      var after := AfterTaskPrefix(s);
      TrimSpaceFacts(after);
      assert Strip(s) == Strip(TrimSpace(after));
      var prefix := PrefixCut(s);
      hide Strip, TrimSpace, HasTaskPrefix, AfterTaskPrefix, SpacesAndPrefixes;
      var f, b := TrimSpaceSplit(after);
      SpacesAreSkipped(f);
      var f2, b2 := StripSplit(TrimSpace(after));
      Around(after, f, TrimSpace(after), b, f2, Strip(s), b2);
      assert s == prefix + after + "";
      Around(s, prefix, after, "", f + f2, Strip(s), b2 + b);
      front, back := prefix + (f + f2), (b2 + b) + "";
    } else {
      SpacesAreSkipped("");
      front, back := "", "";
    }
  }

  /** Cleaning takes away leading spaces and task prefixes, and trailing spaces, and nothing else. */
  lemma CleanTextSplit(text: string) returns (front: string, back: string)
    ensures text == front + CleanText(text) + back && SpacesAndPrefixes(front) && AllSpace(back)
  {
    hide Strip, TrimSpace, SpacesAndPrefixes;
    var f, b := TrimSpaceSplit(text);
    SpacesAreSkipped(f);
    var f2, b2 := StripSplit(TrimSpace(text));
    Around(text, f, TrimSpace(text), b, f2, CleanText(text), b2);
    front, back := f + f2, b2 + b;
  }

  lemma PrefixShown(s: string)
    ensures HasTaskPrefix(s) <==> "search_query:" <= s || "search_document:" <= s
  {
  }

  /** A cleaned text starts with neither prefix. */
  lemma CleanTextUnprefixed(text: string)
    ensures !("search_query:" <= CleanText(text)) && !("search_document:" <= CleanText(text))
  {
    hide HasTaskPrefix;
    TrimSpaceFacts(text);
    StripClean(TrimSpace(text));
    PrefixShown(CleanText(text));
    hide Strip, TrimSpace;
  }

  /** A clean text stays as it is, however often it is cleaned, and prefixing it with a task
      and cleaning again gives it back: the client never sends two prefixes. */
  lemma CleanTextStable(text: string, worker: bool)
    ensures var c := CleanText(text);
      && Trimmed(c) && !HasTaskPrefix(c)
      && CleanText(c) == c
      && (c != "" ==> CleanText(TaskPrefix(worker) + c) == c)
  {
    hide HasTaskPrefix;
    var c := CleanText(text);
    TrimSpaceFacts(text);
    StripClean(TrimSpace(text));
    TrimSpaceFacts(c);
    if c != "" {
      var word := if worker then DOCUMENT_PREFIX else QUERY_PREFIX;
      PrefixedCleans(word, c);
      assert TaskPrefix(worker) + c == word + (" " + c);
    }
  }

  function TaskPrefix(worker: bool): string
  {
    if worker then "search_document: " else "search_query: "
  }

  method Clean(text0: string) returns (text: string)
    ensures text == CleanText(text0)
  {
    text := TrimSpace(text0);
    while HasPrefix(text, QUERY_PREFIX) || HasPrefix(text, DOCUMENT_PREFIX)
      invariant Strip(text) == CleanText(text0)
      decreases |text|
    {
      TrimSpaceFacts(AfterTaskPrefix(text));
      var rest := if HasPrefix(text, QUERY_PREFIX) then text[|QUERY_PREFIX|..] else text[|DOCUMENT_PREFIX|..];
      text := TrimSpace(rest);
    }
  }

  // ----- the whole call -----

  datatype Config = Config(
    baseURL: string,
    prefixOwner: string,
    dimensions: nat,
    packTokenLimit: int,
    maxChunksPerInput: int,
    tokenizer: Tokenizer)

  /** The text that is chunked: as given, or cleaned when the client owns the task prefix. */
  function Prepared(config: Config, text: string): string
  {
    if config.prefixOwner == "client" then CleanText(text) else text
  }

  /** `chunks` are sent for `text`: its own chunks, each with the task prefix and its own
      token count when the client owns the prefix. */
  ghost predicate EffectiveChunks(config: Config, worker: bool, text: string, chunks: seq<TokenChunk>)
  {
    exists raw :: ChunksOf(config.tokenizer, Prepared(config, text), raw) && Prefixed(config, worker, raw, chunks)
  }

  ghost predicate Prefixed(config: Config, worker: bool, raw: seq<TokenChunk>, chunks: seq<TokenChunk>)
  {
    && |raw| == |chunks| > 0
    && forall j :: 0 <= j < |raw| ==> PrefixedChunk(config, worker, raw[j], chunks[j])
  }

  ghost predicate PrefixedChunk(config: Config, worker: bool, raw: TokenChunk, chunk: TokenChunk)
  {
    if config.prefixOwner == "client" then
      && chunk.text == TaskPrefix(worker) + raw.text
      && config.tokenizer.tokenize(chunk.text).Some?
      && chunk.tokenCount == |config.tokenizer.tokenize(chunk.text).value| <= 510
    else chunk == raw
  }

  /** A text is sent as one sequence of chunks only. */
  lemma EffectiveChunksUnique(config: Config, worker: bool, text: string, a: seq<TokenChunk>, b: seq<TokenChunk>)
    requires EffectiveChunks(config, worker, text, a) && EffectiveChunks(config, worker, text, b)
    ensures a == b
  {
    var ra :| ChunksOf(config.tokenizer, Prepared(config, text), ra) && Prefixed(config, worker, ra, a);
    var rb :| ChunksOf(config.tokenizer, Prepared(config, text), rb) && Prefixed(config, worker, rb, b);
    assert ra == rb;
    assert forall j :: 0 <= j < |ra| ==>
      PrefixedChunk(config, worker, ra[j], a[j]) && PrefixedChunk(config, worker, rb[j], b[j]);
  }

  /** The text cannot be sent with its prefix: it does not tokenize, or exceeds the context. */
  ghost predicate PrefixTooLong(config: Config, worker: bool, text: string)
  {
    && config.prefixOwner == "client"
    && var tokens := config.tokenizer.tokenize(TaskPrefix(worker) + text);
       tokens.None? || |tokens.value| > 510
  }

  /** Some chunk of a text cannot be sent with its prefix. */
  ghost predicate PartTooLong(config: Config, worker: bool, raw: seq<TokenChunk>)
  {
    exists j :: 0 <= j < |raw| && PrefixTooLong(config, worker, raw[j].text)
  }

  method AddPrefixes(config: Config, worker: bool, raw: seq<TokenChunk>) returns (r: Result<seq<TokenChunk>>)
    requires raw != []
    ensures r.Ok? ==> Prefixed(config, worker, raw, r.value)
    ensures r.Err? <==> PartTooLong(config, worker, raw)
  {
    if config.prefixOwner != "client" {
      return Ok(raw);
    }
    var chunks := raw;
    for j := 0 to |chunks|
      invariant |chunks| == |raw|
      invariant forall k :: 0 <= k < j ==> PrefixedChunk(config, worker, raw[k], chunks[k])
      invariant forall k :: 0 <= k < j ==> !PrefixTooLong(config, worker, raw[k].text)
      invariant forall k :: j <= k < |chunks| ==> chunks[k] == raw[k]
    {
      var effective := TaskPrefix(worker) + chunks[j].text;
      var tokens := config.tokenizer.tokenize(effective);
      assert tokens.None? || |tokens.value| > DEFAULT_MAX_TOKENS - 2 ==> PrefixTooLong(config, worker, chunks[j].text);
      if tokens.None? {
        return Err("tokenize failed");
      }
      if |tokens.value| > DEFAULT_MAX_TOKENS - 2 {
        return Err("prefixed embedding chunk exceeds model context");
      }
      chunks := chunks[j := TokenChunk(effective, |tokens.value|)];
    }
    return Ok(chunks);
  }

  method CleanAll(config: Config, texts: seq<string>) returns (r: Result<seq<string>>)
    ensures r.Ok? ==> |r.value| == |texts| && forall i :: 0 <= i < |texts| ==> r.value[i] == Prepared(config, texts[i])
    ensures r.Err? <==> exists i :: 0 <= i < |texts| && Blank(config, texts[i])
  {
    if config.prefixOwner != "client" {
      return Ok(texts);
    }
    var clean: seq<string> := [];
    for i := 0 to |texts|
      invariant |clean| == i
      invariant forall k :: 0 <= k < i ==> clean[k] == CleanText(texts[k]) != ""
    {
      var text := Clean(texts[i]);
      if text == "" {
        assert Blank(config, texts[i]);
        return Err("empty embedding input");
      }
      clean := clean + [text];
    }
    return Ok(clean);
  }

  ghost predicate LiesAt<T>(part: seq<T>, inputs: seq<T>, lo: nat, hi: nat)
  {
    lo <= hi <= |inputs| && inputs[lo..hi] == part
  }

  /** The inputs of all requests and where each text's chunks lie in them. */
  ghost predicate LaidOut<T>(parts: seq<seq<T>>, inputs: seq<T>, offsets: seq<nat>)
  {
    && |offsets| == |parts| + 1 && offsets[0] == 0 && offsets[|parts|] == |inputs|
    && (forall i {:trigger parts[i]} :: 0 <= i < |parts| ==> LiesAt(parts[i], inputs, offsets[i], offsets[i + 1]))
  }

  lemma LayOutMore(parts: seq<seq<TokenChunk>>, inputs: seq<TokenChunk>, offsets: seq<nat>, next: seq<TokenChunk>)
    requires LaidOut(parts, inputs, offsets)
    ensures LaidOut(parts + [next], inputs + next, offsets + [offsets[|parts|] + |next|])
  {
    var ps, ins, offs := parts + [next], inputs + next, offsets + [offsets[|parts|] + |next|];
    forall i {:trigger ps[i]} | 0 <= i < |ps|
      ensures LiesAt(ps[i], ins, offs[i], offs[i + 1])
    {
      if i < |parts| {
        assert LiesAt(parts[i], inputs, offsets[i], offsets[i + 1]);
        assert ins[offs[i]..offs[i + 1]] == inputs[offsets[i]..offsets[i + 1]];
      }
    }
  }

  method LayOut(config: Config, worker: bool, chunked: seq<seq<TokenChunk>>)
    returns (r: Result<(seq<TokenChunk>, seq<nat>)>, ghost parts: seq<seq<TokenChunk>>)
    requires forall i :: 0 <= i < |chunked| ==> chunked[i] != []
    ensures r.Ok? ==> |parts| == |chunked| && LaidOut(parts, r.value.0, r.value.1)
    ensures r.Ok? ==> forall i :: 0 <= i < |parts| ==> Prefixed(config, worker, chunked[i], parts[i])
    ensures r.Ok? ==> Flatten(parts) == r.value.0
    ensures r.Err? ==> exists i :: 0 <= i < |chunked| && PartTooLong(config, worker, chunked[i])
  {
    hide LaidOut, Prefixed, PrefixTooLong;
    var inputs: seq<TokenChunk> := [];
    var offsets: seq<nat> := [0];
    parts := [];
    EmptyLayOut();
    for i := 0 to |chunked|
      invariant |parts| == i && |offsets| == i + 1
      invariant LaidOut(parts, inputs, offsets) && Flatten(parts) == inputs
      invariant forall k :: 0 <= k < i ==> Prefixed(config, worker, chunked[k], parts[k])
    {
      var chunks := AddPrefixes(config, worker, chunked[i]);
      if chunks.Err? {
        assert PartTooLong(config, worker, chunked[i]);
        return Err(chunks.error), parts;
      }
      LayOutMore(parts, inputs, offsets, chunks.value);
      FlattenAppend(parts, chunks.value);
      parts := parts + [chunks.value];
      offsets := offsets + [offsets[i] + |chunks.value|];
      inputs := inputs + chunks.value;
    }
    return Ok((inputs, offsets)), parts;
  }

  lemma EmptyLayOut()
    ensures LaidOut<TokenChunk>([], [], [0])
  {
  }

  /** Cutting the vectors at the offsets gives each text as many as it has chunks. */
  lemma CutAtOffsets(parts: seq<seq<TokenChunk>>, inputs: seq<TokenChunk>, offsets: seq<nat>, vectors: seq<Vector>)
    returns (slices: seq<seq<Vector>>)
    requires LaidOut(parts, inputs, offsets) && |vectors| == |inputs|
    ensures SameShape(parts, slices) && Flatten(slices) == vectors
    ensures LaidOut(slices, vectors, offsets)
  {
    hide LiesAt;
    slices := [];
    EmptySlice(vectors);
    for i := 0 to |parts|
      invariant |slices| == i && offsets[i] <= |vectors| && Flatten(slices) == vectors[..offsets[i]]
      invariant forall k :: 0 <= k < i ==> |parts[k]| == |slices[k]|
      invariant forall k {:trigger slices[k]} :: 0 <= k < i ==> LiesAt(slices[k], vectors, offsets[k], offsets[k + 1])
    {
      assert LiesAt(parts[i], inputs, offsets[i], offsets[i + 1]);
      CutOne(parts[i], inputs, vectors, offsets[i], offsets[i + 1]);
      var slice := vectors[offsets[i]..offsets[i + 1]];
      FlattenAppend(slices, slice);
      assert vectors[..offsets[i]] + slice == vectors[..offsets[i + 1]];
      slices := slices + [slice];
    }
    assert vectors[..|vectors|] == vectors;
  }

  lemma EmptySlice(vectors: seq<Vector>)
    ensures Flatten<Vector>([]) == vectors[..0]
  {
  }

  lemma CutOne(part: seq<TokenChunk>, inputs: seq<TokenChunk>, vectors: seq<Vector>, lo: nat, hi: nat)
    requires LiesAt(part, inputs, lo, hi) && |vectors| == |inputs|
    ensures lo <= hi <= |vectors| && |vectors[lo..hi]| == |part| && LiesAt(vectors[lo..hi], vectors, lo, hi)
  {
  }

  /** `v` is the mean of the vectors of one text's chunks. */
  ghost predicate PooledTo(slice: seq<Vector>, dimensions: nat, v: Vector)
  {
    slice != [] && v == Mean(slice, dimensions)
  }

  ghost predicate PoolUnusable(slice: seq<Vector>, dimensions: nat)
  {
    slice != [] && !Usable(Mean(slice, dimensions), dimensions)
  }

  lemma Pooled(slice: seq<Vector>, dimensions: nat, v: Vector)
    requires slice != [] && v == Mean(slice, dimensions)
    ensures PooledTo(slice, dimensions, v) && (PoolUnusable(slice, dimensions) <==> !Usable(v, dimensions))
  {
  }

  lemma SliceAt(parts: seq<seq<TokenChunk>>, slices: seq<seq<Vector>>, vectors: seq<Vector>, offsets: seq<nat>, i: nat)
    requires SameShape(parts, slices) && LaidOut(slices, vectors, offsets) && i < |parts| && parts[i] != []
    ensures |offsets| == |parts| + 1 && offsets[i] <= offsets[i + 1] <= |vectors|
    ensures slices[i] == vectors[offsets[i]..offsets[i + 1]] != []
  {
    assert LiesAt(slices[i], vectors, offsets[i], offsets[i + 1]);
  }

  ghost predicate SomePoolUnusable(slices: seq<seq<Vector>>, dimensions: nat)
  {
    exists i :: 0 <= i < |slices| && PoolUnusable(slices[i], dimensions)
  }

  /** Pool the vectors of each text's chunks. */
  method Pool(dimensions: nat, ghost parts: seq<seq<TokenChunk>>, ghost inputs: seq<TokenChunk>, offsets: seq<nat>,
              vectors: seq<Vector>) returns (r: Result<seq<Vector>>, ghost slices: seq<seq<Vector>>)
    requires LaidOut(parts, inputs, offsets) && |vectors| == |inputs| && forall i :: 0 <= i < |parts| ==> parts[i] != []
    requires forall v :: v in vectors ==> Usable(v, dimensions)
    ensures SameShape(parts, slices) && Flatten(slices) == vectors
    ensures r.Ok? ==> |r.value| == |parts|
    ensures r.Ok? ==> forall i :: 0 <= i < |parts| ==>
      PooledTo(slices[i], dimensions, r.value[i]) && Usable(r.value[i], dimensions)
    ensures r.Err? <==> SomePoolUnusable(slices, dimensions)
  {
    hide *;
    ghost var cut := CutAtOffsets(parts, inputs, offsets, vectors);
    slices := cut;
    LaidOutSize(parts, inputs, offsets);
    CutSize(parts, cut);
    var pooled: seq<Vector> := [];
    for i := 0 to |offsets| - 1
      invariant |pooled| == i
      invariant forall k :: 0 <= k < i ==> PooledTo(cut[k], dimensions, pooled[k]) && Usable(pooled[k], dimensions)
      invariant forall k :: 0 <= k < i ==> !PoolUnusable(cut[k], dimensions)
    {
      SliceAt(parts, cut, vectors, offsets, i);
      var slice := vectors[offsets[i]..offsets[i + 1]];
      SliceDimensions(vectors, slice, dimensions, offsets[i], offsets[i + 1]);
      var mean := MeanVectors(slice, dimensions);
      var ok := ValidateVector(mean, dimensions);
      Pooled(slice, dimensions, mean);
      if !ok {
        PoolFails(cut, dimensions, i);
        return Err("pooled embedding is unusable"), cut;
      }
      pooled := pooled + [mean];
    }
    PoolSucceeds(cut, dimensions);
    return Ok(pooled), cut;
  }

  lemma PoolFails(slices: seq<seq<Vector>>, dimensions: nat, i: nat)
    requires i < |slices| && PoolUnusable(slices[i], dimensions)
    ensures SomePoolUnusable(slices, dimensions)
  {
  }

  lemma PoolSucceeds(slices: seq<seq<Vector>>, dimensions: nat)
    requires forall i :: 0 <= i < |slices| ==> !PoolUnusable(slices[i], dimensions)
    ensures !SomePoolUnusable(slices, dimensions)
  {
  }

  lemma CutSize(parts: seq<seq<TokenChunk>>, slices: seq<seq<Vector>>)
    requires SameShape(parts, slices)
    ensures |slices| == |parts|
  {
  }

  /** Chunks are always small enough for a request of their own. */
  lemma ChunksFit(config: Config, worker: bool, text: string, raw: seq<TokenChunk>, part: seq<TokenChunk>)
    requires ChunksOf(config.tokenizer, text, raw) && Prefixed(config, worker, raw, part)
    ensures forall c :: c in part ==> c.tokenCount <= CHUNK_TOKEN_LIMIT || c.tokenCount <= DEFAULT_MAX_TOKENS - 2
  {
    var tokens := config.tokenizer.tokenize(text).value;
    RangesPartition(tokens, ChunkCount(|tokens|));
    forall c | c in part
      ensures c.tokenCount <= CHUNK_TOKEN_LIMIT || c.tokenCount <= DEFAULT_MAX_TOKENS - 2
    {
      var j :| 0 <= j < |part| && part[j] == c;
      assert PrefixedChunk(config, worker, raw[j], part[j]);
    }
  }

  lemma {:induction false} FlattenMember(parts: seq<seq<TokenChunk>>, c: TokenChunk) returns (i: nat)
    requires c in Flatten(parts)
    ensures i < |parts| && c in parts[i]
  {
    if c in parts[0] {
      i := 0;
    } else {
      i := FlattenMember(parts[1..], c);
      i := i + 1;
    }
  }

  /** So no input is refused for its size, and no default request exceeds the context. */
  lemma InputsFit(config: Config, worker: bool, texts: seq<string>, chunked: seq<seq<TokenChunk>>,
                  parts: seq<seq<TokenChunk>>)
    requires |texts| == |chunked| == |parts|
    requires forall i :: 0 <= i < |texts| ==> ChunksOf(config.tokenizer, texts[i], chunked[i])
    requires forall i :: 0 <= i < |parts| ==> Prefixed(config, worker, chunked[i], parts[i])
    ensures forall c :: c in Flatten(parts) ==>
      c.tokenCount <= CHUNK_TOKEN_LIMIT || c.tokenCount <= DEFAULT_MAX_TOKENS - 2
    ensures !Oversized(Flatten(parts))
    ensures forall batches, b :: Partition(batches, Flatten(parts), REQUEST_PACK_TOKEN_LIMIT) && b in batches ==>
      Tokens(b) <= 512
  {
    hide ChunksOf, Prefixed;
    forall c | c in Flatten(parts)
      ensures c.tokenCount <= CHUNK_TOKEN_LIMIT || c.tokenCount <= DEFAULT_MAX_TOKENS - 2
    {
      var i := FlattenMember(parts, c);
      ChunksFit(config, worker, texts[i], chunked[i], parts[i]);
    }
    forall batches, b | Partition(batches, Flatten(parts), REQUEST_PACK_TOKEN_LIMIT) && b in batches
      ensures Tokens(b) <= 512
    {
      DefaultRequestsFit(batches, Flatten(parts), b);
    }
  }

  // ----- what a call sends, gets and pools -----

  function PackLimit(config: Config): int
  {
    if config.packTokenLimit > 0 then config.packTokenLimit else REQUEST_PACK_TOKEN_LIMIT
  }

  /** The chunks of each text, and the requests that carry all of them in order. */
  ghost predicate SentAs(config: Config, texts: seq<string>, worker: bool, parts: seq<seq<TokenChunk>>,
                         batches: seq<seq<TokenChunk>>)
  {
    && |parts| == |texts| && (forall i :: 0 <= i < |texts| ==> EffectiveChunks(config, worker, texts[i], parts[i]))
    && Packed(batches, Flatten(parts), PackLimit(config))
  }

  /** The same chunks twice, by text and by request, each with the vectors that answer them. */
  datatype Delivery = Delivery(
    parts: seq<seq<TokenChunk>>,
    batches: seq<seq<TokenChunk>>,
    results: seq<seq<Vector>>,
    slices: seq<seq<Vector>>)

  ghost predicate Delivered(config: Config, texts: seq<string>, worker: bool, backend: Backend, d: Delivery)
  {
    && SentAs(config, texts, worker, d.parts, d.batches)
    && AllAnswered(backend, config.dimensions, d.batches, d.results)
    && SameShape(d.parts, d.slices) && Flatten(d.slices) == Flatten(d.results)
  }

  /** What is sent is determined by the texts. */
  lemma SentUnique(config: Config, texts: seq<string>, worker: bool, p: seq<seq<TokenChunk>>, bs: seq<seq<TokenChunk>>,
                   q: seq<seq<TokenChunk>>, cs: seq<seq<TokenChunk>>)
    requires SentAs(config, texts, worker, p, bs) && SentAs(config, texts, worker, q, cs)
    ensures p == q && bs == cs
  {
    hide EffectiveChunks, Packed;
    forall i | 0 <= i < |texts|
      ensures p[i] == q[i]
    {
      EffectiveChunksUnique(config, worker, texts[i], p[i], q[i]);
    }
    assert p == q;
    PackingUnique(bs, cs, Flatten(p), PackLimit(config));
  }

  /** What is pooled is determined by the texts and the backend, whatever completes first. */
  lemma DeliveryUnique(config: Config, texts: seq<string>, worker: bool, backend: Backend, d: Delivery, e: Delivery)
    requires Delivered(config, texts, worker, backend, d) && Delivered(config, texts, worker, backend, e)
    ensures d == e
  {
    hide SentAs, AllAnswered;
    SentUnique(config, texts, worker, d.parts, d.batches, e.parts, e.batches);
    AnsweredUnique(backend, config.dimensions, d.batches, d.results, e.results);
    GroupingUnique(d.slices, e.slices);
  }

  /** Chunk `j` of text `i` is input `k` of request `b`, and its vector answers just that. */
  lemma EachChunkAnswered(config: Config, texts: seq<string>, worker: bool, backend: Backend, d: Delivery, i: nat,
                          j: nat)
    returns (b: nat, k: nat)
    requires Delivered(config, texts, worker, backend, d) && i < |texts| && j < |d.parts[i]|
    ensures b < |d.batches| && k < |d.batches[b]| && d.batches[b][k] == d.parts[i][j]
    ensures |d.slices| == |d.parts| && |d.slices[i]| == |d.parts[i]|
    ensures backend(b, TextsOf(d.batches[b])).Reply? && Answers(backend(b, TextsOf(d.batches[b])), k, d.slices[i][j])
  {
    hide EffectiveChunks, Answers, Acceptable, TextsOf;
    var p := |Flatten(d.parts[..i])| + j;
    FlattenAt(d.parts, i, j, p);
    PackedFlat(d.batches, Flatten(d.parts), PackLimit(config));
    b, k := FindGroup(d.batches, p);
    FlattenAt(d.batches, b, k, p);
    assert BatchAnswered(backend(b, TextsOf(d.batches[b])), d.batches[b], config.dimensions, d.results[b]);
    assert SameShape(d.batches, d.results);
    LiesInBoth(d.batches, d.results, b, k, p);
    FlattenAt(d.results, b, k, p);
    LiesInBoth(d.parts, d.slices, i, j, p);
    FlattenAt(d.slices, i, j, p);
    AcceptableReply(backend(b, TextsOf(d.batches[b])), |d.batches[b]|, config.dimensions);
  }

  lemma AcceptableReply(reply: Reply, n: nat, dimensions: nat)
    requires Acceptable(reply, n, dimensions)
    ensures reply.Reply?
  {
  }

  /** The call fails: settings, a text that cannot be chunked or sent, a request without a usable
      reply, or a text whose vectors have no usable mean. */
  ghost predicate Fails(config: Config, texts: seq<string>, worker: bool, backend: Backend)
  {
    || config.baseURL == ""
    || config.prefixOwner !in ["", "legacy", "client"]
    || (exists i :: 0 <= i < |texts| && Blank(config, texts[i]))
    || (exists i :: 0 <= i < |texts| && Unchunkable(config, texts[i]))
    || (exists i :: 0 <= i < |texts| && TextTooLong(config, worker, texts[i]))
    || RequestRefused(config, texts, worker, backend)
    || MeanUnusable(config, texts, worker, backend)
  }

  ghost predicate Unchunkable(config: Config, text: string)
  {
    exists e :: RefusedFor(config.tokenizer, Prepared(config, text), config.maxChunksPerInput, e)
  }

  predicate Blank(config: Config, text: string)
  {
    config.prefixOwner == "client" && CleanText(text) == ""
  }

  ghost predicate TextTooLong(config: Config, worker: bool, text: string)
  {
    exists raw :: ChunksOf(config.tokenizer, Prepared(config, text), raw) && PartTooLong(config, worker, raw)
  }

  ghost predicate RequestRefused(config: Config, texts: seq<string>, worker: bool, backend: Backend)
  {
    exists parts, batches, b: nat ::
      SentAs(config, texts, worker, parts, batches) && BatchRefused(backend, config.dimensions, batches, b)
  }

  ghost predicate MeanUnusable(config: Config, texts: seq<string>, worker: bool, backend: Backend)
  {
    exists d ::
      Delivered(config, texts, worker, backend, d) && SomePoolUnusable(d.slices, config.dimensions)
  }

  lemma TextNotTooLong(config: Config, worker: bool, text: string, part: seq<TokenChunk>)
    requires EffectiveChunks(config, worker, text, part)
    ensures !TextTooLong(config, worker, text)
  {
    var raw :| ChunksOf(config.tokenizer, Prepared(config, text), raw) && Prefixed(config, worker, raw, part);
    forall other | ChunksOf(config.tokenizer, Prepared(config, text), other)
      ensures !PartTooLong(config, worker, other)
    {
      assert other == raw;
      assert forall j :: 0 <= j < |raw| ==> PrefixedChunk(config, worker, raw[j], part[j]);
    }
  }

  /** A delivery excludes a refused request; usable means exclude the last cause. */
  lemma DeliveredNotRefused(config: Config, texts: seq<string>, worker: bool, backend: Backend, d: Delivery)
    requires Delivered(config, texts, worker, backend, d)
    ensures !RequestRefused(config, texts, worker, backend)
    ensures forall i :: 0 <= i < |texts| ==> !TextTooLong(config, worker, texts[i])
    ensures MeanUnusable(config, texts, worker, backend) <==> SomePoolUnusable(d.slices, config.dimensions)
  {
    hide EffectiveChunks, Packed, Acceptable, PoolUnusable, TextTooLong;
    forall parts, batches, b: nat | SentAs(config, texts, worker, parts, batches)
      ensures !BatchRefused(backend, config.dimensions, batches, b)
    {
      SentUnique(config, texts, worker, parts, batches, d.parts, d.batches);
      assert b < |batches| ==> BatchAnswered(backend(b, TextsOf(batches[b])), batches[b], config.dimensions,
        d.results[b]);
    }
    forall i | 0 <= i < |texts|
      ensures !TextTooLong(config, worker, texts[i])
    {
      TextNotTooLong(config, worker, texts[i], d.parts[i]);
    }
    forall e | Delivered(config, texts, worker, backend, e)
      ensures e == d
    {
      DeliveryUnique(config, texts, worker, backend, d, e);
    }
  }

  /** Output `i` is the mean of the vectors that answer text `i`'s own chunks, however the chunks
      are packed, requests complete and replies are ordered.  Every failure has its cause, and
      every cause makes the call fail. */
  method Embed(config: Config, texts: seq<string>, worker: bool, backend: Backend)
    returns (r: Result<seq<Vector>>, ghost d: Delivery)
    ensures r.Ok? ==> Delivered(config, texts, worker, backend, d) && |r.value| == |d.slices| == |texts|
    ensures r.Ok? ==> forall i :: 0 <= i < |texts| ==>
      PooledTo(d.slices[i], config.dimensions, r.value[i]) && Usable(r.value[i], config.dimensions)
    ensures r.Err? <==> Fails(config, texts, worker, backend)
  {
    hide CleanText, Prepared, RefusedFor, RequestRefused, MeanUnusable, TextTooLong, Delivered, PooledTo, Usable,
      ChunksOf, WithinBudget;
    d := Delivery([], [], [], []);
    if config.baseURL == "" {
      return Err("embedding backend URL is empty"), d;
    }
    if config.prefixOwner != "" && config.prefixOwner != "legacy" && config.prefixOwner != "client" {
      return Err("unsupported task prefix owner"), d;
    }
    var clean := CleanAll(config, texts);
    if clean.Err? {
      return Err(clean.error), d;
    }
    var chunked := ChunkTexts(config.tokenizer, clean.value, config.maxChunksPerInput);
    if chunked.RefusedText? {
      assert Unchunkable(config, texts[chunked.index]);
      return Err("chunking failed"), d;
    }
    NoneRefused(config, texts, clean.value, chunked.chunks);
    r, d := EmbedChunked(config, texts, clean.value, chunked.chunks, worker, backend);
  }

  lemma NoneRefused(config: Config, texts: seq<string>, clean: seq<string>, chunked: seq<seq<TokenChunk>>)
    requires |texts| == |clean| == |chunked| && forall i :: 0 <= i < |texts| ==> clean[i] == Prepared(config, texts[i])
    requires forall i :: 0 <= i < |clean| ==>
      ChunksOf(config.tokenizer, clean[i], chunked[i]) && WithinBudget(config.maxChunksPerInput, chunked[i])
    ensures forall i :: 0 <= i < |texts| ==> !Unchunkable(config, texts[i])
  {
    hide ChunksOf, WithinBudget, RefusedFor, Prepared;
    forall i, e | 0 <= i < |texts|
      ensures !RefusedFor(config.tokenizer, Prepared(config, texts[i]), config.maxChunksPerInput, e)
    {
      ChunkedNotRefused(config.tokenizer, clean[i], config.maxChunksPerInput, chunked[i], e);
    }
  }

  lemma PartsSent(config: Config, worker: bool, texts: seq<string>, clean: seq<string>, chunked: seq<seq<TokenChunk>>,
                  parts: seq<seq<TokenChunk>>)
    requires |texts| == |clean| == |chunked| == |parts|
    requires forall i :: 0 <= i < |texts| ==> clean[i] == Prepared(config, texts[i])
    requires forall i :: 0 <= i < |clean| ==> ChunksOf(config.tokenizer, clean[i], chunked[i])
    requires forall i :: 0 <= i < |parts| ==> Prefixed(config, worker, chunked[i], parts[i])
    ensures forall i :: 0 <= i < |texts| ==> EffectiveChunks(config, worker, texts[i], parts[i]) && parts[i] != []
  {
    hide ChunksOf, Prepared, PrefixedChunk;
  }

  lemma TooLongText(config: Config, worker: bool, texts: seq<string>, clean: seq<string>, chunked: seq<seq<TokenChunk>>)
    requires |texts| == |clean| == |chunked| && forall i :: 0 <= i < |texts| ==> clean[i] == Prepared(config, texts[i])
    requires forall i :: 0 <= i < |clean| ==> ChunksOf(config.tokenizer, clean[i], chunked[i])
    requires exists i :: 0 <= i < |chunked| && PartTooLong(config, worker, chunked[i])
    ensures exists i :: 0 <= i < |texts| && TextTooLong(config, worker, texts[i])
  {
    hide ChunksOf, Prepared, PartTooLong;
    var i :| 0 <= i < |chunked| && PartTooLong(config, worker, chunked[i]);
    assert TextTooLong(config, worker, texts[i]);
  }

  /** Prefix, pack, embed and pool texts that are chunked. */
  method EmbedChunked(config: Config, ghost texts: seq<string>, clean: seq<string>, chunked: seq<seq<TokenChunk>>,
                      worker: bool, backend: Backend)
    returns (r: Result<seq<Vector>>, ghost d: Delivery)
    requires |texts| == |clean| == |chunked|
    requires forall i :: 0 <= i < |texts| ==> clean[i] == Prepared(config, texts[i])
    requires forall i :: 0 <= i < |clean| ==> ChunksOf(config.tokenizer, clean[i], chunked[i]) && chunked[i] != []
    ensures r.Ok? ==> Delivered(config, texts, worker, backend, d) && |r.value| == |d.slices| == |texts|
    ensures r.Ok? ==> forall i :: 0 <= i < |texts| ==>
      PooledTo(d.slices[i], config.dimensions, r.value[i]) && Usable(r.value[i], config.dimensions)
    ensures r.Err? <==>
      || (exists i :: 0 <= i < |texts| && TextTooLong(config, worker, texts[i]))
      || RequestRefused(config, texts, worker, backend) || MeanUnusable(config, texts, worker, backend)
  {
    hide *;
    d := Delivery([], [], [], []);
    var laidOut;
    ghost var parts;
    laidOut, parts := LayOut(config, worker, chunked);
    if laidOut.Err? {
      TooLongText(config, worker, texts, clean, chunked);
      return Err(laidOut.error), d;
    }
    var (inputs, offsets) := laidOut.value;
    InputsFit(config, worker, clean, chunked, parts);
    PartsSent(config, worker, texts, clean, chunked, parts);
    var vectors;
    ghost var batches, results;
    vectors, batches, results := EmbedInputs(inputs, PackLimit(config), config.dimensions, backend);
    SentNow(config, texts, worker, parts, batches);
    if vectors.Err? {
      RefusedNow(config, texts, worker, backend, parts, batches);
      return Err(vectors.error), d;
    }
    ghost var slices;
    r, slices := Pool(config.dimensions, parts, inputs, offsets, vectors.value);
    d := Delivery(parts, batches, results, slices);
    DeliveredNow(config, texts, worker, backend, d);
    DeliveredNotRefused(config, texts, worker, backend, d);
  }

  lemma SentNow(config: Config, texts: seq<string>, worker: bool, parts: seq<seq<TokenChunk>>,
                batches: seq<seq<TokenChunk>>)
    requires |parts| == |texts| && forall i :: 0 <= i < |texts| ==> EffectiveChunks(config, worker, texts[i], parts[i])
    requires Packed(batches, Flatten(parts), PackLimit(config))
    ensures SentAs(config, texts, worker, parts, batches)
  {
  }

  lemma RefusedNow(config: Config, texts: seq<string>, worker: bool, backend: Backend, parts: seq<seq<TokenChunk>>,
                   batches: seq<seq<TokenChunk>>)
    requires SentAs(config, texts, worker, parts, batches)
      && exists b: nat :: BatchRefused(backend, config.dimensions, batches, b)
    ensures RequestRefused(config, texts, worker, backend)
  {
    hide SentAs, BatchRefused;
  }

  lemma DeliveredNow(config: Config, texts: seq<string>, worker: bool, backend: Backend, d: Delivery)
    requires SentAs(config, texts, worker, d.parts, d.batches)
    requires AllAnswered(backend, config.dimensions, d.batches, d.results)
    requires SameShape(d.parts, d.slices) && Flatten(d.slices) == Flatten(d.results)
    ensures Delivered(config, texts, worker, backend, d) && |d.slices| == |d.parts| == |texts|
  {
  }

  // ----- a backend whose vectors depend on the text alone -----

  /** Every vector a reply gives for an input is the embedding `vec` of that input's text. */
  ghost predicate Faithful(backend: Backend, vec: string -> Vector)
  {
    forall b, texts, k: nat, v ::
      backend(b, texts).Reply? && k < |texts| && Answers(backend(b, texts), k, v) ==> v == vec(texts[k])
  }

  function Embeddings(chunks: seq<TokenChunk>, vec: string -> Vector): seq<Vector>
  {
    seq(|chunks|, i requires 0 <= i < |chunks| => vec(chunks[i].text))
  }

  /** Then the vectors of a text are the embeddings of its own chunks, whatever else is asked for. */
  lemma FaithfulSlices(config: Config, texts: seq<string>, worker: bool, backend: Backend, d: Delivery,
                       vec: string -> Vector, i: nat)
    requires Faithful(backend, vec) && Delivered(config, texts, worker, backend, d) && i < |texts|
    ensures |d.slices| == |d.parts| == |texts| && EffectiveChunks(config, worker, texts[i], d.parts[i])
    ensures d.slices[i] == Embeddings(d.parts[i], vec)
  {
    hide EffectiveChunks, Packed, AllAnswered, Answers;
    forall j: nat | j < |d.parts[i]|
      ensures d.slices[i][j] == vec(d.parts[i][j].text)
    {
      var b, k := EachChunkAnswered(config, texts, worker, backend, d, i, j);
      assert k < |TextsOf(d.batches[b])| && TextsOf(d.batches[b])[k] == d.parts[i][j].text;
    }
  }

  lemma LaidOutSize(parts: seq<seq<TokenChunk>>, inputs: seq<TokenChunk>, offsets: seq<nat>)
    requires LaidOut(parts, inputs, offsets)
    ensures |offsets| == |parts| + 1
  {
  }

  lemma SliceDimensions(vectors: seq<Vector>, slice: seq<Vector>, dimensions: nat, lo: nat, hi: nat)
    requires lo <= hi <= |vectors| && slice == vectors[lo..hi]
    requires forall v :: v in vectors ==> Usable(v, dimensions)
    ensures forall v :: v in slice ==> |v| == dimensions
  {
    forall v | v in slice
      ensures |v| == dimensions
    {
      assert v in vectors;
    }
  }
}
