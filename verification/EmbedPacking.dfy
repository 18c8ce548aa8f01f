/** Packing token chunks into embedding requests. */
module EmbedPacking {

  /** Most counted tokens of one chunk in any request. */
  const REQUEST_TOKEN_LIMIT := 4096
  /** The default packing budget of one request. */
  const REQUEST_PACK_TOKEN_LIMIT := 512
  /** Tokens of one source chunk. */
  const CHUNK_TOKEN_LIMIT := 480
  /** The model context; two of its tokens are reserved. */
  const DEFAULT_MAX_TOKENS := 512

  datatype TokenChunk = TokenChunk(text: string, tokenCount: nat)

  datatype Result<+T> = Ok(value: T) | Err(error: string)

  ghost function Tokens(chunks: seq<TokenChunk>): nat
  {
    if chunks == [] then 0 else chunks[0].tokenCount + Tokens(chunks[1..])
  }

  ghost function Flatten<T>(parts: seq<seq<T>>): seq<T>
  {
    if parts == [] then [] else parts[0] + Flatten(parts[1..])
  }

  lemma {:induction false} TokensConcat(a: seq<TokenChunk>, b: seq<TokenChunk>)
    ensures Tokens(a + b) == Tokens(a) + Tokens(b)
  {
    if a == [] {
      assert a + b == b;
    } else {
      assert (a + b)[1..] == a[1..] + b;
      TokensConcat(a[1..], b);
    }
  }

  lemma TokensWithin(a: seq<TokenChunk>, lo: nat, hi: nat)
    requires lo <= hi <= |a|
    ensures Tokens(a[lo..hi]) <= Tokens(a)
  {
    assert a == a[..lo] + (a[lo..hi] + a[hi..]);
    TokensConcat(a[..lo], a[lo..hi] + a[hi..]);
    TokensConcat(a[lo..hi], a[hi..]);
  }

  lemma {:induction false} FlattenAppend<T>(parts: seq<seq<T>>, last: seq<T>)
    ensures Flatten(parts + [last]) == Flatten(parts) + last
  {
    if parts == [] {
      assert parts + [last] == [last];
      assert Flatten([last]) == last + Flatten([]);
    } else {
      assert (parts + [last])[1..] == parts[1..] + [last];
      FlattenAppend(parts[1..], last);
    }
  }

  /** A request holds one chunk, or several within the budget. */
  ghost predicate GoodBatch(batch: seq<TokenChunk>, limit: int)
  {
    batch != [] && (|batch| == 1 || Tokens(batch) <= limit)
  }

  /** `batches` cut `inputs` into good batches, in order. */
  ghost predicate Partition(batches: seq<seq<TokenChunk>>, inputs: seq<TokenChunk>, limit: int)
  {
    Flatten(batches) == inputs && forall b :: b in batches ==> GoodBatch(b, limit)
  }

  /** No batch could also take the first chunk of the next one. */
  ghost predicate Greedy(batches: seq<seq<TokenChunk>>, limit: int)
  {
    forall k :: 0 < k < |batches| ==>
      batches[k] != [] && Tokens(batches[k - 1]) + batches[k][0].tokenCount > limit
  }

  ghost predicate Packed(batches: seq<seq<TokenChunk>>, inputs: seq<TokenChunk>, limit: int)
  {
    Partition(batches, inputs, limit) && Greedy(batches, limit)
  }

  lemma FlattenParts<T>(parts: seq<seq<T>>)
    requires parts != []
    ensures Flatten(parts) == parts[0] + Flatten(parts[1..])
    ensures parts[0] <= Flatten(parts) && Flatten(parts)[|parts[0]|..] == Flatten(parts[1..])
    ensures parts[0] in parts
  {
  }

  lemma EmptyParts(parts: seq<seq<TokenChunk>>, limit: int)
    requires Partition(parts, [], limit)
    ensures parts == []
  {
    if parts != [] {
      FlattenParts(parts);
    }
  }

  lemma RestPartition(parts: seq<seq<TokenChunk>>, inputs: seq<TokenChunk>, limit: int)
    requires Partition(parts, inputs, limit) && parts != []
    ensures GoodBatch(parts[0], limit) && parts[0] <= inputs
    ensures Partition(parts[1..], inputs[|parts[0]|..], limit)
    ensures Greedy(parts, limit) ==> Greedy(parts[1..], limit)
  {
    FlattenParts(parts);
    assert parts[0] in parts;
    forall k | Greedy(parts, limit) && 0 < k < |parts[1..]|
      ensures parts[1..][k] != [] && Tokens(parts[1..][k - 1]) + parts[1..][k][0].tokenCount > limit
    {
      assert parts[1..][k] == parts[k + 1];
    }
  }

  /** Greedy batches of a suffix are never more than good batches of the whole. */
  lemma {:induction false} GreedyStaysAhead(greedy: seq<seq<TokenChunk>>, other: seq<seq<TokenChunk>>,
                                            whole: seq<TokenChunk>, from: nat, limit: int)
    requires from <= |whole|
    requires Partition(greedy, whole[from..], limit) && Greedy(greedy, limit)
    requires Partition(other, whole, limit)
    ensures |greedy| <= |other|
    decreases |other|
  {
    if from == |whole| {
      assert whole[from..] == [];
      EmptyParts(greedy, limit);
    } else if greedy != [] && other != [] {
      var g, o := greedy[0], other[0];
      RestPartition(greedy, whole[from..], limit);
      RestPartition(other, whole, limit);
      FirstReaches(greedy, o, whole, from, limit);
      var rest, ahead := whole[|o|..], from + |g| - |o|;
      assert whole[from..][|g|..] == rest[ahead..];
      GreedyStaysAhead(greedy[1..], other[1..], rest, ahead, limit);
    }
  }

  /** Inputs have one greedy packing only. */
  lemma {:induction false} PackingUnique(a: seq<seq<TokenChunk>>, b: seq<seq<TokenChunk>>, inputs: seq<TokenChunk>,
                                         limit: int)
    requires Packed(a, inputs, limit) && Packed(b, inputs, limit)
    ensures a == b
  {
    if inputs == [] {
      EmptyParts(a, limit);
      EmptyParts(b, limit);
    } else {
      assert inputs[0..] == inputs;
      RestPartition(a, inputs, limit);
      RestPartition(b, inputs, limit);
      FirstReaches(a, b[0], inputs, 0, limit);
      FirstReaches(b, a[0], inputs, 0, limit);
      assert a[0] == inputs[..|a[0]|] == b[0];
      PackingUnique(a[1..], b[1..], inputs[|a[0]|..], limit);
      assert a == [a[0]] + a[1..] && b == [b[0]] + b[1..];
    }
  }

  /** The second batch starts with the chunk after the first batch. */
  lemma SecondBatch(batches: seq<seq<TokenChunk>>, inputs: seq<TokenChunk>, limit: int)
    requires Partition(batches, inputs, limit) && batches != [] && |batches[0]| < |inputs|
    ensures batches[0] == inputs[..|batches[0]|]
    ensures |batches| > 1 && batches[1] != [] && batches[1][0] == inputs[|batches[0]|]
  {
    RestPartition(batches, inputs, limit);
    var left := inputs[|batches[0]|..];
    assert left != [] && left[0] == inputs[|batches[0]|];
    assert batches[1..] != [];
    RestPartition(batches[1..], left, limit);
    assert batches[1..][0] == batches[1];
  }

  /** The first greedy batch ends no earlier than a good batch that starts no later. */
  lemma FirstReaches(greedy: seq<seq<TokenChunk>>, o: seq<TokenChunk>, whole: seq<TokenChunk>, from: nat, limit: int)
    requires from <= |whole| && greedy != [] && o <= whole && GoodBatch(o, limit)
    requires Partition(greedy, whole[from..], limit) && Greedy(greedy, limit)
    ensures from + |greedy[0]| >= |o|
  {
    var g := greedy[0];
    RestPartition(greedy, whole[from..], limit);
    if from + |g| < |o| {
      SecondBatch(greedy, whole[from..], limit);
      var next := greedy[1][0];
      hide Partition, Flatten;
      assert o[from..from + |g| + 1] == g + [next];
      TokensConcat(g, [next]);
      assert Tokens([next]) == next.tokenCount + Tokens([]);
      TokensWithin(o, from, from + |g| + 1);
    }
  }

  ghost predicate Oversized(chunks: seq<TokenChunk>)
  {
    exists i :: 0 <= i < |chunks| && chunks[i].tokenCount > 4096
  }

  /** The longest batch from `start` within the budget, at least one chunk. */
  method NextBatch(inputs: seq<TokenChunk>, start: nat, packLimit: int) returns (r: Result<nat>)
    requires start < |inputs|
    ensures r.Err? ==> Oversized(inputs)
    ensures r.Ok? ==>
      && start < r.value <= |inputs|
      && GoodBatch(inputs[start..r.value], packLimit)
      && (forall i :: start <= i < r.value ==> inputs[i].tokenCount <= REQUEST_TOKEN_LIMIT)
      && (r.value < |inputs| ==> Tokens(inputs[start..r.value]) + inputs[r.value].tokenCount > packLimit)
  {
    var count, end := 0, start;
    while end < |inputs|
      invariant start <= end <= |inputs|
      invariant count == Tokens(inputs[start..end])
      invariant end > start ==> GoodBatch(inputs[start..end], packLimit)
      invariant forall i :: start <= i < end ==> inputs[i].tokenCount <= REQUEST_TOKEN_LIMIT
    {
      if inputs[end].tokenCount > REQUEST_TOKEN_LIMIT {
        return Err("embedding chunk exceeds the request limit");
      }
      if end > start && count + inputs[end].tokenCount > packLimit {
        break;
      }
      assert inputs[start..end + 1] == inputs[start..end] + [inputs[end]];
      TokensConcat(inputs[start..end], [inputs[end]]);
      count := count + inputs[end].tokenCount;
      end := end + 1;
    }
    return Ok(end);
  }

  /** The batches so far cover the inputs before `start`, and none can be extended. */
  ghost predicate PackedTo(batches: seq<seq<TokenChunk>>, inputs: seq<TokenChunk>, start: nat, limit: int)
    requires start <= |inputs|
  {
    && Partition(batches, inputs[..start], limit)
    && Greedy(batches, limit)
    && (batches != [] && start < |inputs| ==>
          Tokens(batches[|batches| - 1]) + inputs[start].tokenCount > limit)
    && (forall i :: 0 <= i < start ==> inputs[i].tokenCount <= REQUEST_TOKEN_LIMIT)
  }

  lemma PackMore(batches: seq<seq<TokenChunk>>, inputs: seq<TokenChunk>, start: nat, end: nat, limit: int)
    requires start < end <= |inputs| && PackedTo(batches, inputs, start, limit)
    requires GoodBatch(inputs[start..end], limit)
    requires forall i :: start <= i < end ==> inputs[i].tokenCount <= REQUEST_TOKEN_LIMIT
    requires end < |inputs| ==> Tokens(inputs[start..end]) + inputs[end].tokenCount > limit
    ensures PackedTo(batches + [inputs[start..end]], inputs, end, limit)
  {
    FlattenAppend(batches, inputs[start..end]);
    assert inputs[..end] == inputs[..start] + inputs[start..end];
    var more: seq<seq<TokenChunk>> := batches + [inputs[start..end]];
    forall k | 0 < k < |more|
      ensures more[k] != [] && Tokens(more[k - 1]) + more[k][0].tokenCount > limit
    {
      assert k < |batches| ==> more[k] == batches[k];
      assert more[k - 1] == batches[k - 1];
    }
  }

  /** Pack chunks into requests, in order: the fewest requests within the budget. */
  method PackBatches(inputs: seq<TokenChunk>, packLimit: int) returns (r: Result<seq<seq<TokenChunk>>>)
    ensures r.Err? <==> Oversized(inputs)
    ensures r.Ok? ==> Packed(r.value, inputs, packLimit)
    ensures r.Ok? ==> forall other :: Partition(other, inputs, packLimit) ==> |r.value| <= |other|
  {
    var batches: seq<seq<TokenChunk>> := [];
    var start := 0;
    while start < |inputs|
      invariant 0 <= start <= |inputs|
      invariant PackedTo(batches, inputs, start, packLimit)
    {
      var next := NextBatch(inputs, start, packLimit);
      if next.Err? {
        return Err(next.error);
      }
      PackMore(batches, inputs, start, next.value, packLimit);
      batches := batches + [inputs[start..next.value]];
      start := next.value;
    }
    assert inputs[..start] == inputs;
    forall other | Partition(other, inputs, packLimit)
      ensures |batches| <= |other|
    {
      assert inputs[0..] == inputs;
      GreedyStaysAhead(batches, other, inputs, 0, packLimit);
    }
    return Ok(batches);
  }

  /** With the default budget and chunk bounds no request carries more than the budget. */
  lemma DefaultRequestsFit(batches: seq<seq<TokenChunk>>, inputs: seq<TokenChunk>, b: seq<TokenChunk>)
    requires Partition(batches, inputs, REQUEST_PACK_TOKEN_LIMIT) && b in batches
    requires forall c :: c in inputs ==> c.tokenCount <= CHUNK_TOKEN_LIMIT || c.tokenCount <= DEFAULT_MAX_TOKENS - 2
    ensures Tokens(b) <= 512
  {
    assert GoodBatch(b, REQUEST_PACK_TOKEN_LIMIT);
    if |b| == 1 {
      InBatchInInputs(batches, b, b[0]);
      assert b[1..] == [];
      assert Tokens(b) == b[0].tokenCount + Tokens([]);
    }
  }

  lemma {:induction false} InBatchInInputs(batches: seq<seq<TokenChunk>>, b: seq<TokenChunk>, c: TokenChunk)
    requires b in batches && c in b
    ensures c in Flatten(batches)
  {
    if b != batches[0] {
      InBatchInInputs(batches[1..], b, c);
    }
  }
}
