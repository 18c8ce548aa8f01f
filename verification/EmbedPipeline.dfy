/** From texts to pooled vectors: chunking, packing, out-of-order requests, indexed
responses and mean pooling. */
module EmbedPipeline {
  import opened EmbedPacking
  import opened Ids

  type Vector = seq<real>

  // ----- vectors -----

  ghost function SumAt(vs: seq<Vector>, k: nat): real
  {
    if vs == [] then 0.0
    else SumAt(vs[..|vs| - 1], k) + if k < |vs[|vs| - 1]| then vs[|vs| - 1][k] else 0.0
  }

  /** The mean of equally long vectors, component by component. */
  ghost function Mean(vs: seq<Vector>, dimensions: nat): Vector
    requires vs != []
  {
    seq(dimensions, k requires 0 <= k => SumAt(vs, k) / (|vs| as real))
  }

  function Square(x: real): real
  {
    x * x
  }

  ghost function SquareSum(v: Vector): real
  {
    if v == [] then 0.0 else SquareSum(v[..|v| - 1]) + Square(v[|v| - 1])
  }

  /** A vector of the right length with a norm. */
  ghost predicate Usable(v: Vector, dimensions: nat)
  {
    |v| == dimensions && SquareSum(v) != 0.0
  }

  lemma ProductPositive(a: real, b: real, y: real)
    requires a > 0.0 && b > 0.0 && y == a * b
    ensures y > 0.0
  {
  }

  lemma SquareNegated(x: real)
    ensures Square(-x) == Square(x)
  {
  }

  lemma SquareOfZero()
    ensures Square(0.0) == 0.0
  {
  }

  lemma SquareZero(x: real)
    ensures x != 0.0 ==> Square(x) > 0.0
    ensures x == 0.0 ==> Square(x) == 0.0
  {
    SquareOfZero();
    if x > 0.0 {
      ProductPositive(x, x, Square(x));
    } else if x < 0.0 {
      ProductPositive(-x, -x, Square(-x));
      SquareNegated(x);
    }
    hide Square;
  }

  lemma {:induction false} SquareSumZero(v: Vector)
    ensures SquareSum(v) >= 0.0
    ensures SquareSum(v) == 0.0 <==> forall i :: 0 <= i < |v| ==> v[i] == 0.0
  {
    hide Square;
    if v != [] {
      var n := |v| - 1;
      SquareSumZero(v[..n]);
      SquareZero(v[n]);
      assert forall i :: 0 <= i < n ==> v[..n][i] == v[i];
    }
  }

  /** A usable vector has the right length and is not zero. */
  lemma UsableExactly(v: Vector, dimensions: nat)
    ensures Usable(v, dimensions) <==> |v| == dimensions && exists i :: 0 <= i < |v| && v[i] != 0.0
  {
    SquareSumZero(v);
  }

  /** The mean of one vector is the vector. */
  lemma MeanOfOne(v: Vector, dimensions: nat)
    requires |v| == dimensions
    ensures Mean([v], dimensions) == v
  {
    var vs := [v];
    assert vs[..0] == [];
    forall k | 0 <= k < dimensions
      ensures Mean(vs, dimensions)[k] == v[k]
    {
      assert SumAt(vs, k) == SumAt([], k) + v[k];
    }
  }

  lemma Scaled(sum: real, n: real)
    requires n > 0.0
    ensures (sum / n) * n == sum
  {
  }

  /** One more vector moves the mean by its share. */
  lemma MeanOfMore(vs: seq<Vector>, v: Vector, dimensions: nat, k: nat)
    requires vs != [] && k < dimensions == |v|
    ensures Mean(vs + [v], dimensions)[k] * (|vs| as real + 1.0) == Mean(vs, dimensions)[k] * (|vs| as real) + v[k]
  {
    var more := vs + [v];
    assert more[..|vs|] == vs;
    Scaled(SumAt(more, k), |vs| as real + 1.0);
    Scaled(SumAt(vs, k), |vs| as real);
  }

  method ValidateVector(v: Vector, dimensions: nat) returns (ok: bool)
    ensures ok <==> Usable(v, dimensions)
  {
    if |v| != dimensions {
      return false;
    }
    var norm := 0.0;
    for i := 0 to |v|
      invariant norm == SquareSum(v[..i])
    {
      assert v[..i + 1][..i] == v[..i];
      norm := norm + Square(v[i]);
    }
    assert v[..|v|] == v;
    return norm != 0.0;
  }

  /** The mean of the chunk vectors; a single vector is copied. */
  method MeanVectors(chunkVectors: seq<Vector>, dimensions: nat) returns (r: Vector)
    requires chunkVectors != [] && forall v :: v in chunkVectors ==> |v| == dimensions
    ensures r == Mean(chunkVectors, dimensions)
  {
    if |chunkVectors| == 1 {
      assert chunkVectors[..0] == [];
      forall k | 0 <= k < dimensions
        ensures Mean(chunkVectors, dimensions)[k] == chunkVectors[0][k]
      {
        assert SumAt(chunkVectors, k) == SumAt([], k) + chunkVectors[0][k];
      }
      return chunkVectors[0];
    }
    var mean := new real[dimensions](_ => 0.0);
    for j := 0 to |chunkVectors|
      invariant forall k :: 0 <= k < dimensions ==> mean[k] == SumAt(chunkVectors[..j], k)
    {
      var vec := chunkVectors[j];
      assert chunkVectors[..j + 1][..j] == chunkVectors[..j];
      for i := 0 to dimensions
        invariant forall k :: 0 <= k < i ==> mean[k] == SumAt(chunkVectors[..j + 1], k)
        invariant forall k :: i <= k < dimensions ==> mean[k] == SumAt(chunkVectors[..j], k)
      {
        if i < |vec| {
          mean[i] := mean[i] + vec[i];
        }
      }
    }
    assert chunkVectors[..|chunkVectors|] == chunkVectors;
    var n := |chunkVectors| as real;
    for i := 0 to dimensions
      invariant forall k :: 0 <= k < i ==> mean[k] == SumAt(chunkVectors, k) / n
      invariant forall k :: i <= k < dimensions ==> mean[k] == SumAt(chunkVectors, k)
    {
      mean[i] := mean[i] / n;
    }
    return mean[..];
  }

  // ----- one request -----

  datatype Item = Item(embedding: Vector, index: Option<int>)

  /** A backend reply: positional vectors, or items that may name the input they belong to. */
  datatype Reply = Unavailable | Reply(embeddings: seq<Vector>, data: seq<Item>)

  function Slot(data: seq<Item>, i: nat): int
    requires i < |data|
  {
    if data[i].index.Some? then data[i].index.value else i
  }

  /** The reply gives `v` for input `k`. */
  ghost predicate Answers(reply: Reply, k: nat, v: Vector)
    requires reply.Reply?
  {
    if reply.embeddings != [] then k < |reply.embeddings| && v == reply.embeddings[k]
    else exists i :: 0 <= i < |reply.data| && Slot(reply.data, i) == k && reply.data[i].embedding == v
  }

  /** The items either all name their input or none does, and no two share one. */
  ghost predicate Permuted(data: seq<Item>)
  {
    && (forall i :: 0 <= i < |data| ==> data[i].index.Some? == data[0].index.Some?)
    && (forall i :: 0 <= i < |data| ==> 0 <= Slot(data, i) < |data|)
    && (forall i, j :: 0 <= i < j < |data| ==> Slot(data, i) != Slot(data, j))
  }

  ghost predicate Acceptable(reply: Reply, n: nat, dimensions: nat)
  {
    && reply.Reply?
    && (reply.embeddings == [] ==> Permuted(reply.data))
    && n == (if reply.embeddings == [] then |reply.data| else |reply.embeddings|)
    && (forall k: nat, v :: k < n && Answers(reply, k, v) ==> Usable(v, dimensions))
  }

  function Range(n: nat): (r: set<int>)
    ensures |r| == n && forall k :: k in r <==> 0 <= k < n
  {
    if n == 0 then {} else Range(n - 1) + {n - 1}
  }

  /** Distinct slots in range fill all slots. */
  lemma Pigeonhole(slots: set<int>, n: nat)
    requires |slots| == n && forall s :: s in slots ==> 0 <= s < n
    ensures forall k :: 0 <= k < n ==> k in slots
  {
    forall k | 0 <= k < n
      ensures k in slots
    {
      if k !in slots {
        SubsetSize(slots + {k}, Range(n));
      }
    }
  }

  /** The first `n` items are placed at distinct slots, which are exactly the seen ones. */
  ghost predicate Placed(data: seq<Item>, n: nat, seen: seq<bool>, vectors: seq<Vector>, slots: set<int>)
  {
    && n <= |data| == |seen| == |vectors| && |slots| == n
    && (forall j :: 0 <= j < n ==> data[j].index.Some? == data[0].index.Some?)
    && (forall j :: 0 <= j < n ==>
          && 0 <= Slot(data, j) < |data| && Slot(data, j) in slots
          && vectors[Slot(data, j)] == data[j].embedding)
    && (forall j, k :: 0 <= j < k < n ==> Slot(data, j) != Slot(data, k))
    && (forall s :: s in slots ==> 0 <= s < |data| && SlotTaken(data, n, s))
    && (forall s :: 0 <= s < |data| ==> (seen[s] <==> s in slots))
  }

  ghost predicate SlotTaken(data: seq<Item>, n: nat, s: int)
  {
    exists j :: 0 <= j < n && j < |data| && Slot(data, j) == s
  }

  lemma PlaceOne(data: seq<Item>, n: nat, seen: seq<bool>, vectors: seq<Vector>, slots: set<int>)
    requires Placed(data, n, seen, vectors, slots) && n < |data|
    requires data[n].index.Some? == data[0].index.Some?
    requires 0 <= Slot(data, n) < |data| && !seen[Slot(data, n)]
    ensures var s := Slot(data, n);
      Placed(data, n + 1, seen[s := true], vectors[s := data[n].embedding], slots + {s})
  {
    hide SlotTaken;
    var s := Slot(data, n);
    assert s !in slots;
    forall j | 0 <= j < n
      ensures Slot(data, j) != s && vectors[s := data[n].embedding][Slot(data, j)] == data[j].embedding
    {
    }
    forall t | t in slots + {s}
      ensures 0 <= t < |data| && SlotTaken(data, n + 1, t)
    {
      TakenMore(data, n, t);
    }
  }

  lemma TakenMore(data: seq<Item>, n: nat, t: int)
    requires n < |data| && (t == Slot(data, n) || SlotTaken(data, n, t))
    ensures SlotTaken(data, n + 1, t)
  {
    if t != Slot(data, n) {
      var j :| 0 <= j < n && j < |data| && Slot(data, j) == t;
      assert 0 <= j < n + 1 && j < |data| && Slot(data, j) == t;
    }
  }

  lemma SlotClash(data: seq<Item>, i: nat, seen: seq<bool>, vectors: seq<Vector>, slots: set<int>)
    requires i < |data| && Placed(data, i, seen, vectors, slots)
    requires 0 <= Slot(data, i) < |data| == |seen| && seen[Slot(data, i)]
    ensures !Permuted(data)
  {
    assert SlotTaken(data, i, Slot(data, i));
  }

  lemma AllPlaced(data: seq<Item>, seen: seq<bool>, vectors: seq<Vector>, slots: set<int>)
    requires Placed(data, |data|, seen, vectors, slots)
    ensures Permuted(data) && |vectors| == |data|
    ensures forall i :: 0 <= i < |data| ==> 0 <= Slot(data, i) < |data| && vectors[Slot(data, i)] == data[i].embedding
    ensures forall k :: 0 <= k < |data| ==> SlotTaken(data, |data|, k)
  {
    hide SlotTaken;
    Pigeonhole(slots, |data|);
  }

  /** Place every item at the input it names. */
  method PlaceItems(data: seq<Item>) returns (r: Option<seq<Vector>>)
    requires data != []
    ensures r.Some? <==> Permuted(data)
    ensures r.Some? ==>
      && |r.value| == |data|
      && (forall i :: 0 <= i < |data| ==> 0 <= Slot(data, i) < |data| && r.value[Slot(data, i)] == data[i].embedding)
      && (forall k :: 0 <= k < |data| ==> SlotTaken(data, |data|, k))
  {
    var vectors := new Vector[|data|](_ => []);
    var indexed := data[0].index.Some?;
    var seen := new bool[|data|](_ => false);
    ghost var slots: set<int> := {};
    for i := 0 to |data|
      invariant Placed(data, i, seen[..], vectors[..], slots)
    {
      hide Placed, SlotTaken;
      var item := data[i];
      if item.index.Some? != indexed {
        return None;
      }
      var index := i;
      if indexed {
        index := item.index.value;
      }
      assert index == Slot(data, i);
      if index < 0 || index >= vectors.Length || seen[index] {
        if 0 <= index < vectors.Length {
          SlotClash(data, i, seen[..], vectors[..], slots);
        }
        return None;
      }
      PlaceOne(data, i, seen[..], vectors[..], slots);
      seen[index] := true;
      vectors[index] := item.embedding;
      slots := slots + {index};
    }
    AllPlaced(data, seen[..], vectors[..], slots);
    return Some(vectors[..]);
  }

  /** Send one request and check the reply. */
  method EmbedOnce(reply: Reply, n: nat, dimensions: nat) returns (r: Option<seq<Vector>>)
    ensures r.Some? <==> Acceptable(reply, n, dimensions)
    ensures r.Some? ==> reply.Reply? && |r.value| == n && forall k :: 0 <= k < n ==> Answers(reply, k, r.value[k])
    ensures r.Some? ==> forall k :: 0 <= k < n ==> Usable(r.value[k], dimensions)
  {
    if reply.Unavailable? {
      return None;
    }
    var vectors := reply.embeddings;
    if |vectors| == 0 && |reply.data| > 0 {
      var placed := PlaceItems(reply.data);
      if placed.None? {
        return None;
      }
      vectors := placed.value;
    }
    if |vectors| != n {
      return None;
    }
    AnswersAre(reply, vectors);
    for i := 0 to |vectors|
      invariant forall k :: 0 <= k < i ==> Usable(vectors[k], dimensions)
    {
      var ok := ValidateVector(vectors[i], dimensions);
      if !ok {
        assert Answers(reply, i, vectors[i]);
        return None;
      }
    }
    return Some(vectors);
  }

  /** `vectors` are exactly the reply's answers. */
  lemma AnswersAre(reply: Reply, vectors: seq<Vector>)
    requires reply.Reply?
    requires if reply.embeddings != [] then vectors == reply.embeddings else
      && |vectors| == |reply.data| && Permuted(reply.data)
      && (forall i :: 0 <= i < |reply.data| ==> vectors[Slot(reply.data, i)] == reply.data[i].embedding)
      && (forall k :: 0 <= k < |reply.data| ==> SlotTaken(reply.data, |reply.data|, k))
    ensures forall k: nat, v :: Answers(reply, k, v) <==> k < |vectors| && v == vectors[k]
  {
    forall k: nat | k < |vectors|
      ensures Answers(reply, k, vectors[k])
    {
      if reply.embeddings == [] {
        assert SlotTaken(reply.data, |reply.data|, k);
      }
    }
  }

  /** In a usable reply an item answers the input it names, or else the input at its own place; a
      positional vector answers the input at its place. */
  lemma AnsweredInputs(reply: Reply, n: nat, dimensions: nat, i: nat)
    requires Acceptable(reply, n, dimensions) && i < n
    ensures reply.embeddings != [] ==> |reply.embeddings| == n && Answers(reply, i, reply.embeddings[i])
    ensures reply.embeddings == [] ==>
      && |reply.data| == n
      && match reply.data[i].index
         case Some(k) => 0 <= k < n && Answers(reply, k, reply.data[i].embedding)
         case None => Answers(reply, i, reply.data[i].embedding)
  {
    if reply.embeddings == [] {
      assert 0 <= Slot(reply.data, i) < n;
    }
  }

  /** A usable reply answers each input with one vector. */
  lemma AnswersUnique(reply: Reply, n: nat, dimensions: nat, k: nat, v: Vector, w: Vector)
    requires Acceptable(reply, n, dimensions) && Answers(reply, k, v) && Answers(reply, k, w)
    ensures v == w
  {
  }

  // ----- grouped lists -----

  ghost predicate SameShape<T, U>(a: seq<seq<T>>, b: seq<seq<U>>)
  {
    |a| == |b| && forall i :: 0 <= i < |a| ==> |a[i]| == |b[i]|
  }

  /** A grouped list is determined by its shape and its elements. */
  lemma {:induction false} GroupingUnique<T>(a: seq<seq<T>>, b: seq<seq<T>>)
    requires SameShape(a, b) && Flatten(a) == Flatten(b)
    ensures a == b
  {
    if a != [] {
      FlattenParts(a);
      FlattenParts(b);
      assert a[0] == Flatten(a)[..|a[0]|] == b[0];
      GroupingUnique(a[1..], b[1..]);
      assert a == [a[0]] + a[1..] && b == [b[0]] + b[1..];
    }
  }

  /** Element `p` of the whole list is element `k` of group `g`. */
  ghost predicate LiesIn<T>(groups: seq<seq<T>>, g: nat, k: nat, p: nat)
  {
    g < |groups| && k < |groups[g]| && p == |Flatten(groups[..g])| + k
  }

  lemma {:induction false} FindGroup<T>(groups: seq<seq<T>>, p: nat) returns (g: nat, k: nat)
    requires p < |Flatten(groups)|
    ensures LiesIn(groups, g, k, p)
  {
    if p < |groups[0]| {
      g, k := 0, p;
      assert groups[..0] == [];
    } else {
      g, k := FindGroup(groups[1..], p - |groups[0]|);
      g := g + 1;
      assert groups[..g][1..] == groups[1..][..g - 1];
    }
  }

  lemma {:induction false} FlattenAt<T>(groups: seq<seq<T>>, g: nat, k: nat, p: nat)
    requires LiesIn(groups, g, k, p)
    ensures p < |Flatten(groups)| && Flatten(groups)[p] == groups[g][k]
  {
    if g == 0 {
      assert groups[..0] == [];
    } else {
      assert groups[..g][1..] == groups[1..][..g - 1];
      FlattenAt(groups[1..], g - 1, k, p - |groups[0]|);
    }
  }

  lemma {:induction false} SameShapeSize<T, U>(a: seq<seq<T>>, b: seq<seq<U>>)
    requires SameShape(a, b)
    ensures |Flatten(a)| == |Flatten(b)|
  {
    if a != [] {
      SameShapeSize(a[1..], b[1..]);
    }
  }

  lemma LiesInBoth<T, U>(a: seq<seq<T>>, b: seq<seq<U>>, g: nat, k: nat, p: nat)
    requires SameShape(a, b) && LiesIn(a, g, k, p)
    ensures LiesIn(b, g, k, p)
  {
    SameShapeSize(a[..g], b[..g]);
  }

  // ----- many requests, in any completion order -----

  /** What the backend replies to the request with the given number. */
  type Backend = (nat, seq<string>) -> Reply

  function TextsOf(chunks: seq<TokenChunk>): seq<string>
  {
    seq(|chunks|, i requires 0 <= i < |chunks| => chunks[i].text)
  }

  /** A usable reply to a request, and its answers in the order of the inputs. */
  ghost predicate BatchAnswered(reply: Reply, batch: seq<TokenChunk>, dimensions: nat, answers: seq<Vector>)
  {
    && Acceptable(reply, |batch|, dimensions) && |answers| == |batch|
    && forall k :: 0 <= k < |batch| ==> Answers(reply, k, answers[k])
  }

  ghost predicate AllAnswered(backend: Backend, dimensions: nat, batches: seq<seq<TokenChunk>>,
                              results: seq<seq<Vector>>)
  {
    && |results| == |batches|
    && forall b :: 0 <= b < |batches| ==>
         BatchAnswered(backend(b, TextsOf(batches[b])), batches[b], dimensions, results[b])
  }

  /** The reply to request `b` is missing or unusable. */
  ghost predicate BatchRefused(backend: Backend, dimensions: nat, batches: seq<seq<TokenChunk>>, b: nat)
  {
    b < |batches| && !Acceptable(backend(b, TextsOf(batches[b])), |batches[b]|, dimensions)
  }

  /** The requests of these inputs have one list of answers only. */
  lemma AnsweredUnique(backend: Backend, dimensions: nat, batches: seq<seq<TokenChunk>>, a: seq<seq<Vector>>,
                       b: seq<seq<Vector>>)
    requires AllAnswered(backend, dimensions, batches, a) && AllAnswered(backend, dimensions, batches, b)
    ensures a == b
  {
    forall g | 0 <= g < |batches|
      ensures a[g] == b[g]
    {
      var reply := backend(g, TextsOf(batches[g]));
      assert BatchAnswered(reply, batches[g], dimensions, a[g]) && BatchAnswered(reply, batches[g], dimensions, b[g]);
      forall k | 0 <= k < |batches[g]|
        ensures a[g][k] == b[g][k]
      {
        AnswersUnique(reply, |batches[g]|, dimensions, k, a[g][k], b[g][k]);
      }
    }
  }

  /** Embed chunks in packed requests that complete in any order.  Each vector answers its own
      position in its own request, and a failure has a chunk or a request to blame. */
  method EmbedInputs(inputs: seq<TokenChunk>, packLimit: int, dimensions: nat, backend: Backend)
    returns (r: Result<seq<Vector>>, ghost batches: seq<seq<TokenChunk>>, ghost results: seq<seq<Vector>>)
    ensures Oversized(inputs) ==> r.Err?
    ensures !Oversized(inputs) ==> Packed(batches, inputs, packLimit)
    ensures !Oversized(inputs) ==> (r.Err? <==> exists b: nat :: BatchRefused(backend, dimensions, batches, b))
    ensures r.Ok? ==> AllAnswered(backend, dimensions, batches, results) && r.value == Flatten(results)
    ensures r.Ok? ==> |r.value| == |inputs| && forall v :: v in r.value ==> Usable(v, dimensions)
  {
    hide Acceptable, Usable, Packed, GoodBatch, Oversized, TextsOf;
    var packed := PackBatches(inputs, packLimit);
    if packed.Err? {
      return Err(packed.error), [], [];
    }
    var parts := packed.value;
    batches := parts;
    var found: seq<seq<Vector>> := seq(|parts|, _ => []);
    var pending := Range(|parts|);
    while pending != {}
      invariant |found| == |parts|
      invariant forall b :: b in pending ==> 0 <= b < |parts|
      invariant forall b :: 0 <= b < |parts| && b !in pending ==>
        BatchAnswered(backend(b, TextsOf(parts[b])), parts[b], dimensions, found[b]) && AllUsable(found[b], dimensions)
      decreases pending
    {
      var index :| index in pending;
      var texts := TextsOf(parts[index]);
      TextsSize(parts[index]);
      var vectors := EmbedOnce(backend(index, texts), |texts|, dimensions);
      if vectors.None? {
        assert BatchRefused(backend, dimensions, batches, index);
        return Err("embedding backend failed"), batches, [];
      }
      assert BatchAnswered(backend(index, texts), parts[index], dimensions, vectors.value);
      found := found[index := vectors.value];
      pending := pending - {index};
    }
    results := found;
    PackedFlat(batches, inputs, packLimit);
    SameShapeSize(batches, results);
    FlattenUsable(results, dimensions);
    var vectors := Join(found);
    return Ok(vectors), batches, results;
  }

  lemma TextsSize(chunks: seq<TokenChunk>)
    ensures |TextsOf(chunks)| == |chunks|
  {
  }

  lemma PackedFlat(batches: seq<seq<TokenChunk>>, inputs: seq<TokenChunk>, limit: int)
    requires Packed(batches, inputs, limit)
    ensures Flatten(batches) == inputs
  {
  }

  ghost predicate AllUsable(vs: seq<Vector>, dimensions: nat)
  {
    forall v :: v in vs ==> Usable(v, dimensions)
  }

  lemma {:induction false} FlattenUsable(results: seq<seq<Vector>>, dimensions: nat)
    requires forall b :: 0 <= b < |results| ==> AllUsable(results[b], dimensions)
    ensures AllUsable(Flatten(results), dimensions)
  {
    if results != [] {
      assert AllUsable(results[0], dimensions);
      FlattenUsable(results[1..], dimensions);
    }
  }

  method Join(results: seq<seq<Vector>>) returns (vectors: seq<Vector>)
    ensures vectors == Flatten(results)
  {
    vectors := [];
    assert results[..0] == [];
    for b := 0 to |results|
      invariant vectors == Flatten(results[..b])
    {
      assert results[..b + 1] == results[..b] + [results[b]];
      FlattenAppend(results[..b], results[b]);
      vectors := vectors + results[b];
    }
    assert results[..|results|] == results;
  }
}
