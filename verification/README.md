# Verified models of atheros-search

atheros-search is a search and reporting service for wireless inventories, with a Go server and a
TypeScript client.  This project models the parts of it that are algorithms and state machines, and
proves what they promise.

1. **The presentation forest.** The server grows a breadth-first spanning forest over association
   evidence; the client checks the parents again, cuts cycles, and lays the nodes out as one tree.
   The two are composed across the interface.  Beside them stand the client's union-find grouping and
   its drawing of large scenes with one summary node per access point.
2. **The embedding pipeline.** Token chunking, greedy request packing, requests that complete in any
   order, replies that name their inputs, and mean pooling together equal one mean per text.  In front
   of it stand a cache with recency, lifetime and generations, a two-lane slot scheduler, and a circuit
   breaker with exponential backoff.
3. **Pagination as whole runs.** Two keyset cursors with endpoint completion and the client's loop over
   the pages, and the four-part cursor of the entity choices in three-valued logic.
4. **A printer and an incremental reader.** Canonical IPv6 text with its expansion, and the line reader
   of the search stream with its attempts.

`dafny verify dfyconfig.toml` checks everything.

## How to read it

| files | content |
|---|---|
| `Ids`, `Walks`, `GraphModel` | identifiers and their order, sorting, walks over links, graph records |
| `PresentationForest`, `PresentationTree`, `PresentationServed` | what a forest means; the server's traversal; the records it serves |
| `ParentCycles`, `HierarchyEvidence`, `HierarchyLayout`, `PresentationAgreement` | the cycle pass; which parents the client accepts; its layout; both sides together |
| `RelationshipGroups` | union-find with path compression |
| `Quotient`, `GraphAggregate`, `GraphRender`, `DrawnMeaning`, `DrawnConnectivity` | contracting a graph; what an aggregated drawing means; building it; the same said of the nodes and edges; what it keeps connected |
| `EmbedPacking`, `EmbedPipeline`, `EmbedClient`, `EmbedSending` | packing; one request and many; the whole call; what a call sends |
| `CacheSpec`, `CacheRuns`, `CacheEviction`, `QueryCaching` | the cache as a value; properties of runs; what eviction keeps; the cache object and its caller |
| `Scheduler`, `Circuit`, `CircuitRuns`, `CircuitVerdicts` | slots and callers; the breaker and its arithmetic; runs of the breaker; what its answers say |
| `GraphPaging`, `GraphLoading`, `EntityKeyset` | pages of a graph; the client's loop; entity choices |
| `SearchStream`, `SearchIdentity`, `CanonicalIPv6` | the stream reader; which results are the same; the address printer |

Code that updates state step by step is a method with loops, or a class whose methods are proved
against functions on values; the properties are then lemmas about those functions.

## Modelling choices

- Strings are sequences of characters.  One strict total order, lexicographic, stands for the string
  comparison of Go, of JavaScript and of `localeCompare`: the first position that differs decides
  (`Ids.BeforeByFirstDifference`).  `sort.Slice` and `Array.sort` are a stable sort by key
  (`Ids.SortByStable`).
- float32 values are reals.  Hash keys are the text that is hashed, as if the hash were injective.
  Embedding kinds hold no NUL, as the constants of the source; two kinds can share a key exactly when
  one ends with a NUL and then the other (`CacheSpec.CollisionExactly`).
- A backend may answer the same text differently in different requests, and a wrapped client may answer
  the same call differently each time.  While a call waits for it, other callers do anything to the
  cache that stores answers only.
- An aborted or failed request of the page loop is a number given from outside: that request rejects.
- The clock is an input.  Where a run needs it, it never goes back.  Cache generations are 64-bit and a
  result that depends on them bounds the run by 2^64 events.  The breaker's durations wrap in 64 bits;
  its failure counter, times and the sizes of all collections are unbounded.
- Node identifiers are distinct where they are keys of a table (the server's traversal, pages, the
  aggregated drawing); the client's layout is proved for any records, also with duplicates.  The
  aggregated drawing assumes that no input identifier starts with `aggregate:`.
- A query is a filtered, ordered sequence over a fixed snapshot.  Cursors are values, as if encoding and
  decoding them lost nothing.
- Goroutines are interleaved atomic steps (scheduler, breaker) or an arbitrary order of completion
  (embedding requests, chunking).
- A thrown error or a non-nil error is a value of the result.
- The closure `visit` of `buildPresentationTree` is a method over a record of the slices it writes.
- The inner loop of the cycle pass is its own method, and so is one round of the page-loading loop.

## Where the code and its promise differ

- **Aggregated drawings.** Edges are merged by the text `kind:source:target`.  Different edges can share
  it when an identifier contains a colon, and then a connection can be lost: nodes `a`, `b:c`, `a:b`, `c`
  with edges `a`-`b:c` and `a:b`-`c` of one kind (`DrawnConnectivity.DrawClashingScene`).  What is drawn
  connected always was connected.  For one scene the converse holds exactly when every edge whose key an
  earlier edge between other images took has its images connected by the edges that are first with their
  keys (`DrawnConnectivity.ModelConnectivity`); for all edge lists over given kinds and images exactly when
  no two keys clash (`DrawnConnectivity.KeysExactly`), which for kinds without a colon means that no
  identifiers `s`, `s:w`, `w:v`, `v` are present of which `s` with `w:v`, and `s:w` with `v`, are two
  different pairs (`DrawnConnectivity.OverlapExactly`, `DrawnConnectivity.ExpandedExactly`,
  `DrawnConnectivity.AnyExpansion`).
- **Early admission.** After another failure while open, the window can end earlier than before, and a
  call is admitted in what was left of it.  Some run shows this exactly when the ceiling is at least
  2^62 ns and the base below 2^61 ns (`CircuitRuns.NoEarlyAdmission`, `CircuitRuns.EarlyRun`).
- **Entity pages.** The next request refuses a cursor whose identifier is not a MAC address, although
  the page handed it out.  A run lists all rows exactly when every row that ends a page before the last
  is identified by a MAC address, so always when all rows are (`EntityKeyset.PagesAreList`); a run
  that is refused is `EntityKeyset.SecondPageRefused`.
- **Backoff.** `backoff * 2` can overflow.  The open window follows the law of doubling up to the ceiling
  over all runs exactly when the ceiling is below 2^62 ns, or equals the base, or is at most twice a base
  below 2^62 ns (`CircuitRuns.LawExactly`).  The default durations satisfy it.
- **One probe at a time.** A call that ends neutrally while half-open frees the probe slot, also under
  another call's probe, and then a second probe is admitted (`CircuitRuns.ForeignReleaseAdmits`,
  `CircuitRuns.SecondProbe`, `CircuitRuns.TwoProbes`).  A run keeps the rule of one probe exactly when
  it has no such release (`CircuitRuns.OneProbeExactly`).

## Model

| member | source | states |
|---|---|---|
| Ids.BeforeByFirstDifference | atheros-search/internal/reporting/graph_assembly.go:391-401 | one text precedes another exactly when at the first position where they differ it ends or has the smaller character |
| Ids.SortByStable | atheros-search/internal/reporting/graph_assembly.go:391-401 | sorting by a key keeps the order of elements with equal keys |
| PresentationTree.BuildPresentationTree | atheros-search/internal/reporting/graph_hierarchy.go:72-149 | for any records with distinct identifiers: depths are shortest association distances from a root, the roots are exactly the leaders of the components, listed with the requested root first, then access points, then others, tree edges are exactly the first edges between a node and its parent, and as many as the nodes that are not roots; everything else of the records is kept, in identifier order |
| PresentationTree.Visit | atheros-search/internal/reporting/graph_hierarchy.go:104-128 | one breadth-first traversal adds a whole component to the forest and keeps its invariant |
| PresentationTree.FollowEdges | atheros-search/internal/reporting/graph_hierarchy.go:111-126 | following the edges of one queue entry discovers its unvisited neighbours one level deeper, each by the first edge that reaches it |
| PresentationTree.Sweep | atheros-search/internal/reporting/graph_hierarchy.go:140-147 | a sweep visits every remaining node of a kind in identifier order, so each new root leads its component |
| PresentationTree.BuildAdjacency | atheros-search/internal/reporting/graph_hierarchy.go:95-101 | the adjacency lists hold exactly the association edges at each node, in edge order |
| PresentationForest.DepthIsDistance | atheros-search/internal/reporting/graph_hierarchy.go:109-122 | in a finished breadth-first forest the depth of a node is the length of a shortest walk from its root |
| PresentationForest.RootsAreLeaders | atheros-search/internal/reporting/graph_hierarchy.go:129-147 | a node is a root if and only if it is the requested root, or the smallest access point, or else the smallest node, of a component without the requested root |
| PresentationForest.LeaderUnique | atheros-search/internal/reporting/graph_hierarchy.go:138-147 | a component has only one leader |
| PresentationForest.TreeEdgeCount | atheros-search/internal/reporting/graph_hierarchy.go:118-123 | there are as many tree edges as nodes that are not roots |
| PresentationForest.ForestParents | atheros-search/internal/reporting/graph_hierarchy.go:118-123 | every node that is not a root hangs one level below its parent by a tree edge, and every tree edge joins a node to its parent |
| PresentationServed.NodesServed | atheros-search/internal/reporting/graph_hierarchy.go:72-83 | the nodes served are those given, with kind and caption, in strict identifier order; a device has the role client, another node the role of its kind, and the requested root that of a root |
| PresentationServed.EdgesServed | atheros-search/internal/reporting/graph_hierarchy.go:84-94 | the edges served are those given with both endpoints present, sorted by identifier, with only the tree mark rewritten |
| PresentationServed.SameComponent | atheros-search/internal/reporting/graph_hierarchy.go:64-66 | the endpoints of an edge of any of the three association kinds are in one component |
| GraphModel.AssociationKinds | atheros-search/internal/reporting/graph_hierarchy.go:64-66 | two nodes are linked exactly when they differ and an edge of one of the three association kinds joins them, in either direction |
| HierarchyLayout.BuildHierarchyLayout | atheros-search-ui/src/hooks/useHierarchyLayout.ts:31-107 | for any records: a parent is kept or cut exactly when the first record of a node that is no root names a present node to which a tree edge of an association kind joins it, one pointer of every cycle is cut, and the rest kept; the issues are exactly those of each check in order; the rows form one tree under a new root with every node once, and each row's parent, the drawn depths and the drawn edges are said of the records |
| HierarchyLayout.LayoutStated | atheros-search-ui/src/hooks/useHierarchyLayout.ts:31-107 | the same for any layout the method may return: parents, issues, rows, depths and edges, each said of the given records alone |
| HierarchyEvidence.Judged | atheros-search-ui/src/hooks/useHierarchyLayout.ts:52-59 | a parent is accepted, reported missing or reported unsupported exactly when the first record of the node names it, the node is no root, and the parent is present with a tree edge, absent, or present without one |
| HierarchyEvidence.IndexNodes | atheros-search-ui/src/hooks/useHierarchyLayout.ts:36-42 | the first record of each identifier is kept, each further one is an issue, and identifiers are listed once in order |
| HierarchyEvidence.NoDuplicates | atheros-search-ui/src/hooks/useHierarchyLayout.ts:38-41 | there is no duplicate issue if and only if identifiers are distinct |
| HierarchyEvidence.TreePairJoins | atheros-search-ui/src/hooks/useHierarchyLayout.ts:49-51 | an unordered pair is evidence if and only if some tree association edge joins the two in either direction |
| HierarchyEvidence.AcceptParents | atheros-search-ui/src/hooks/useHierarchyLayout.ts:52-59 | the accepted pointers and the issues are those of judging each record |
| HierarchyLayout.FreshId | atheros-search-ui/src/hooks/useHierarchyLayout.ts:81-84 | the added name is the shortest extension by underscores that no record has |
| HierarchyLayout.RowsFormTree | atheros-search-ui/src/hooks/useHierarchyLayout.ts:85-95 | the rows have distinct identifiers, one root, and every chain of parents ends there |
| ParentCycles.CutCycles | atheros-search-ui/src/hooks/useHierarchyLayout.ts:61-78 | for any pointers, also cyclic ones: exactly one pointer of every cycle is removed, and no other, and afterwards every chain ends |
| ParentCycles.PassOne | atheros-search-ui/src/hooks/useHierarchyLayout.ts:65-77 | climbing from one node checks its path, and cuts the repeated node's pointer when the path turns back on itself |
| ParentCycles.Climb | atheros-search-ui/src/hooks/useHierarchyLayout.ts:66-76 | the climb follows unchecked nodes until an end, a checked node or a repeated node |
| ParentCycles.OneCutPerCycle | atheros-search-ui/src/hooks/useHierarchyLayout.ts:69-72 | two cuts reached from a node on a cycle are the same |
| ParentCycles.EveryCycleCut | atheros-search-ui/src/hooks/useHierarchyLayout.ts:69-72 | every cycle among checked nodes has a cut |
| ParentCycles.NoCycle | atheros-search-ui/src/hooks/useHierarchyLayout.ts:61-78 | pointers with depths have no cycle |
| PresentationAgreement.ServeAndDraw | atheros-search-ui/src/hooks/useHierarchyLayout.ts:31-107 | the records that the server keeps and marks for a root among the nodes, with mapped edge kinds and the leaders as roots, are laid out by the client without an issue, with the same parents, and with the shortest depths of the server, one more exactly under a root that is neither an access point nor the requested root |
| PresentationAgreement.Agree | atheros-search/internal/reporting/graph_hierarchy.go:102-148 | the same for any finished forest and any layout the client may produce |
| PresentationAgreement.ServedHung | atheros-search/internal/reporting/graph_normalize.go:116-125 | the tree edge of every server parent is the evidence that the client asks for |
| PresentationAgreement.KindsMapped | atheros-search/internal/reporting/graph_normalize.go:116-125 | the mapping renames observed_at to association and identity_member to cluster_member, and changes nothing else of an edge |
| RelationshipGroups.BuildRelationshipGroups | atheros-search-ui/src/hooks/useForceGraph.ts:399-418 | every node is mapped to the smallest node of its component over the edges with both endpoints present |
| RelationshipGroups.UnionFind.Root | atheros-search-ui/src/hooks/useForceGraph.ts:401-410 | the walk with path compression ends, returns the root, and changes no node's root |
| RelationshipGroups.UnionFind.Merge | atheros-search-ui/src/hooks/useForceGraph.ts:411-416 | merging an edge makes equal roots mean connection over one more edge |
| RelationshipGroups.CompressionKeepsRoots | atheros-search-ui/src/hooks/useForceGraph.ts:404-408 | pointing a node at its root keeps every parent at most its child, and every root |
| RelationshipGroups.LinkMergesRoots | atheros-search-ui/src/hooks/useForceGraph.ts:415-415 | linking the larger root below the smaller joins exactly the two trees |
| GraphRender.BuildGraphRenderModel | atheros-search-ui/src/hooks/useGraphAggregate.ts:35-128 | small scenes are returned as given; larger ones never fail, draw every node alone or in its group's summary under distinct identifiers, in the order access points, clusters, other nodes, loose devices, groups; every closed edge between its images is drawn once per key, in order; every node is counted once |
| GraphRender.RemapEdges | atheros-search-ui/src/hooks/useGraphAggregate.ts:104-120 | the error for a lost endpoint is unreachable, and one edge is drawn per key, from the first edge with that key |
| GraphRender.DeviceApId | atheros-search-ui/src/hooks/useGraphAggregate.ts:22-33 | a device goes to its parent when that is an associated access point, else to the smallest one |
| GraphRender.DrawGroup | atheros-search-ui/src/hooks/useGraphAggregate.ts:81-102 | drawing one more group keeps the drawing right and maps its members to what is drawn for them |
| DrawnMeaning.GroupStated | atheros-search-ui/src/hooks/useGraphAggregate.ts:22-33 | a device is grouped under an access point exactly when an association edge joins the two and it is the device's parent, or, when its parent is no such access point, the smallest one |
| DrawnMeaning.SummaryStated | atheros-search-ui/src/hooks/useGraphAggregate.ts:86-102 | an access point has a summary exactly when it is not expanded and two devices or more are grouped under it, and the summary counts them |
| DrawnMeaning.DrawnAlone | atheros-search-ui/src/hooks/useGraphAggregate.ts:73-102 | a node is drawn itself exactly when it has no group, its group is expanded, or it is alone in it |
| DrawnMeaning.RelationsDrawn | atheros-search-ui/src/hooks/useGraphAggregate.ts:104-120 | where keys do not clash, every relation between two drawn nodes is drawn with its kind, only such relations are, and none twice |
| DrawnMeaning.DrawScene | atheros-search-ui/src/pages/GraphPage.tsx:372-375 | the page aggregates exactly when groups are shown and there are more than 400 nodes |
| DrawnConnectivity.ModelConnectivity | atheros-search-ui/src/hooks/useGraphAggregate.ts:104-120 | nodes drawn connected were connected; the converse holds if and only if every edge whose key an earlier edge between other images took has its images connected by the first edges |
| DrawnConnectivity.FirstLinksDrawn | atheros-search-ui/src/hooks/useGraphAggregate.ts:113-119 | the links drawn are exactly the images of the edges that are first with their key |
| DrawnConnectivity.KeysExactly | atheros-search-ui/src/hooks/useGraphAggregate.ts:113-118 | every edge list over given kinds and images keeps its connections if and only if no two keys clash |
| DrawnConnectivity.OverlapExactly | atheros-search-ui/src/hooks/useGraphAggregate.ts:117-117 | for kinds without a colon keys clash if and only if identifiers overlap around a colon |
| DrawnConnectivity.ExpandedExactly | atheros-search-ui/src/hooks/useGraphAggregate.ts:86-120 | with every access point expanded, all scenes on these nodes keep their connections if and only if no identifiers overlap |
| DrawnConnectivity.AnyExpansion | atheros-search-ui/src/hooks/useGraphAggregate.ts:86-120 | for all edge lists and all expansions: possible images that do not overlap keep every connection, and identifiers that overlap lose one |
| DrawnConnectivity.ColonFreeKeeps | atheros-search-ui/src/hooks/useGraphAggregate.ts:86-120 | identifiers that do not continue one another after a colon keep every connection, whatever is expanded |
| DrawnConnectivity.DrawClashingScene | atheros-search-ui/src/hooks/useGraphAggregate.ts:35-128 | a scene of four nodes, drawn above a threshold of three, loses a connection |
| DrawnConnectivity.AggregationConnectivity | atheros-search-ui/src/hooks/useGraphAggregate.ts:104-120 | the same condition for any closed edges and groups of a scene |
| GraphAggregate.Conservation | atheros-search-ui/src/hooks/useGraphAggregate.ts:73-102 | member counts plus nodes drawn alone are the input node count |
| GraphAggregate.ImagesContract | atheros-search-ui/src/hooks/useGraphAggregate.ts:79-102 | nodes drawn as one are connected in the input |
| DrawnConnectivity.InputKeysApart | atheros-search-ui/src/hooks/useGraphAggregate.ts:94-94 | when the input identifiers do not continue one another after a colon, what is drawn for them does not either |
| EmbedClient.Embed | atheros-search/internal/embed/client.go:216-281 | on success output i is the mean of the vectors that answer exactly the chunks of text i, in order, whatever the packing, completion order and reply order; it fails if and only if a setting, a text, a chunk, a request or a mean of this call is at fault |
| EmbedClient.EachChunkAnswered | atheros-search/internal/embed/client.go:249-276 | the vector pooled for chunk j of text i is what the reply of the one request that carries this chunk gives for its position there |
| EmbedClient.DeliveryUnique | atheros-search/internal/embed/client.go:249-276 | chunks, requests, answers and slices are determined by the texts and the replies, whatever completes first |
| EmbedClient.FaithfulSlices | atheros-search/internal/embed/client.go:269-276 | when the vector of a text depends on the text alone, the pooled vectors are those of the chunks of text i |
| EmbedClient.Pool | atheros-search/internal/embed/client.go:273-279 | cutting the answers at the offsets gives each text the vectors of its chunks; it fails if and only if a mean is unusable |
| EmbedClient.ChunkOne | atheros-search/internal/embed/tokens.go:83-116 | the chunks are the consecutive token ranges of the text, in their places whatever the order of completion, and each error has its cause |
| EmbedClient.ChunkTexts | atheros-search/internal/embed/tokens.go:61-81 | every text's chunks are at its own place |
| EmbedClient.RangesPartition | atheros-search/internal/embed/tokens.go:94-107 | the ranges hold every token once in order, each exactly 480 tokens but for the last, which holds what is left |
| EmbedClient.CleanTextStable | atheros-search/internal/embed/client.go:228-239 | a cleaned text has no task prefix, cleaning it again or prefixing and cleaning it changes nothing |
| EmbedClient.CleanTextUnprefixed | atheros-search/internal/embed/client.go:231-234 | a cleaned text starts with neither `search_query:` nor `search_document:` |
| EmbedClient.CleanTextSplit | atheros-search/internal/embed/client.go:228-239 | the text is its cleaned text between a front of nothing but spaces and task prefixes and a back of nothing but spaces |
| EmbedSending.ClientSends | atheros-search/internal/embed/client.go:222-268 | when the client owns the prefix, each chunk of the cleaned text is sent after "search_document: " for the worker and "search_query: " for a query, counted again, within 510 tokens |
| EmbedSending.LegacySends | atheros-search/internal/embed/client.go:222-268 | else the chunks of the text are sent as they are |
| EmbedSending.ChunkLengths | atheros-search/internal/embed/tokens.go:94-111 | a text of n tokens has n / 480 chunks, rounded up, all but the last of 480 tokens |
| EmbedSending.FewestRequests | atheros-search/internal/embed/client.go:287-303 | no partition of the chunks sent within the request limit has fewer requests |
| EmbedClient.EffectiveChunksUnique | atheros-search/internal/embed/client.go:249-268 | a text is sent as one sequence of chunks only |
| EmbedClient.InputsFit | atheros-search/internal/embed/client.go:251-264 | no chunk of the client is too large for a request, and no default request exceeds 512 counted tokens |
| EmbedPacking.PackBatches | atheros-search/internal/embed/client.go:287-303 | the batches cut the inputs in order, each is one chunk or within the limit, and no such cut has fewer; it fails if and only if a chunk exceeds the request limit |
| EmbedPacking.GreedyStaysAhead | atheros-search/internal/embed/client.go:289-302 | greedy batches of a later part are never more than good batches of the whole |
| EmbedPacking.PackingUnique | atheros-search/internal/embed/client.go:289-302 | inputs have one greedy packing only |
| EmbedPacking.DefaultRequestsFit | atheros-search/internal/embed/tokens.go:17-29 | with the default limits no request carries more than 512 counted tokens |
| EmbedPipeline.EmbedInputs | atheros-search/internal/embed/client.go:283-378 | for requests that complete in any order every vector answers its own position in its own request; it fails if and only if a chunk is oversized or one of the packed requests has no usable reply |
| EmbedPipeline.EmbedOnce | atheros-search/internal/embed/client.go:381-421 | a reply is accepted if and only if it answers every input once with a usable vector, and each vector is the answer for its input |
| EmbedPipeline.PlaceItems | atheros-search/internal/embed/client.go:391-411 | items are accepted if and only if their indexes are a permutation, and every slot is filled |
| EmbedPipeline.Pigeonhole | atheros-search/internal/embed/client.go:406-410 | n distinct indexes below n fill all n slots |
| EmbedPipeline.MeanVectors | atheros-search/internal/embed/client.go:459-475 | the result is the component-wise mean |
| EmbedPipeline.AnsweredInputs | atheros-search/internal/embed/client.go:391-411 | in an accepted reply each item answers the input that its index names, or its place when it names none |
| EmbedPipeline.UsableExactly | atheros-search/internal/embed/vector.go:10-26 | a vector is usable exactly when it has the configured length and a component that is not zero |
| EmbedPipeline.MeanOfMore | atheros-search/internal/embed/client.go:459-475 | one more vector adds its component to the mean times the number of vectors |
| CacheRuns.LargerCacheIncludesSmaller | atheros-search/internal/embed/cache.go:44-88 | on the same run every entry of a smaller cache is in a larger one with the same vector and expiry, so more room never turns a hit into a miss |
| CacheRuns.HitIsLatest | atheros-search/internal/embed/cache.go:44-60 | a hit is the vector of the latest put of that text and kind since the kind was invalidated, within its lifetime |
| CacheEviction.HitExactly | atheros-search/internal/embed/cache.go:44-82 | for any capacity a get hits if and only if the latest put since the kind was invalidated is within its lifetime and, ever since, fewer keys than the capacity had been put or hit after that key was last put or hit, without those dropped as expired |
| CacheEviction.StoredExactly | atheros-search/internal/embed/cache.go:44-82 | a key is stored if and only if it was put and since then neither crowded out nor dropped, and the keys ahead of it in the recency list are exactly those |
| CacheEviction.RoomyCacheIsExact | atheros-search/internal/embed/cache.go:44-82 | with room for every key put a get hits if and only if such a put is within its lifetime |
| CacheSpec.RunBounded | atheros-search/internal/embed/cache.go:74-81 | in every run keys stay distinct and the size stays within the capacity |
| CacheSpec.KeyTextInjective | atheros-search/internal/embed/cache.go:39-42 | the hashed text is injective when kinds contain no NUL |
| CacheSpec.CollisionExactly | atheros-search/internal/embed/cache.go:39-42 | requests of two kinds share a key text if and only if one kind ends with a NUL and then the other |
| QueryCaching.QueryCache.Get | atheros-search/internal/embed/cache.go:44-60 | the map and the recency list stay a bijection, and the new state and the hit are those of the cache as a value |
| QueryCaching.QueryCache.Put | atheros-search/internal/embed/cache.go:62-82 | the same for a put, with eviction from the back |
| QueryCaching.QueryCache.InvalidateKind | atheros-search/internal/embed/cache.go:84-88 | only the generation of the kind changes |
| QueryCaching.CachedEmbed | atheros-search/internal/embed/cache.go:98-120 | whatever other callers do to the cache between the look-up and the store, every result is one that the wrapped client may give; a hit is the cached vector, a miss the reply, and only one vector for a single interactive text is stored |
| QueryCaching.CacheTextInjective | atheros-search/internal/embed/cache.go:102-102 | namespaces without NUL and texts share a cache text exactly when both are the same |
| QueryCaching.StoredForNext | atheros-search/internal/embed/cache.go:112-119 | after a miss that the wrapped client answers with one vector, the next look-up within the lifetime finds that vector; after any other answer nothing was stored |
| Scheduler.RunKeeps | atheros-search/internal/embed/scheduler.go:124-187 | in every interleaving of arrivals, sends, cancellations, releases and bookkeeping each counter equals the number of callers that hold what it counts, and the limits hold |
| Scheduler.HoldersBounded | atheros-search/internal/embed/scheduler.go:124-152 | slots in use never exceed the total, and those of workers never what is not reserved |
| Scheduler.InteractiveAdmitted | atheros-search/internal/embed/scheduler.go:138-141 | an interactive call can take a slot while fewer interactive calls than reserved slots hold one |
| Scheduler.ReleaseNeverBlocks | atheros-search/internal/embed/scheduler.go:154-187 | no receive of a release or a cancellation blocks, and no counter is clamped at zero |
| Scheduler.NothingLeaks | atheros-search/internal/embed/scheduler.go:154-187 | when all callers have finished every token is back and every counter is zero |
| Scheduler.NoDeadlock | atheros-search/internal/embed/scheduler.go:124-152 | while a caller is unfinished some caller can proceed without a cancellation |
| Scheduler.StepsRunOut | atheros-search/internal/embed/scheduler.go:124-187 | every step but an arrival leaves less to do |
| Scheduler.NewPermits | atheros-search/internal/embed/scheduler.go:69-88 | usable limits are kept, a total below one becomes one, a negative reserve none, and a reserve that leaves no worker slot all but one |
| Scheduler.SlotScheduler.End | atheros-search/internal/embed/scheduler.go:175-187 | ending a wait takes the caller from the waiters and, unless canceled, adds it to the users |
| CircuitRuns.LawExactly | atheros-search/internal/embed/circuit.go:148-168 | over all runs the breaker is closed if and only if failures are below the limit and otherwise open until the last counted failure plus the doubled delay up to the ceiling, exactly for durations whose doubling does not overflow |
| CircuitRuns.NoEarlyAdmission | atheros-search/internal/embed/circuit.go:106-122 | over all runs no call is admitted before an open window ends unless a success was recorded in between, if and only if the ceiling is below 2^62 ns or the base at least 2^61 ns |
| CircuitRuns.EarlyRun | atheros-search/internal/embed/circuit.go:148-168 | when the ceiling is at least 2^62 ns and the base below 2^61 ns, a run with such an early admission |
| Circuit.BackoffGrows | atheros-search/internal/embed/circuit.go:212-229 | unless the ceiling is at least 2^62 ns and the base below 2^61 ns, a delay is never shorter than the one before |
| CircuitRuns.TimedRun | atheros-search/internal/embed/circuit.go:142-168 | the timing that holds in every state of every run, for all durations |
| CircuitVerdicts.RetryTime | atheros-search/internal/embed/circuit.go:106-122 | over all runs: a call rejected while the window is open is told a time after it; with nothing recorded in between every call before that time is rejected with the same time, and a call from then on is admitted as the probe |
| CircuitVerdicts.ProbeRetryTime | atheros-search/internal/embed/circuit.go:113-116 | a call rejected while the window is over is told the end of that window, and a probe is in flight |
| CircuitVerdicts.DefaultsReject | atheros-search/internal/embed/circuit.go:20-27 | with default settings, three failures at time 0 reject calls up to 10 s with that time, and admit a probe at 10 s |
| CircuitVerdicts.DefaultDelays | atheros-search/internal/embed/circuit.go:20-27 | the default delays are 10, 20, 40 and 80 seconds, and then 120 |
| CircuitVerdicts.OpensOnFailures | atheros-search/internal/embed/circuit.go:136-168 | over all runs the breaker is closed exactly when fewer failures than allowed, by default 3, were counted since the last success |
| CircuitVerdicts.StampedRun | atheros-search/internal/embed/circuit.go:124-168 | the times shown of the last check, success and failure are those of the latest such events of the run |
| CircuitVerdicts.BlamelessStaysClosed | atheros-search/internal/embed/circuit.go:235-255 | a run whose failing calls are done by the caller or fail by no fault of the backend never opens the breaker |
| CircuitRuns.ProbeHeldRun | atheros-search/internal/embed/circuit.go:106-181 | in every run probing means half-open with a probe of this episode still in flight |
| CircuitRuns.NotStuck | atheros-search/internal/embed/circuit.go:170-189 | with no probe in flight the next call after the window is admitted |
| CircuitRuns.OneProbeExactly | atheros-search/internal/embed/circuit.go:106-181 | in a run every state has at most one probe of an episode in flight, and none under a free probe slot, if and only if no step releases a neutral outcome while another call is the probe in flight |
| CircuitRuns.ForeignReleaseAdmits | atheros-search/internal/embed/circuit.go:170-181 | after such a release the next call is admitted as a second probe of the episode |
| CircuitRuns.SecondProbe | atheros-search/internal/embed/circuit.go:299-316 | any other call that ends neutrally while a probe is in flight lets a second probe in |
| CircuitRuns.TwoProbes | atheros-search/internal/embed/circuit.go:299-316 | a run with two probes of one episode |
| Circuit.BackoffLaw | atheros-search/internal/embed/circuit.go:212-229 | the delay doubles up to the ceiling after every reopening exactly when no doubling overflows |
| Circuit.CircuitBreaker.Admit | atheros-search/internal/embed/circuit.go:106-122 | the verdict and the new state of asking for admission; `CircuitVerdicts.RetryTime` says what the verdict means over runs |
| Circuit.CircuitBreaker.Record | atheros-search/internal/embed/circuit.go:136-168 | an outcome is neutral if and only if it is an error the backend is not to blame for, and then changes nothing |
| GraphLoading.LoadAllGraphPages | atheros-search-ui/src/hooks/useGraphPagination.ts:31-114 | undisturbed it completes with exactly the edges in order and exactly the nodes, in order of arrival, in the pages needed when those are at most 400, and is an error otherwise; a run cancelled between requests reports what its pages hold, with the totals of the snapshot, or zeros before the first page, and a rejected request rejects the call |
| GraphLoading.LoadNext | atheros-search-ui/src/hooks/useGraphPagination.ts:47-113 | one round ends with a right outcome, totals included, or goes on with a cursor never seen before |
| GraphLoading.MergedRows | atheros-search-ui/src/hooks/useGraphPagination.ts:64-73 | merging keeps the rows, adds each new identifier once, and loses none |
| GraphPaging.PageOfRun | atheros-search/internal/reporting/graph_assembly.go:176-240 | page k of a run holds the k-th slices of nodes and edges, and a cursor exactly when rows remain |
| GraphPaging.GraphPage | atheros-search/internal/reporting/graph_assembly.go:176-247 | the response of one request for any cursor: the two slices, the missing endpoint rows, and the next cursor |
| GraphPaging.FetchGraphEdgePage | atheros-search/internal/reporting/graph_queries.go:169-211 | the edge half of a page, and whether more follow |
| GraphPaging.CompleteGraphEdgeEndpoints | atheros-search/internal/reporting/graph_hierarchy_queries.go:153-189 | exactly the rows of endpoints that the page lacks are added, in order |
| GraphPaging.PageClosed | atheros-search/internal/reporting/graph_hierarchy_queries.go:151-189 | the nodes of a page are its slice and all endpoints of its edges |
| GraphPaging.PageDistinct | atheros-search/internal/reporting/graph_hierarchy_queries.go:151-189 | the added endpoint rows are in strict identifier order, and no node is on a page twice |
| GraphPaging.AfterPosition | atheros-search/internal/reporting/graph_assembly.go:178-199 | the rows after the key of row i - 1 are the rows from i on |
| GraphPaging.CursorsDiffer | atheros-search-ui/src/hooks/useGraphPagination.ts:101-112 | a run never hands out a cursor twice |
| GraphPaging.Remaining | atheros-search/internal/reporting/graph_assembly.go:227-240 | rows remain after k pages if and only if k is below the larger of the two page counts and one |
| GraphPaging.NormalizePageSize | atheros-search/internal/reporting/pagination.go:68-76 | a page size between 1 and 1000 is kept, a larger one becomes 1000, and one that is not positive 500 |
| EntityKeyset.AfterIsFollows | atheros-search/internal/assets/entities.go:124-132 | in three-valued logic the condition is true of a row if and only if the row strictly follows the cursor's |
| EntityKeyset.PrecedesTotal | atheros-search/internal/assets/entities.go:71-72 | the order is irreflexive, and total on different identifiers |
| EntityKeyset.PrecedesTransitive | atheros-search/internal/assets/entities.go:95-96 | the order is transitive |
| EntityKeyset.OrderShows | atheros-search/internal/assets/entities.go:71-72 | pinned rows come first, among equally pinned ones registered rows, then those without a time, then later times, then smaller identifiers |
| EntityKeyset.PagesAreList | atheros-search/internal/assets/entities.go:33-159 | a run of requests, each checking the cursor of the one before, lists a prefix of the ordered rows; it lists all of them once if and only if every row that ends a page before the last is identified by a MAC address |
| EntityKeyset.SecondPageRefused | atheros-search/internal/assets/entities.go:46-51 | two ordered rows of which the first is not identified by a MAC address: the cursor of the first page is refused |
| EntityKeyset.FetchedAt | atheros-search/internal/assets/entities.go:132-159 | the page at a cursor is the next rows, and its cursor is that of its last row exactly when more follow |
| EntityKeyset.ScanEntityChoices | atheros-search/internal/assets/entities.go:140-159 | the page is the first rows and the cursor that of the last of them, exactly when a row more was fetched |
| EntityKeyset.Entities | atheros-search/internal/assets/entities.go:33-103 | a kind other than ap and device, folded, is refused first, then a cursor that is unreadable, of another kind or query, or not at a MAC address; otherwise the page of 1 to 50 rows, by default 12, after the cursor is returned |
| EntityKeyset.CursorBound | atheros-search/internal/assets/entities.go:46-51 | a cursor handed out at a MAC address is refused for any other kind or query, folded, and accepted for the same ones at any page size |
| SearchStream.StreamOnce | atheros-search-ui/src/hooks/useSearchStream.ts:169-238 | an attempt applies the lines of the concatenated text up to the first that ends the stream, whatever the chunks |
| SearchStream.Stream | atheros-search-ui/src/hooks/useSearchStream.ts:272-288 | up to three attempts, each after an incomplete one, append each new identity once; what an identity is of the fields is said by `SearchIdentity` |
| SearchStream.ChunkingIrrelevant | atheros-search-ui/src/hooks/useSearchStream.ts:204-230 | streams with the same texts have the same results, completion and number of attempts |
| SearchStream.SplitAppend | atheros-search-ui/src/hooks/useSearchStream.ts:216-218 | splitting what was left over with the next chunk continues the split of the whole text, also with a carriage return and its line feed in different chunks |
| SearchStream.SplitRejoins | atheros-search-ui/src/hooks/useSearchStream.ts:217-218 | the lines with their terminators and the rest are the text |
| SearchStream.LineEnds | atheros-search-ui/src/hooks/useSearchStream.ts:217-218 | a line ends at a line feed, and one carriage return before it belongs to the end |
| SearchStream.AppendedAreFirst | atheros-search-ui/src/hooks/useSearchStream.ts:83-125 | the appended results are exactly the distinct non-empty identities received, in order of first arrival |
| SearchIdentity.StreamShowsKeysOnce | atheros-search-ui/src/hooks/useSearchStream.ts:83-125 | when all results received in all attempts have source keys, each key received is shown exactly once, by the first result with it, in order of arrival |
| SearchIdentity.KeysShownOnce | atheros-search-ui/src/hooks/useSearchStream.ts:83-125 | the same for any list of results with source keys |
| SearchIdentity.KeyedIdentity | atheros-search-ui/src/hooks/useSearchStream.ts:40-54 | results with source keys have one identity exactly when the keys are equal |
| SearchIdentity.KeylessIdentityEmpty | atheros-search-ui/src/hooks/useSearchStream.ts:40-54 | a result without a source key has no identity exactly when its six other fields are empty |
| SearchIdentity.KeylessIdentity | atheros-search-ui/src/hooks/useSearchStream.ts:40-54 | results without source keys, with no bar in their fields, have one identity exactly when their lists of non-empty fields are equal |
| SearchStream.ApplyParsed | atheros-search-ui/src/hooks/useSearchStream.ts:83-125 | what a parsed line appends, and when it ends the stream |
| CanonicalIPv6.Canonical | atheros-search/internal/queryscope/authority.go:146-166 | the text compresses exactly the leftmost longest run of at least two zero groups, and nothing when there is none |
| CanonicalIPv6.BestRunUnique | atheros-search/internal/queryscope/authority.go:150-160 | that run is unique |
| CanonicalIPv6.RoundTrip | atheros-search/internal/queryscope/authority.go:146-166 | expanding the text gives back the sixteen bytes |
| CanonicalIPv6.CanonicalInjective | atheros-search/internal/queryscope/authority.go:146-166 | two addresses have the same text if and only if they are equal |
| CanonicalIPv6.HexParses | atheros-search/internal/queryscope/authority.go:151-151 | a group is printed in one to four hexadecimal digits without a leading zero, and parses back |
| CanonicalIPv6.CanonicalLower | atheros-search/internal/queryscope/authority.go:146-166 | the text holds digits, lower-case hexadecimal letters and colons only |

## Left out

- SQL text, drivers, transactions and scan errors: a query is the sequence it denotes.
- HTTP, JSON and base64 encoding, authentication, tracing and metrics.
- Components, simulation, geometry, coordinates and labels of the client; the layout stops at rows and depths.
- The third-party stratification itself: what is proved is that its input is a single tree; drawn depths are counted on the rows.
- `authorityDomain` with the public suffix list, address parsing and internationalised names: look-ups in foreign data.
- `groupLayoutEdge`, the kind and name mappings other than the edge kinds, and configuration checks: one branch each.
- Cancellation of embedding and chunking by the caller's context, and which of several concurrent errors is returned.
- Transport errors and time-outs inside an attempt of the search stream, and aborting it; `meta` of envelopes.
- JSON parsing of stream lines and the trimming before it: one function of the line.
- The wait observer of the scheduler, and calling a release twice (the second call does nothing).
- Reading the cursor's version and fingerprint: a cursor is one the server handed out.
- Snapshots that change between pages.
- Timestamps of the drawn records, tags and captions of summary nodes.
- Circuit.CircuitBreaker.Record: times and the failure counter are unbounded integers; only durations wrap.
- GraphRender.BuildGraphRenderModel: assumes that identifiers are distinct and that none starts with `aggregate:`; the source draws such scenes too, with repeated identifiers.
- DrawnConnectivity.AnyExpansion: an overlap that needs a summary identifier is not shown to be drawn by some scene; that also depends on how many devices there are. For one scene, and for any given images, the condition is exact.
