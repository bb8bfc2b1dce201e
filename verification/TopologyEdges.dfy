/** Listing every edge that touches a set of assets through a batch query that
returns at most a fixed number of rows: chunks of ids, halved when a batch comes
back full, merged without duplicates and sorted newest first. */
module TopologyEdges {
  import opened Arithmetic
  import opened Collections
  import opened Text

  datatype Result<+T> = Ok(value: T) | Failed

  const CHUNK_SIZE := 200
  const BATCH_LIMIT := 50000

  datatype Edge = Edge(id: string, source: string, target: string, createdAt: int)

  /** The stored edges and the answers of the batch query for each list of ids. */
  datatype Store = Store(edges: set<Edge>, batch: seq<string> -> Result<seq<Edge>>)

  predicate Touches(e: Edge, ids: set<string>) {
    e.source in ids || e.target in ids
  }

  function Touching(edges: set<Edge>, ids: set<string>): set<Edge> {
    set e | e in edges && Touches(e, ids)
  }

  predicate DistinctIds(edges: seq<Edge>) {
    forall i, j :: 0 <= i < j < |edges| ==> edges[i].id != edges[j].id
  }

  predicate PrimaryKey(edges: set<Edge>) {
    forall e, f :: e in edges && f in edges && e.id == f.id ==> e == f
  }

  /** What the query promises: some of the touching edges, each once, and all of them unless there
      are more than the limit. */
  predicate GoodAnswer(edges: set<Edge>, ids: seq<string>, answer: Result<seq<Edge>>) {
    answer.Ok? ==>
      && DistinctIds(answer.value)
      && Elements(answer.value) <= Touching(edges, Elements(ids))
      && |answer.value| == Min(BATCH_LIMIT, |Touching(edges, Elements(ids))|)
  }

  ghost predicate GoodStore(store: Store) {
    PrimaryKey(store.edges) && forall ids :: GoodAnswer(store.edges, ids, store.batch(ids))
  }

  /** No asset alone has more edges than one batch can return. */
  predicate FitsAlone(edges: set<Edge>, id: string) {
    |Touching(edges, {id})| <= BATCH_LIMIT
  }

  predicate AllFit(edges: set<Edge>, ids: set<string>) {
    forall id :: id in ids ==> FitsAlone(edges, id)
  }

  /** One of the edge's ends was asked for and has no more edges than a batch can return. */
  predicate HasFittingEnd(edges: set<Edge>, ids: set<string>, e: Edge) {
    (e.source in ids && FitsAlone(edges, e.source)) || (e.target in ids && FitsAlone(edges, e.target))
  }

  /** Every edge to be listed has such an end. */
  predicate AllReachable(edges: set<Edge>, ids: set<string>) {
    forall e :: e in Touching(edges, ids) ==> HasFittingEnd(edges, ids, e)
  }

  // ----- Sets and sequences -----

  /** An answer below the limit is complete. */
  lemma ShortAnswerComplete(edges: set<Edge>, ids: seq<string>, answer: Result<seq<Edge>>)
    requires GoodAnswer(edges, ids, answer) && answer.Ok?
    requires |answer.value| < BATCH_LIMIT || |Touching(edges, Elements(ids))| <= BATCH_LIMIT
    ensures Elements(answer.value) == Touching(edges, Elements(ids))
  {
    DistinctCount(answer.value);
    SubsetSize(Elements(answer.value), Touching(edges, Elements(ids)));
  }

  // ----- Merging without duplicates -----

  function Ids(edges: seq<Edge>): set<string> {
    set e | e in edges :: e.id
  }

  /** Appends the edges whose id is not there yet. */
  method AppendNew(merged: seq<Edge>, more: seq<Edge>) returns (out: seq<Edge>)
    requires DistinctIds(merged) && PrimaryKey(Elements(merged) + Elements(more))
    ensures DistinctIds(out)
    ensures Elements(out) == Elements(merged) + Elements(more)
  {
    out := merged;
    var seen := Ids(merged);
    for i := 0 to |more|
      invariant DistinctIds(out) && seen == Ids(out)
      invariant Elements(out) == Elements(merged) + Elements(more[..i])
    {
      var edge := more[i];
      assert more[..i + 1] == more[..i] + [edge];
      assert edge in Elements(more);
      if edge.id in seen {
        assert edge in out by {
          var e :| e in out && e.id == edge.id;
          assert e in Elements(out);
        }
      } else {
        assert Elements(out + [edge]) == Elements(out) + {edge};
        assert Ids(out + [edge]) == Ids(out) + {edge.id};
        seen := seen + {edge.id};
        out := out + [edge];
      }
    }
    assert more[..|more|] == more;
  }

  // ----- One chunk -----

  /** What asking for one asset alone yields: all its edges, or a batch of them when they are too many. */
  ghost function FoundFor(store: Store, id: string): set<Edge> {
    if FitsAlone(store.edges, id) then Touching(store.edges, {id})
    else
      match store.batch([id])
      case Ok(edges) => Elements(edges)
      case Failed => {}
  }

  ghost function Found(store: Store, ids: set<string>): set<Edge> {
    set id, e | id in ids && e in FoundFor(store, id) :: e
  }

  /** A listing for `ids` has each edge once, and exactly those that asking for each asset alone yields. */
  ghost predicate Listing(store: Store, ids: set<string>, listed: seq<Edge>) {
    DistinctIds(listed) && Elements(listed) == Found(store, ids)
  }

  lemma FoundForTouches(store: Store, id: string)
    requires GoodStore(store)
    ensures FoundFor(store, id) <= Touching(store.edges, {id})
  {
    assert GoodAnswer(store.edges, [id], store.batch([id]));
    assert Elements([id]) == {id};
  }

  lemma FoundTouches(store: Store, ids: set<string>)
    requires GoodStore(store)
    ensures Found(store, ids) <= Touching(store.edges, ids)
  {
    forall id | id in ids
      ensures FoundFor(store, id) <= Touching(store.edges, {id})
    {
      FoundForTouches(store, id);
    }
  }

  lemma ReachableIsFound(store: Store, ids: set<string>)
    requires GoodStore(store) && AllReachable(store.edges, ids)
    ensures Found(store, ids) == Touching(store.edges, ids)
  {
    FoundTouches(store, ids);
    forall e | e in Touching(store.edges, ids)
      ensures e in Found(store, ids)
    {
      var id := if e.source in ids && FitsAlone(store.edges, e.source) then e.source else e.target;
      assert HasFittingEnd(store.edges, ids, e);
      assert e in FoundFor(store, id);
    }
  }

  lemma FitMeansReachable(edges: set<Edge>, ids: set<string>)
    requires AllFit(edges, ids)
    ensures AllReachable(edges, ids)
  {
  }

  /** Assets that fit together fit alone. */
  lemma FewFit(store: Store, ids: set<string>)
    requires |Touching(store.edges, ids)| <= BATCH_LIMIT
    ensures AllFit(store.edges, ids)
  {
    forall id | id in ids
      ensures FitsAlone(store.edges, id)
    {
      SubsetSize(Touching(store.edges, {id}), Touching(store.edges, ids));
    }
  }

  lemma LeafListing(store: Store, ids: seq<string>)
    requires GoodStore(store) && store.batch(ids).Ok?
    requires |store.batch(ids).value| < BATCH_LIMIT || |ids| <= 1
    ensures Listing(store, Elements(ids), store.batch(ids).value)
  {
    var batch := store.batch(ids);
    assert GoodAnswer(store.edges, ids, batch);
    assert ids == [] ==> Touching(store.edges, Elements(ids)) == {};
    if |Touching(store.edges, Elements(ids))| <= BATCH_LIMIT {
      FewFit(store, Elements(ids));
      FitMeansReachable(store.edges, Elements(ids));
      ReachableIsFound(store, Elements(ids));
      ShortAnswerComplete(store.edges, ids, batch);
    } else {
      assert ids == [ids[0]] && Elements(ids) == {ids[0]};
      assert Found(store, {ids[0]}) == FoundFor(store, ids[0]);
    }
  }

  /** Listings of two sets of ids, merged, list their union. */
  lemma MergedListing(store: Store, a: set<string>, b: set<string>,
                      left: seq<Edge>, right: seq<Edge>, merged: seq<Edge>)
    requires Listing(store, a, left) && Listing(store, b, right)
    requires DistinctIds(merged) && Elements(merged) == Elements(left) + Elements(right)
    ensures Listing(store, a + b, merged)
  {
  }

  /** `listTopologyEdgesChunk`: a full batch is halved until it is not full or one id is left. */
  method ListChunk(store: Store, ids: seq<string>) returns (r: Result<seq<Edge>>)
    requires GoodStore(store)
    ensures r.Ok? ==> Listing(store, Elements(ids), r.value)
    ensures r.Failed? ==> exists asked :: store.batch(asked).Failed?
    decreases |ids|
  {
    var batch := store.batch(ids);
    if batch.Failed? {
      return Failed;
    }
    if |batch.value| < BATCH_LIMIT || |ids| <= 1 {
      LeafListing(store, ids);
      return batch;
    }
    var mid := |ids| / 2;
    var left := ListChunk(store, ids[..mid]);
    if left.Failed? {
      return Failed;
    }
    var right := ListChunk(store, ids[mid..]);
    if right.Failed? {
      return Failed;
    }
    FoundTouches(store, Elements(ids[..mid]));
    FoundTouches(store, Elements(ids[mid..]));
    var merged := AppendNew([], left.value);
    merged := AppendNew(merged, right.value);
    MergedListing(store, Elements(ids[..mid]), Elements(ids[mid..]), left.value, right.value, merged);
    assert ids == ids[..mid] + ids[mid..];
    ElementsAppend(ids[..mid], ids[mid..]);
    return Ok(merged);
  }

  // ----- The whole listing -----

  function NonBlank(assetIds: seq<string>): set<string> {
    set id | id in assetIds && TrimSpace(id) != "" :: TrimSpace(id)
  }

  /** The ids asked for: what is left of each given one without the spaces around it, if anything is. */
  lemma NonBlankExactly(assetIds: seq<string>, id: string)
    ensures id in NonBlank(assetIds) <==> id != "" && exists given :: given in assetIds && TrimSpace(given) == id
  {
  }

  method TrimIds(assetIds: seq<string>) returns (ids: seq<string>)
    ensures Distinct(ids) && Elements(ids) == NonBlank(assetIds)
  {
    ids := [];
    var seen := {};
    for i := 0 to |assetIds|
      invariant Distinct(ids) && seen == Elements(ids)
      invariant Elements(ids) == NonBlank(assetIds[..i])
    {
      var id := TrimSpace(assetIds[i]);
      assert assetIds[..i + 1] == assetIds[..i] + [assetIds[i]];
      assert NonBlank(assetIds[..i + 1]) == NonBlank(assetIds[..i]) + if id == "" then {} else {id};
      if id != "" && id !in seen {
        assert Elements(ids + [id]) == Elements(ids) + {id};
        seen := seen + {id};
        ids := ids + [id];
      }
    }
    assert assetIds[..|assetIds|] == assetIds;
  }

  predicate NewestFirst(edges: seq<Edge>) {
    forall i, j :: 0 <= i < j < |edges| ==> edges[i].createdAt >= edges[j].createdAt
  }

  lemma InsertKeepsOrder(edge: Edge, sorted: seq<Edge>, k: nat)
    requires NewestFirst(sorted) && k <= |sorted|
    requires forall i :: 0 <= i < k ==> sorted[i].createdAt >= edge.createdAt
    requires k < |sorted| ==> sorted[k].createdAt < edge.createdAt
    ensures NewestFirst(sorted[..k] + [edge] + sorted[k..])
  {
  }

  lemma InsertKeepsDistinct(edge: Edge, edges: seq<Edge>, k: nat)
    requires DistinctIds(edges) && k <= |edges| && forall e :: e in edges ==> e.id != edge.id
    ensures DistinctIds(edges[..k] + [edge] + edges[k..])
    ensures Elements(edges[..k] + [edge] + edges[k..]) == Elements(edges) + {edge}
  {
    var out := edges[..k] + [edge] + edges[k..];
    forall i, j | 0 <= i < j < |out|
      ensures out[i].id != out[j].id
    {
      assert out[i] == edge || out[i] in edges;
      assert out[j] == edge || out[j] in edges;
    }
    assert edges == edges[..k] + edges[k..];
    ElementsAppend(edges[..k], edges[k..]);
    ElementsAppend(edges[..k] + [edge], edges[k..]);
    ElementsAppend(edges[..k], [edge]);
  }

  method InsertByAge(edge: Edge, sorted: seq<Edge>) returns (out: seq<Edge>)
    requires NewestFirst(sorted) && DistinctIds(sorted) && forall e :: e in sorted ==> e.id != edge.id
    ensures NewestFirst(out) && DistinctIds(out) && Elements(out) == Elements(sorted) + {edge}
  {
    var k := 0;
    while k < |sorted| && sorted[k].createdAt >= edge.createdAt
      invariant 0 <= k <= |sorted|
      invariant forall i :: 0 <= i < k ==> sorted[i].createdAt >= edge.createdAt
    {
      k := k + 1;
    }
    InsertKeepsOrder(edge, sorted, k);
    InsertKeepsDistinct(edge, sorted, k);
    out := sorted[..k] + [edge] + sorted[k..];
  }

  method SortNewestFirst(edges: seq<Edge>) returns (out: seq<Edge>)
    requires DistinctIds(edges)
    ensures NewestFirst(out) && DistinctIds(out) && Elements(out) == Elements(edges)
  {
    out := [];
    for i := 0 to |edges|
      invariant NewestFirst(out) && DistinctIds(out) && Elements(out) == Elements(edges[..i])
    {
      assert edges[..i + 1] == edges[..i] + [edges[i]];
      forall e | e in out
        ensures e.id != edges[i].id
      {
        assert e in Elements(out);
      }
      out := InsertByAge(edges[i], out);
    }
    assert edges[..|edges|] == edges;
  }

  /** `listTopologyEdges`: what asking for each asset alone yields, however the ids are chunked and
      halved; that is what an uncapped query would return if every edge has an end, among the ids,
      with no more edges than a batch holds, and in any case no edge twice and none that does not
      belong. */
  method ListEdges(store: Store, assetIds: seq<string>) returns (r: Result<seq<Edge>>)
    requires GoodStore(store)
    ensures r.Ok? ==> Listing(store, NonBlank(assetIds), r.value) && NewestFirst(r.value)
    ensures r.Ok? ==> Elements(r.value) <= Touching(store.edges, NonBlank(assetIds))
    ensures r.Ok? && AllReachable(store.edges, NonBlank(assetIds)) ==>
              Elements(r.value) == Touching(store.edges, NonBlank(assetIds))
    ensures AllFit(store.edges, NonBlank(assetIds)) ==> AllReachable(store.edges, NonBlank(assetIds))
    ensures NonBlank(assetIds) == {} ==> r == Ok([])
    ensures r.Failed? ==> exists asked :: store.batch(asked).Failed?
  {
    var ids := TrimIds(assetIds);
    if ids == [] {
      assert Elements(ids) == {};
      assert Found(store, {}) == {} == Touching(store.edges, {});
      return Ok([]);
    }
    assert ids[0] in Elements(ids);
    var all: seq<Edge> := [];
    var start := 0;
    assert Elements(ids[..0]) == {} && Found(store, {}) == {};
    while start < |ids|
      invariant 0 <= start <= |ids|
      invariant Listing(store, Elements(ids[..start]), all)
    {
      var end := Min(start + CHUNK_SIZE, |ids|);
      var chunk := ListChunk(store, ids[start..end]);
      if chunk.Failed? {
        return Failed;
      }
      FoundTouches(store, Elements(ids[..start]));
      FoundTouches(store, Elements(ids[start..end]));
      var merged := AppendNew(all, chunk.value);
      MergedListing(store, Elements(ids[..start]), Elements(ids[start..end]), all, chunk.value, merged);
      assert ids[..end] == ids[..start] + ids[start..end];
      ElementsAppend(ids[..start], ids[start..end]);
      all := merged;
      start := end;
    }
    assert ids[..start] == ids;
    all := SortNewestFirst(all);
    FoundTouches(store, NonBlank(assetIds));
    if AllReachable(store.edges, NonBlank(assetIds)) {
      ReachableIsFound(store, NonBlank(assetIds));
    }
    return Ok(all);
  }

  // ----- Exactly when -----

  /** Any `n` of the edges. */
  ghost function Pick(s: set<Edge>, n: nat): (out: seq<Edge>)
    requires n <= |s| && PrimaryKey(s)
    ensures |out| == n && DistinctIds(out) && Elements(out) <= s
  {
    if n == 0 then []
    else
      var e :| e in s;
      var rest := Pick(s - {e}, n - 1);
      assert forall f :: f in rest ==> f in Elements(rest);
      [e] + rest
  }

  /** An answer that leaves `e` out whenever it has to leave something out. */
  ghost function Withhold(edges: set<Edge>, e: Edge, ids: seq<string>): (answer: Result<seq<Edge>>)
    requires PrimaryKey(edges)
    ensures answer.Ok? && GoodAnswer(edges, ids, answer)
    ensures |Touching(edges, Elements(ids))| > BATCH_LIMIT ==> e !in answer.value
  {
    var touching := Touching(edges, Elements(ids));
    if |touching| <= BATCH_LIMIT then Ok(Pick(touching, |touching|))
    else
      var out := Pick(touching - {e}, BATCH_LIMIT);
      assert e in out ==> e in Elements(out);
      Ok(out)
  }

  /** Where an edge has no fitting end, a store with these very edges answers every call and the
      listing still lacks that edge. */
  lemma UnreachableIsMissed(edges: set<Edge>, ids: set<string>, e: Edge) returns (store: Store)
    requires PrimaryKey(edges) && e in Touching(edges, ids) && !HasFittingEnd(edges, ids, e)
    ensures store.edges == edges && GoodStore(store) && Answers(store)
    ensures e !in Found(store, ids)
  {
    store := Store(edges, asked => Withhold(edges, e, asked));
    forall id | id in ids
      ensures e !in FoundFor(store, id)
    {
      assert Elements([id]) == {id};
    }
  }

  /** No batch call fails. */
  ghost predicate Answers(store: Store) {
    forall asked :: store.batch(asked).Ok?
  }

  ghost predicate AlwaysComplete(edges: set<Edge>, ids: set<string>) {
    forall store: Store :: store.edges == edges && GoodStore(store) && Answers(store) ==>
      Found(store, ids) == Touching(edges, ids)
  }

  /** Whatever the query picks, the listing is complete exactly if every edge to be listed has an end,
      among the ids, with no more edges than a batch holds. */
  lemma CompleteExactly(edges: set<Edge>, ids: set<string>)
    requires PrimaryKey(edges)
    ensures AlwaysComplete(edges, ids) <==> AllReachable(edges, ids)
  {
    if AllReachable(edges, ids) {
      forall store: Store | store.edges == edges && GoodStore(store) && Answers(store)
        ensures Found(store, ids) == Touching(edges, ids)
      {
        ReachableIsFound(store, ids);
      }
    } else {
      var e :| e in Touching(edges, ids) && !HasFittingEnd(edges, ids, e);
      var store := UnreachableIsMissed(edges, ids, e);
    }
  }

  /** For one asset the listing is complete exactly when the asset fits in one batch. */
  lemma OneAssetComplete(store: Store, id: string)
    requires GoodStore(store) && store.batch([id]).Ok?
    ensures Found(store, {id}) == Touching(store.edges, {id}) <==> FitsAlone(store.edges, id)
  {
    var answer := store.batch([id]);
    assert GoodAnswer(store.edges, [id], answer);
    assert Elements([id]) == {id};
    DistinctCount(answer.value);
    assert Found(store, {id}) == FoundFor(store, id);
  }
}
