/** The same listing over the query the Hub has: of the touching edges it returns
the newest, and of equally old ones any. */
module TopologyNewest {
  import opened Collections
  import opened TopologyEdges

  /** Nothing left out is newer than anything picked. */
  predicate NewestOf(s: set<Edge>, out: seq<Edge>) {
    forall e, f :: e in s && e !in out && f in out ==> e.createdAt <= f.createdAt
  }

  ghost predicate PicksNewest(store: Store) {
    forall ids :: store.batch(ids).Ok? ==> NewestOf(Touching(store.edges, Elements(ids)), store.batch(ids).value)
  }

  /** The other edges of `s` that are at least as new as `e`. */
  function NotOlder(s: set<Edge>, e: Edge): set<Edge> {
    set f | f in s && f != e && f.createdAt >= e.createdAt
  }

  /** Fewer of the asset's other edges are at least as new as `e` than a batch holds. */
  predicate RecentFor(edges: set<Edge>, id: string, e: Edge) {
    |NotOlder(Touching(edges, {id}), e)| < BATCH_LIMIT
  }

  predicate Recent(edges: set<Edge>, ids: set<string>, e: Edge) {
    (e.source in ids && RecentFor(edges, e.source, e)) || (e.target in ids && RecentFor(edges, e.target, e))
  }

  // ----- Recent edges are listed -----

  lemma RecentIsPicked(s: set<Edge>, out: seq<Edge>, e: Edge)
    requires e in s && NewestOf(s, out) && DistinctIds(out) && Elements(out) <= s
    requires |NotOlder(s, e)| < |out|
    ensures e in out
  {
    if e !in out {
      DistinctCount(out);
      forall f | f in Elements(out)
        ensures f in NotOlder(s, e)
      {
        assert f in out;
      }
      SubsetSize(Elements(out), NotOlder(s, e));
    }
  }

  /** However the query picks among equally old edges, an edge is found if it is recent for an end that
      was asked for and whose own query, if needed, is answered. */
  lemma RecentIsFound(store: Store, ids: set<string>, e: Edge)
    requires GoodStore(store) && PicksNewest(store) && Answers(store)
    requires e in Touching(store.edges, ids) && Recent(store.edges, ids, e)
    ensures e in Found(store, ids)
  {
    var id := if e.source in ids && RecentFor(store.edges, e.source, e) then e.source else e.target;
    assert id in ids && RecentFor(store.edges, id, e) && e in Touching(store.edges, {id});
    if !FitsAlone(store.edges, id) {
      var answer := store.batch([id]);
      assert Elements([id]) == {id};
      assert GoodAnswer(store.edges, [id], answer);
      RecentIsPicked(Touching(store.edges, {id}), answer.value, e);
    }
    assert e in FoundFor(store, id);
  }

  // ----- Others can be missed -----

  /** An edge no other goes before, where newer goes first and, of equally old ones, `last` goes last. */
  predicate GoesFirst(s: set<Edge>, last: Edge, x: Edge) {
    && x in s
    && (forall f :: f in s ==> f.createdAt <= x.createdAt)
    && (x == last ==> forall f :: f in s && f != last ==> f.createdAt < last.createdAt)
  }

  lemma {:induction false} SomeGoesFirst(s: set<Edge>, last: Edge) returns (x: Edge)
    requires s != {}
    ensures GoesFirst(s, last, x)
    decreases |s|
  {
    var y :| y in s;
    if s == {y} {
      x := y;
    } else {
      var z := SomeGoesFirst(s - {y}, last);
      x := if y.createdAt > z.createdAt || (y.createdAt == z.createdAt && z == last) then y else z;
    }
  }

  lemma FirstExists(s: set<Edge>, last: Edge)
    requires s != {}
    ensures exists x :: GoesFirst(s, last, x)
  {
    var x := SomeGoesFirst(s, last);
  }

  ghost function First(s: set<Edge>, last: Edge): (x: Edge)
    requires s != {}
    ensures GoesFirst(s, last, x)
  {
    FirstExists(s, last);
    var x :| GoesFirst(s, last, x);
    x
  }

  /** The newest `n` of the edges, in order, with `last` behind those as old as itself. */
  ghost function PickNewest(s: set<Edge>, n: nat, last: Edge): (out: seq<Edge>)
    requires n <= |s|
    ensures |out| == n
  {
    if n == 0 then []
    else
      var x := First(s, last);
      [x] + PickNewest(s - {x}, n - 1, last)
  }

  /** What is picked is distinct and newest, and has `last` only if few are at least as new. */
  predicate GoodPick(s: set<Edge>, out: seq<Edge>, last: Edge) {
    && DistinctIds(out) && Elements(out) <= s && NewestOf(s, out)
    && (last in out ==> |NotOlder(s, last)| < |out|)
  }

  lemma PickOneMore(s: set<Edge>, x: Edge, rest: seq<Edge>, last: Edge)
    requires PrimaryKey(s) && GoesFirst(s, last, x) && GoodPick(s - {x}, rest, last)
    ensures GoodPick(s, [x] + rest, last)
  {
    var out := [x] + rest;
    forall f | f in rest
      ensures f in s && f != x && f.id != x.id
    {
      assert f in Elements(rest);
    }
    ElementsAppend([x], rest);
    assert NewestOf(s, out) by {
      forall e, f | e in s && e !in out && f in out
        ensures e.createdAt <= f.createdAt
      {
        assert e != x && e !in rest;
      }
    }
    if last == x {
      assert NotOlder(s, last) == {};
    } else if last in rest {
      assert NotOlder(s, last) == NotOlder(s - {x}, last) + {x};
    }
  }

  lemma {:induction false} PickedNewest(s: set<Edge>, n: nat, last: Edge)
    requires n <= |s| && PrimaryKey(s)
    ensures GoodPick(s, PickNewest(s, n, last), last)
    decreases n
  {
    if n > 0 {
      var x := First(s, last);
      PickedNewest(s - {x}, n - 1, last);
      PickOneMore(s, x, PickNewest(s - {x}, n - 1, last), last);
    }
  }

  /** An answer of the newest edges that leaves `e` out if it can. */
  ghost function Answer(edges: set<Edge>, e: Edge, ids: seq<string>): Result<seq<Edge>> {
    var touching := Touching(edges, Elements(ids));
    Ok(PickNewest(touching, if |touching| < BATCH_LIMIT then |touching| else BATCH_LIMIT, e))
  }

  lemma AnswerIsGood(edges: set<Edge>, e: Edge, ids: seq<string>)
    requires PrimaryKey(edges)
    ensures var answer, touching := Answer(edges, e, ids), Touching(edges, Elements(ids));
            && GoodAnswer(edges, ids, answer)
            && NewestOf(touching, answer.value)
            && (e in answer.value ==> |NotOlder(touching, e)| < BATCH_LIMIT)
  {
    var touching := Touching(edges, Elements(ids));
    PickedNewest(touching, if |touching| < BATCH_LIMIT then |touching| else BATCH_LIMIT, e);
  }

  /** An asset that fits leaves every edge of it recent. */
  lemma FitsIsRecent(edges: set<Edge>, id: string, e: Edge)
    requires FitsAlone(edges, id) && e in Touching(edges, {id})
    ensures RecentFor(edges, id, e)
  {
    SubsetSize(NotOlder(Touching(edges, {id}), e), Touching(edges, {id}) - {e});
  }

  /** Where an edge is recent for neither end, a query that picks the newest can still leave it out. */
  lemma OldCanBeMissed(edges: set<Edge>, ids: set<string>, e: Edge) returns (store: Store)
    requires PrimaryKey(edges) && e in Touching(edges, ids) && !Recent(edges, ids, e)
    ensures store.edges == edges && GoodStore(store) && PicksNewest(store) && Answers(store)
    ensures e !in Found(store, ids)
  {
    store := Store(edges, asked => Answer(edges, e, asked));
    forall asked: seq<string>
      ensures GoodAnswer(edges, asked, store.batch(asked))
      ensures NewestOf(Touching(edges, Elements(asked)), store.batch(asked).value)
    {
      AnswerIsGood(edges, e, asked);
    }
    forall id | id in ids
      ensures e !in FoundFor(store, id)
    {
      assert Elements([id]) == {id};
      AnswerIsGood(edges, e, [id]);
      if e in Touching(edges, {id}) {
        assert !RecentFor(edges, id, e);
        if FitsAlone(edges, id) {
          FitsIsRecent(edges, id, e);
        }
      }
    }
  }

  // ----- Exactly when -----

  /** Whatever a query that picks the newest does with equally old edges, the listing has `e`. */
  ghost predicate AlwaysListed(edges: set<Edge>, ids: set<string>, e: Edge) {
    forall store: Store :: store.edges == edges && GoodStore(store) && PicksNewest(store) && Answers(store) ==>
      e in Found(store, ids)
  }

  /** An edge is sure to be listed exactly if, for an end that was asked for, fewer other edges are at
      least as new as a batch holds. */
  lemma ListedExactly(edges: set<Edge>, ids: set<string>, e: Edge)
    requires PrimaryKey(edges) && e in Touching(edges, ids)
    ensures AlwaysListed(edges, ids, e) <==> Recent(edges, ids, e)
  {
    if Recent(edges, ids, e) {
      forall store: Store | store.edges == edges && GoodStore(store) && PicksNewest(store) && Answers(store)
        ensures e in Found(store, ids)
      {
        RecentIsFound(store, ids, e);
      }
    } else {
      var store := OldCanBeMissed(edges, ids, e);
    }
  }
}
