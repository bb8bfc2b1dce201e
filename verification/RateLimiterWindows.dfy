/** What the rate limiter lets through: in a counter's window exactly the first
requests up to the limit, and after it the next one again. */
module RateLimiterWindows {
  import opened Arithmetic
  import opened Wrappers
  import opened RateLimiter

  // ----- One counter -----

  /** The requests of one window: this limit, and none after `until`. */
  predicate InWindow(requests: seq<Request>, limit: int, until: int) {
    forall q :: q in requests ==> q.limit == limit && q.now <= until
  }

  /** While the counter lasts, a request passes exactly if fewer than the limit came before it. */
  lemma {:induction false} ReferenceInWindow(c: Counter, requests: seq<Request>, limit: int)
    requires c.count <= limit && InWindow(requests, limit, c.resetAt)
    ensures |Reference(Some(c), requests)| == |requests|
    ensures forall i :: 0 <= i < |requests| ==> (Reference(Some(c), requests)[i] <==> c.count + i < limit)
    ensures CounterAfter(Some(c), requests) == Some(Counter(Min(limit, c.count + |requests|), c.resetAt))
    decreases |requests|
  {
    if requests != [] {
      assert requests[0] in requests;
      ReferenceInWindow(Tick(Some(c), requests[0]), requests[1..], limit);
    }
  }

  /** Once the window is over the next request passes, however many were refused in it. */
  lemma ReopensAfter(c: Counter, requests: seq<Request>, limit: int, next: Request)
    requires c.count <= limit && InWindow(requests, limit, c.resetAt)
    requires next.limit > 0 && next.now > c.resetAt
    ensures Accepts(CounterAfter(Some(c), requests), next)
  {
    ReferenceInWindow(c, requests, limit);
  }

  // ----- The limiter -----

  function ClockAfter(entries: seq<Entry>, clock: int): int {
    if entries == [] then clock else entries[|entries| - 1].request.now
  }

  /** The map still agrees with the reference at the end of the run. */
  lemma {:induction false} RunAgrees(s: Contents, c: Option<Counter>, entries: seq<Entry>, key: string, clock: int)
    requires Agrees(s, c, key, clock) && Keeps(s, entries, key, clock)
    ensures Agrees(Run(s, entries), CounterAfter(c, RequestsFor(entries, key)), key, ClockAfter(entries, clock))
    decreases |entries|
  {
    if entries != [] {
      var r := entries[0].request;
      StepAgrees(s, c, entries[0], key, clock);
      var s' := Step(s, r, entries[0].victim);
      if r.key == key {
        RunAgrees(s', Some(Tick(c, r)), entries[1..], key, r.now);
        var requests := RequestsFor(entries, key);
        assert requests[0] == r && requests[1..] == RequestsFor(entries[1..], key);
      } else {
        RunAgrees(s', c, entries[1..], key, r.now);
      }
    }
  }

  lemma AgreeingDecides(s: Contents, c: Option<Counter>, key: string, clock: int, next: Request)
    requires Agrees(s, c, key, clock) && clock <= next.now && Lawful(next) && next.key == key
    ensures Decides(s, next) <==> Accepts(c, next)
  {
  }

  /** The key's first request opens its window. */
  lemma FirstOpens(r: Request, requests: seq<Request>)
    requires Lawful(r)
    ensures Reference(None, [r] + requests) == [true] + Reference(Some(Counter(1, r.now + r.window)), requests)
    ensures CounterAfter(None, [r] + requests) == CounterAfter(Some(Counter(1, r.now + r.window)), requests)
  {
    assert ([r] + requests)[1..] == requests;
  }

  lemma {:induction false} PassedFirstOnes(answers: seq<bool>, room: int)
    requires room >= 0 && forall i :: 0 <= i < |answers| ==> (answers[i] <==> i < room)
    ensures Passed(answers) == Min(room, |answers|)
    decreases |answers|
  {
    if answers != [] {
      PassedFirstOnes(answers[1..], if room > 0 then room - 1 else 0);
    }
  }

  /** While a key's counter lasts and the key is not evicted, exactly the first requests pass, as many as
      the limit less what the counter had counted. */
  lemma PerCounterWindow(s: Contents, entries: seq<Entry>, key: string, limit: int, clock: int)
    requires Keeps(s, entries, key, clock) && key in s.windows && s.windows[key].count <= limit
    requires InWindow(RequestsFor(entries, key), limit, s.windows[key].resetAt)
    ensures var answers, room := Answers(s, entries, key), limit - s.windows[key].count;
            && |answers| == |RequestsFor(entries, key)|
            && (forall i :: 0 <= i < |answers| ==> (answers[i] <==> i < room))
            && Passed(answers) == Min(room, |answers|)
  {
    var c, requests := s.windows[key], RequestsFor(entries, key);
    PruningIsInvisible(s, Some(c), entries, key, clock);
    ReferenceInWindow(c, requests, limit);
    PassedFirstOnes(Answers(s, entries, key), limit - c.count);
  }

  /** And the first request after that passes again, however many were refused. */
  lemma PassesAgain(s: Contents, entries: seq<Entry>, key: string, limit: int, clock: int, next: Request)
    requires Keeps(s, entries, key, clock) && key in s.windows && s.windows[key].count <= limit
    requires InWindow(RequestsFor(entries, key), limit, s.windows[key].resetAt)
    requires Lawful(next) && next.key == key
    requires next.now > s.windows[key].resetAt && ClockAfter(entries, clock) <= next.now
    ensures Decides(Run(s, entries), next)
  {
    var c, requests := s.windows[key], RequestsFor(entries, key);
    RunAgrees(s, Some(c), entries, key, clock);
    ReopensAfter(c, requests, limit, next);
    AgreeingDecides(Run(s, entries), CounterAfter(Some(c), requests), key, ClockAfter(entries, clock), next);
  }

  /** The requests for `key` in a run of a new limiter: `first`, and `rest` within its window. */
  predicate FirstWindow(entries: seq<Entry>, key: string, first: Request, rest: seq<Request>) {
    && RequestsFor(entries, key) == [first] + rest && Lawful(first)
    && InWindow(rest, first.limit, first.now + first.window)
  }

  /** In a run of a new limiter that does not evict the key: of its requests up to one window length after
      the first, exactly the first ones pass, as many as the limit. */
  lemma WindowExactly(entries: seq<Entry>, key: string, first: Request, rest: seq<Request>)
    requires Keeps(EMPTY, entries, key, 0) && FirstWindow(entries, key, first, rest)
    ensures var answers := Answers(EMPTY, entries, key);
            && |answers| == 1 + |rest|
            && (forall i :: 0 <= i < |answers| ==> (answers[i] <==> i < first.limit))
            && Passed(answers) == Min(first.limit, |answers|)
  {
    PruningIsInvisible(EMPTY, None, entries, key, 0);
    FirstOpens(first, rest);
    ReferenceInWindow(Counter(1, first.now + first.window), rest, first.limit);
    PassedFirstOnes(Answers(EMPTY, entries, key), first.limit);
  }

  /** And the first request after that passes. */
  lemma PassesAfterFirstWindow(entries: seq<Entry>, key: string, first: Request, rest: seq<Request>, next: Request)
    requires Keeps(EMPTY, entries, key, 0) && FirstWindow(entries, key, first, rest)
    requires Lawful(next) && next.key == key
    requires next.now > first.now + first.window && ClockAfter(entries, 0) <= next.now
    ensures Decides(Run(EMPTY, entries), next)
  {
    var c := Counter(1, first.now + first.window);
    FirstOpens(first, rest);
    RunAgrees(EMPTY, None, entries, key, 0);
    ReopensAfter(c, rest, first.limit, next);
    AgreeingDecides(Run(EMPTY, entries), CounterAfter(Some(c), rest), key, ClockAfter(entries, 0), next);
  }

  // ----- Pruning -----

  /** When pruning is due, only the key just asked for can be in the map past its time. */
  lemma PruningRemovesExpired(s: Contents, r: Request, victim: string, k: string)
    requires Lawful(r) && k != r.key && k in Step(s, r, victim).windows
    requires |s.windows| > 100 && r.now > s.prunedAt + MINUTE
    ensures k in s.windows && Step(s, r, victim).windows[k] == s.windows[k] && s.windows[k].resetAt >= r.now
    ensures Step(s, r, victim).prunedAt == r.now
  {
  }
}
