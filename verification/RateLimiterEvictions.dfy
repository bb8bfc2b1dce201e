/** What evictions cost: how much passes for a key that is evicted, and a run on
which it shows. */
module RateLimiterEvictions {
  import opened Wrappers
  import opened RateLimiter

  // ----- How much passes when the key is evicted -----

  function Evictions(s: Contents, entries: seq<Entry>, key: string): nat
    decreases |entries|
  {
    if entries == [] then 0 else
      var r, victim := entries[0].request, entries[0].victim;
      (if Evicts(s, r) && victim == key then 1 else 0) + Evictions(Step(s, r, victim), entries[1..], key)
  }

  /** One limit for each eviction of `key`. */
  function Allowance(s: Contents, entries: seq<Entry>, key: string, limit: int): int
    decreases |entries|
  {
    if entries == [] then 0 else
      var r, victim := entries[0].request, entries[0].victim;
      (if Evicts(s, r) && victim == key then limit else 0) + Allowance(Step(s, r, victim), entries[1..], key, limit)
  }

  lemma Distribute(n: int, m: int, limit: int)
    ensures (n + m) * limit == n * limit + m * limit
  {
  }

  lemma {:induction false} AllowanceIs(s: Contents, entries: seq<Entry>, key: string, limit: int)
    ensures Allowance(s, entries, key, limit) == Evictions(s, entries, key) * limit
    decreases |entries|
  {
    if entries != [] {
      var r, victim := entries[0].request, entries[0].victim;
      var rest := Evictions(Step(s, r, victim), entries[1..], key);
      AllowanceIs(Step(s, r, victim), entries[1..], key, limit);
      Distribute(if Evicts(s, r) && victim == key then 1 else 0, rest, limit);
    }
  }

  /** The requests for `key` ask for this limit and window. */
  predicate AsksFor(entries: seq<Entry>, key: string, limit: int, window: int) {
    forall e :: e in entries ==>
      && Lawful(e.request)
      && (e.request.key == key ==> e.request.limit == limit && e.request.window == window)
  }

  predicate CountWithin(s: Contents, key: string, limit: int) {
    key in s.windows ==> s.windows[key].count <= limit
  }

  /** How many requests for `key` can still pass up to `until` if it is not evicted: what is left of a
      counter that lasts until then, or of one that does not and a new one. */
  function Room(s: Contents, key: string, limit: int, until: int): int {
    if key !in s.windows then limit
    else if s.windows[key].resetAt >= until then limit - s.windows[key].count
    else 2 * limit - s.windows[key].count
  }

  /** A request that passes takes up room, and an eviction makes room for at most one more limit. */
  lemma StepRoom(s: Contents, e: Entry, key: string, limit: int, window: int, until: int)
    requires AsksFor([e], key, limit, window) && limit > 0 && CountWithin(s, key, limit)
    requires until - window <= e.request.now <= until
    ensures var r, s' := e.request, Step(s, e.request, e.victim);
            && CountWithin(s', key, limit)
            && Room(s', key, limit, until) + (if r.key == key && Decides(s, r) then 1 else 0) <=
               Room(s, key, limit, until) + if Evicts(s, r) && e.victim == key then limit else 0
  {
    assert e in [e];
  }

  lemma {:induction false} RoomBound(s: Contents, entries: seq<Entry>, key: string,
                                     limit: int, window: int, until: int)
    requires AsksFor(entries, key, limit, window) && limit > 0 && CountWithin(s, key, limit)
    requires forall e :: e in entries ==> until - window <= e.request.now <= until
    ensures Passed(Answers(s, entries, key)) <= 2 * limit + Allowance(s, entries, key, limit)
    ensures Passed(Answers(s, entries, key)) <= Room(s, key, limit, until) + Allowance(s, entries, key, limit)
    decreases |entries|
  {
    if entries != [] {
      var e := entries[0];
      var s' := Step(s, e.request, e.victim);
      assert e in entries;
      StepRoom(s, e, key, limit, window, until);
      RoomBound(s', entries[1..], key, limit, window, until);
      PassedFirst(Decides(s, e.request), Answers(s', entries[1..], key));
    }
  }

  lemma PassedFirst(first: bool, rest: seq<bool>)
    ensures Passed([first] + rest) == (if first then 1 else 0) + Passed(rest)
  {
    assert ([first] + rest)[1..] == rest;
  }

  lemma {:induction false} RunCountWithin(s: Contents, entries: seq<Entry>, key: string, limit: int, window: int)
    requires AsksFor(entries, key, limit, window) && limit > 0 && CountWithin(s, key, limit)
    ensures CountWithin(Run(s, entries), key, limit)
    decreases |entries|
  {
    if entries != [] {
      var e := entries[0];
      assert e in entries;
      StepRoom(s, e, key, limit, e.request.window, e.request.now);
      RunCountWithin(Step(s, e.request, e.victim), entries[1..], key, limit, window);
    }
  }

  lemma StretchBound(s: Contents, stretch: seq<Entry>, key: string, limit: int, window: int, until: int)
    requires AsksFor(stretch, key, limit, window) && limit > 0 && CountWithin(s, key, limit)
    requires forall e :: e in stretch ==> until - window <= e.request.now <= until
    ensures Passed(Answers(s, stretch, key)) <= (2 + Evictions(s, stretch, key)) * limit
  {
    RoomBound(s, stretch, key, limit, window, until);
    AllowanceIs(s, stretch, key, limit);
    Distribute(2, Evictions(s, stretch, key), limit);
  }

  /** In any stretch of a run no longer than one window, at most twice the limit passes for a key, and
      one limit more for each time the key is evicted. */
  lemma IntervalBound(entries: seq<Entry>, key: string, limit: int, window: int, until: int, from: nat, to: nat)
    requires AsksFor(entries, key, limit, window) && limit > 0 && from <= to <= |entries|
    requires forall e :: e in entries[from..to] ==> until - window <= e.request.now <= until
    ensures var s := Run(EMPTY, entries[..from]);
            Passed(Answers(s, entries[from..to], key)) <= (2 + Evictions(s, entries[from..to], key)) * limit
  {
    RunCountWithin(EMPTY, entries[..from], key, limit, window);
    StretchBound(Run(EMPTY, entries[..from]), entries[from..to], key, limit, window, until);
  }

  // ----- Runs on which an eviction shows, at any time -----

  function KeyOf(i: nat): string {
    seq(i, _ => 'k')
  }

  /** One request per minute for key number `i`. */
  function Ask(i: nat, now: int): Request {
    Request(KeyOf(i), 1, MINUTE, now)
  }

  /** The first request for each of `n` keys. */
  function Fill(n: nat, now: int): seq<Entry> {
    seq(n, i requires 0 <= i < n => Entry(Ask(i, now), ""))
  }

  lemma {:induction false} RunSnoc(s: Contents, entries: seq<Entry>, e: Entry)
    ensures Run(s, entries + [e]) == Step(Run(s, entries), e.request, e.victim)
    decreases |entries|
  {
    if entries == [] {
      assert entries + [e] == [e] && [e][1..] == [];
    } else {
      assert (entries + [e])[1..] == entries[1..] + [e];
      RunSnoc(Step(s, entries[0].request, entries[0].victim), entries[1..], e);
    }
  }

  predicate Filled(s: Contents, n: nat, now: int) {
    && |s.windows| == n
    && (forall i :: 0 <= i < n ==> KeyOf(i) in s.windows)
    && (forall k :: k in s.windows ==> |k| < n && s.windows[k] == Counter(1, now + MINUTE))
  }

  /** Pruning removes nothing, since no window is over. */
  lemma FilledSwept(s: Contents, n: nat, now: int)
    requires Filled(s, n, now)
    ensures Swept(s, now).windows == s.windows
  {
    assert Unexpired(s.windows, now) == s.windows;
  }

  lemma FilledStep(s: Contents, n: nat, now: int)
    requires Filled(s, n, now) && n < MAX_WINDOWS
    ensures Filled(Step(s, Ask(n, now), ""), n + 1, now)
  {
    assert |KeyOf(n)| == n;
    FilledSwept(s, n, now);
    assert !Evicts(s, Ask(n, now));
    assert Step(s, Ask(n, now), "").windows == s.windows[KeyOf(n) := Counter(1, now + MINUTE)];
  }

  lemma {:induction false} FillFills(n: nat, now: int)
    requires n <= MAX_WINDOWS
    ensures Filled(Run(EMPTY, Fill(n, now)), n, now)
    decreases n
  {
    if n > 0 {
      FillFills(n - 1, now);
      assert Fill(n, now) == Fill(n - 1, now) + [Entry(Ask(n - 1, now), "")];
      RunSnoc(EMPTY, Fill(n - 1, now), Entry(Ask(n - 1, now), ""));
      FilledStep(Run(EMPTY, Fill(n - 1, now)), n - 1, now);
    }
  }

  lemma {:induction false} NoRequests(entries: seq<Entry>, key: string)
    requires forall e :: e in entries ==> e.request.key != key
    ensures RequestsFor(entries, key) == []
    decreases |entries|
  {
    if entries != [] {
      assert entries[0] in entries;
      NoRequests(entries[1..], key);
    }
  }

  /** Every eviction of the run takes an entry that ends no later than any other. */
  predicate EvictsEarliest(entries: seq<Entry>) {
    forall i :: 0 <= i < |entries| ==>
      var s := Run(EMPTY, entries[..i]);
      Evicts(s, entries[i].request) ==> Earliest(Swept(s, entries[i].request.now).windows, entries[i].victim)
  }

  /** As many keys as the map holds ask once, and one more. */
  function Crowd(now: int): seq<Entry> {
    Fill(MAX_WINDOWS, now) + [Entry(Ask(MAX_WINDOWS, now), KeyOf(0))]
  }

  lemma FullMapEvicts(s: Contents, now: int)
    requires Filled(s, MAX_WINDOWS, now)
    ensures Evicts(s, Ask(MAX_WINDOWS, now)) && Earliest(Swept(s, now).windows, KeyOf(0))
  {
    FilledSwept(s, MAX_WINDOWS, now);
    assert |KeyOf(MAX_WINDOWS)| == MAX_WINDOWS;
  }

  lemma CrowdEvictsEarliest(now: int)
    ensures EvictsEarliest(Crowd(now))
  {
    var entries := Crowd(now);
    forall i | 0 <= i < |entries|
      ensures var s := Run(EMPTY, entries[..i]);
              Evicts(s, entries[i].request) ==> Earliest(Swept(s, entries[i].request.now).windows, entries[i].victim)
    {
      assert entries[..i] == Fill(i, now);
      FillFills(i, now);
      if i == MAX_WINDOWS {
        FullMapEvicts(Run(EMPTY, entries[..i]), now);
      }
    }
  }

  lemma CrowdRequests(now: int)
    ensures RequestsFor(Crowd(now), KeyOf(0)) == [Ask(0, now)]
  {
    var others := Crowd(now)[1..];
    forall e | e in others
      ensures e.request.key != KeyOf(0)
    {
      assert |KeyOf(0)| == 0 && |e.request.key| > 0;
    }
    NoRequests(others, KeyOf(0));
    assert Crowd(now)[0] == Entry(Ask(0, now), "");
  }

  lemma CrowdForgets(now: int)
    requires now > 0
    ensures Decides(Run(EMPTY, Crowd(now)), Ask(0, now))
  {
    var s, last := Run(EMPTY, Fill(MAX_WINDOWS, now)), Entry(Ask(MAX_WINDOWS, now), KeyOf(0));
    FillFills(MAX_WINDOWS, now);
    FullMapEvicts(s, now);
    RunSnoc(EMPTY, Fill(MAX_WINDOWS, now), last);
    EvictionForgets(s, Ask(MAX_WINDOWS, now), KeyOf(0), [], Ask(0, now));
  }

  /** After the crowd has asked, the first key passes a second time within its minute, where a limiter
      that kept its counter would refuse it. */
  lemma EvictionShows(now: int)
    requires now > 0
    ensures EvictsEarliest(Crowd(now))
    ensures Decides(Run(EMPTY, Crowd(now)), Ask(0, now))
    ensures !Accepts(CounterAfter(None, RequestsFor(Crowd(now), KeyOf(0))), Ask(0, now))
  {
    CrowdEvictsEarliest(now);
    CrowdForgets(now);
    CrowdRequests(now);
    assert [Ask(0, now)][1..] == [];
    assert CounterAfter(None, [Ask(0, now)]) == Some(Counter(1, now + MINUTE));
  }
}
