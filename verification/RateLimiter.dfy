/** The bounded fixed-window rate limiter and the limiter it stands for.

Times are nanoseconds and 0 is the zero time.  The clock is read before the lock
is taken, so runs are those whose times do not decrease in lock order. */
module RateLimiter {
  import opened Wrappers
  import opened Collections

  const MAX_WINDOWS := 4096
  const PRUNE_ABOVE := 100
  const MINUTE := 60_000_000_000

  datatype Counter = Counter(count: nat, resetAt: int)

  datatype Contents = Contents(windows: map<string, Counter>, prunedAt: int)

  const EMPTY := Contents(map[], 0)

  datatype Request = Request(key: string, limit: int, window: int, now: int)

  predicate Lawful(r: Request) {
    r.limit > 0 && r.window > 0 && r.now > 0
  }

  // ----- One counter -----

  /** The counter a request meets: the present one, or a new one when there is none or it expired. */
  function Fresh(c: Option<Counter>, r: Request): Counter {
    if c.None? || r.now > c.value.resetAt then Counter(0, r.now + r.window) else c.value
  }

  predicate Accepts(c: Option<Counter>, r: Request) {
    Fresh(c, r).count < r.limit
  }

  function Tick(c: Option<Counter>, r: Request): Counter {
    var counter := Fresh(c, r);
    if counter.count < r.limit then counter.(count := counter.count + 1) else counter
  }

  // ----- The specification of one request -----

  function Lookup(windows: map<string, Counter>, key: string): Option<Counter> {
    if key in windows then Some(windows[key]) else None
  }

  predicate Prunes(s: Contents, now: int) {
    (|s.windows| > PRUNE_ABOVE && now > s.prunedAt + MINUTE) || |s.windows| >= MAX_WINDOWS
  }

  function Unexpired(windows: map<string, Counter>, now: int): map<string, Counter> {
    map k | k in windows && now <= windows[k].resetAt :: windows[k]
  }

  function Swept(s: Contents, now: int): Contents {
    if Prunes(s, now) then Contents(Unexpired(s.windows, now), now) else s
  }

  predicate Evicts(s: Contents, r: Request) {
    var swept := Swept(s, r.now).windows;
    r.key !in swept && |swept| >= MAX_WINDOWS
  }

  /** An entry that ends no later than any other. */
  predicate Earliest(windows: map<string, Counter>, key: string) {
    key in windows && forall k :: k in windows ==> windows[key].resetAt <= windows[k].resetAt
  }

  function Step(s: Contents, r: Request, victim: string): Contents {
    var swept := Swept(s, r.now);
    var kept := if Evicts(s, r) then swept.windows - {victim} else swept.windows;
    Contents(kept[r.key := Tick(Lookup(kept, r.key), r)], swept.prunedAt)
  }

  predicate Decides(s: Contents, r: Request) {
    Accepts(Lookup(Swept(s, r.now).windows, r.key), r)
  }

  predicate Valid(s: Contents) {
    |s.windows| <= MAX_WINDOWS && forall k :: k in s.windows ==> s.windows[k].resetAt > 0
  }

  lemma UnexpiredSize(windows: map<string, Counter>, now: int)
    ensures |Unexpired(windows, now)| <= |windows|
  {
    SubsetSize(Unexpired(windows, now).Keys, windows.Keys);
  }

  /** The map never holds more than its limit of entries. */
  lemma StepBounded(s: Contents, r: Request, victim: string)
    requires Valid(s) && Lawful(r)
    requires Evicts(s, r) ==> Earliest(Swept(s, r.now).windows, victim)
    ensures Valid(Step(s, r, victim)) && |Step(s, r, victim).windows| <= 4096
  {
    UnexpiredSize(s.windows, r.now);
    var swept := Swept(s, r.now).windows;
    var kept := if Evicts(s, r) then swept - {victim} else swept;
    if Evicts(s, r) {
      assert kept.Keys == swept.Keys - {victim};
    }
    assert Step(s, r, victim).windows.Keys == kept.Keys + {r.key};
  }

  // ----- The limiter as it runs -----

  class Limiter {
    var windows: map<string, Counter>
    var prunedAt: int

    ghost function View(): Contents
      reads this
    {
      Contents(windows, prunedAt)
    }

    constructor ()
      ensures View() == EMPTY
    {
      windows, prunedAt := map[], 0;
    }

    method Prune(now: int)
      modifies this
      ensures View() == Swept(old(View()), now)
    {
      if (|windows| > PRUNE_ABOVE && now > prunedAt + MINUTE) || |windows| >= MAX_WINDOWS {
        ghost var before := windows;
        var rest := windows.Keys;
        while rest != {}
          invariant rest <= before.Keys
          invariant windows == map k | k in before && (k in rest || now <= before[k].resetAt) :: before[k]
          modifies this`windows
          decreases rest
        {
          var k :| k in rest;
          if now > windows[k].resetAt {
            windows := windows - {k};
          }
          rest := rest - {k};
        }
        prunedAt := now;
      }
    }

    /** The entry the eviction loop ends on: the first seen of those that end earliest. */
    method FindEarliest() returns (evictKey: string)
      requires windows != map[] && forall k :: k in windows ==> windows[k].resetAt > 0
      ensures Earliest(windows, evictKey)
    {
      var earliest := 0;
      evictKey := "";
      var rest := windows.Keys;
      while rest != {}
        invariant rest <= windows.Keys
        invariant earliest == 0 <==> rest == windows.Keys
        invariant earliest != 0 ==> evictKey in windows && windows[evictKey].resetAt == earliest
        invariant earliest != 0 ==> forall k :: k in windows.Keys - rest ==> earliest <= windows[k].resetAt
        decreases rest
      {
        var candidate :| candidate in rest;
        if earliest == 0 || windows[candidate].resetAt < earliest {
          evictKey := candidate;
          earliest := windows[candidate].resetAt;
        }
        rest := rest - {candidate};
      }
    }

    /** `enforceRateLimitKey`: prune, make room, count. */
    method EnforceKey(r: Request) returns (accepted: bool, ghost victim: string)
      requires Valid(View()) && Lawful(r)
      modifies this
      ensures Evicts(old(View()), r) ==> Earliest(Swept(old(View()), r.now).windows, victim)
      ensures View() == Step(old(View()), r, victim)
      ensures accepted == Decides(old(View()), r)
      ensures Valid(View())
    {
      victim := "";
      Prune(r.now);
      ghost var swept := windows;
      assert forall k :: k in swept ==> k in old(windows) && swept[k] == old(windows)[k];
      if r.key !in windows && |windows| >= MAX_WINDOWS {
        var evictKey := FindEarliest();
        victim := evictKey;
        windows := windows - {evictKey};
      }
      StepBounded(old(View()), r, victim);
      assert Lookup(windows, r.key) == Lookup(swept, r.key);
      var counter := if r.key in windows then windows[r.key] else Counter(0, 0);
      if counter.resetAt == 0 || r.now > counter.resetAt {
        counter := Counter(0, r.now + r.window);
      }
      if counter.count >= r.limit {
        windows := windows[r.key := counter];
        return false, victim;
      }
      counter := counter.(count := counter.count + 1);
      windows := windows[r.key := counter];
      return true, victim;
    }

    /** `enforceRateLimit` and its variants: no limit or no window means no limiting. */
    method Enforce(r: Request) returns (accepted: bool, ghost victim: string)
      requires Valid(View()) && r.now > 0
      modifies this
      ensures Valid(View())
      ensures accepted <==> r.limit <= 0 || r.window <= 0 || Decides(old(View()), r)
      ensures View() == if Lawful(r) then Step(old(View()), r, victim) else old(View())
      ensures Lawful(r) && Evicts(old(View()), r) ==> Earliest(Swept(old(View()), r.now).windows, victim)
    {
      if r.limit <= 0 || r.window <= 0 {
        return true, "";
      }
      accepted, victim := EnforceKey(r);
    }
  }

  // ----- Runs -----

  datatype Entry = Entry(request: Request, victim: string)

  function Run(s: Contents, entries: seq<Entry>): Contents
    decreases |entries|
  {
    if entries == [] then s else Run(Step(s, entries[0].request, entries[0].victim), entries[1..])
  }

  /** What the limiter answered to the requests for `key`. */
  function Answers(s: Contents, entries: seq<Entry>, key: string): seq<bool>
    decreases |entries|
  {
    if entries == [] then [] else
      var r := entries[0].request;
      var rest := Answers(Step(s, r, entries[0].victim), entries[1..], key);
      if r.key == key then [Decides(s, r)] + rest else rest
  }

  /** Times do not go back, and `key` is not the one evicted. */
  ghost predicate Keeps(s: Contents, entries: seq<Entry>, key: string, clock: int)
    decreases |entries|
  {
    entries == [] ||
    var r := entries[0].request;
    && Lawful(r) && clock <= r.now
    && (Evicts(s, r) ==> entries[0].victim != key)
    && Keeps(Step(s, r, entries[0].victim), entries[1..], key, r.now)
  }

  // ----- The limiter it stands for: one counter per key, never removed -----

  function RequestsFor(entries: seq<Entry>, key: string): seq<Request> {
    if entries == [] then []
    else if entries[0].request.key == key then [entries[0].request] + RequestsFor(entries[1..], key)
    else RequestsFor(entries[1..], key)
  }

  function CounterAfter(c: Option<Counter>, requests: seq<Request>): Option<Counter>
    decreases |requests|
  {
    if requests == [] then c else CounterAfter(Some(Tick(c, requests[0])), requests[1..])
  }

  function Reference(c: Option<Counter>, requests: seq<Request>): seq<bool>
    decreases |requests|
  {
    if requests == [] then []
    else [Accepts(c, requests[0])] + Reference(Some(Tick(c, requests[0])), requests[1..])
  }

  /** The map and the reference agree on `key`, or the map dropped an entry that had expired. */
  predicate Agrees(s: Contents, c: Option<Counter>, key: string, clock: int) {
    if key in s.windows then c == Some(s.windows[key]) else c.None? || c.value.resetAt < clock
  }

  lemma StepAgrees(s: Contents, c: Option<Counter>, entry: Entry, key: string, clock: int)
    requires Agrees(s, c, key, clock)
    requires Lawful(entry.request) && clock <= entry.request.now
    requires Evicts(s, entry.request) ==> entry.victim != key
    ensures entry.request.key == key ==> Decides(s, entry.request) == Accepts(c, entry.request)
    ensures Agrees(Step(s, entry.request, entry.victim),
                   if entry.request.key == key then Some(Tick(c, entry.request)) else c, key, entry.request.now)
  {
    var r := entry.request;
    var swept := Swept(s, r.now);
    assert Agrees(swept, c, key, r.now);
    var kept := if Evicts(s, r) then swept.windows - {entry.victim} else swept.windows;
    assert Lookup(kept, key) == Lookup(swept.windows, key);
    assert r.key == key ==> Fresh(Lookup(kept, key), r) == Fresh(c, r);
  }

  /** Pruning, and evicting other keys, is invisible: the bounded limiter answers every request for a
      key as a limiter would that keeps that key's counter forever. */
  lemma {:induction false} PruningIsInvisible(s: Contents, c: Option<Counter>, entries: seq<Entry>,
                                              key: string, clock: int)
    requires Agrees(s, c, key, clock) && Keeps(s, entries, key, clock)
    ensures Answers(s, entries, key) == Reference(c, RequestsFor(entries, key))
    decreases |entries|
  {
    if entries != [] {
      var r := entries[0].request;
      StepAgrees(s, c, entries[0], key, clock);
      var s' := Step(s, r, entries[0].victim);
      if r.key == key {
        PruningIsInvisible(s', Some(Tick(c, r)), entries[1..], key, r.now);
        var requests := RequestsFor(entries, key);
        assert requests[0] == r && requests[1..] == RequestsFor(entries[1..], key);
      } else {
        PruningIsInvisible(s', c, entries[1..], key, r.now);
      }
    }
  }

  lemma {:induction false} AbsentStays(s: Contents, entries: seq<Entry>, key: string)
    requires key !in s.windows && forall e :: e in entries ==> e.request.key != key
    ensures key !in Run(s, entries).windows
    decreases |entries|
  {
    if entries != [] {
      assert entries[0] in entries;
      AbsentStays(Step(s, entries[0].request, entries[0].victim), entries[1..], key);
    }
  }

  /** What an eviction costs: whatever other keys ask meanwhile, the next request for the evicted key is
      answered as by the reference exactly if the evicted counter was over or had room left. */
  lemma EvictionForgets(s: Contents, r: Request, victim: string, entries: seq<Entry>, next: Request)
    requires Lawful(next) && next.key == victim
    requires Evicts(s, r) && Earliest(Swept(s, r.now).windows, victim)
    requires forall e :: e in entries ==> e.request.key != victim
    ensures victim in s.windows
    ensures Decides(Run(Step(s, r, victim), entries), next) == Accepts(Some(s.windows[victim]), next) <==>
            next.now > s.windows[victim].resetAt || s.windows[victim].count < next.limit
  {
    AbsentStays(Step(s, r, victim), entries, victim);
  }

  // ----- How much passes -----

  function Passed(answers: seq<bool>): nat {
    if answers == [] then 0 else (if answers[0] then 1 else 0) + Passed(answers[1..])
  }
}
