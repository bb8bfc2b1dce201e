/** Network interface counters turned into rates: what was reported before is kept
per asset and interface, and the difference to the next report becomes a rate. */
module NetworkRates {
  import opened Wrappers
  import opened Text

  /** Times are in seconds. */
  const MAX_AGE := 600.0
  const MAX_INTERFACES := 128
  const MAX_LABEL_BYTES := 128

  type uint64 = x: int | 0 <= x < 0x1_0000_0000_0000_0000

  datatype Snapshot = Snapshot(rx: uint64, tx: uint64, at: real)

  datatype Interface = Interface(name: string, rx: uint64, tx: uint64, rxPackets: uint64, txPackets: uint64)

  datatype Key = Key(asset: string, tag: string)

  type Counters = map<Key, Snapshot>

  datatype Rates = Rates(rx: real, tx: real)

  datatype Entry = Entry(asset: string, tag: string, rates: Rates, rxPackets: uint64, txPackets: uint64)

  // ----- Labels -----

  function Utf8Length(s: string): nat {
    if s == "" then 0 else
      var c := s[0] as int;
      (if c < 0x80 then 1 else if c < 0x800 then 2 else if c < 0x10000 then 3 else 4) + Utf8Length(s[1..])
  }

  /** `boundedMetricLabel` */
  function Label(raw: string): Option<string> {
    var value := TrimSpace(raw);
    if value != "" && Utf8Length(value) <= MAX_LABEL_BYTES && '\0' !in value then Some(value) else None
  }

  // ----- The specification of one poll -----

  datatype Report = Report(tag: string, iface: Interface)

  /** The reports that count: valid labels, the first of each, up to the limit. */
  function Reports(ifaces: seq<Interface>, seen: set<string>): seq<Report> {
    if ifaces == [] then [] else
      var tag := Label(ifaces[0].name);
      if tag.None? || tag.value in seen then Reports(ifaces[1..], seen)
      else if |seen| >= MAX_INTERFACES then []
      else [Report(tag.value, ifaces[0])] + Reports(ifaces[1..], seen + {tag.value})
  }

  function Aged(c: Counters, now: real): Counters {
    map k | k in c && now - c[k].at <= MAX_AGE :: c[k]
  }

  /** Whether the difference to what was seen before is a rate. */
  predicate Comparable(previous: Option<Snapshot>, iface: Interface, now: real) {
    previous.Some? && now > previous.value.at && iface.rx >= previous.value.rx && iface.tx >= previous.value.tx
  }

  function RatesOf(previous: Snapshot, iface: Interface, now: real): Rates
    requires Comparable(Some(previous), iface, now)
  {
    var seconds := now - previous.at;
    Rates((iface.rx - previous.rx) as real / seconds, (iface.tx - previous.tx) as real / seconds)
  }

  /** No rate is negative, and rate times elapsed time is what the counter moved by. */
  lemma RateAccounts(previous: Snapshot, iface: Interface, now: real)
    requires Comparable(Some(previous), iface, now)
    ensures var rates, seconds := RatesOf(previous, iface, now), now - previous.at;
            && rates.rx >= 0.0 && rates.tx >= 0.0
            && rates.rx * seconds == (iface.rx - previous.rx) as real
            && rates.tx * seconds == (iface.tx - previous.tx) as real
  {
    Quotient((iface.rx - previous.rx) as real, now - previous.at);
    Quotient((iface.tx - previous.tx) as real, now - previous.at);
  }

  lemma Quotient(a: real, b: real)
    requires a >= 0.0 && b > 0.0
    ensures a / b >= 0.0 && a / b * b == a
  {
  }

  function Lookup(c: Counters, k: Key): Option<Snapshot> {
    if k in c then Some(c[k]) else None
  }

  function Record(c: Counters, asset: string, r: Report, now: real): Counters {
    c[Key(asset, r.tag) := Snapshot(r.iface.rx, r.iface.tx, now)]
  }

  function RecordAll(c: Counters, asset: string, reports: seq<Report>, now: real): Counters {
    if reports == [] then c
    else Record(RecordAll(c, asset, reports[..|reports| - 1], now), asset, reports[|reports| - 1], now)
  }

  function EntryFor(c: Counters, asset: string, r: Report, now: real): seq<Entry> {
    var previous := Lookup(c, Key(asset, r.tag));
    if Comparable(previous, r.iface, now)
    then [Entry(asset, r.tag, RatesOf(previous.value, r.iface, now), r.iface.rxPackets, r.iface.txPackets)]
    else []
  }

  function EntriesFor(c: Counters, asset: string, reports: seq<Report>, now: real): seq<Entry> {
    if reports == [] then []
    else EntriesFor(c, asset, reports[..|reports| - 1], now) + EntryFor(c, asset, reports[|reports| - 1], now)
  }

  // ----- Labels are reported once -----

  predicate DistinctTags(reports: seq<Report>) {
    forall i, j :: 0 <= i < j < |reports| ==> reports[i].tag != reports[j].tag
  }

  lemma {:induction false} ReportsDistinct(ifaces: seq<Interface>, seen: set<string>)
    ensures DistinctTags(Reports(ifaces, seen))
    ensures forall r :: r in Reports(ifaces, seen) ==> r.tag !in seen
    decreases |ifaces|
  {
    if ifaces != [] {
      var tag := Label(ifaces[0].name);
      ReportsDistinct(ifaces[1..], seen);
      if tag.Some? {
        ReportsDistinct(ifaces[1..], seen + {tag.value});
      }
    }
  }

  lemma {:induction false} UnreportedKept(c: Counters, asset: string, reports: seq<Report>, now: real, k: Key)
    requires k.asset != asset || forall r :: r in reports ==> r.tag != k.tag
    ensures Lookup(RecordAll(c, asset, reports, now), k) == Lookup(c, k)
    decreases |reports|
  {
    if reports != [] {
      UnreportedKept(c, asset, reports[..|reports| - 1], now, k);
    }
  }

  lemma {:induction false} ReportedRecorded(c: Counters, asset: string, reports: seq<Report>, now: real, i: nat)
    requires i < |reports| && DistinctTags(reports)
    ensures Lookup(RecordAll(c, asset, reports, now), Key(asset, reports[i].tag)) ==
            Some(Snapshot(reports[i].iface.rx, reports[i].iface.tx, now))
    decreases |reports|
  {
    var n := |reports| - 1;
    if i < n {
      ReportedRecorded(c, asset, reports[..n], now, i);
    }
  }

  // ----- The poll as it runs -----

  class Telemetry {
    var counters: Counters

    constructor ()
      ensures counters == map[]
    {
      counters := map[];
    }

    method DropAged(now: real)
      modifies this
      ensures counters == Aged(old(counters), now)
    {
      ghost var before := counters;
      var rest := counters.Keys;
      while rest != {}
        invariant rest <= before.Keys
        invariant counters == map k | k in before && (k in rest || now - before[k].at <= MAX_AGE) :: before[k]
        decreases rest
      {
        var k :| k in rest;
        if now - counters[k].at > MAX_AGE {
          counters := counters - {k};
        }
        rest := rest - {k};
      }
    }

    /** Replaces the snapshot of one interface and compares it with the one before. */
    method Compare(asset: string, tag: string, iface: Interface, now: real) returns (out: seq<Entry>)
      modifies this
      ensures counters == Record(old(counters), asset, Report(tag, iface), now)
      ensures out == EntryFor(old(counters), asset, Report(tag, iface), now)
    {
      var key := Key(asset, tag);
      var hasPrevious := key in counters;
      var previous := if hasPrevious then counters[key] else Snapshot(0, 0, 0.0);
      counters := counters[key := Snapshot(iface.rx, iface.tx, now)];
      if !hasPrevious || now <= previous.at || iface.rx < previous.rx || iface.tx < previous.tx {
        return [];
      }
      return [Entry(asset, tag, RatesOf(previous, iface, now), iface.rxPackets, iface.txPackets)];
    }

    /** The counter loop of `collectNetworkInterfaces`, given the agent's interfaces sorted by name */
    method Collect(asset: string, ifaces: seq<Interface>, now: real) returns (out: seq<Entry>)
      modifies this
      ensures counters == RecordAll(Aged(old(counters), now), asset, Reports(ifaces, {}), now)
      ensures out == EntriesFor(Aged(old(counters), now), asset, Reports(ifaces, {}), now)
    {
      DropAged(now);
      out := [];
      var seen := {};
      ghost var whole := Walk(ifaces, seen, counters, out, asset, now);
      WalkIsReports(ifaces, counters, asset, now);
      assert ifaces[0..] == ifaces;
      var i := 0;
      while i < |ifaces|
        invariant 0 <= i <= |ifaces|
        invariant Walk(ifaces[i..], seen, counters, out, asset, now) == whole
      {
        var iface := ifaces[i];
        var tag := Label(iface.name);
        assert ifaces[i..][1..] == ifaces[i + 1..];
        if tag.Some? && tag.value !in seen {
          if |seen| >= MAX_INTERFACES {
            break;
          }
          seen := seen + {tag.value};
          var entry := Compare(asset, tag.value, iface, now);
          out := out + entry;
        }
        i := i + 1;
      }
    }
  }

  datatype Collected = Collected(counters: Counters, out: seq<Entry>)

  /** The loop from one interface on: the labels seen, the counters and the entries so far move along. */
  function Walk(ifaces: seq<Interface>, seen: set<string>, c: Counters, out: seq<Entry>,
                asset: string, now: real): Collected
    decreases |ifaces|
  {
    if ifaces == [] then Collected(c, out) else
      var tag := Label(ifaces[0].name);
      if tag.None? || tag.value in seen then Walk(ifaces[1..], seen, c, out, asset, now)
      else if |seen| >= MAX_INTERFACES then Collected(c, out)
      else
        var r := Report(tag.value, ifaces[0]);
        Walk(ifaces[1..], seen + {tag.value}, Record(c, asset, r, now), out + EntryFor(c, asset, r, now), asset, now)
  }

  function WalkReports(reports: seq<Report>, c: Counters, out: seq<Entry>, asset: string, now: real): Collected
    decreases |reports|
  {
    if reports == [] then Collected(c, out)
    else
      var r := reports[0];
      WalkReports(reports[1..], Record(c, asset, r, now), out + EntryFor(c, asset, r, now), asset, now)
  }

  lemma {:induction false} WalkMeetsReports(ifaces: seq<Interface>, seen: set<string>, c: Counters, out: seq<Entry>,
                                            asset: string, now: real)
    ensures Walk(ifaces, seen, c, out, asset, now) == WalkReports(Reports(ifaces, seen), c, out, asset, now)
    decreases |ifaces|
  {
    if ifaces != [] {
      var tag := Label(ifaces[0].name);
      if tag.None? || tag.value in seen {
        WalkMeetsReports(ifaces[1..], seen, c, out, asset, now);
      } else if |seen| < MAX_INTERFACES {
        var r := Report(tag.value, ifaces[0]);
        assert Reports(ifaces, seen)[1..] == Reports(ifaces[1..], seen + {tag.value});
        WalkMeetsReports(ifaces[1..], seen + {tag.value}, Record(c, asset, r, now),
                         out + EntryFor(c, asset, r, now), asset, now);
      }
    }
  }

  lemma {:induction false} WalkFromMiddle(all: seq<Report>, n: nat, c: Counters, asset: string, now: real)
    requires n <= |all| && DistinctTags(all)
    ensures WalkReports(all[n..], RecordAll(c, asset, all[..n], now), EntriesFor(c, asset, all[..n], now),
                        asset, now) ==
            Collected(RecordAll(c, asset, all, now), EntriesFor(c, asset, all, now))
    decreases |all| - n
  {
    if n == |all| {
      assert all[..n] == all;
    } else {
      OneMoreReport(c, asset, all[..n], all[n], now);
      assert all[..n] + [all[n]] == all[..n + 1];
      assert all[n..][1..] == all[n + 1..];
      WalkFromMiddle(all, n + 1, c, asset, now);
    }
  }

  /** The loop records and emits for the reports that count, each compared with what was there before the poll. */
  lemma WalkIsReports(ifaces: seq<Interface>, c: Counters, asset: string, now: real)
    ensures Walk(ifaces, {}, c, [], asset, now) ==
            Collected(RecordAll(c, asset, Reports(ifaces, {}), now), EntriesFor(c, asset, Reports(ifaces, {}), now))
  {
    var all := Reports(ifaces, {});
    ReportsDistinct(ifaces, {});
    WalkMeetsReports(ifaces, {}, c, [], asset, now);
    WalkFromMiddle(all, 0, c, asset, now);
    assert all[0..] == all && all[..0] == [];
  }

  lemma OneMoreReport(c: Counters, asset: string, done: seq<Report>, r: Report, now: real)
    requires forall d :: d in done ==> d.tag != r.tag
    ensures RecordAll(c, asset, done + [r], now) == Record(RecordAll(c, asset, done, now), asset, r, now)
    ensures EntriesFor(c, asset, done + [r], now) ==
            EntriesFor(c, asset, done, now) + EntryFor(RecordAll(c, asset, done, now), asset, r, now)
  {
    assert (done + [r])[..|done|] == done;
    UnreportedKept(c, asset, done, now, Key(asset, r.tag));
  }

  // ----- Runs of polls, seen from one interface -----

  datatype Poll = Poll(asset: string, ifaces: seq<Interface>, now: real)

  function After(c: Counters, p: Poll): Counters {
    RecordAll(Aged(c, p.now), p.asset, Reports(p.ifaces, {}), p.now)
  }

  /** What the poll reports for `k`, if anything. */
  function ReportedFor(p: Poll, k: Key): Option<Interface> {
    if p.asset != k.asset then None else FindLabel(Reports(p.ifaces, {}), k.tag)
  }

  function FindLabel(reports: seq<Report>, tag: string): Option<Interface> {
    if reports == [] then None
    else if reports[0].tag == tag then Some(reports[0].iface)
    else FindLabel(reports[1..], tag)
  }

  lemma {:induction false} FindLabelSound(reports: seq<Report>, tag: string) returns (i: nat)
    ensures FindLabel(reports, tag).Some? ==> i < |reports| && reports[i] == Report(tag, FindLabel(reports, tag).value)
    ensures FindLabel(reports, tag).None? ==> forall r :: r in reports ==> r.tag != tag
    decreases |reports|
  {
    i := 0;
    if reports != [] && reports[0].tag != tag {
      var j := FindLabelSound(reports[1..], tag);
      i := j + 1;
    }
  }

  /** One interface moves on its own: recorded when reported, dropped when too old. */
  lemma CounterMoves(c: Counters, p: Poll, k: Key)
    ensures Lookup(After(c, p), k) ==
            match ReportedFor(p, k)
            case Some(iface) => Some(Snapshot(iface.rx, iface.tx, p.now))
            case None => if k in c && p.now - c[k].at <= 600.0 then Some(c[k]) else None
  {
    var reports := Reports(p.ifaces, {});
    ReportsDistinct(p.ifaces, {});
    if p.asset == k.asset {
      var i := FindLabelSound(reports, k.tag);
      if FindLabel(reports, k.tag).Some? {
        ReportedRecorded(Aged(c, p.now), p.asset, reports, p.now, i);
      } else {
        UnreportedKept(Aged(c, p.now), p.asset, reports, p.now, k);
      }
    } else {
      UnreportedKept(Aged(c, p.now), p.asset, reports, p.now, k);
    }
  }

  predicate Emits(c: Counters, p: Poll, k: Key) {
    ReportedFor(p, k).Some? && Comparable(Lookup(Aged(c, p.now), k), ReportedFor(p, k).value, p.now)
  }

  /** A poll's entries are exactly the rates of the interfaces it emits for. */
  lemma {:induction false} EntriesAreEmissions(c: Counters, asset: string, reports: seq<Report>, now: real, e: Entry)
    ensures e in EntriesFor(c, asset, reports, now) <==>
            exists r :: r in reports && Comparable(Lookup(c, Key(asset, r.tag)), r.iface, now)
                        && e == Entry(asset, r.tag, RatesOf(c[Key(asset, r.tag)], r.iface, now),
                                      r.iface.rxPackets, r.iface.txPackets)
    decreases |reports|
  {
    if reports != [] {
      var n := |reports| - 1;
      EntriesAreEmissions(c, asset, reports[..n], now, e);
      assert reports == reports[..n] + [reports[n]];
    }
  }

  // ----- The entries of a poll, seen from one interface -----

  /** What `Collect` returns for the poll. */
  function Entries(c: Counters, p: Poll): seq<Entry> {
    EntriesFor(Aged(c, p.now), p.asset, Reports(p.ifaces, {}), p.now)
  }

  predicate IsFor(e: Entry, k: Key) {
    Key(e.asset, e.tag) == k
  }

  function Plus(a: Rates, b: Rates): Rates {
    Rates(a.rx + b.rx, a.tx + b.tx)
  }

  function Times(a: Rates, seconds: real): Rates {
    Rates(a.rx * seconds, a.tx * seconds)
  }

  const NO_RATES := Rates(0.0, 0.0)

  /** The rates of all entries for `k`, added up. */
  function SumFor(entries: seq<Entry>, k: Key): Rates {
    if entries == [] then NO_RATES
    else
      var last := |entries| - 1;
      Plus(SumFor(entries[..last], k), if IsFor(entries[last], k) then entries[last].rates else NO_RATES)
  }

  /** Each interface has at most one entry. */
  predicate DistinctEntries(entries: seq<Entry>) {
    forall i, j :: 0 <= i < j < |entries| ==> (entries[i].asset, entries[i].tag) != (entries[j].asset, entries[j].tag)
  }

  lemma {:induction false} EntriesTagged(c: Counters, asset: string, reports: seq<Report>, now: real)
    ensures forall e :: e in EntriesFor(c, asset, reports, now) ==>
              e.asset == asset && exists r :: r in reports && r.tag == e.tag
    decreases |reports|
  {
    if reports != [] {
      var n := |reports| - 1;
      EntriesTagged(c, asset, reports[..n], now);
      assert reports == reports[..n] + [reports[n]];
    }
  }

  lemma {:induction false} EntriesDistinct(c: Counters, asset: string, reports: seq<Report>, now: real)
    requires DistinctTags(reports)
    ensures DistinctEntries(EntriesFor(c, asset, reports, now))
    decreases |reports|
  {
    if reports != [] {
      var n := |reports| - 1;
      EntriesDistinct(c, asset, reports[..n], now);
      EntriesTagged(c, asset, reports[..n], now);
    }
  }

  lemma {:induction false} SumWithout(entries: seq<Entry>, k: Key)
    requires forall e :: e in entries ==> !IsFor(e, k)
    ensures SumFor(entries, k) == NO_RATES
    decreases |entries|
  {
    if entries != [] {
      SumWithout(entries[..|entries| - 1], k);
    }
  }

  lemma {:induction false} SumWith(entries: seq<Entry>, k: Key, i: nat)
    requires DistinctEntries(entries) && i < |entries| && IsFor(entries[i], k)
    ensures SumFor(entries, k) == entries[i].rates
    decreases |entries|
  {
    var last := |entries| - 1;
    if i < last {
      SumWith(entries[..last], k, i);
    } else {
      SumWithout(entries[..last], k);
    }
  }

  /** The poll returns an entry for `k` exactly if it emits for `k`, and that entry has the rates of
      the report that counts, against what was seen before. */
  lemma EntryOf(c: Counters, p: Poll, k: Key)
    ensures (exists e :: e in Entries(c, p) && IsFor(e, k)) <==> Emits(c, p, k)
    ensures forall e :: e in Entries(c, p) && IsFor(e, k) ==>
              k in c && Emits(c, p, k) && e.rates == RatesOf(c[k], ReportedFor(p, k).value, p.now)
  {
    var reports, aged := Reports(p.ifaces, {}), Aged(c, p.now);
    ReportsDistinct(p.ifaces, {});
    var i := FindLabelSound(reports, k.tag);
    forall e | e in Entries(c, p) && IsFor(e, k)
      ensures k in c && Emits(c, p, k) && e.rates == RatesOf(c[k], ReportedFor(p, k).value, p.now)
    {
      EntriesAreEmissions(aged, p.asset, reports, p.now, e);
      var r :| r in reports && Comparable(Lookup(aged, Key(p.asset, r.tag)), r.iface, p.now)
               && e == Entry(p.asset, r.tag, RatesOf(aged[Key(p.asset, r.tag)], r.iface, p.now),
                             r.iface.rxPackets, r.iface.txPackets);
    }
    if Emits(c, p, k) {
      var iface := ReportedFor(p, k).value;
      var e := Entry(p.asset, k.tag, RatesOf(aged[k], iface, p.now), iface.rxPackets, iface.txPackets);
      assert reports[i] in reports;
      EntriesAreEmissions(aged, p.asset, reports, p.now, e);
      assert IsFor(e, k);
    }
  }

  lemma SumOf(c: Counters, p: Poll, k: Key)
    requires Emits(c, p, k)
    ensures SumFor(Entries(c, p), k) == RatesOf(c[k], ReportedFor(p, k).value, p.now)
  {
    EntryOf(c, p, k);
    ReportsDistinct(p.ifaces, {});
    EntriesDistinct(Aged(c, p.now), p.asset, Reports(p.ifaces, {}), p.now);
    var i :| 0 <= i < |Entries(c, p)| && IsFor(Entries(c, p)[i], k);
    SumWith(Entries(c, p), k, i);
  }

  // ----- Conservation -----

  /** The poll's rates for `k` times the time since `k` was last recorded. */
  function Moved(c: Counters, p: Poll, k: Key): Rates {
    if k in c then Times(SumFor(Entries(c, p), k), p.now - c[k].at) else NO_RATES
  }

  function Traffic(c: Counters, polls: seq<Poll>, k: Key): Rates
    decreases |polls|
  {
    if polls == [] then NO_RATES else Plus(Moved(c, polls[0], k), Traffic(After(c, polls[0]), polls[1..], k))
  }

  /** Every poll that reports `k` also returns an entry for it. */
  predicate Unbroken(c: Counters, polls: seq<Poll>, k: Key)
    decreases |polls|
  {
    polls != [] ==>
      && (ReportedFor(polls[0], k).Some? ==> exists e :: e in Entries(c, polls[0]) && IsFor(e, k))
      && Unbroken(After(c, polls[0]), polls[1..], k)
  }

  function AfterAll(c: Counters, polls: seq<Poll>): Counters
    decreases |polls|
  {
    if polls == [] then c else AfterAll(After(c, polls[0]), polls[1..])
  }

  lemma {:induction false} AgedOutStaysOut(c: Counters, polls: seq<Poll>, k: Key)
    requires k !in c && Unbroken(c, polls, k)
    ensures k !in AfterAll(c, polls)
    decreases |polls|
  {
    if polls != [] {
      CounterMoves(c, polls[0], k);
      EntryOf(c, polls[0], k);
      AgedOutStaysOut(After(c, polls[0]), polls[1..], k);
    }
  }

  /** How far the counters moved from one snapshot to another. */
  function Difference(a: Snapshot, b: Snapshot): Rates {
    Rates((b.rx - a.rx) as real, (b.tx - a.tx) as real)
  }

  lemma TimesElapsed(rates: Rates, previous: Snapshot, iface: Interface, now: real)
    requires Comparable(Some(previous), iface, now) && rates == RatesOf(previous, iface, now)
    ensures Times(rates, now - previous.at) == Difference(previous, Snapshot(iface.rx, iface.tx, now))
  {
    RateAccounts(previous, iface, now);
  }

  lemma NothingTimes(seconds: real)
    ensures Times(NO_RATES, seconds) == NO_RATES
  {
  }

  lemma DifferencesAdd(a: Snapshot, b: Snapshot, c: Snapshot)
    ensures Plus(Difference(a, b), Difference(b, c)) == Difference(a, c)
    ensures Difference(a, a) == NO_RATES
  {
  }

  lemma MovedWithEntry(c: Counters, p: Poll, k: Key, next: Snapshot)
    requires k in c && Emits(c, p, k) && Lookup(After(c, p), k) == Some(next)
    ensures Moved(c, p, k) == Difference(c[k], next)
  {
    CounterMoves(c, p, k);
    SumOf(c, p, k);
    TimesElapsed(SumFor(Entries(c, p), k), c[k], ReportedFor(p, k).value, p.now);
  }

  lemma MovedWithoutEntry(c: Counters, p: Poll, k: Key, next: Snapshot)
    requires k in c && ReportedFor(p, k).None? && Lookup(After(c, p), k) == Some(next)
    ensures Moved(c, p, k) == Difference(c[k], next)
  {
    CounterMoves(c, p, k);
    EntryOf(c, p, k);
    SumWithout(Entries(c, p), k);
    NothingTimes(p.now - c[k].at);
  }

  /** Over any unbroken stretch the rates returned, each times its elapsed time, add up to exactly what
      the counter moved. */
  lemma {:induction false} TrafficIsConserved(c: Counters, polls: seq<Poll>, k: Key)
    requires k in c && Unbroken(c, polls, k) && k in AfterAll(c, polls)
    ensures Traffic(c, polls, k) == Difference(c[k], AfterAll(c, polls)[k])
    decreases |polls|
  {
    if polls == [] {
      DifferencesAdd(c[k], c[k], c[k]);
    } else {
      var p, c' := polls[0], After(c, polls[0]);
      CounterMoves(c, p, k);
      EntryOf(c, p, k);
      if k in c' {
        TrafficIsConserved(c', polls[1..], k);
        if Emits(c, p, k) {
          MovedWithEntry(c, p, k, c'[k]);
        } else {
          MovedWithoutEntry(c, p, k, c'[k]);
        }
        DifferencesAdd(c[k], c'[k], AfterAll(c, polls)[k]);
      } else {
        AgedOutStaysOut(c', polls[1..], k);
      }
    }
  }

  /** A poll returns no entry for `k` exactly if it does not report `k`, has nothing recent to compare
      with, or a counter went back. */
  lemma NothingEmitted(c: Counters, p: Poll, k: Key)
    ensures (forall e :: e in Entries(c, p) ==> !IsFor(e, k)) <==>
              || ReportedFor(p, k).None?
              || k !in c
              || p.now - c[k].at > 600.0 || p.now <= c[k].at
              || ReportedFor(p, k).value.rx < c[k].rx || ReportedFor(p, k).value.tx < c[k].tx
  {
    EntryOf(c, p, k);
  }
}
