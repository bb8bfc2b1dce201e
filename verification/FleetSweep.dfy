/** The rotating cursor that spreads telemetry requests over a fleet larger than
one sweep. */
module FleetSweep {
  import opened Collections

  const BATCH := 64

  // ----- Arithmetic modulo the fleet size -----

  lemma ModUnique(a: int, n: nat, q: int, r: int)
    requires n > 0 && a == q * n + r && 0 <= r < n
    ensures a % n == r && a / n == q
  {
    var d := a / n - q;
    assert a == (a / n) * n + a % n;
    assert d * n == r - a % n;
    MultipleIsFar(d, n);
  }

  lemma MultipleIsFar(d: int, n: nat)
    ensures d == 0 || d * n >= n || d * n <= -(n as int)
  {
    if d >= 1 {
      assert d * n == (d - 1) * n + n;
    } else if d <= -1 {
      assert d * n == (d + 1) * n - n;
    }
  }

  lemma ModAdd(a: int, b: int, n: nat)
    requires n > 0
    ensures (a % n + b) % n == (a + b) % n
  {
    var x := a % n + b;
    assert a + b == x + (a / n) * n;
    assert x == (x / n) * n + x % n;
    assert a + b == (x / n + a / n) * n + x % n;
    ModUnique(a + b, n, x / n + a / n, x % n);
  }

  lemma ModDiffers(a: int, d: nat, n: nat)
    requires 0 < d < n
    ensures (a + d) % n != a % n
  {
    var r := a % n;
    ModAdd(a, d, n);
    if r + d < n {
      ModUnique(r + d, n, 0, r + d);
    } else {
      ModUnique(r + d, n, 1, r + d - n);
    }
  }

  // ----- One sweep -----

  function BatchFrom(ids: seq<string>, start: nat): seq<string>
    requires |ids| > 0
  {
    seq(BATCH, o requires 0 <= o < BATCH => ids[(start + o) % |ids|])
  }

  function NextCursor(cursor: nat, n: nat): nat
    requires n > 0
  {
    (cursor % n + BATCH) % n
  }

  class Sweeper {
    var cursors: map<string, nat>

    constructor ()
      ensures cursors == map[]
    {
      cursors := map[];
    }

    ghost function Cursor(kind: string): nat
      reads this
    {
      if kind in cursors then cursors[kind] else 0
    }

    /** `connectedAssetBatch`, given the sorted ids of the connected assets */
    method ConnectedAssetBatch(kind: string, ids: seq<string>) returns (out: seq<string>)
      modifies this
      ensures |ids| <= BATCH ==> out == ids && cursors == old(cursors)
      ensures |ids| > BATCH ==>
                && out == BatchFrom(ids, old(Cursor(kind)) % |ids|)
                && cursors == old(cursors)[kind := NextCursor(old(Cursor(kind)), |ids|)]
    {
      if |ids| <= BATCH {
        return ids;
      }
      var start := (if kind in cursors then cursors[kind] else 0) % |ids|;
      cursors := cursors[kind := (start + BATCH) % |ids|];
      out := [];
      for offset := 0 to BATCH
        invariant |out| == offset
        invariant forall o :: 0 <= o < offset ==> out[o] == ids[(start + o) % |ids|]
      {
        out := out + [ids[(start + offset) % |ids|]];
      }
    }
  }

  /** A sweep asks each asset at most once. */
  lemma SweepIsDistinct(ids: seq<string>, start: nat)
    requires Distinct(ids) && |ids| > BATCH
    ensures Distinct(BatchFrom(ids, start)) && |BatchFrom(ids, start)| == BATCH
  {
    var batch := BatchFrom(ids, start);
    forall i, j | 0 <= i < j < |batch|
      ensures batch[i] != batch[j]
    {
      ModDiffers(start + i, j - i, |ids|);
    }
  }

  // ----- Many sweeps -----

  function CursorAfter(cursor: nat, n: nat, sweeps: nat): nat
    requires n > 0
  {
    if sweeps == 0 then cursor else NextCursor(CursorAfter(cursor, n, sweeps - 1), n)
  }

  /** The ids asked by sweep number `k` of a stable fleet. */
  function Sweep(ids: seq<string>, cursor: nat, k: nat): seq<string>
    requires |ids| > 0
  {
    BatchFrom(ids, CursorAfter(cursor, |ids|, k) % |ids|)
  }

  lemma {:induction false} CursorPosition(cursor: nat, n: nat, k: nat)
    requires n > 0
    ensures CursorAfter(cursor, n, k) % n == (cursor + k * BATCH) % n
  {
    if k > 0 {
      CursorPosition(cursor, n, k - 1);
      var c := CursorAfter(cursor, n, k - 1);
      ModAdd(c % n + BATCH, 0, n);
      ModAdd(cursor + (k - 1) * BATCH, BATCH, n);
    }
  }

  lemma SweepAt(ids: seq<string>, cursor: nat, k: nat, offset: nat)
    requires |ids| > 0 && offset < BATCH
    ensures Sweep(ids, cursor, k)[offset] == ids[(cursor + k * BATCH + offset) % |ids|]
  {
    var n, base := |ids|, cursor + k * BATCH;
    var start := CursorAfter(cursor, n, k) % n;
    assert start == base % n by { CursorPosition(cursor, n, k); }
    assert (start + offset) % n == (base + offset) % n by { ModAdd(base, offset, n); }
    assert BatchFrom(ids, start)[offset] == ids[(start + offset) % n];
  }

  function SweepsNeeded(n: nat): nat {
    (n + BATCH - 1) / BATCH
  }

  /** From any cursor, as many sweeps as it takes to ask for every place once reach every asset. */
  lemma EveryAssetIsReached(ids: seq<string>, cursor: nat, x: nat) returns (k: nat, offset: nat)
    requires |ids| > BATCH && x < |ids|
    ensures k < SweepsNeeded(|ids|) && offset < BATCH
    ensures Sweep(ids, cursor, k)[offset] == ids[x]
  {
    var n := |ids|;
    var c := cursor % n;
    var distance := if x >= c then x - c else x + n - c;
    k, offset := distance / BATCH, distance % BATCH;
    SweepAt(ids, cursor, k, offset);
    assert cursor + k * BATCH + offset == cursor + distance;
    ModAdd(cursor, distance, n);
    ModUnique(c + distance, n, if x >= c then 0 else 1, x);
  }

  /** Fewer sweeps do not: the asset right after the last one asked is still missing. */
  lemma FewerSweepsMissOne(ids: seq<string>, cursor: nat, sweeps: nat, k: nat, offset: nat)
    requires Distinct(ids) && |ids| > BATCH && sweeps < SweepsNeeded(|ids|)
    requires k < sweeps && offset < BATCH
    ensures Sweep(ids, cursor, k)[offset] != ids[(cursor + sweeps * BATCH) % |ids|]
  {
    var n := |ids|;
    var gap := (sweeps - k) * BATCH - offset;
    assert 0 < gap < n;
    SweepAt(ids, cursor, k, offset);
    ModDiffers(cursor + k * BATCH + offset, gap, n);
    assert cursor + k * BATCH + offset + gap == cursor + sweeps * BATCH;
  }
}
