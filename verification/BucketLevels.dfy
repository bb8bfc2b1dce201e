/** One token bucket on a clock that counts in tokens, and what is left in it. */
module BucketLevels {

  datatype Charge = Charge(clock: real, cost: real)

  function Least(a: real, b: real): real {
    if a < b then a else b
  }

  /** The clock when the bucket was last refilled. */
  function ClockOf(start: real, charges: seq<Charge>): real {
    if charges == [] then start else charges[|charges| - 1].clock
  }

  /** What is left of a bucket that was full at `start`, refilled up to its burst before each charge. */
  function Level(burst: real, start: real, charges: seq<Charge>): real {
    if charges == [] then burst
    else
      var n := |charges| - 1;
      var earlier, c := charges[..n], charges[n];
      Least(burst, Level(burst, start, earlier) + c.clock - ClockOf(start, earlier)) - c.cost
  }

  function Spent(charges: seq<Charge>): real {
    if charges == [] then 0.0 else Spent(charges[..|charges| - 1]) + charges[|charges| - 1].cost
  }

  /** What a bucket that was full when charge `i` came would have left. */
  function LeftSince(burst: real, charges: seq<Charge>, i: nat): real
    requires i < |charges|
  {
    burst + charges[|charges| - 1].clock - charges[i].clock - Spent(charges[i..])
  }

  /** The clock does not go back. */
  predicate Forward(start: real, charges: seq<Charge>) {
    forall i :: 0 <= i < |charges| ==> ClockOf(start, charges[..i]) <= charges[i].clock
  }

  lemma ForwardPrefix(start: real, charges: seq<Charge>)
    requires charges != [] && Forward(start, charges)
    ensures Forward(start, charges[..|charges| - 1])
  {
    var earlier := charges[..|charges| - 1];
    forall i | 0 <= i < |earlier|
      ensures ClockOf(start, earlier[..i]) <= earlier[i].clock
    {
      assert earlier[..i] == charges[..i];
    }
  }

  lemma LeftNext(burst: real, charges: seq<Charge>, i: nat)
    requires i + 1 < |charges|
    ensures var n := |charges| - 1;
            LeftSince(burst, charges, i) ==
            LeftSince(burst, charges[..n], i) + charges[n].clock - charges[n - 1].clock - charges[n].cost
  {
    var n := |charges| - 1;
    assert charges[i..][..n - i] == charges[..n][i..];
  }

  lemma LeftNow(burst: real, charges: seq<Charge>)
    requires charges != []
    ensures LeftSince(burst, charges, |charges| - 1) == burst - charges[|charges| - 1].cost
  {
    var n := |charges| - 1;
    var last := charges[n..];
    assert last == [charges[n]] && last[..|last| - 1] == [];
    assert Spent(last) == Spent([]) + charges[n].cost;
  }

  /** There is no more left than if the bucket had been full at any charge before. */
  lemma {:induction false} LevelBound(burst: real, start: real, charges: seq<Charge>, i: nat)
    requires Forward(start, charges) && i < |charges|
    ensures Level(burst, start, charges) <= LeftSince(burst, charges, i)
    decreases |charges|
  {
    var n := |charges| - 1;
    if i == n {
      LeftNow(burst, charges);
    } else {
      ForwardPrefix(start, charges);
      LevelBound(burst, start, charges[..n], i);
      LeftNext(burst, charges, i);
    }
  }

  /** And for some charge there is exactly that. */
  lemma {:induction false} LevelReached(burst: real, start: real, charges: seq<Charge>) returns (i: nat)
    requires Forward(start, charges) && charges != []
    ensures i < |charges| && Level(burst, start, charges) == LeftSince(burst, charges, i)
    decreases |charges|
  {
    var n := |charges| - 1;
    var earlier := charges[..n];
    LeftNow(burst, charges);
    assert ClockOf(start, earlier) <= charges[n].clock;
    if n == 0 || Level(burst, start, earlier) + charges[n].clock - ClockOf(start, earlier) >= burst {
      i := n;
    } else {
      ForwardPrefix(start, charges);
      i := LevelReached(burst, start, earlier);
      LeftNext(burst, charges, i);
    }
  }

  /** So the bucket is not overdrawn exactly if it would not be had it been full at any charge before. */
  lemma LevelExactly(burst: real, start: real, charges: seq<Charge>)
    requires Forward(start, charges) && charges != []
    ensures Level(burst, start, charges) >= 0.0 <==>
            forall i :: 0 <= i < |charges| ==> LeftSince(burst, charges, i) >= 0.0
  {
    var i := LevelReached(burst, start, charges);
    if Level(burst, start, charges) >= 0.0 {
      forall i | 0 <= i < |charges|
        ensures LeftSince(burst, charges, i) >= 0.0
      {
        LevelBound(burst, start, charges, i);
      }
    }
  }

  lemma {:induction false} LevelWithin(burst: real, start: real, charges: seq<Charge>)
    requires forall c :: c in charges ==> c.cost >= 0.0
    ensures Level(burst, start, charges) <= burst
    decreases |charges|
  {
  }
}
