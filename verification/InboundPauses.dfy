/** When the read loop pauses: exactly if some stretch of frames exceeds the burst
plus what the rate allows. */
module InboundPauses {
  import opened BucketLevels
  import opened InboundBudget

  /** A frame's arrival on a clock that counts `perSecond` tokens a second. */
  function Clock(perSecond: real, at: real): real {
    perSecond * at
  }

  function ByteCharges(l: Limits, frames: seq<Frame>): seq<Charge> {
    seq(|frames|, i requires 0 <= i < |frames| => Charge(Clock(l.bytesPerSecond, frames[i].at), frames[i].size as real))
  }

  function MessageCharges(l: Limits, frames: seq<Frame>): seq<Charge> {
    seq(|frames|, i requires 0 <= i < |frames| => Charge(Clock(l.messagesPerSecond, frames[i].at), 1.0))
  }

  /** One refill, on either clock. */
  lemma RefillOnClock(tokens: real, burst: real, perSecond: real, from: real, to: real)
    requires from <= to && tokens <= burst
    ensures Refilled(tokens, burst, perSecond, to - from) ==
            Least(burst, tokens + Clock(perSecond, to) - Clock(perSecond, from))
  {
    assert (to - from) * perSecond == perSecond * to - perSecond * from;
  }

  lemma ClockForward(perSecond: real, from: real, to: real)
    requires perSecond > 0.0 && from <= to
    ensures Clock(perSecond, from) <= Clock(perSecond, to)
  {
    MulMonotone(from, to, perSecond);
  }

  /** When the frame before `i` came, or the run began. */
  function Before(start: real, frames: seq<Frame>, i: nat): real
    requires i <= |frames|
  {
    if i == 0 then start else frames[i - 1].at
  }

  predicate Timely(start: real, frames: seq<Frame>) {
    forall i :: 0 <= i < |frames| ==> Before(start, frames, i) <= frames[i].at
  }

  lemma TimelyPrefix(start: real, frames: seq<Frame>)
    requires Timely(start, frames) && frames != []
    ensures Timely(start, frames[..|frames| - 1])
    ensures Before(start, frames, |frames| - 1) <= frames[|frames| - 1].at
  {
    var earlier := frames[..|frames| - 1];
    forall i | 0 <= i < |earlier|
      ensures Before(start, earlier, i) <= earlier[i].at
    {
      assert Before(start, frames, i) <= frames[i].at;
    }
  }

  lemma {:induction false} RefillTimes(l: Limits, start: real, frames: seq<Frame>)
    requires Timely(start, frames)
    ensures After(l, start, frames).lastRefill == Before(start, frames, |frames|)
    decreases |frames|
  {
    if frames != [] {
      TimelyPrefix(start, frames);
      RefillTimes(l, start, frames[..|frames| - 1]);
    }
  }

  lemma ByteStep(l: Limits, b: Bucket, f: Frame)
    requires b.lastRefill <= f.at && b.byteTokens <= l.byteBurst
    ensures Charged(l, b, f.size, f.at).byteTokens ==
            Least(l.byteBurst, b.byteTokens + Clock(l.bytesPerSecond, f.at) - Clock(l.bytesPerSecond, b.lastRefill))
            - f.size as real
  {
    RefillOnClock(b.byteTokens, l.byteBurst, l.bytesPerSecond, b.lastRefill, f.at);
  }

  lemma MessageStep(l: Limits, b: Bucket, f: Frame)
    requires b.lastRefill <= f.at && b.messageTokens <= l.messageBurst
    ensures Charged(l, b, f.size, f.at).messageTokens ==
            Least(l.messageBurst,
                  b.messageTokens + Clock(l.messagesPerSecond, f.at) - Clock(l.messagesPerSecond, b.lastRefill))
            - 1.0
  {
    RefillOnClock(b.messageTokens, l.messageBurst, l.messagesPerSecond, b.lastRefill, f.at);
  }

  /** The byte bucket is such a bucket. */
  lemma {:induction false} ByteLevel(l: Limits, start: real, frames: seq<Frame>)
    requires Timely(start, frames)
    ensures After(l, start, frames).byteTokens ==
            Level(l.byteBurst, Clock(l.bytesPerSecond, start), ByteCharges(l, frames))
    decreases |frames|
  {
    if frames != [] {
      var n := |frames| - 1;
      var earlier, charges := frames[..n], ByteCharges(l, frames);
      assert charges[..n] == ByteCharges(l, earlier);
      TimelyPrefix(start, frames);
      ByteLevel(l, start, earlier);
      LevelWithin(l.byteBurst, Clock(l.bytesPerSecond, start), charges[..n]);
      RefillTimes(l, start, earlier);
      ByteStep(l, After(l, start, earlier), frames[n]);
    }
  }

  /** And the message bucket. */
  lemma {:induction false} MessageLevel(l: Limits, start: real, frames: seq<Frame>)
    requires Timely(start, frames)
    ensures After(l, start, frames).messageTokens ==
            Level(l.messageBurst, Clock(l.messagesPerSecond, start), MessageCharges(l, frames))
    decreases |frames|
  {
    if frames != [] {
      var n := |frames| - 1;
      var earlier, charges := frames[..n], MessageCharges(l, frames);
      assert charges[..n] == MessageCharges(l, earlier);
      TimelyPrefix(start, frames);
      MessageLevel(l, start, earlier);
      LevelWithin(l.messageBurst, Clock(l.messagesPerSecond, start), charges[..n]);
      RefillTimes(l, start, earlier);
      MessageStep(l, After(l, start, earlier), frames[n]);
    }
  }

  // ----- Stretches -----

  lemma {:induction false} ByteSpent(l: Limits, frames: seq<Frame>, i: nat)
    requires i <= |frames|
    ensures Spent(ByteCharges(l, frames)[i..]) == TotalBytes(frames[i..])
    decreases |frames|
  {
    if i < |frames| {
      var n := |frames| - 1;
      ByteSpent(l, frames[..n], i);
      assert ByteCharges(l, frames)[i..][..n - i] == ByteCharges(l, frames[..n])[i..];
      assert frames[i..][..n - i] == frames[..n][i..];
    }
  }

  lemma {:induction false} MessageSpent(l: Limits, frames: seq<Frame>, i: nat)
    requires i <= |frames|
    ensures Spent(MessageCharges(l, frames)[i..]) == (|frames| - i) as real
    decreases |frames|
  {
    if i < |frames| {
      var n := |frames| - 1;
      MessageSpent(l, frames[..n], i);
      assert MessageCharges(l, frames)[i..][..n - i] == MessageCharges(l, frames[..n])[i..];
      assert (n - i) as real + 1.0 == (|frames| - i) as real;
    }
  }

  lemma ChargesForward(l: Limits, start: real, frames: seq<Frame>)
    requires l.messagesPerSecond > 0.0 && l.bytesPerSecond > 0.0 && Timely(start, frames)
    ensures Forward(Clock(l.bytesPerSecond, start), ByteCharges(l, frames))
    ensures Forward(Clock(l.messagesPerSecond, start), MessageCharges(l, frames))
  {
    forall i | 0 <= i < |frames|
      ensures ClockOf(Clock(l.bytesPerSecond, start), ByteCharges(l, frames)[..i]) <= ByteCharges(l, frames)[i].clock
      ensures ClockOf(Clock(l.messagesPerSecond, start), MessageCharges(l, frames)[..i]) <=
              MessageCharges(l, frames)[i].clock
    {
      var from := Before(start, frames, i);
      ClockForward(l.bytesPerSecond, from, frames[i].at);
      ClockForward(l.messagesPerSecond, from, frames[i].at);
    }
  }

  /** A bound on one bucket, on the clock in seconds and on its own. */
  lemma BoundOnClock(burst: real, perSecond: real, from: real, to: real, spent: real)
    ensures spent <= burst + perSecond * (to - from) <==>
            burst + Clock(perSecond, to) - Clock(perSecond, from) - spent >= 0.0
  {
    assert perSecond * (to - from) == perSecond * to - perSecond * from;
  }

  lemma BytesLeft(l: Limits, frames: seq<Frame>, i: nat)
    requires i < |frames|
    ensures LeftSince(l.byteBurst, ByteCharges(l, frames), i) ==
            l.byteBurst + Clock(l.bytesPerSecond, frames[|frames| - 1].at) - Clock(l.bytesPerSecond, frames[i].at)
            - TotalBytes(frames[i..])
  {
    ByteSpent(l, frames, i);
  }

  lemma MessagesLeft(l: Limits, frames: seq<Frame>, i: nat)
    requires i < |frames|
    ensures LeftSince(l.messageBurst, MessageCharges(l, frames), i) ==
            l.messageBurst + Clock(l.messagesPerSecond, frames[|frames| - 1].at)
            - Clock(l.messagesPerSecond, frames[i].at) - (|frames| - i) as real
  {
    MessageSpent(l, frames, i);
  }

  /** Both buckets, had they been full at frame `i`, would not be overdrawn. */
  lemma StretchIsBounded(l: Limits, frames: seq<Frame>, i: nat)
    requires i < |frames|
    ensures StretchFits(l, frames, i) <==>
            && LeftSince(l.byteBurst, ByteCharges(l, frames), i) >= 0.0
            && LeftSince(l.messageBurst, MessageCharges(l, frames), i) >= 0.0
  {
    var from, to := frames[i].at, frames[|frames| - 1].at;
    BytesLeft(l, frames, i);
    MessagesLeft(l, frames, i);
    BoundOnClock(l.byteBurst, l.bytesPerSecond, from, to, TotalBytes(frames[i..]));
    BoundOnClock(l.messageBurst, l.messagesPerSecond, from, to, (|frames| - i) as real);
  }

  lemma NoDebt(l: Limits, b: Bucket)
    requires l.messagesPerSecond > 0.0 && l.bytesPerSecond > 0.0
    ensures Wait(l, b) == 0.0 <==> b.messageTokens >= 0.0 && b.byteTokens >= 0.0
  {
    DebtBounds(l, b);
    if b.messageTokens < 0.0 {
      assert -b.messageTokens / l.messagesPerSecond * l.messagesPerSecond == -b.messageTokens;
    }
    if b.byteTokens < 0.0 {
      assert -b.byteTokens / l.bytesPerSecond * l.bytesPerSecond == -b.byteTokens;
    }
  }

  /** Neither bucket is overdrawn exactly if every stretch up to the last frame is within bounds. */
  lemma NotOverdrawnExactly(l: Limits, start: real, frames: seq<Frame>)
    requires l.messagesPerSecond > 0.0 && l.bytesPerSecond > 0.0 && Timely(start, frames) && frames != []
    ensures var b := After(l, start, frames);
            (b.messageTokens >= 0.0 && b.byteTokens >= 0.0) <==> AllBounded(l, frames)
  {
    ChargesForward(l, start, frames);
    ByteLevel(l, start, frames);
    MessageLevel(l, start, frames);
    LevelExactly(l.byteBurst, Clock(l.bytesPerSecond, start), ByteCharges(l, frames));
    LevelExactly(l.messageBurst, Clock(l.messagesPerSecond, start), MessageCharges(l, frames));
    forall i | 0 <= i < |frames|
      ensures StretchFits(l, frames, i) <==>
              && LeftSince(l.byteBurst, ByteCharges(l, frames), i) >= 0.0
              && LeftSince(l.messageBurst, MessageCharges(l, frames), i) >= 0.0
    {
      StretchIsBounded(l, frames, i);
    }
  }

  /** From the arrival of frame `i` to that of the last one, no more came than the burst and the rate allow. */
  predicate StretchFits(l: Limits, frames: seq<Frame>, i: nat)
    requires i < |frames|
  {
    Bounded(l, frames[i].at, frames[|frames| - 1].at, TotalBytes(frames[i..]), (|frames| - i) as real)
  }

  predicate AllBounded(l: Limits, frames: seq<Frame>) {
    forall i :: 0 <= i < |frames| ==> StretchFits(l, frames, i)
  }

  /** A frame is handled without a pause exactly if every stretch that ends with it stays within the burst
      plus what the rate allows from the stretch's first arrival to this one. */
  lemma NoPauseExactly(l: Limits, start: real, frames: seq<Frame>)
    requires l.messagesPerSecond > 0.0 && l.bytesPerSecond > 0.0 && Timely(start, frames) && frames != []
    ensures Wait(l, After(l, start, frames)) == 0.0 <==> AllBounded(l, frames)
  {
    NoDebt(l, After(l, start, frames));
    NotOverdrawnExactly(l, start, frames);
  }
}
