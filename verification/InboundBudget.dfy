/** The token bucket that throttles one agent socket: two buckets, messages and
bytes, that a frame may overdraw and the read loop then waits out.  Times are
seconds and tokens are reals. */
module InboundBudget {

  const MAX_WAIT := 10.0

  datatype Limits = Limits(messagesPerSecond: real, messageBurst: real, bytesPerSecond: real, byteBurst: real)

  datatype Bucket = Bucket(messageTokens: real, byteTokens: real, lastRefill: real)

  function Min(a: real, b: real): real {
    if a < b then a else b
  }

  function Max(a: real, b: real): real {
    if a > b then a else b
  }

  /** `agentWSTokenDebtWait` */
  function DebtWait(tokens: real, perSecond: real): real
    requires perSecond > 0.0
  {
    if tokens >= 0.0 then 0.0 else -tokens / perSecond
  }

  // ----- The specification of one frame -----

  /** A frame the budget can pay for at all; this never depends on the tokens left. */
  predicate Fits(l: Limits, frameBytes: int) {
    && frameBytes >= 0
    && l.messagesPerSecond > 0.0 && l.bytesPerSecond > 0.0
    && l.messageBurst >= 1.0 && frameBytes as real <= l.byteBurst
    && 1.0 / l.messagesPerSecond <= MAX_WAIT && frameBytes as real / l.bytesPerSecond <= MAX_WAIT
  }

  function Refilled(tokens: real, burst: real, perSecond: real, elapsed: real): real {
    if elapsed > 0.0 then Min(burst, tokens + elapsed * perSecond) else tokens
  }

  function Charged(l: Limits, b: Bucket, frameBytes: int, now: real): Bucket {
    var elapsed := now - b.lastRefill;
    Bucket(
      Refilled(b.messageTokens, l.messageBurst, l.messagesPerSecond, elapsed) - 1.0,
      Refilled(b.byteTokens, l.byteBurst, l.bytesPerSecond, elapsed) - frameBytes as real,
      if elapsed > 0.0 then now else b.lastRefill)
  }

  /** The pause that repays both buckets, before the cap. */
  function Debt(l: Limits, b: Bucket): real
    requires l.messagesPerSecond > 0.0 && l.bytesPerSecond > 0.0
  {
    Max(DebtWait(b.messageTokens, l.messagesPerSecond), DebtWait(b.byteTokens, l.bytesPerSecond))
  }

  function Wait(l: Limits, b: Bucket): real
    requires l.messagesPerSecond > 0.0 && l.bytesPerSecond > 0.0
  {
    Min(Debt(l, b), MAX_WAIT)
  }

  class Budget {
    const limits: Limits
    var messageTokens: real
    var byteTokens: real
    var lastRefill: real

    ghost function Contents(): Bucket
      reads this
    {
      Bucket(messageTokens, byteTokens, lastRefill)
    }

    constructor (limits: Limits, now: real)
      ensures this.limits == limits && Contents() == Full(limits, now)
    {
      this.limits := limits;
      messageTokens, byteTokens, lastRefill := limits.messageBurst, limits.byteBurst, now;
    }

    method Refill(now: real)
      modifies this`messageTokens, this`byteTokens, this`lastRefill
      ensures messageTokens ==
              Refilled(old(messageTokens), limits.messageBurst, limits.messagesPerSecond, now - old(lastRefill))
      ensures byteTokens == Refilled(old(byteTokens), limits.byteBurst, limits.bytesPerSecond, now - old(lastRefill))
      ensures lastRefill == if now - old(lastRefill) > 0.0 then now else old(lastRefill)
    {
      var elapsed := now - lastRefill;
      if elapsed > 0.0 {
        messageTokens := Min(limits.messageBurst, messageTokens + elapsed * limits.messagesPerSecond);
        byteTokens := Min(limits.byteBurst, byteTokens + elapsed * limits.bytesPerSecond);
        lastRefill := now;
      }
    }

    /** `reserve`: charges one frame and returns the pause before handling it. */
    method Reserve(frameBytes: int, now: real) returns (wait: real, ok: bool)
      modifies this`messageTokens, this`byteTokens, this`lastRefill
      ensures ok <==> Fits(limits, frameBytes)
      ensures !ok ==> Contents() == old(Contents()) && wait == 0.0
      ensures ok ==> Contents() == Charged(limits, old(Contents()), frameBytes, now) && wait == Wait(limits, Contents())
    {
      if frameBytes < 0 || limits.messagesPerSecond <= 0.0 || limits.bytesPerSecond <= 0.0 {
        return 0.0, false;
      }
      var size := frameBytes as real;
      if limits.messageBurst < 1.0 || size > limits.byteBurst {
        return 0.0, false;
      }
      if 1.0 / limits.messagesPerSecond > MAX_WAIT || size / limits.bytesPerSecond > MAX_WAIT {
        return 0.0, false;
      }
      Refill(now);
      messageTokens := messageTokens - 1.0;
      byteTokens := byteTokens - size;
      wait := Wait(limits, Bucket(messageTokens, byteTokens, lastRefill));
      ok := true;
    }
  }

  function Full(l: Limits, now: real): Bucket {
    Bucket(l.messageBurst, l.byteBurst, now)
  }

  // ----- Runs of the read loop -----

  datatype Frame = Frame(size: nat, at: real)

  /** The bucket after the frames, each reserved at its own time. */
  function After(l: Limits, start: real, frames: seq<Frame>): Bucket {
    if frames == [] then Full(l, start)
    else
      var last := |frames| - 1;
      Charged(l, After(l, start, frames[..last]), frames[last].size, frames[last].at)
  }

  /** Every frame fits, and is reserved no earlier than the pause of the frame before it ends. */
  ghost predicate Honours(l: Limits, start: real, frames: seq<Frame>)
    requires l.messagesPerSecond > 0.0 && l.bytesPerSecond > 0.0
  {
    && (forall i :: 0 <= i < |frames| ==> Fits(l, frames[i].size))
    && (frames != [] ==> frames[0].at >= start)
    && (forall i :: 0 < i < |frames| ==> frames[i].at >= frames[i - 1].at + Wait(l, After(l, start, frames[..i])))
  }

  function TotalBytes(frames: seq<Frame>): real {
    if frames == [] then 0.0 else TotalBytes(frames[..|frames| - 1]) + frames[|frames| - 1].size as real
  }

  // ----- One bucket -----

  lemma DebtWaitRepays(tokens: real, perSecond: real)
    requires perSecond > 0.0
    ensures DebtWait(tokens, perSecond) >= 0.0
    ensures tokens + DebtWait(tokens, perSecond) * perSecond >= 0.0
  {
    if tokens < 0.0 {
      assert -tokens / perSecond * perSecond == -tokens;
    }
  }

  lemma DebtCoversTokens(tokens: real, perSecond: real, bound: real)
    requires perSecond > 0.0 && bound >= 0.0 && tokens >= -bound
    ensures DebtWait(tokens, perSecond) <= bound / perSecond
  {
    if tokens < 0.0 {
      var x, y := -tokens / perSecond, bound / perSecond;
      assert x * perSecond == -tokens && y * perSecond == bound;
      if x > y {
        MulStrict(y, x, perSecond);
        assert false;
      }
    }
  }

  lemma MulStrict(a: real, b: real, k: real)
    requires a < b && k > 0.0
    ensures a * k < b * k
  {
    assert (b - a) * k > 0.0;
  }

  lemma MulMonotone(a: real, b: real, k: real)
    requires a <= b && k >= 0.0
    ensures a * k <= b * k
  {
    assert (b - a) * k >= 0.0;
  }

  /** Refilled no earlier than its debt is due, a bucket is not overdrawn. */
  lemma RefillRepays(tokens: real, burst: real, perSecond: real, elapsed: real)
    requires perSecond > 0.0 && burst >= 0.0 && elapsed >= DebtWait(tokens, perSecond)
    ensures Refilled(tokens, burst, perSecond, elapsed) >= 0.0
  {
    DebtWaitRepays(tokens, perSecond);
    if elapsed > 0.0 {
      MulMonotone(DebtWait(tokens, perSecond), elapsed, perSecond);
    }
  }

  /** A refill adds no more than the rate allows and never passes the burst. */
  lemma RefillBound(tokens: real, burst: real, perSecond: real, elapsed: real)
    requires perSecond > 0.0 && tokens <= burst && elapsed >= 0.0
    ensures Refilled(tokens, burst, perSecond, elapsed) <= burst
    ensures Refilled(tokens, burst, perSecond, elapsed) <= tokens + elapsed * perSecond
  {
  }

  // ----- The read loop -----

  /** What each reservation leaves behind: tokens within the burst, a debt of at most the frame just
      charged, and therefore a pause the cap does not shorten. */
  predicate Steady(l: Limits, b: Bucket, f: Frame)
    requires l.messagesPerSecond > 0.0 && l.bytesPerSecond > 0.0
  {
    && b.messageTokens <= l.messageBurst && b.byteTokens <= l.byteBurst
    && b.messageTokens >= -1.0 && b.byteTokens >= -(f.size as real)
    && b.lastRefill == f.at
    && Wait(l, b) == Debt(l, b)
  }

  lemma ChargeIsSteady(l: Limits, b: Bucket, f: Frame)
    requires Fits(l, f.size)
    requires b.messageTokens <= l.messageBurst && b.byteTokens <= l.byteBurst
    requires f.at >= b.lastRefill + Debt(l, b)
    ensures Steady(l, Charged(l, b, f.size, f.at), f)
    ensures Repaid(l, b, f.at)
  {
    var elapsed := f.at - b.lastRefill;
    RefillRepays(b.messageTokens, l.messageBurst, l.messagesPerSecond, elapsed);
    RefillRepays(b.byteTokens, l.byteBurst, l.bytesPerSecond, elapsed);
    RefillBound(b.messageTokens, l.messageBurst, l.messagesPerSecond, elapsed);
    RefillBound(b.byteTokens, l.byteBurst, l.bytesPerSecond, elapsed);
    var b' := Charged(l, b, f.size, f.at);
    DebtCoversTokens(b'.messageTokens, l.messagesPerSecond, 1.0);
    DebtCoversTokens(b'.byteTokens, l.bytesPerSecond, f.size as real);
  }

  lemma HonoursUpTo(l: Limits, start: real, frames: seq<Frame>, n: nat)
    requires l.messagesPerSecond > 0.0 && l.bytesPerSecond > 0.0
    requires Honours(l, start, frames) && n <= |frames|
    ensures Honours(l, start, frames[..n])
  {
    var shorter := frames[..n];
    forall i | 0 < i < |shorter|
      ensures shorter[i].at >= shorter[i - 1].at + Wait(l, After(l, start, shorter[..i]))
    {
      assert shorter[..i] == frames[..i];
    }
  }

  /** Both buckets hold no debt at time `now`, before anything is charged. */
  predicate Repaid(l: Limits, b: Bucket, now: real) {
    && Refilled(b.messageTokens, l.messageBurst, l.messagesPerSecond, now - b.lastRefill) >= 0.0
    && Refilled(b.byteTokens, l.byteBurst, l.bytesPerSecond, now - b.lastRefill) >= 0.0
  }

  /** In any run that honours its pauses, every frame finds the debt repaid, leaves a debt of at most
      itself, and asks for a pause the cap does not shorten. */
  lemma {:induction false} CapNeverBinds(l: Limits, start: real, frames: seq<Frame>)
    requires l.messagesPerSecond > 0.0 && l.bytesPerSecond > 0.0
    requires frames != [] && Honours(l, start, frames)
    ensures Steady(l, After(l, start, frames), frames[|frames| - 1])
    ensures Repaid(l, After(l, start, frames[..|frames| - 1]), frames[|frames| - 1].at)
    decreases |frames|
  {
    var last := |frames| - 1;
    var shorter := frames[..last];
    if shorter == [] {
      ChargeIsSteady(l, Full(l, start), frames[0]);
    } else {
      HonoursUpTo(l, start, frames, |frames| - 1);
      CapNeverBinds(l, start, shorter);
      ChargeIsSteady(l, After(l, start, shorter), frames[last]);
    }
  }

  // ----- Rate -----

  /** One bucket's account after a charge: what was spent plus what is left is covered by the burst and the rate. */
  lemma ChargeAccount(tokens: real, burst: real, perSecond: real, spent: real,
                      start: real, from: real, to: real, cost: real)
    requires perSecond > 0.0 && tokens <= burst && from <= to
    requires spent + tokens <= burst + perSecond * (from - start)
    ensures (spent + cost) + (Refilled(tokens, burst, perSecond, to - from) - cost) <= burst + perSecond * (to - start)
  {
    RefillBound(tokens, burst, perSecond, to - from);
    assert perSecond * (to - start) == perSecond * (from - start) + (to - from) * perSecond;
  }

  predicate Accounts(l: Limits, start: real, b: Bucket, bytes: real, messages: real) {
    && b.messageTokens <= l.messageBurst && b.byteTokens <= l.byteBurst
    && bytes + b.byteTokens <= l.byteBurst + l.bytesPerSecond * (b.lastRefill - start)
    && messages + b.messageTokens <= l.messageBurst + l.messagesPerSecond * (b.lastRefill - start)
  }

  lemma ChargeKeepsAccounts(l: Limits, start: real, b: Bucket, bytes: real, messages: real, f: Frame)
    requires l.messagesPerSecond > 0.0 && l.bytesPerSecond > 0.0 && b.lastRefill <= f.at
    requires Accounts(l, start, b, bytes, messages)
    ensures Accounts(l, start, Charged(l, b, f.size, f.at), bytes + f.size as real, messages + 1.0)
  {
    var elapsed := f.at - b.lastRefill;
    RefillBound(b.byteTokens, l.byteBurst, l.bytesPerSecond, elapsed);
    RefillBound(b.messageTokens, l.messageBurst, l.messagesPerSecond, elapsed);
    ChargeAccount(b.byteTokens, l.byteBurst, l.bytesPerSecond, bytes, start, b.lastRefill, f.at, f.size as real);
    ChargeAccount(b.messageTokens, l.messageBurst, l.messagesPerSecond, messages, start, b.lastRefill, f.at, 1.0);
  }

  /** No frame is reserved before the last refill. */
  predicate Ordered(l: Limits, start: real, frames: seq<Frame>) {
    forall i :: 0 <= i < |frames| ==> After(l, start, frames[..i]).lastRefill <= frames[i].at
  }

  lemma {:induction false} HonoursOrdered(l: Limits, start: real, frames: seq<Frame>)
    requires l.messagesPerSecond > 0.0 && l.bytesPerSecond > 0.0
    requires Honours(l, start, frames)
    ensures Ordered(l, start, frames)
    decreases |frames|
  {
    if frames != [] {
      var last := |frames| - 1;
      HonoursUpTo(l, start, frames, |frames| - 1);
      HonoursOrdered(l, start, frames[..last]);
      InOrder(l, start, frames);
      forall i | 0 <= i < |frames|
        ensures After(l, start, frames[..i]).lastRefill <= frames[i].at
      {
        if i < last {
          assert frames[..last][..i] == frames[..i];
        }
      }
    }
  }

  /** Just charged, a frame's own account starts with buckets no fuller than the burst. */
  lemma FirstAccounts(l: Limits, b: Bucket, f: Frame)
    requires l.messagesPerSecond > 0.0 && l.bytesPerSecond > 0.0 && b.lastRefill <= f.at
    requires b.messageTokens <= l.messageBurst && b.byteTokens <= l.byteBurst
    ensures Accounts(l, f.at, Charged(l, b, f.size, f.at), f.size as real, 1.0)
  {
    var b' := Charged(l, b, f.size, f.at);
    RefillBound(b.byteTokens, l.byteBurst, l.bytesPerSecond, f.at - b.lastRefill);
    RefillBound(b.messageTokens, l.messageBurst, l.messagesPerSecond, f.at - b.lastRefill);
    assert l.bytesPerSecond * (b'.lastRefill - f.at) == 0.0 && l.messagesPerSecond * (b'.lastRefill - f.at) == 0.0;
  }

  lemma {:induction false} WithinBurst(l: Limits, start: real, frames: seq<Frame>, n: nat)
    requires l.messagesPerSecond > 0.0 && l.bytesPerSecond > 0.0
    requires Ordered(l, start, frames) && n <= |frames|
    ensures After(l, start, frames[..n]).messageTokens <= l.messageBurst
    ensures After(l, start, frames[..n]).byteTokens <= l.byteBurst
    decreases n
  {
    if n > 0 {
      WithinBurst(l, start, frames, n - 1);
      AfterNext(l, start, frames, n - 1);
      FirstAccounts(l, After(l, start, frames[..n - 1]), frames[n - 1]);
    }
  }

  lemma AfterNext(l: Limits, start: real, frames: seq<Frame>, i: nat)
    requires i < |frames|
    ensures After(l, start, frames[..i + 1]) ==
            Charged(l, After(l, start, frames[..i]), frames[i].size, frames[i].at)
  {
    assert frames[..i + 1][..i] == frames[..i];
  }

  lemma TotalBytesNext(frames: seq<Frame>, i: nat, j: nat)
    requires i <= j < |frames|
    ensures TotalBytes(frames[i..j + 1]) == TotalBytes(frames[i..j]) + frames[j].size as real
  {
    assert frames[i..j + 1][..j - i] == frames[i..j];
  }

  /** The account of the stretch that begins with frame `i`. */
  lemma {:induction false} StretchAccounts(l: Limits, start: real, frames: seq<Frame>, i: nat, j: nat)
    requires l.messagesPerSecond > 0.0 && l.bytesPerSecond > 0.0
    requires Ordered(l, start, frames) && i < j <= |frames|
    ensures Accounts(l, frames[i].at, After(l, start, frames[..j]), TotalBytes(frames[i..j]), (j - i) as real)
    decreases j
  {
    var last := j - 1;
    var b := After(l, start, frames[..last]);
    AfterNext(l, start, frames, last);
    TotalBytesNext(frames, i, last);
    if last == i {
      WithinBurst(l, start, frames, i);
      FirstAccounts(l, b, frames[i]);
      assert frames[i..i] == [];
    } else {
      StretchAccounts(l, start, frames, i, last);
      ChargeKeepsAccounts(l, frames[i].at, b, TotalBytes(frames[i..last]), (last - i) as real, frames[last]);
      assert (last - i) as real + 1.0 == (j - i) as real;
    }
  }

  lemma InOrder(l: Limits, start: real, frames: seq<Frame>)
    requires l.messagesPerSecond > 0.0 && l.bytesPerSecond > 0.0
    requires frames != [] && Honours(l, start, frames)
    ensures After(l, start, frames[..|frames| - 1]).lastRefill <= frames[|frames| - 1].at
  {
    var last := |frames| - 1;
    if last > 0 {
      HonoursUpTo(l, start, frames, |frames| - 1);
      CapNeverBinds(l, start, frames[..last]);
      DebtBounds(l, After(l, start, frames[..last]));
    }
  }

  lemma DebtBounds(l: Limits, b: Bucket)
    requires l.messagesPerSecond > 0.0 && l.bytesPerSecond > 0.0
    ensures Debt(l, b) >= DebtWait(b.byteTokens, l.bytesPerSecond) >= 0.0
    ensures Debt(l, b) >= DebtWait(b.messageTokens, l.messagesPerSecond) >= 0.0
  {
    DebtWaitRepays(b.byteTokens, l.bytesPerSecond);
    DebtWaitRepays(b.messageTokens, l.messagesPerSecond);
  }

  lemma HandledWithin(tokens: real, perSecond: real, at: real, handled: real, start: real, burst: real, total: real)
    requires perSecond > 0.0 && handled >= at + DebtWait(tokens, perSecond)
    requires total + tokens <= burst + perSecond * (at - start)
    ensures total <= burst + perSecond * (handled - start)
  {
    DebtWaitRepays(tokens, perSecond);
    MulMonotone(DebtWait(tokens, perSecond), handled - at, perSecond);
    assert perSecond * (handled - start) == perSecond * (at - start) + (handled - at) * perSecond;
  }

  /** Once the debt is waited out, the account bounds what was passed. */
  lemma AccountsBound(l: Limits, start: real, b: Bucket, bytes: real, messages: real, handled: real)
    requires l.messagesPerSecond > 0.0 && l.bytesPerSecond > 0.0
    requires Accounts(l, start, b, bytes, messages) && handled >= b.lastRefill + Debt(l, b)
    ensures Bounded(l, start, handled, bytes, messages)
  {
    DebtBounds(l, b);
    HandledWithin(b.byteTokens, l.bytesPerSecond, b.lastRefill, handled, start, l.byteBurst, bytes);
    HandledWithin(b.messageTokens, l.messagesPerSecond, b.lastRefill, handled, start, l.messageBurst, messages);
  }

  /** Handled no earlier than its pause ends, a frame leaves no debt. */
  lemma PaidOff(l: Limits, start: real, frames: seq<Frame>, j: nat, handled: real)
    requires l.messagesPerSecond > 0.0 && l.bytesPerSecond > 0.0
    requires Honours(l, start, frames) && 0 < j <= |frames|
    requires handled >= frames[j - 1].at + Wait(l, After(l, start, frames[..j]))
    ensures handled >= After(l, start, frames[..j]).lastRefill + Debt(l, After(l, start, frames[..j]))
  {
    HonoursUpTo(l, start, frames, j);
    CapNeverBinds(l, start, frames[..j]);
  }

  /** At most the burst plus what the rate allows from `from` to `to`. */
  predicate Bounded(l: Limits, from: real, to: real, bytes: real, messages: real) {
    && bytes <= l.byteBurst + l.bytesPerSecond * (to - from)
    && messages <= l.messageBurst + l.messagesPerSecond * (to - from)
  }

  lemma OrderedStretch(l: Limits, start: real, frames: seq<Frame>, i: nat, j: nat, handled: real)
    requires l.messagesPerSecond > 0.0 && l.bytesPerSecond > 0.0
    requires Ordered(l, start, frames) && i < j <= |frames|
    requires handled >= After(l, start, frames[..j]).lastRefill + Debt(l, After(l, start, frames[..j]))
    ensures Bounded(l, frames[i].at, handled, TotalBytes(frames[i..j]), (j - i) as real)
  {
    StretchAccounts(l, start, frames, i, j);
    AccountsBound(l, frames[i].at, After(l, start, frames[..j]), TotalBytes(frames[i..j]), (j - i) as real, handled);
  }

  /** In any stretch of a run, from the moment its first frame arrives to the moment its last one is
      handled, the socket passes at most the burst plus what the rate allows, in bytes and in messages. */
  lemma StretchBound(l: Limits, start: real, frames: seq<Frame>, i: nat, j: nat, handled: real)
    requires l.messagesPerSecond > 0.0 && l.bytesPerSecond > 0.0
    requires Honours(l, start, frames) && i < j <= |frames|
    requires handled >= frames[j - 1].at + Wait(l, After(l, start, frames[..j]))
    ensures Bounded(l, frames[i].at, handled, TotalBytes(frames[i..j]), (j - i) as real)
  {
    PaidOff(l, start, frames, j, handled);
    HonoursOrdered(l, start, frames);
    OrderedStretch(l, start, frames, i, j, handled);
  }

  lemma BoundedFromEarlier(l: Limits, earlier: real, from: real, to: real, bytes: real, messages: real)
    requires l.messagesPerSecond > 0.0 && l.bytesPerSecond > 0.0
    requires earlier <= from && Bounded(l, from, to, bytes, messages)
    ensures Bounded(l, earlier, to, bytes, messages)
  {
    MulMonotone(to - from, to - earlier, l.bytesPerSecond);
    MulMonotone(to - from, to - earlier, l.messagesPerSecond);
  }

  /** Up to the moment a frame is handled, the socket passed at most the burst plus what the rate
      allows since the start, in bytes and in messages. */
  lemma RateBound(l: Limits, start: real, frames: seq<Frame>, handled: real)
    requires l.messagesPerSecond > 0.0 && l.bytesPerSecond > 0.0
    requires frames != [] && Honours(l, start, frames)
    requires handled >= frames[|frames| - 1].at + Wait(l, After(l, start, frames))
    ensures Bounded(l, start, handled, TotalBytes(frames), |frames| as real)
  {
    var n := |frames|;
    assert frames[..n] == frames && frames[0..n] == frames;
    StretchBound(l, start, frames, 0, n, handled);
    BoundedFromEarlier(l, start, frames[0].at, handled, TotalBytes(frames), n as real);
  }

  /** The pause is no longer than needed: any shorter one leaves a bucket overdrawn. */
  lemma WaitIsLeast(l: Limits, b: Bucket, pause: real)
    requires l.messagesPerSecond > 0.0 && l.bytesPerSecond > 0.0 && l.messageBurst >= 0.0 && l.byteBurst >= 0.0
    requires pause >= 0.0
    ensures pause >= Debt(l, b) <==> Repaid(l, b, b.lastRefill + pause)
  {
    RefillIff(b.messageTokens, l.messageBurst, l.messagesPerSecond, pause);
    RefillIff(b.byteTokens, l.byteBurst, l.bytesPerSecond, pause);
  }

  lemma RefillIff(tokens: real, burst: real, perSecond: real, elapsed: real)
    requires perSecond > 0.0 && burst >= 0.0 && elapsed >= 0.0
    ensures elapsed >= DebtWait(tokens, perSecond) <==> Refilled(tokens, burst, perSecond, elapsed) >= 0.0
  {
    if elapsed >= DebtWait(tokens, perSecond) {
      RefillRepays(tokens, burst, perSecond, elapsed);
    } else {
      var due := -tokens / perSecond;
      assert due * perSecond == -tokens;
      MulStrict(elapsed, due, perSecond);
    }
  }

  // ----- What the budget gives -----

  /** A frame is accepted exactly if the limits are in force, the bursts hold it, and even empty buckets
      would need no longer pause for it than the cap. */
  lemma FitsExactly(l: Limits, frameBytes: nat, now: real)
    requires l.messagesPerSecond > 0.0 && l.bytesPerSecond > 0.0
    ensures Fits(l, frameBytes) <==>
            && l.messageBurst >= 1.0 && l.byteBurst >= frameBytes as real
            && Debt(l, Charged(l, Bucket(0.0, 0.0, now), frameBytes, now)) <= 10.0
  {
    DebtBounds(l, Bucket(-1.0, -(frameBytes as real), now));
    assert frameBytes == 0 ==> 0.0 / l.bytesPerSecond == 0.0;
  }

  /** The pause is what repays the debt, but never more than ten seconds. */
  lemma PauseExactly(l: Limits, b: Bucket)
    requires l.messagesPerSecond > 0.0 && l.bytesPerSecond > 0.0
    ensures 0.0 <= Wait(l, b) <= 10.0
    ensures Debt(l, b) <= 10.0 ==> Wait(l, b) == Debt(l, b)
    ensures Debt(l, b) > 10.0 ==> Wait(l, b) == 10.0
  {
    DebtBounds(l, b);
  }

  /** A socket that is idle long enough has its whole burst again. */
  lemma BurstReturns(l: Limits, b: Bucket, frameBytes: nat, now: real)
    requires now > b.lastRefill
    requires b.messageTokens + (now - b.lastRefill) * l.messagesPerSecond >= l.messageBurst
    requires b.byteTokens + (now - b.lastRefill) * l.bytesPerSecond >= l.byteBurst
    ensures Charged(l, b, frameBytes, now) == Bucket(l.messageBurst - 1.0, l.byteBurst - frameBytes as real, now)
  {
  }
}
