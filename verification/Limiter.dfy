/**
 The token bucket of ratelimit/ratelimit.go. Tenths of a token are carried in an
 integer remainder, so refill is exact at every rate. The refill loop, waiting
 callers, SetRate and Stop interleave at their critical sections.
 */
module Limiter {
  import opened ByteSeqs

  /** The fields guarded by the mutex, and the atomically stored rate. */
  datatype Bucket = Bucket(rate: int, tokens: int, frac: int, max: int, ticking: bool, stopped: bool)

  /** NewLimiter: a non-positive rate gives a bare limiter without a refill loop. */
  function New(rate: int): Bucket {
    if rate <= 0 then Bucket(0, 0, 0, 0, false, false) else Bucket(rate, rate, 0, rate * 2, true, false)
  }

  /** One tick of the refill loop, with the rate it loaded before taking the lock. */
  function Refill(b: Bucket, rate: int): Bucket
    requires rate > 0
  {
    var frac := b.frac + rate % 10;
    var tokens := Unclamped(b, rate);
    b.(tokens := if tokens > b.max then b.max else tokens, frac := if frac >= 10 then frac % 10 else frac)
  }

  /** The token count of a tick before the rim is applied. */
  function Unclamped(b: Bucket, rate: int): int {
    var frac := b.frac + rate % 10;
    b.tokens + rate / 10 + (if frac >= 10 then frac / 10 else 0)
  }

  /** The tokens above a bucket's rim. */
  function Excess(tokens: int, max: int): int {
    if tokens > max then tokens - max else 0
  }

  /** What a waiter that still needs `n` tokens takes in one critical section. */
  function Grant(b: Bucket, n: int): int {
    if b.tokens <= 0 then 0 else if b.tokens > n then n else b.tokens
  }

  function WithRate(b: Bucket, rate: int): Bucket {
    if b.stopped then b
    else if rate <= 0 then b.(rate := rate)
    else if !b.ticking then b.(rate := rate, max := rate * 2, tokens := rate, ticking := true)
    else b.(rate := rate, max := rate * 2, tokens := if b.tokens > rate * 2 then rate * 2 else b.tokens)
  }

  class RateLimiter {
    var bytesPerSecond: int
    var bucket: int
    var fracAccum: int
    var maxBucket: int
    var ticking: bool
    var stopped: bool

    ghost function Value(): Bucket
      reads this
    {
      Bucket(bytesPerSecond, bucket, fracAccum, maxBucket, ticking, stopped)
    }

    constructor (rate: int)
      ensures Value() == New(rate)
    {
      bytesPerSecond, bucket, fracAccum, maxBucket := 0, 0, 0, 0;
      ticking, stopped := false, false;
      if rate > 0 {
        bytesPerSecond, bucket, maxBucket, ticking := rate, rate, rate * 2, true;
      }
    }

    method Tick(rate: int)
      requires rate > 0
      modifies this
      ensures Value() == Refill(old(Value()), rate)
    {
      bucket := bucket + rate / 10;
      fracAccum := fracAccum + rate % 10;
      if fracAccum >= 10 {
        bucket := bucket + fracAccum / 10;
        fracAccum := fracAccum % 10;
      }
      if bucket > maxBucket {
        bucket := maxBucket;
      }
    }

    method Take(n: int) returns (available: int)
      requires n > 0
      modifies this
      ensures available == Grant(old(Value()), n)
      ensures 0 <= available <= n && (old(bucket) <= 0 ==> available == 0)
      ensures old(bucket) > 0 ==> available <= old(bucket) && (available == n || available == old(bucket))
      ensures bucket == old(bucket) - available
      ensures Value() == old(Value()).(tokens := old(Value()).tokens - available)
    {
      available := bucket;
      if available > 0 {
        if available > n {
          available := n;
        }
        bucket := bucket - available;
      } else {
        available := 0;
      }
    }

    method SetRate(rate: int)
      modifies this
      ensures Value() == WithRate(old(Value()), rate)
    {
      if stopped { return; }
      bytesPerSecond := rate;
      if rate > 0 {
        maxBucket := rate * 2;
        if bucket > maxBucket {
          bucket := maxBucket;
        }
        if !ticking {
          bucket := rate;
          ticking := true;
        }
      }
    }

    method Stop()
      modifies this
      ensures Value() == old(Value()).(stopped := true)
    {
      stopped := true;
    }
  }

  // ----- Interleavings -----------------------------------------------------

  /** A WaitN call: how much it asked for and still needs, and where it is in its loop. */
  datatype Waiter = Waiter(asked: int, left: int, phase: Phase)

  datatype Phase = Polling | Limited | Served | Released | Cancelled

  /**
   `loaded` is a rate the refill loop has read but not applied yet, `exited` whether
   it has seen the stop channel closed. The three numbers are history: tokens put in by filling a bucket, the sum of the
   rates of all applied ticks, and tokens dropped at the bucket's rim.
   */
  datatype State = State(b: Bucket, waiters: seq<Waiter>, loaded: Option<int>, exited: bool,
                         filled: int, ticked: int, lost: int)

  datatype Action =
    | LoadRate
    | ApplyTick
    | ExitLoop
    | StartWait(n: int)
    | CheckRate(w: nat)
    | TakeTokens(w: nat)
    | Cancel(w: nat)
    | SetRate(rate: int)
    | Stop

  function Start(rate: int): State {
    State(New(rate), [], None, false, New(rate).tokens, 0, 0)
  }

  predicate Enabled(s: State, a: Action) {
    match a
    case LoadRate => s.b.ticking && !s.exited && s.loaded.None? && s.b.rate > 0
    case ApplyTick => s.loaded.Some? && s.loaded.value > 0
    case ExitLoop => s.b.ticking && s.b.stopped && !s.exited && s.loaded.None?
    case StartWait(n) => n > 0
    case CheckRate(w) => w < |s.waiters| && s.waiters[w].phase.Polling?
    case TakeTokens(w) => w < |s.waiters| && s.waiters[w].phase.Limited?
    case Cancel(w) => w < |s.waiters| && (s.waiters[w].phase.Polling? || s.waiters[w].phase.Limited?)
    case SetRate(_) => true
    case Stop => true
  }

  function Do(s: State, a: Action): State
    requires Enabled(s, a)
  {
    match a
    case LoadRate => s.(loaded := Some(s.b.rate))
    case ApplyTick =>
      var r := s.loaded.value;
      s.(b := Refill(s.b, r), loaded := None, ticked := s.ticked + r,
         lost := s.lost + Excess(Unclamped(s.b, r), s.b.max))
    case ExitLoop => s.(exited := true)
    case StartWait(n) => s.(waiters := s.waiters + [Waiter(n, n, Polling)])
    case CheckRate(w) =>
      var x := s.waiters[w];
      s.(waiters := s.waiters[w := x.(phase := if s.b.rate <= 0 then Released else Limited)])
    case TakeTokens(w) =>
      var x := s.waiters[w];
      var got := Grant(s.b, x.left);
      var x' := x.(left := x.left - got, phase := if x.left == got then Served else Polling);
      s.(b := s.b.(tokens := s.b.tokens - got), waiters := s.waiters[w := x'])
    case Cancel(w) => s.(waiters := s.waiters[w := s.waiters[w].(phase := Cancelled)])
    case SetRate(rate) =>
      var effective := !s.b.stopped && rate > 0;
      s.(b := WithRate(s.b, rate),
         filled := s.filled + (if effective && !s.b.ticking then rate else 0),
         lost := s.lost + (if effective && s.b.ticking then Excess(s.b.tokens, rate * 2) else 0))
    case Stop => s.(b := s.b.(stopped := true))
  }

  /** The tokens taken out of the bucket so far, over all waiters. */
  function Granted(waiters: seq<Waiter>): int {
    if waiters == [] then 0 else waiters[0].asked - waiters[0].left + Granted(waiters[1..])
  }

  lemma {:induction false} GrantedUpdate(waiters: seq<Waiter>, w: nat, x: Waiter)
    requires w < |waiters|
    ensures Granted(waiters[w := x])
         == Granted(waiters) - (waiters[w].asked - waiters[w].left) + (x.asked - x.left)
  {
    if w == 0 {
      assert waiters[w := x][1..] == waiters[1..];
    } else {
      GrantedUpdate(waiters[1..], w - 1, x);
      assert waiters[w := x][1..] == waiters[1..][w - 1 := x];
    }
  }

  lemma {:induction false} GrantedAppend(waiters: seq<Waiter>, x: Waiter)
    ensures Granted(waiters + [x]) == Granted(waiters) + (x.asked - x.left)
  {
    if waiters == [] {
      assert waiters + [x] == [x];
      assert Granted([x]) == x.asked - x.left + Granted([x][1..]);
    } else {
      assert (waiters + [x])[1..] == waiters[1..] + [x];
      GrantedAppend(waiters[1..], x);
    }
  }

  /** Waiting callers still need tokens, served ones do not. */
  predicate PhaseOK(w: Waiter) {
    (w.phase.Polling? || w.phase.Limited? ==> w.left > 0) && (w.phase.Served? ==> w.left == 0)
  }

  ghost predicate Inv(s: State) {
    && 0 <= s.b.tokens <= s.b.max && 0 <= s.b.frac <= 9 && s.lost >= 0
    && (s.b.rate > 0 ==> s.b.max == 2 * s.b.rate && s.b.ticking)
    && (!s.b.ticking ==> s.b.tokens == 0 && s.b.max == 0 && s.b.frac == 0)
    && (s.loaded.Some? ==> s.loaded.value > 0 && s.b.ticking && !s.exited)
    && (s.exited ==> s.b.stopped && s.b.ticking)
    && (forall i :: 0 <= i < |s.waiters| ==> 0 <= s.waiters[i].left <= s.waiters[i].asked)
    && (forall i :: 0 <= i < |s.waiters| ==> PhaseOK(s.waiters[i]))
  }

  /** Tenths of tokens are conserved: granted, in the bucket, in the remainder, or dropped at the rim. */
  ghost predicate Conserved(s: State) {
    10 * Granted(s.waiters) + 10 * s.b.tokens + s.b.frac + 10 * s.lost == 10 * s.filled + s.ticked
  }

  lemma RefillExact(b: Bucket, rate: int)
    requires rate > 0 && 0 <= b.tokens <= b.max && 0 <= b.frac <= 9
    ensures var b' := Refill(b, rate);
      && 0 <= b'.tokens <= b'.max && 0 <= b'.frac <= 9 && b' == b.(tokens := b'.tokens, frac := b'.frac)
      && 10 * b'.tokens + b'.frac + 10 * Excess(Unclamped(b, rate), b.max) == 10 * b.tokens + b.frac + rate
  {
    assert rate == 10 * (rate / 10) + rate % 10;
    var frac := b.frac + rate % 10;
    assert frac == 10 * (frac / 10) + frac % 10;
  }

  /** Steps of the refill loop, SetRate and Stop. */
  lemma BucketStepKeeps(s: State, a: Action)
    requires Inv(s) && Conserved(s) && Enabled(s, a)
    requires a.LoadRate? || a.ApplyTick? || a.ExitLoop? || a.SetRate? || a.Stop?
    ensures Inv(Do(s, a)) && Conserved(Do(s, a))
  {
    hide Refill, Unclamped, Granted;
    if a.ApplyTick? { RefillExact(s.b, s.loaded.value); }
  }

  /** Replacing one waiter keeps the balance if the tokens it took left the bucket. */
  lemma WaiterStepKeeps(s: State, w: nat, x: Waiter, b: Bucket)
    requires Inv(s) && Conserved(s) && w < |s.waiters|
    requires x.asked == s.waiters[w].asked && 0 <= x.left <= s.waiters[w].left
    requires (x.phase.Polling? || x.phase.Limited? ==> x.left > 0) && (x.phase.Served? ==> x.left == 0)
    requires b == s.b.(tokens := s.b.tokens - (s.waiters[w].left - x.left)) && b.tokens >= 0
    ensures Inv(s.(b := b, waiters := s.waiters[w := x])) && Conserved(s.(b := b, waiters := s.waiters[w := x]))
  {
    hide Granted;
    GrantedUpdate(s.waiters, w, x);
  }

  lemma StepKeeps(s: State, a: Action)
    requires Inv(s) && Conserved(s) && Enabled(s, a)
    ensures Inv(Do(s, a)) && Conserved(Do(s, a))
  {
    hide Conserved, Refill;
    var s' := Do(s, a);
    match a
    case StartWait(n) => StartKeeps(s, n);
    case CheckRate(w) => WaiterStepKeeps(s, w, s'.waiters[w], s.b);
    case TakeTokens(w) => WaiterStepKeeps(s, w, s'.waiters[w], s'.b);
    case Cancel(w) => CancelKeeps(s, w);
    case _ => BucketStepKeeps(s, a);
  }

  lemma StartKeeps(s: State, n: int)
    requires Inv(s) && Conserved(s) && n > 0
    ensures Inv(Do(s, StartWait(n))) && Conserved(Do(s, StartWait(n)))
  {
    hide Granted;
    GrantedAppend(s.waiters, Waiter(n, n, Polling));
  }

  lemma CancelKeeps(s: State, w: nat)
    requires Inv(s) && Conserved(s) && Enabled(s, Cancel(w))
    ensures Inv(Do(s, Cancel(w))) && Conserved(Do(s, Cancel(w)))
  {
    hide Granted;
    GrantedUpdate(s.waiters, w, s.waiters[w].(phase := Cancelled));
  }

  ghost predicate Reaches(s: State, actions: seq<Action>, t: State)
    decreases |actions|
  {
    if actions == [] then s == t
    else Enabled(s, actions[0]) && Reaches(Do(s, actions[0]), actions[1..], t)
  }

  /**
   Over every interleaving from a new limiter: the bucket stays within its
   bounds, the remainder is a digit, and every tenth of a token is accounted for.
   */
  lemma {:induction false} RunConserves(s: State, actions: seq<Action>, t: State)
    requires Inv(s) && Conserved(s) && Reaches(s, actions, t)
    ensures Inv(t) && Conserved(t)
    ensures t.lost >= s.lost && t.filled >= s.filled && t.ticked >= s.ticked
    decreases |actions|
  {
    if actions != [] {
      StepKeeps(s, actions[0]);
      StepMonotone(s, actions[0]);
      RunConserves(Do(s, actions[0]), actions[1..], t);
    }
  }

  lemma StepMonotone(s: State, a: Action)
    requires Inv(s) && Enabled(s, a)
    ensures var s' := Do(s, a); s'.lost >= s.lost && s'.filled >= s.filled && s'.ticked >= s.ticked
  {
    if a.ApplyTick? { RefillExact(s.b, s.loaded.value); }
  }

  lemma NewLimiterConserves(rate: int)
    ensures Inv(Start(rate)) && Conserved(Start(rate))
  {
  }

  /** No more is ever granted than was filled in and ticked in; with nothing dropped the balance is exact. */
  lemma {:induction false} GrantsBounded(rate: int, actions: seq<Action>, t: State)
    requires Reaches(Start(rate), actions, t)
    ensures 10 * Granted(t.waiters) + 10 * t.b.tokens + t.b.frac <= 10 * t.filled + t.ticked
    ensures t.lost == 0 ==> 10 * Granted(t.waiters) + 10 * t.b.tokens + t.b.frac == 10 * t.filled + t.ticked
    ensures 0 <= t.b.tokens <= t.b.max && 0 <= t.b.frac <= 9
  {
    NewLimiterConserves(rate);
    RunConserves(Start(rate), actions, t);
  }

  /** A served caller took exactly what it asked for; one released by a zero rate or cancelled took no more. */
  lemma {:induction false} WaiterAccounting(rate: int, actions: seq<Action>, t: State, w: nat)
    requires Reaches(Start(rate), actions, t) && w < |t.waiters|
    ensures 0 <= t.waiters[w].left <= t.waiters[w].asked
    ensures t.waiters[w].phase.Served? ==> t.waiters[w].left == 0
  {
    NewLimiterConserves(rate);
    RunConserves(Start(rate), actions, t);
  }

  // ----- Waiters are served ------------------------------------------------

  /** One poll: a rate that is not positive releases the caller, otherwise it goes on to the bucket. */
  lemma PollReleasesIff(s: State, w: nat)
    requires Enabled(s, CheckRate(w))
    ensures var x := Do(s, CheckRate(w)).waiters[w];
      && (x.phase.Released? <==> s.b.rate <= 0) && (x.phase.Limited? <==> s.b.rate > 0)
      && x.left == s.waiters[w].left && Do(s, CheckRate(w)).b == s.b
  {
  }

  /**
   In any state of any run: a caller at the bucket is served exactly if it needs no
   more than the bucket holds; otherwise it empties the bucket.
   */
  lemma TakeServesIff(s: State, w: nat)
    requires Inv(s) && Enabled(s, TakeTokens(w))
    ensures var s', need := Do(s, TakeTokens(w)), s.waiters[w].left;
      && (s'.waiters[w].phase.Served? <==> need <= s.b.tokens)
      && s'.b.tokens == (if need <= s.b.tokens then s.b.tokens - need else 0)
      && s'.waiters[w].left == (if need <= s.b.tokens then 0 else need - s.b.tokens)
      && (!s'.waiters[w].phase.Served? ==> s'.waiters[w].phase.Polling?)
  {
    assert PhaseOK(s.waiters[w]);
  }

  /** A rate change works unless the limiter is stopped: its rate counts from the next poll on. */
  lemma SetRateWorks(s: State, rate: int, w: nat)
    requires Enabled(s, CheckRate(w))
    ensures var x := Do(Do(s, SetRate(rate)), CheckRate(w)).waiters[w];
      x.phase.Released? <==> (if s.b.stopped then s.b.rate else rate) <= 0
  {
  }

  /** Once stopped, over every run: no rate change works and no bucket is filled any more. */
  lemma {:induction false} StopIsFinal(s: State, actions: seq<Action>, t: State)
    requires Reaches(Do(s, Stop), actions, t)
    ensures t.b.stopped && t.b.rate == s.b.rate && t.b.max == s.b.max && t.b.ticking == s.b.ticking &&
      t.filled == s.filled
  {
    StoppedStays(Do(s, Stop), actions, t);
  }

  lemma {:induction false} StoppedStays(s: State, actions: seq<Action>, t: State)
    requires s.b.stopped && Reaches(s, actions, t)
    ensures t.b.stopped && t.b.rate == s.b.rate && t.b.max == s.b.max && t.b.ticking == s.b.ticking &&
      t.filled == s.filled
    decreases |actions|
  {
    if actions != [] { StoppedStays(Do(s, actions[0]), actions[1..], t); }
  }

  /** A new limiter starts with a second's worth of tokens: a request up to the rate is served at its first poll. */
  lemma FreshLimiterServes(rate: int, n: int)
    requires 0 < n <= rate
    ensures exists t ::
      && Reaches(Start(rate), [StartWait(n), CheckRate(0), TakeTokens(0)], t)
      && |t.waiters| == 1 && t.waiters[0].phase.Served? && t.b.tokens == rate - n
  {
    var s := Start(rate);
    var s1 := Do(s, StartWait(n));
    var s2 := Do(s1, CheckRate(0));
    var t := Do(s2, TakeTokens(0));
    assert Reaches(t, [], t);
    assert Reaches(s2, [TakeTokens(0)], t);
    assert [CheckRate(0), TakeTokens(0)][1..] == [TakeTokens(0)];
    assert Reaches(s1, [CheckRate(0), TakeTokens(0)], t);
    assert [StartWait(n), CheckRate(0), TakeTokens(0)][1..] == [CheckRate(0), TakeTokens(0)];
  }

  /** A tick of the refill loop and a poll of one caller. */
  function Round(w: nat): seq<Action> {
    [LoadRate, ApplyTick, CheckRate(w), TakeTokens(w)]
  }

  function Rounds(w: nat, k: nat): seq<Action> {
    if k == 0 then [] else Round(w) + Rounds(w, k - 1)
  }

  /** The refill loop runs at a positive rate and this caller waits. */
  predicate WaitsAlone(s: State, w: nat) {
    && s.b.rate > 0 && s.b.ticking && !s.exited && s.loaded.None?
    && w < |s.waiters| && s.waiters[w].phase.Polling?
  }

  /** What a waiting caller still needs, in tenths, counting the carried digit in its favour. */
  function Distance(s: State, w: nat): int
    requires w < |s.waiters|
  {
    10 * s.waiters[w].left - s.b.frac
  }

  /** One round serves the caller or brings it nearer by the rate. */
  lemma RoundProgress(s: State, w: nat)
    returns (t: State)
    requires Inv(s) && WaitsAlone(s, w)
    ensures Reaches(s, Round(w), t) && Inv(t) && w < |t.waiters| && t.b.rate == s.b.rate
    ensures t.waiters[w].phase.Served? || (WaitsAlone(t, w) && Distance(t, w) <= Distance(s, w) - s.b.rate)
  {
    hide Refill, Unclamped;
    RefillExact(s.b, s.b.rate);
    RefillCapped(s.b, s.b.rate);
    var s1 := Do(s, LoadRate);
    var s2 := Do(s1, ApplyTick);
    var s3 := Do(s2, CheckRate(w));
    t := Do(s3, TakeTokens(w));
    assert PhaseOK(s.waiters[w]);
    InvKept(s, LoadRate);
    InvKept(s1, ApplyTick);
    InvKept(s2, CheckRate(w));
    InvKept(s3, TakeTokens(w));
    TakeServesIff(s3, w);
    FourSteps(s, s1, s2, s3, t, w);
  }

  /** A tick adds its tenth of the rate unless it fills the bucket to the rim. */
  lemma RefillCapped(b: Bucket, rate: int)
    requires rate > 0 && 0 <= b.tokens <= b.max && 0 <= b.frac <= 9
    ensures Excess(Unclamped(b, rate), b.max) > 0 ==> Refill(b, rate).tokens == b.max
  {
  }

  lemma InvKept(s: State, a: Action)
    requires Inv(s) && Enabled(s, a)
    ensures Inv(Do(s, a))
  {
    hide Refill;
    if a.ApplyTick? { RefillExact(s.b, s.loaded.value); }
  }

  lemma FourSteps(s: State, s1: State, s2: State, s3: State, t: State, w: nat)
    requires Enabled(s, LoadRate) && s1 == Do(s, LoadRate) && Enabled(s1, ApplyTick) && s2 == Do(s1, ApplyTick)
    requires Enabled(s2, CheckRate(w)) && s3 == Do(s2, CheckRate(w))
    requires Enabled(s3, TakeTokens(w)) && t == Do(s3, TakeTokens(w))
    ensures Reaches(s, Round(w), t)
  {
    hide Enabled, Do;
    assert Reaches(t, [], t);
    assert [TakeTokens(w)][1..] == [];
    assert Reaches(s3, [TakeTokens(w)], t);
    assert [CheckRate(w), TakeTokens(w)][1..] == [TakeTokens(w)];
    assert Reaches(s2, [CheckRate(w), TakeTokens(w)], t);
    assert [ApplyTick, CheckRate(w), TakeTokens(w)][1..] == [CheckRate(w), TakeTokens(w)];
    assert Reaches(s1, [ApplyTick, CheckRate(w), TakeTokens(w)], t);
    assert Round(w)[1..] == [ApplyTick, CheckRate(w), TakeTokens(w)];
  }

  lemma {:induction false} ReachesTrans(s: State, first: seq<Action>, mid: State, rest: seq<Action>, t: State)
    requires Reaches(s, first, mid) && Reaches(mid, rest, t)
    ensures Reaches(s, first + rest, t)
    decreases |first|
  {
    hide Enabled, Do;
    if first == [] {
      assert first + rest == rest;
    } else {
      ReachesTrans(Do(s, first[0]), first[1..], mid, rest, t);
      assert (first + rest)[1..] == first[1..] + rest;
    }
  }

  lemma {:induction false} ServedWithin(s: State, w: nat, rounds: nat)
    returns (k: nat, t: State)
    requires Inv(s) && WaitsAlone(s, w) && rounds * s.b.rate >= Distance(s, w)
    ensures k <= rounds && Reaches(s, Rounds(w, k), t) && w < |t.waiters| && t.waiters[w].phase.Served?
    decreases rounds
  {
    hide Inv, WaitsAlone, Reaches;
    assert Distance(s, w) > 0 by { StillFar(s, w); }
    var mid := RoundProgress(s, w);
    if mid.waiters[w].phase.Served? {
      k, t := 1, mid;
      assert Rounds(w, 1) == Round(w) + Rounds(w, 0) == Round(w);
    } else {
      assert (rounds - 1) * s.b.rate == rounds * s.b.rate - s.b.rate;
      k, t := ServedWithin(mid, w, rounds - 1);
      ReachesTrans(s, Round(w), mid, Rounds(w, k), t);
      k := k + 1;
    }
  }

  lemma StillFar(s: State, w: nat)
    requires Inv(s) && WaitsAlone(s, w)
    ensures w < |s.waiters| && Distance(s, w) > 0
  {
    assert PhaseOK(s.waiters[w]);
  }

  /**
   After any run: a waiting caller that polls once after each tick, with no other
   caller in between and the rate staying as it is, is served within k ticks, for any
   k with k times the rate at least ten times what it needs.
   */
  lemma {:induction false} LoneWaiterServed(rate: int, before: seq<Action>, s: State, w: nat, ticks: nat)
    requires Reaches(Start(rate), before, s) && WaitsAlone(s, w) && ticks * s.b.rate >= 10 * s.waiters[w].left
    ensures exists k: nat, t ::
      k <= ticks && Reaches(s, Rounds(w, k), t) && w < |t.waiters| && t.waiters[w].phase.Served?
  {
    hide Reaches;
    NewLimiterConserves(rate);
    RunConserves(Start(rate), before, s);
    var k, t := ServedWithin(s, w, ticks);
  }

  // ----- Windows -----------------------------------------------------------

  /** The window: no rate change, and every applied tick carries rate `r`. */
  ghost predicate ConstantRate(s: State, actions: seq<Action>, r: int)
    decreases |actions|
  {
    actions != [] ==>
      && Enabled(s, actions[0]) && !actions[0].SetRate?
      && (actions[0].ApplyTick? ==> s.loaded == Some(r))
      && ConstantRate(Do(s, actions[0]), actions[1..], r)
  }

  function Ticks(actions: seq<Action>): nat {
    if actions == [] then 0 else (if actions[0].ApplyTick? then 1 else 0) + Ticks(actions[1..])
  }

  lemma {:induction false} WindowTicks(s: State, actions: seq<Action>, t: State, r: int)
    requires Reaches(s, actions, t) && ConstantRate(s, actions, r)
    ensures t.filled == s.filled && t.ticked == s.ticked + Ticks(actions) * r
    decreases |actions|
  {
    if actions != [] {
      WindowTicks(Do(s, actions[0]), actions[1..], t, r);
      assert (1 + Ticks(actions[1..])) * r == r + Ticks(actions[1..]) * r;
    }
  }

  /** Any window of k ticks at a constant rate r grants at most 2r + (k*r + 9)/10 tokens. */
  lemma {:induction false} WindowBound(rate: int, before: seq<Action>, s: State, window: seq<Action>, t: State, r: int)
    requires Reaches(Start(rate), before, s) && Reaches(s, window, t)
    requires s.b.rate == r > 0 && ConstantRate(s, window, r)
    ensures Granted(t.waiters) - Granted(s.waiters) <= 2 * r + (Ticks(window) * r + 9) / 10
  {
    NewLimiterConserves(rate);
    RunConserves(Start(rate), before, s);
    RunConserves(s, window, t);
    WindowTicks(s, window, t, r);
    var k := Ticks(window) * r;
    var got := Granted(t.waiters) - Granted(s.waiters);
    assert 10 * got <= 20 * r + 9 + k;
  }

  /**
   Once the limiter is stopped and its refill loop has ended, nothing is ever put into
   the bucket again: what waiters still get was in it, and SetRate changes nothing.
   */
  lemma {:induction false} StoppedForGood(s: State, actions: seq<Action>, t: State)
    requires Inv(s) && Conserved(s) && s.exited && Reaches(s, actions, t)
    ensures t.exited && t.b == s.b.(tokens := t.b.tokens) && t.filled == s.filled && t.ticked == s.ticked &&
        t.lost == s.lost
    ensures Granted(t.waiters) - Granted(s.waiters) == s.b.tokens - t.b.tokens
    decreases |actions|
  {
    hide Granted;
    if actions != [] {
      StepKeeps(s, actions[0]);
      StoppedForGood(Do(s, actions[0]), actions[1..], t);
      RunConserves(s, actions, t);
    }
  }
}
