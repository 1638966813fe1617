/**
 Exponential backoff with a retry budget (retry/backoffhandler.go).

 Durations and instants are nanosecond counts. Durations are 64-bit signed integers in the source, so
 every shift and product below truncates to that width before anything is concluded about it; the zero
 instant stands for a deadline that is not set, as `time.Time.IsZero` reports.
 */
module Backoff {
  import opened Wrappers

  const DEFAULT_BASE_TIME := 1_000_000_000
  const ONE_SECOND := 1_000_000_000
  const ZERO_TIME := 0
  const TWO_TO_63 := 0x8000_0000_0000_0000
  const TWO_TO_64 := 0x1_0000_0000_0000_0000

  /** `x * 2^k`. */
  function Scale(x: int, k: nat): (r: int)
    ensures x > 0 ==> r > k && r >= x
  {
    if k == 0 then x else 2 * Scale(x, k - 1)
  }

  lemma {:induction false} ScaleMonotone(x: int, j: nat, k: nat)
    requires x > 0 && j <= k
    ensures Scale(x, j) <= Scale(x, k)
    decreases k
  {
    if j < k {
      ScaleMonotone(x, j, k - 1);
    }
  }

  lemma {:induction false} ScaleIsProduct(x: int, k: nat)
    ensures x * Scale(1, k) == Scale(x, k)
  {
    if k > 0 {
      ScaleIsProduct(x, k - 1);
      TwiceProduct(x, Scale(1, k - 1), Scale(1, k));
    }
  }

  lemma TwiceProduct(x: int, p: int, q: int)
    requires q == 2 * p
    ensures x * q == 2 * (x * p)
  {
  }

  lemma FactorAtMost(x: int, p: int)
    requires x >= 1 && p >= 0
    ensures p <= x * p
  {
  }

  lemma {:induction false} ScaleDouble(x: int, k: nat)
    ensures Scale(x * 2, k) == Scale(x, k + 1)
  {
    if k > 0 {
      ScaleDouble(x, k - 1);
    }
  }

  /** Truncation to a signed 64-bit integer. */
  function ToInt64(x: int): (r: int)
    ensures -TWO_TO_63 <= r < TWO_TO_63
    ensures r == x <==> -TWO_TO_63 <= x < TWO_TO_63
  {
    (x + TWO_TO_63) % TWO_TO_64 - TWO_TO_63
  }

  function ShiftLeft(x: int, count: nat): int {
    ToInt64(Scale(x, count))
  }

  /** The fields of a handler; `maxRetries` and `retries` are 64-bit unsigned in the source. */
  datatype Handler = Handler(
    maxRetries: nat,
    retryForever: bool,
    baseTime: int,
    retries: nat,
    resetDeadline: int)
  {
    predicate Expired(now: int) {
      resetDeadline != ZERO_TIME && now > resetDeadline
    }

    function BaseTime(): int {
      if baseTime == 0 then DEFAULT_BASE_TIME else baseTime
    }

    predicate Valid() {
      retries <= maxRetries
    }

    /** The budget is a 64-bit number. */
    predicate Bounded() {
      maxRetries < TWO_TO_64
    }

    /** The caller-checkable bound under which none of the three shifts can leave 64 bits. */
    predicate Fits() {
      BaseTime() > 0 && Scale(BaseTime(), maxRetries + 2) < TWO_TO_63
    }

    predicate ReachedMaxRetries() {
      retries == maxRetries
    }

    function SuccRetries(): nat {
      (retries + 1) % TWO_TO_64
    }

    /** The reported upper bound on the next wait, or `None` when no retry is allowed. */
    function GetMaxBackoffDuration(cancelled: bool, now: int): Option<int> {
      if cancelled then None
      else if Expired(now) then Some(ONE_SECOND)
      else if retries >= maxRetries && !retryForever then None
      else Some(ShiftLeft(ToInt64(BaseTime() * 1), SuccRetries()))
    }

    /** The handler after an expired grace period has been honoured. */
    function Refreshed(now: int): Handler {
      if Expired(now) then this.(retries := 0, resetDeadline := ZERO_TIME) else this
    }

    function CanRetry(): bool {
      retries < maxRetries || retryForever
    }

    function Consume(): Handler {
      if retries >= maxRetries then this else this.(retries := (retries + 1) % TWO_TO_64)
    }

    /** The handler after asking for a timer at `now`. */
    function AfterTimer(now: int): Handler {
      var h := Refreshed(now);
      if h.CanRetry() then h.Consume() else h
    }

    /** The exclusive bound handed to the random draw, or `None` when no timer is made. */
    function TimerBound(now: int): Option<int> {
      var h := Refreshed(now);
      if !h.CanRetry() then None
      else Some(ToInt64(BaseTime() * ShiftLeft(1, h.Consume().retries)))
    }

    function GraceBound(): int {
      ShiftLeft(ToInt64(BaseTime() * 2), SuccRetries())
    }

    function AfterGrace(now: int, wait: int): Handler {
      this.(resetDeadline := now + wait)
    }

    function AfterReset(now: int): Handler {
      this.(retries := 0, resetDeadline := now)
    }
  }

  function NewBackoff(maxRetries: nat, baseTime: int, retryForever: bool): Handler {
    Handler(maxRetries, retryForever, baseTime, 0, ZERO_TIME)
  }

  // ---------- Exactness of the shifts ----------

  /** A base that fits stays exact after scaling by any power up to the budget plus two. */
  lemma ScaleFits(h: Handler, k: nat)
    requires h.Fits() && k <= h.maxRetries + 2
    ensures 0 < Scale(h.BaseTime(), k) < TWO_TO_63
  {
    ScaleMonotone(h.BaseTime(), k, h.maxRetries + 2);
  }

  lemma UnitScaleFits(h: Handler, k: nat)
    requires h.Fits() && k <= h.maxRetries + 2
    ensures ShiftLeft(1, k) == Scale(1, k)
    ensures h.BaseTime() * ShiftLeft(1, k) == Scale(h.BaseTime(), k)
  {
    ScaleFits(h, k);
    ScaleIsProduct(h.BaseTime(), k);
    FactorAtMost(h.BaseTime(), Scale(1, k));
  }

  /** The count after a timer stays in the budget, so adding one never wraps. */
  lemma TimerKeepsBudget(h: Handler, now: int)
    requires h.Valid() && h.Fits()
    ensures var after := h.AfterTimer(now);
            && after.Valid() && after.maxRetries == h.maxRetries && after.baseTime == h.baseTime
            && (h.TimerBound(now).Some? ==>
                  h.TimerBound(now).value == ToInt64(h.BaseTime() * ShiftLeft(1, after.retries)))
  {
    ScaleFits(h, h.maxRetries + 2);
  }

  lemma TimerExact(h: Handler, now: int)
    requires h.Valid() && h.Fits() && h.TimerBound(now).Some?
    ensures h.TimerBound(now).value == Scale(h.BaseTime(), h.AfterTimer(now).retries) > 0
    ensures h.AfterTimer(now).Valid()
  {
    TimerKeepsBudget(h, now);
    var retries := h.AfterTimer(now).retries;
    ScaleFits(h, retries);
    UnitScaleFits(h, retries);
  }

  lemma ReportExact(h: Handler, now: int)
    requires h.Valid() && h.Fits() && !h.Expired(now) && h.GetMaxBackoffDuration(false, now).Some?
    ensures h.GetMaxBackoffDuration(false, now).value == Scale(h.BaseTime(), h.retries + 1)
  {
    ScaleFits(h, 0);
    ScaleFits(h, h.maxRetries + 2);
    ScaleFits(h, h.retries + 1);
  }

  lemma GraceExact(h: Handler)
    requires h.Valid() && h.Fits()
    ensures h.GraceBound() == Scale(h.BaseTime(), h.retries + 2) > 0
  {
    ScaleFits(h, 1);
    ScaleFits(h, h.maxRetries + 2);
    ScaleFits(h, h.retries + 2);
    ScaleDouble(h.BaseTime(), h.retries + 1);
  }

  /** The three shifts are the mathematical powers for every retry count the handler can hold. */
  lemma ShiftsExact(h: Handler, now: int)
    requires h.Valid() && h.Fits()
    ensures h.GetMaxBackoffDuration(false, now).Some? && !h.Expired(now) ==>
              h.GetMaxBackoffDuration(false, now).value == Scale(h.BaseTime(), h.retries + 1)
    ensures h.TimerBound(now).Some? ==>
              h.TimerBound(now).value == Scale(h.BaseTime(), h.AfterTimer(now).retries) > 0
    ensures h.GraceBound() == Scale(h.BaseTime(), h.retries + 2) > 0
    ensures h.AfterTimer(now).Valid()
  {
    if h.GetMaxBackoffDuration(false, now).Some? && !h.Expired(now) {
      ReportExact(h, now);
    }
    if h.TimerBound(now).Some? {
      TimerExact(h, now);
    }
    GraceExact(h);
  }

  /** The bound in `Fits` is tight: with a full budget the grace shift is exact only below it. */
  lemma FitsIsTight(h: Handler)
    requires h.BaseTime() > 0 && h.BaseTime() * 2 < TWO_TO_63
    requires h.ReachedMaxRetries() && h.maxRetries + 1 < TWO_TO_64
    ensures h.GraceBound() == Scale(h.BaseTime(), h.retries + 2) <==> h.Fits()
  {
    ScaleDouble(h.BaseTime(), h.retries + 1);
  }

  // ---------- Agreement of the report with the timer ----------

  /**
   The read-only report and the timer agree on whether a retry happens, except for a handler without a
   budget and without the forever flag whose grace period has run out: it reports a second and then
   refuses the timer.
   */
  lemma ReportAgreesWithTimer(h: Handler, now: int)
    ensures (h.GetMaxBackoffDuration(false, now).Some? <==> h.TimerBound(now).Some?)
       <==> !(h.Expired(now) && h.maxRetries == 0 && !h.retryForever)
  {
  }

  /** Outside the expired branch the report is the timer's bound, doubled once the budget is spent. */
  lemma ReportBoundsTimer(h: Handler, now: int)
    requires h.Valid() && h.Fits() && !h.Expired(now) && h.TimerBound(now).Some?
    ensures h.GetMaxBackoffDuration(false, now).Some?
    ensures var report, bound := h.GetMaxBackoffDuration(false, now).value, h.TimerBound(now).value;
            report == (if h.ReachedMaxRetries() then 2 * bound else bound)
  {
    ShiftsExact(h, now);
  }

  /**
   In the expired branch the report is a fixed second. It covers the timer's bound exactly when the base
   time is at most half a second, or a second for a handler without a budget: the default base of one
   second is reported too low.
   */
  lemma ExpiredReportCoversTimer(h: Handler, now: int)
    requires h.Valid() && h.Fits() && h.Expired(now) && h.TimerBound(now).Some?
    ensures h.GetMaxBackoffDuration(false, now) == Some(ONE_SECOND)
    ensures h.TimerBound(now).value <= ONE_SECOND
       <==> h.BaseTime() * (if h.maxRetries == 0 then 1 else 2) <= ONE_SECOND
  {
    ShiftsExact(h, now);
  }

  lemma DefaultBaseIsUnderreported()
    ensures exists h: Handler, now: int ::
              h.Valid() && h.Fits() && h.Expired(now) && h.TimerBound(now).Some?
              && h.GetMaxBackoffDuration(false, now).value < h.TimerBound(now).value
  {
    var h := Handler(5, true, 0, 3, 10);
    assert Scale(DEFAULT_BASE_TIME, 7) == 128 * DEFAULT_BASE_TIME by {
      assert Scale(DEFAULT_BASE_TIME, 3) == 8 * DEFAULT_BASE_TIME;
      assert Scale(DEFAULT_BASE_TIME, 5) == 32 * DEFAULT_BASE_TIME;
    }
    assert h.Expired(11) && h.TimerBound(11).Some?;
    ExpiredReportCoversTimer(h, 11);
    assert h.GetMaxBackoffDuration(false, 11).value < h.TimerBound(11).value;
  }

  // ---------- Runs ----------

  datatype Op =
    | AskTimer(now: int)
    | StartGrace(now: int, wait: int)
    | Reset(now: int)

  function Apply(h: Handler, op: Op): Handler {
    match op
    case AskTimer(now) => h.AfterTimer(now)
    case StartGrace(now, wait) => h.AfterGrace(now, wait)
    case Reset(now) => h.AfterReset(now)
  }

  function Run(h: Handler, ops: seq<Op>): Handler
    decreases |ops|
  {
    if ops == [] then h else Run(Apply(h, ops[0]), ops[1..])
  }

  lemma ApplyKeeps(h: Handler, op: Op)
    requires h.Valid() && h.Bounded()
    ensures var t := Apply(h, op);
            t.Valid() && t.maxRetries == h.maxRetries && t.retryForever == h.retryForever
            && t.baseTime == h.baseTime
  {
  }

  /** The budget is never exceeded, for any base time and budget, whether or not the shifts overflow. */
  lemma {:induction false} RunKeeps(h: Handler, ops: seq<Op>)
    requires h.Valid() && h.Bounded()
    ensures var last := Run(h, ops);
            last.Valid() && last.maxRetries == h.maxRetries && last.retryForever == h.retryForever
            && last.baseTime == h.baseTime
    decreases |ops|
  {
    if ops != [] {
      ApplyKeeps(h, ops[0]);
      RunKeeps(Apply(h, ops[0]), ops[1..]);
    }
  }

  lemma FitsIsBounded(h: Handler)
    requires h.Fits()
    ensures h.Bounded()
  {
    ScaleFits(h, h.maxRetries + 2);
  }

  /**
   Over any run from a fresh handler that fits: the budget is never exceeded, the parameters never
   change, and whatever is asked next stays inside 64 bits with a positive bound for the random draw.
   */
  lemma RunStaysInBudget(h: Handler, ops: seq<Op>, now: int)
    requires h.Valid() && h.Fits()
    ensures var last := Run(h, ops);
            && last.Valid() && last.Fits()
            && last.maxRetries == h.maxRetries && last.retryForever == h.retryForever
            && last.GraceBound() == Scale(last.BaseTime(), last.retries + 2) > 0
            && (last.TimerBound(now).Some? ==> last.TimerBound(now).value > 0)
  {
    FitsIsBounded(h);
    RunKeeps(h, ops);
    ShiftsExact(Run(h, ops), now);
  }

  // ---------- In terms of times and counts ----------

  /** The number of retries counted when a timer is asked for: none any more after the grace period. */
  function CountedAt(h: Handler, deadline: int, now: int): nat {
    if deadline != 0 && now > deadline then 0 else h.retries
  }

  /**
   A grace period of `wait` from `at` on: a timer asked for within it counts on from the retries so far, one
   asked for later begins again; and there is none exactly when the budget is spent, unless forever is set.
   */
  lemma TimerAfterGrace(h: Handler, at: int, wait: int, now: int)
    requires h.Valid() && h.Bounded()
    ensures var graced, used := h.AfterGrace(at, wait), CountedAt(h, at + wait, now);
            && graced.AfterTimer(now).retries == (if used < h.maxRetries then used + 1 else h.maxRetries)
            && (graced.TimerBound(now).None? <==> used == h.maxRetries && !h.retryForever)
            && graced.retries == h.retries
  {
  }

  /** After a reset the count begins again, and the report is the second of an expired grace period. */
  lemma TimerAfterReset(h: Handler, at: int, now: int)
    requires h.Valid() && h.Bounded()
    ensures var reset := h.AfterReset(at);
            && reset.retries == 0 && reset.AfterTimer(now).retries == (if h.maxRetries == 0 then 0 else 1)
            && (at != 0 && now > at ==> reset.GetMaxBackoffDuration(false, now) == Some(1_000_000_000))
  {
  }

  function Asks(nows: seq<int>): seq<Op> {
    seq(|nows|, i requires 0 <= i < |nows| => AskTimer(nows[i]))
  }

  function AtMost(n: nat, limit: nat): nat {
    if n < limit then n else limit
  }

  lemma {:induction false} AsksCount(h: Handler, nows: seq<int>)
    requires h.Valid() && h.Bounded() && h.resetDeadline == 0
    ensures Run(h, Asks(nows)) ==
              h.(retries := AtMost(h.retries + |nows|, h.maxRetries))
    decreases |nows|
  {
    if nows != [] {
      assert Asks(nows)[0] == AskTimer(nows[0]) && Asks(nows)[1..] == Asks(nows[1..]);
      AsksCount(h.AfterTimer(nows[0]), nows[1..]);
    }
  }

  lemma TimerOf(h: Handler, now: int)
    requires h.Valid() && h.Fits() && h.resetDeadline == 0
    ensures h.TimerBound(now).Some? <==> h.retryForever || h.retries < h.maxRetries
    ensures h.TimerBound(now).Some? ==>
              h.TimerBound(now).value ==
                Scale(h.BaseTime(), if h.retries < h.maxRetries then h.retries + 1 else h.maxRetries)
  {
    FitsIsBounded(h);
    if h.TimerBound(now).Some? {
      TimerExact(h, now);
    }
  }

  /** The timer of a handler that has counted so many retries. */
  lemma TimerAt(h: Handler, count: nat, now: int)
    requires h.Fits() && h.resetDeadline == 0 && count <= h.maxRetries
    ensures var counted := h.(retries := count);
            && (counted.TimerBound(now).Some? <==> h.retryForever || count < h.maxRetries)
            && (counted.TimerBound(now).Some? ==>
                  counted.TimerBound(now).value == Scale(h.BaseTime(), AtMost(count + 1, h.maxRetries)))
  {
    TimerOf(h.(retries := count), now);
  }

  lemma TimerAfterAsks(h: Handler, nows: seq<int>, now: int)
    requires h.Fits() && h.resetDeadline == 0 && h.retries == 0
    ensures var asked := Run(h, Asks(nows));
            && (asked.TimerBound(now).Some? <==> h.retryForever || |nows| < h.maxRetries)
            && (asked.TimerBound(now).Some? ==>
                  asked.TimerBound(now).value == Scale(h.BaseTime(), AtMost(|nows| + 1, h.maxRetries)))
  {
    FitsIsBounded(h);
    AsksCount(h, nows);
    TimerAt(h, AtMost(|nows|, h.maxRetries), now);
  }

  /**
   A new handler makes exactly as many timers as its budget has retries, or any number with the forever flag;
   each waits below twice the bound of the one before, until the budget is spent, the first below twice the
   base, which is a second unless another is given.
   */
  lemma NewHandlerCounts(maxRetries: nat, base: nat, retryForever: bool, nows: seq<int>, now: int)
    requires base > 0 && Scale(base, maxRetries + 2) < 0x8000_0000_0000_0000
    ensures forall given :: given == base || (given == 0 && base == 1_000_000_000) ==>
              var h := Run(NewBackoff(maxRetries, given, retryForever), Asks(nows));
              && (h.TimerBound(now).Some? <==> retryForever || |nows| < maxRetries)
              && (h.TimerBound(now).Some? ==>
                    h.TimerBound(now).value == Scale(base, AtMost(|nows| + 1, maxRetries)))
  {
    TimerAfterAsks(NewBackoff(maxRetries, base, retryForever), nows, now);
    if base == 1_000_000_000 {
      TimerAfterAsks(NewBackoff(maxRetries, 0, retryForever), nows, now);
    }
  }

  /** A handler that retries forever is refused only by cancellation. */
  lemma ForeverRetries(h: Handler, cancelled: bool, now: int)
    requires h.retryForever
    ensures h.GetMaxBackoffDuration(cancelled, now).Some? <==> !cancelled
    ensures h.TimerBound(now).Some?
  {
  }

  // ---------- The mutable handler ----------

  /** `rand.Int63n` panics on a bound that is not positive. */
  datatype TimerResult = NoTimer | Fires(wait: int) | Panic

  class BackoffHandler {
    const maxRetries: nat
    const retryForever: bool
    const baseTime: int
    var retries: nat
    var resetDeadline: int

    function State(): Handler
      reads this
    {
      Handler(maxRetries, retryForever, baseTime, retries, resetDeadline)
    }

    constructor (maxRetries: nat, baseTime: int, retryForever: bool)
      ensures State() == NewBackoff(maxRetries, baseTime, retryForever)
    {
      this.maxRetries, this.baseTime, this.retryForever := maxRetries, baseTime, retryForever;
      retries, resetDeadline := 0, ZERO_TIME;
    }

    /** `draw` is the generator's next raw number. */
    method BackoffTimer(now: int, draw: nat) returns (timer: TimerResult)
      modifies this
      ensures State() == old(State()).AfterTimer(now)
      ensures timer.NoTimer? <==> old(State()).TimerBound(now).None?
      ensures timer.Fires? ==> 0 <= timer.wait < old(State()).TimerBound(now).value
      ensures timer.Panic? <==> old(State()).TimerBound(now).Some? && old(State()).TimerBound(now).value <= 0
      ensures old(State()).Valid() && old(State()).Bounded() ==> State().Valid()
      ensures old(State()).Valid() && old(State()).Fits() ==> !timer.Panic?
    {
      ghost var before := State();
      if resetDeadline != ZERO_TIME && now > resetDeadline {
        retries := 0;
        resetDeadline := ZERO_TIME;
      }
      if retries >= maxRetries {
        if !retryForever {
          return NoTimer;
        }
      } else {
        retries := (retries + 1) % TWO_TO_64;
      }
      var maxTimeToWait := ToInt64(State().BaseTime() * ShiftLeft(1, retries));
      if before.Valid() && before.Fits() {
        ShiftsExact(before, now);
      }
      if before.Valid() && before.Bounded() {
        ApplyKeeps(before, AskTimer(now));
      }
      timer := if maxTimeToWait <= 0 then Panic else Fires(draw % maxTimeToWait);
    }

    method SetGracePeriod(now: int, draw: nat) returns (timer: TimerResult)
      modifies this
      ensures timer.Fires? ==>
                && 0 <= timer.wait < old(State()).GraceBound()
                && State() == old(State()).AfterGrace(now, timer.wait)
      ensures !timer.Fires? ==> State() == old(State())
      ensures timer.Fires? <==> old(State()).GraceBound() > 0
      ensures old(State()).Valid() && old(State()).Fits() ==> timer.Fires?
    {
      var maxTimeToWait := ShiftLeft(ToInt64(State().BaseTime() * 2), (retries + 1) % TWO_TO_64);
      if State().Valid() && State().Fits() {
        ShiftsExact(State(), now);
      }
      if maxTimeToWait <= 0 {
        return Panic;
      }
      timer := Fires(draw % maxTimeToWait);
      resetDeadline := now + timer.wait;
    }

    method ResetNow(now: int)
      modifies this
      ensures State() == old(State()).AfterReset(now)
    {
      resetDeadline := now;
      retries := 0;
    }
  }
}
