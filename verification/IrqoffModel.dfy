/**
 The interrupts-off sampler on values. On every CPU a hardware timer and a software timer
 handler measure how late they run; the hardware handler also notices when the software one
 has not run for too long, and leaves a preliminary stack, marked with a plus.
 */
module IrqoffModel {
  import opened Bits
  import opened StackArena

  const NSEC_PER_MSEC := 1_000_000
  const MAX_LATENCY_RECORD := 10
  const MAX_TRACE_ENTRIES := 128
  const MAX_STACK_TRACES := 8

  const ARENA_LIMITS := Limits(MAX_STACK_TRACES, MAX_TRACE_ENTRIES, 1)

  // The two settings and the writes that change them.

  datatype Settings = Settings(period: u64, latency: u64, enabled: bool)

  const DEFAULTS := Settings(10_000_000, 50_000_000, false)

  datatype Outcome = Accepted(s: Settings) | Cleared | Refused

  function Mul64(a: u64, b: nat): u64 {
    (a * b) % TWO64
  }

  function Throttle(s: Settings): u64 {
    Mul64(s.period, 2)
  }

  function WriteLatency(s: Settings, ms: u64): Outcome {
    if ms == 0 then Cleared
    else if ms < Throttle(s) / NSEC_PER_MSEC then Refused
    else Accepted(s.(latency := Mul64(ms, NSEC_PER_MSEC)))
  }

  function WritePeriod(s: Settings, ms: u64): Outcome {
    if s.enabled then Refused
    else
      var period := Mul64(ms, NSEC_PER_MSEC);
      Accepted(s.(period := period,
                  latency := if period > s.latency / 2 then Mul64(period, 2) else s.latency))
  }

  /** Whole milliseconds, and no stack threshold below the sampling resolution. */
  predicate WellSet(s: Settings) {
    s.period % NSEC_PER_MSEC == 0 && s.latency % NSEC_PER_MSEC == 0 && 2 * s.period <= s.latency
  }

  /** A period write keeps the settings sound if and only if its value, in nanoseconds, fits twice. */
  lemma WritePeriodIff(s: Settings, ms: u64)
    requires WellSet(s) && !s.enabled
    ensures
      var period := Mul64(ms, NSEC_PER_MSEC);
      WellSet(WritePeriod(s, ms).s) <==> period % NSEC_PER_MSEC == 0 && 2 * period < TWO64
  {
    DoubleMultiple(Mul64(ms, NSEC_PER_MSEC));
  }

  lemma DoubleMultiple(x: nat)
    ensures x % NSEC_PER_MSEC == 0 ==> (2 * x) % NSEC_PER_MSEC == 0
  {
  }

  /**
   An accepted latency write keeps the settings sound if and only if its value in nanoseconds,
   after wrap-around, is whole milliseconds and not below twice the period.
   */
  lemma WriteLatencyIff(s: Settings, ms: u64)
    requires WellSet(s) && WriteLatency(s, ms).Accepted?
    ensures
      var latency := Mul64(ms, NSEC_PER_MSEC);
      WellSet(WriteLatency(s, ms).s) <==> latency % NSEC_PER_MSEC == 0 && 2 * s.period <= latency
  {
  }

  /** It does so if it does not wrap around at all. */
  lemma WriteLatencyKeeps(s: Settings, ms: u64)
    requires WellSet(s) && WriteLatency(s, ms).Accepted? && ms * NSEC_PER_MSEC < TWO64
    ensures WellSet(WriteLatency(s, ms).s)
  {
    ThrottleIsDouble(s);
    hide Throttle;
    MillisecondFloor(2 * s.period, ms);
  }

  lemma ThrottleIsDouble(s: Settings)
    requires WellSet(s)
    ensures Throttle(s) == 2 * s.period && (2 * s.period) % NSEC_PER_MSEC == 0
  {
    DoubleMultiple(s.period);
  }

  lemma MillisecondFloor(x: nat, ms: nat)
    requires x % NSEC_PER_MSEC == 0 && x / NSEC_PER_MSEC <= ms
    ensures x <= ms * NSEC_PER_MSEC && (ms * NSEC_PER_MSEC) % NSEC_PER_MSEC == 0
  {
  }

  lemma WritePeriodKeeps(s: Settings, ms: u64)
    requires WellSet(s) && !s.enabled && 2 * (ms * NSEC_PER_MSEC) < TWO64
    ensures WellSet(WritePeriod(s, ms).s)
  {
    MillisecondFloor(ms * NSEC_PER_MSEC, ms);
    WritePeriodIff(s, ms);
  }

  /**
   What becomes of a threshold of `ms` milliseconds when the period is `p` milliseconds: zero
   asks for a clear, less than twice the period is refused, and from twice the period on the
   threshold is set to that many milliseconds.
   */
  lemma WriteLatencyCases(s: Settings, ms: u64, p: nat)
    requires s.period == p * NSEC_PER_MSEC && 2 * s.period < TWO64
    ensures WriteLatency(s, ms).Cleared? <==> ms == 0
    ensures WriteLatency(s, ms).Refused? <==> 0 < ms < 2 * p
    ensures WriteLatency(s, ms).Accepted? <==> 0 < ms && 2 * p <= ms
    ensures 0 < ms && 2 * p <= ms && ms * NSEC_PER_MSEC < TWO64 ==>
              WriteLatency(s, ms).s == Settings(s.period, ms * NSEC_PER_MSEC, s.enabled)
  {
    assert Throttle(s) == 2 * p * NSEC_PER_MSEC;
    WholeMilliseconds(2 * p);
  }

  lemma WholeMilliseconds(n: nat)
    ensures n * NSEC_PER_MSEC / NSEC_PER_MSEC == n
  {
  }

  /**
   What becomes of a period of `ms` milliseconds: it is refused while the tracer runs; otherwise
   it is set, and the threshold is raised to twice the period if it is lower.
   */
  lemma WritePeriodCases(s: Settings, ms: u64)
    ensures WritePeriod(s, ms).Refused? <==> s.enabled
    ensures WritePeriod(s, ms).Accepted? <==> !s.enabled
    ensures !s.enabled && 2 * (ms * NSEC_PER_MSEC) < TWO64 && s.latency % 2 == 0 ==>
              var p := ms * NSEC_PER_MSEC;
              WritePeriod(s, ms).s == Settings(p, if 2 * p > s.latency then 2 * p else s.latency, false)
  {
  }

  datatype Write = Latency(ms: u64) | Period(ms: u64) | Enable(on: bool)

  datatype Writes = Loaded | Next(past: Writes, w: Write)

  function ApplyWrite(s: Settings, w: Write): Settings {
    match w
    case Latency(ms) => (match WriteLatency(s, ms) case Accepted(s') => s' case _ => s)
    case Period(ms) => (match WritePeriod(s, ms) case Accepted(s') => s' case _ => s)
    case Enable(on) => s.(enabled := on)
  }

  function Configured(h: Writes): Settings {
    match h
    case Loaded => DEFAULTS
    case Next(past, w) => ApplyWrite(Configured(past), w)
  }

  /** A write that is refused, or whose value in nanoseconds survives the wrap-around. */
  predicate Harmless(s: Settings, w: Write) {
    match w
    case Latency(ms) =>
      var latency := Mul64(ms, NSEC_PER_MSEC);
      WriteLatency(s, ms).Accepted? ==> latency % NSEC_PER_MSEC == 0 && 2 * s.period <= latency
    case Period(ms) =>
      var period := Mul64(ms, NSEC_PER_MSEC);
      !s.enabled ==> period % NSEC_PER_MSEC == 0 && 2 * period < TWO64
    case Enable(_) => true
  }

  predicate HarmlessRun(h: Writes) {
    h.Next? ==> HarmlessRun(h.past) && Harmless(Configured(h.past), h.w)
  }

  /** The settings are sound now and were sound after every earlier write. */
  predicate SoundAllAlong(h: Writes) {
    WellSet(Configured(h)) && (h.Next? ==> SoundAllAlong(h.past))
  }

  lemma WriteIff(s: Settings, w: Write)
    requires WellSet(s)
    ensures WellSet(ApplyWrite(s, w)) <==> Harmless(s, w)
  {
    hide WellSet, Mul64;
    match w
    case Latency(ms) => if WriteLatency(s, ms).Accepted? { WriteLatencyIff(s, ms); }
    case Period(ms) => if !s.enabled { WritePeriodIff(s, ms); }
    case Enable(on) => assert WellSet(s.(enabled := on)) by { EnableKeeps(s, on); }
  }

  lemma EnableKeeps(s: Settings, on: bool)
    requires WellSet(s)
    ensures WellSet(s.(enabled := on))
  {
  }

  /** Over any writes, the settings are sound all along if and only if each write is harmless. */
  lemma {:induction false} SoundAllAlongIff(h: Writes)
    ensures SoundAllAlong(h) <==> HarmlessRun(h)
  {
    hide ApplyWrite, Harmless;
    if h.Next? {
      SoundAllAlongIff(h.past);
      if SoundAllAlong(h.past) {
        WriteIff(Configured(h.past), h.w);
      }
    }
  }

  /** No accepted value wraps around: a threshold as such, a period when it is doubled. */
  predicate Unwrapped(h: Writes) {
    h.Next? ==>
      && Unwrapped(h.past)
      && (h.w.Latency? ==> h.w.ms * NSEC_PER_MSEC < TWO64)
      && (h.w.Period? && !Configured(h.past).enabled ==> 2 * (h.w.ms * NSEC_PER_MSEC) < TWO64)
  }

  /** After any writes without wrap-around the settings are sound. */
  lemma {:induction false} AlwaysWellSet(h: Writes)
    requires Unwrapped(h)
    ensures WellSet(Configured(h))
  {
    if h.Next? {
      AlwaysWellSet(h.past);
      var s := Configured(h.past);
      match h.w
      case Latency(ms) => if WriteLatency(s, ms).Accepted? { WriteLatencyKeeps(s, ms); }
      case Period(ms) => if !s.enabled { WritePeriodKeeps(s, ms); }
      case Enable(_) =>
    }
  }

  // The least period.

  /** The last period that was accepted, in milliseconds. */
  function LastPeriod(h: Writes): u64 {
    match h
    case Loaded => 10
    case Next(past, w) =>
      if w.Period? && !Configured(past).enabled then w.ms else LastPeriod(past)
  }

  lemma {:induction false} PeriodIsLast(h: Writes)
    ensures Configured(h).period == Mul64(LastPeriod(h), NSEC_PER_MSEC)
  {
    if h.Next? {
      PeriodIsLast(h.past);
    }
  }

  /**
   The documented least period of 1 ms holds after any writes if and only if the last accepted
   period is at least that after wrap-around; without wrap-around, if and only if it is not 0.
   */
  lemma LeastPeriodIff(h: Writes)
    ensures Configured(h).period >= NSEC_PER_MSEC <==>
            (LastPeriod(h) * NSEC_PER_MSEC) % TWO64 >= NSEC_PER_MSEC
    ensures LastPeriod(h) * NSEC_PER_MSEC < TWO64 ==>
              (Configured(h).period >= NSEC_PER_MSEC <==> LastPeriod(h) != 0)
  {
    hide Configured, LastPeriod;
    PeriodIsLast(h);
  }

  /** A period of 0 is accepted, and the settings count as sound. */
  lemma ZeroPeriodIsAccepted()
    ensures
      var h := Next(Loaded, Period(0));
      Configured(h).period == 0 && WellSet(Configured(h)) && HarmlessRun(h)
  {
  }

  // The wrap-around in the writer's terms.

  /** How often the value in nanoseconds wraps around. */
  function Wraps(ms: u64): nat {
    ms * NSEC_PER_MSEC / TWO64
  }

  lemma WrapSplit(ms: u64)
    ensures Mul64(ms, NSEC_PER_MSEC) == ms * NSEC_PER_MSEC - Wraps(ms) * TWO64
  {
  }

  /** 2^64 holds the factor 64 of a million, so only the factor 5^6 matters. */
  lemma WholeIff(ms: nat, k: nat, x: nat)
    requires x == ms * NSEC_PER_MSEC - k * TWO64
    ensures x % NSEC_PER_MSEC == 0 <==> k % 15625 == 0
  {
    if k % 15625 == 0 {
      var c := k / 15625;
      assert k * TWO64 == c * 18_446_744_073_709_551_616 * 15625;
      assert x == (ms - c * 288_230_376_151_711_744) * NSEC_PER_MSEC;
      MultipleIsWhole(ms - c * 288_230_376_151_711_744, x);
    }
    if x % NSEC_PER_MSEC == 0 {
      var q := ms - x / NSEC_PER_MSEC;
      assert k * TWO64 == q * NSEC_PER_MSEC;
      assert k * 288_230_376_151_711_744 == q * 15625;
      Cancel(k, q);
    }
  }

  lemma MultipleIsWhole(m: int, x: nat)
    requires x == m * NSEC_PER_MSEC
    ensures x % NSEC_PER_MSEC == 0
  {
  }

  /** 2^58 is invertible modulo 5^6. */
  lemma Cancel(k: nat, q: int)
    requires k * 288_230_376_151_711_744 == q * 15625
    ensures k % 15625 == 0
  {
    assert k == 15625 * (q * 11479 - k * 211_750_175_222_111_943);
  }

  /** Which accepted thresholds keep the settings sound, in terms of the milliseconds written. */
  lemma WriteLatencyMsecsIff(s: Settings, ms: u64)
    requires WellSet(s) && WriteLatency(s, ms).Accepted?
    ensures WellSet(WriteLatency(s, ms).s) <==>
            Wraps(ms) % 15625 == 0 && 2 * s.period <= ms * NSEC_PER_MSEC - Wraps(ms) * TWO64
  {
    hide Mul64, Wraps, WellSet, WriteLatency;
    WriteLatencyIff(s, ms);
    WrapSplit(ms);
    WholeIff(ms, Wraps(ms), Mul64(ms, NSEC_PER_MSEC));
  }

  /** The same for periods. */
  lemma WritePeriodMsecsIff(s: Settings, ms: u64)
    requires WellSet(s) && !s.enabled
    ensures WellSet(WritePeriod(s, ms).s) <==>
            Wraps(ms) % 15625 == 0 && 2 * (ms * NSEC_PER_MSEC - Wraps(ms) * TWO64) < TWO64
  {
    WritePeriodIff(s, ms);
    hide Mul64, Wraps, WellSet;
    WrapSplit(ms);
    WholeIff(ms, Wraps(ms), Mul64(ms, NSEC_PER_MSEC));
  }

  /** A period of 9223372036855 ms fits a word, but twice as many nanoseconds do not. */
  lemma OverflowBreaksSettings()
    ensures !WellSet(Configured(Next(Loaded, Period(9_223_372_036_855))))
  {
  }

  /** A threshold of 18446744073710 ms is accepted and becomes 448384 ns. */
  lemma OverflowBreaksLatency()
    ensures Configured(Next(Loaded, Latency(18_446_744_073_710))).latency == 448_384
    ensures !WellSet(Configured(Next(Loaded, Latency(18_446_744_073_710))))
  {
  }

  // The histogram.

  function HistIndex(delta: u64, throttle: u64): (i: nat)
    ensures i < MAX_LATENCY_RECORD
  {
    var index := Bucket(delta, throttle + 1);
    if index >= MAX_LATENCY_RECORD then MAX_LATENCY_RECORD - 1 else index
  }

  /** What each bucket below the last really holds. */
  lemma BucketRange(delta: u64, throttle: u64, i: nat)
    requires throttle <= delta && i < MAX_LATENCY_RECORD - 1
    ensures HistIndex(delta, throttle) == i <==>
            (if i == 0 then delta < 2 * (throttle + 1)
             else (throttle + 1) * Pow2(i) <= delta < (throttle + 1) * Pow2(i + 1))
  {
    var t, r := throttle + 1, Bucket(delta, throttle + 1);
    assert t * Pow2(1) == 2 * t;
    if i == 0 {
      if r > 0 {
        ScaledPow2Monotone(t, 1, r);
      }
    } else if t * Pow2(i) <= delta < t * Pow2(i + 1) {
      BucketUnique(delta, t, i);
    }
  }

  /** Without the cap, halving down to `throttle` itself may end one bucket too low. */
  lemma HalvedTooFar(delta: u64, throttle: u64)
    requires 0 < throttle <= delta
    ensures
      var own, used := Bucket(delta, throttle), Bucket(delta, throttle + 1);
      && (used == own <==> own == 0 || (throttle + 1) * Pow2(own) <= delta)
      && (used != own ==> used == own - 1)
  {
    hide Bucket, Pow2;
    var own := Bucket(delta, throttle);
    BucketFloor(delta, throttle);
    Pow2Step(own);
    WiderStep(throttle, Pow2(own), Pow2(own + 1), delta);
    if own == 0 {
      BucketZero(delta, throttle + 1);
    } else if (throttle + 1) * Pow2(own) <= delta {
      BucketUnique(delta, throttle + 1, own);
    } else {
      Pow2Step(own - 1);
      NarrowerStep(throttle, Pow2(own - 1), Pow2(own), delta);
      BucketUnique(delta, throttle + 1, own - 1);
    }
  }

  /**
   The printed range of bucket `i` is `throttle * 2^i` up to `throttle * 2^(i+1)`. The bucket
   that is incremented is the one of the range that holds the latency if and only if there is
   such a bucket, and the latency is in the first range or not in the first 2^i nanoseconds of
   its own. With a period of zero all printed ranges are empty.
   */
  lemma LabelIff(delta: u64, throttle: u64)
    requires throttle <= delta
    ensures
      InRange(delta, throttle, HistIndex(delta, throttle)) <==>
        && 0 < throttle && delta < throttle * Pow2(MAX_LATENCY_RECORD)
        && (Bucket(delta, throttle) == 0 || (throttle + 1) * Pow2(Bucket(delta, throttle)) <= delta)
  {
    hide Bucket, Pow2;
    if throttle > 0 {
      HalvedTooFar(delta, throttle);
      BucketBelow(delta, throttle, MAX_LATENCY_RECORD);
      InRangeIff(delta, throttle, HistIndex(delta, throttle));
    }
  }

  /** At the default period, 30 s are counted under "10240 -> 20479". */
  lemma ThirtySecondsAreMislabeled()
    ensures HistIndex(30_000_000_000, Throttle(DEFAULTS)) == 9
    ensures !InRange(30_000_000_000, Throttle(DEFAULTS), 9)
  {
    hide Bucket, Pow2;
    LastRange();
    BucketBelow(30_000_000_000, Throttle(DEFAULTS) + 1, 9);
  }

  lemma LastRange()
    ensures Pow2(9) == 512 && Pow2(10) == 1024
  {
    assert Pow2(3) == 8 && Pow2(6) == 64;
  }

  /** At the default period, 40 ms are printed as "40 -> 79" and counted under "20 -> 39". */
  lemma FortyMillisecondsAreMislabeled()
    ensures Throttle(DEFAULTS) == 20_000_000
    ensures Bucket(40_000_000, 20_000_000) == 1
    ensures HistIndex(40_000_000, Throttle(DEFAULTS)) == 0
  {
    assert Bucket(20_000_000, 20_000_000) == 0;
  }

  lemma Pow2Step(n: nat)
    ensures Pow2(n + 1) == 2 * Pow2(n) && Pow2(0) == 1
  {
  }

  lemma BucketZero(delta: nat, step: nat)
    requires 0 < step && delta < 2 * step
    ensures Bucket(delta, step) == 0
  {
  }

  lemma WiderStep(t: nat, p: nat, pp: nat, delta: nat)
    requires t * p <= delta < t * pp && pp == 2 * p
    ensures delta < (t + 1) * pp && (p == 1 ==> delta < 2 * (t + 1))
  {
    assert (t + 1) * pp == t * pp + pp;
  }

  lemma NarrowerStep(t: nat, q: nat, p: nat, delta: nat)
    requires 0 < t && p == 2 * q && t * p <= delta
    ensures (t + 1) * q <= delta
  {
    MulMonotone(q, 1, t);
    assert (t + 1) * q == t * q + q && t * p == 2 * (t * q) && q * t == t * q;
  }

  /** The lower bound of a bucket holds in bucket 0 too, once the latency reaches the step. */
  lemma BucketFloor(delta: nat, step: nat)
    requires 0 < step <= delta
    ensures step * Pow2(Bucket(delta, step)) <= delta < step * Pow2(Bucket(delta, step) + 1)
  {
    assert step * Pow2(0) == step;
  }

  // The handlers of one CPU.

  datatype Cpu = Cpu(
    hardLast: u64,
    softLast: u64,
    softDelayed: bool,
    hard: seq<Stack>,
    soft: seq<Stack>,
    hardCount: seq<nat>,
    softCount: seq<nat>)

  /** What a handler finds: the clock, the interrupted task, its registers and its stack. */
  datatype Env = Env(now: u64, comm: string, pid: int, regs: bool, unwound: seq<Frame>)

  predicate Sized(c: Cpu) {
    |c.hardCount| == |c.softCount| == MAX_LATENCY_RECORD
  }

  function Increment(counts: seq<nat>, i: nat): seq<nat>
    requires i < |counts|
  {
    counts[i := counts[i] + 1]
  }

  /** The recorded latency is a 63-bit field. */
  function TagOf(env: Env, latency: u64, more: bool): Tag {
    Tag(env.comm, env.pid, latency % (TWO64 / 2), more)
  }

  /** A stack is saved with a plus if it is a software stack seen through the registers. */
  function SaveTrace(c: Cpu, env: Env, hardirq: bool, useRegs: bool, latency: u64): Cpu {
    var tag := TagOf(env, latency, !hardirq && useRegs && env.regs);
    if hardirq then c.(hard := Saved(c.hard, tag, env.unwound, ARENA_LIMITS))
    else c.(soft := Saved(c.soft, tag, env.unwound, ARENA_LIMITS))
  }

  predicate Counts(cfg: Settings, delta: u64) {
    delta >= Throttle(cfg)
  }

  function Record(c: Cpu, cfg: Settings, delta: u64, hardirq: bool, skip: bool, env: Env): (r: Cpu)
    requires Sized(c)
    ensures Sized(r)
  {
    if !Counts(cfg, delta) then c
    else
      var i := HistIndex(delta, Throttle(cfg));
      var c1 := if hardirq then c.(hardCount := Increment(c.hardCount, i))
                else if !skip then c.(softCount := Increment(c.softCount, i))
                else c;
      if delta >= cfg.latency then SaveTrace(c1, env, hardirq, skip, delta) else c1
  }

  lemma ShortDelta(c: Cpu, cfg: Settings, delta: u64, hardirq: bool, skip: bool, env: Env)
    requires Sized(c) && !Counts(cfg, delta)
    ensures Record(c, cfg, delta, hardirq, skip, env) == c
  {
  }

  /** The hardware timer ran late enough to be counted. */
  predicate Detects(c: Cpu, cfg: Settings, now: u64) {
    Counts(cfg, Sub64(now, c.hardLast))
  }

  /** The hardware timer finds the software timer overdue for the first time. */
  predicate FindsOverdue(c: Cpu, cfg: Settings, now: u64) {
    !Detects(c, cfg, now) && !c.softDelayed && Sub64(now, c.softLast) >= cfg.latency
  }

  function HrtimerHandler(c: Cpu, cfg: Settings, env: Env): (r: Cpu)
    requires Sized(c)
    ensures Sized(r)
  {
    var delta := Sub64(env.now, c.hardLast);
    var c1 := Record(c.(hardLast := env.now), cfg, delta, true, true, env);
    if Detects(c, cfg, env.now) then c1.(softLast := env.now)
    else if FindsOverdue(c, cfg, env.now) then
      Record(c1.(softDelayed := true), cfg, Sub64(env.now, c.softLast), false, true, env)
    else c1
  }

  function TimerHandler(c: Cpu, cfg: Settings, env: Env): (r: Cpu)
    requires Sized(c)
    ensures Sized(r)
  {
    Record(c.(softLast := env.now, softDelayed := false), cfg,
           Sub64(env.now, c.softLast), false, false, env)
  }

  function Idle(): (c: Cpu)
    ensures Sized(c)
  {
    Cpu(0, 0, false, [], [], Zeros(MAX_LATENCY_RECORD), Zeros(MAX_LATENCY_RECORD))
  }

  function ClearStacks(c: Cpu): (r: Cpu)
    ensures Sized(r)
  {
    c.(hard := [], soft := [],
       hardCount := Zeros(MAX_LATENCY_RECORD), softCount := Zeros(MAX_LATENCY_RECORD))
  }

  /** Starting the timers does not clear the delayed flag. */
  function StartTimers(c: Cpu, now: u64): Cpu {
    c.(hardLast := now, softLast := now)
  }
}
