/**
 What the interrupts-off sampler counts and stores, told from the events alone. The readings of
 the two timers follow from the times of the events; the histograms and the stack buffers are
 proved to hold exactly these readings.
 */
module IrqoffCounts {
  import opened Bits
  import opened IrqoffModel
  import opened IrqoffLaws
  import A = StackArena

  // The clocks.

  /** When the two timers last ran, as far as the measurement is concerned. */
  datatype Clocks = Clocks(hard: u64, soft: u64, announced: bool, cfg: Settings)

  /** At least two sampling periods. */
  predicate Late(cfg: Settings, latency: u64) {
    latency >= (2 * cfg.period) % TWO64
  }

  function HardLatency(c: Clocks, env: Env): u64 {
    Sub64(env.now, c.hard)
  }

  function SoftLatency(c: Clocks, env: Env): u64 {
    Sub64(env.now, c.soft)
  }

  /** A punctual hardware tick that finds the software timer overdue for the first time. */
  predicate Announces(c: Clocks, env: Env) {
    !Late(c.cfg, HardLatency(c, env)) && !c.announced && SoftLatency(c, env) >= c.cfg.latency
  }

  function Hard(c: Clocks, e: Event): u64 {
    match e
    case HardTick(env) => env.now
    case Restart(now) => now
    case _ => c.hard
  }

  function Soft(c: Clocks, e: Event): u64 {
    match e
    case SoftTick(env) => env.now
    case Restart(now) => now
    case HardTick(env) => if Late(c.cfg, HardLatency(c, env)) then env.now else c.soft
    case _ => c.soft
  }

  predicate Announced(c: Clocks, e: Event) {
    if e.SoftTick? then false else c.announced || (e.HardTick? && Announces(c, e.env))
  }

  function ClocksAfter(h: History): Clocks {
    match h
    case Boot(cfg) => Clocks(0, 0, false, cfg)
    case After(past, e) =>
      var c := ClocksAfter(past);
      Clocks(Hard(c, e), Soft(c, e), Announced(c, e), if e.Change? then e.cfg else c.cfg)
  }

  ghost predicate Shows(s: System, c: Clocks) {
    s.cpu.hardLast == c.hard && s.cpu.softLast == c.soft && s.cpu.softDelayed == c.announced && s.cfg == c.cfg
  }

  lemma LateCounts(cfg: Settings, latency: u64)
    ensures Late(cfg, latency) <==> Counts(cfg, latency)
  {
    assert cfg.period * 2 == 2 * cfg.period;
  }

  /** In every run the timestamps and the flag are what the events say. */
  lemma {:induction false} RunShows(h: History)
    ensures Shows(Run(h), ClocksAfter(h))
  {
    if h.After? {
      var s, c := Run(h.past), ClocksAfter(h.past);
      RunShows(h.past);
      TimesOfStep(s, h.last);
      hide Step, Late, Counts;
      if h.last.HardTick? {
        LateCounts(c.cfg, HardLatency(c, h.last.env));
      }
      SettingsOfStep(s, h.last);
    }
  }

  lemma SettingsOfStep(s: System, e: Event)
    requires Sized(s.cpu)
    ensures Step(s, e).cfg == if e.Change? then e.cfg else s.cfg
  {
  }

  // The readings.

  /** A latency that is counted, with the resolution at the time. */
  datatype Reading = Reading(latency: u64, resolution: u64)

  function ReadingOf(cfg: Settings, latency: u64): Reading {
    Reading(latency, (2 * cfg.period) % TWO64)
  }

  /** The late hardware ticks since the last clear. */
  function HardReadings(h: History): seq<Reading> {
    match h
    case Boot(_) => []
    case After(past, e) =>
      var c := ClocksAfter(past);
      if e.Clear? then []
      else if e.HardTick? && Late(c.cfg, HardLatency(c, e.env))
      then HardReadings(past) + [ReadingOf(c.cfg, HardLatency(c, e.env))]
      else HardReadings(past)
  }

  /** The late software ticks since the last clear. */
  function SoftReadings(h: History): seq<Reading> {
    match h
    case Boot(_) => []
    case After(past, e) =>
      var c := ClocksAfter(past);
      if e.Clear? then []
      else if e.SoftTick? && Late(c.cfg, SoftLatency(c, e.env))
      then SoftReadings(past) + [ReadingOf(c.cfg, SoftLatency(c, e.env))]
      else SoftReadings(past)
  }

  /** Bucket `i` is the place of the reading; the last bucket takes the rest. */
  predicate BelongsTo(r: Reading, i: nat) {
    && (i == 0 || (r.resolution + 1) * Pow2(i) <= r.latency)
    && (i == MAX_LATENCY_RECORD - 1 || r.latency < (r.resolution + 1) * Pow2(i + 1))
  }

  function HowMany(readings: seq<Reading>, i: nat): nat {
    if readings == [] then 0
    else HowMany(readings[..|readings| - 1], i) +
         (if BelongsTo(readings[|readings| - 1], i) then 1 else 0)
  }

  lemma HowManyAppend(readings: seq<Reading>, r: Reading, i: nat)
    ensures HowMany(readings + [r], i) == HowMany(readings, i) + (if BelongsTo(r, i) then 1 else 0)
  {
    hide BelongsTo;
    assert (readings + [r])[..|readings|] == readings;
  }

  /** The bucket that is incremented is the one that the reading belongs to. */
  lemma BelongsToItsIndex(r: Reading, i: nat)
    requires r.resolution <= r.latency && i < MAX_LATENCY_RECORD
    ensures HistIndex(r.latency, r.resolution) == i <==> BelongsTo(r, i)
  {
    hide Bucket, Pow2;
    var t := r.resolution + 1;
    Pow2Step(0);
    if i < MAX_LATENCY_RECORD - 1 {
      BucketRange(r.latency, r.resolution, i);
    } else {
      LastBucket(r.latency, t, i);
    }
  }

  lemma LastBucket(delta: nat, step: nat, i: nat)
    requires step > 0 && i > 0
    ensures Bucket(delta, step) >= i <==> step * Pow2(i) <= delta
  {
    hide Bucket;
    var r := Bucket(delta, step);
    if r >= i {
      ScaledPow2Monotone(step, i, r);
    } else {
      ScaledPow2Monotone(step, r + 1, i);
    }
  }

  // The stacks that are offered.

  /** A stack with the interrupted task, the latency in 63 bits and the plus mark. */
  function OfferOf(env: Env, latency: u64, plus: bool): A.Offer {
    A.Offer(A.Tag(env.comm, env.pid, latency % (TWO64 / 2), plus), env.unwound)
  }

  predicate Recorded(cfg: Settings, latency: u64) {
    Late(cfg, latency) && latency >= cfg.latency
  }

  function HardOffers(h: History): seq<A.Offer> {
    match h
    case Boot(_) => []
    case After(past, e) =>
      var c := ClocksAfter(past);
      if e.Clear? then []
      else if e.HardTick? && Recorded(c.cfg, HardLatency(c, e.env))
      then HardOffers(past) + [OfferOf(e.env, HardLatency(c, e.env), false)]
      else HardOffers(past)
  }

  /** From software ticks, and from hardware ticks that announce a delay, with a plus. */
  function SoftOffers(h: History): seq<A.Offer> {
    match h
    case Boot(_) => []
    case After(past, e) =>
      var c := ClocksAfter(past);
      if e.Clear? then []
      else if e.SoftTick? && Recorded(c.cfg, SoftLatency(c, e.env))
      then SoftOffers(past) + [OfferOf(e.env, SoftLatency(c, e.env), false)]
      else if e.HardTick? && Announces(c, e.env) && Recorded(c.cfg, SoftLatency(c, e.env))
      then SoftOffers(past) + [OfferOf(e.env, SoftLatency(c, e.env), e.env.regs)]
      else SoftOffers(past)
  }

  // What a step does to counts and stacks.

  function Bumped(counts: seq<nat>, r: Reading): seq<nat>
    requires |counts| == MAX_LATENCY_RECORD
  {
    Increment(counts, HistIndex(r.latency, r.resolution))
  }

  lemma HardTickStep(s: System, c: Clocks, env: Env)
    requires Sized(s.cpu) && Shows(s, c)
    ensures
      var s', d, ds := Step(s, HardTick(env)).cpu, HardLatency(c, env), SoftLatency(c, env);
      && s'.hardCount == (if Late(c.cfg, d) then Bumped(s.cpu.hardCount, ReadingOf(c.cfg, d)) else s.cpu.hardCount)
      && s'.softCount == s.cpu.softCount
      && s'.hard == (if Recorded(c.cfg, d)
                     then A.Saved(s.cpu.hard, OfferOf(env, d, false).tag, env.unwound, ARENA_LIMITS)
                     else s.cpu.hard)
      && s'.soft == (if Announces(c, env) && Recorded(c.cfg, ds)
                     then A.Saved(s.cpu.soft, OfferOf(env, ds, env.regs).tag, env.unwound, ARENA_LIMITS)
                     else s.cpu.soft)
  {
    hide Late, HistIndex, A.Saved;
    LateCounts(c.cfg, HardLatency(c, env));
    LateCounts(c.cfg, SoftLatency(c, env));
    assert Throttle(c.cfg) == (2 * c.cfg.period) % TWO64;
  }

  lemma SoftTickStep(s: System, c: Clocks, env: Env)
    requires Sized(s.cpu) && Shows(s, c)
    ensures
      var s', d := Step(s, SoftTick(env)).cpu, SoftLatency(c, env);
      && s'.softCount == (if Late(c.cfg, d) then Bumped(s.cpu.softCount, ReadingOf(c.cfg, d)) else s.cpu.softCount)
      && s'.hardCount == s.cpu.hardCount && s'.hard == s.cpu.hard
      && s'.soft == (if Recorded(c.cfg, d)
                     then A.Saved(s.cpu.soft, OfferOf(env, d, false).tag, env.unwound, ARENA_LIMITS)
                     else s.cpu.soft)
  {
    hide Late, HistIndex, A.Saved;
    LateCounts(c.cfg, SoftLatency(c, env));
    assert Throttle(c.cfg) == (2 * c.cfg.period) % TWO64;
  }

  lemma OtherStep(s: System, e: Event)
    requires Sized(s.cpu) && !e.HardTick? && !e.SoftTick?
    ensures
      var c, c' := s.cpu, Step(s, e).cpu;
      if e.Clear? then c'.hard == c'.soft == [] && c'.hardCount == c'.softCount == Zeros(MAX_LATENCY_RECORD)
      else c'.hard == c.hard && c'.soft == c.soft && c'.hardCount == c.hardCount && c'.softCount == c.softCount
  {
  }

  lemma BumpedAt(counts: seq<nat>, cfg: Settings, latency: u64, i: nat)
    requires |counts| == MAX_LATENCY_RECORD && i < MAX_LATENCY_RECORD && Late(cfg, latency)
    ensures Bumped(counts, ReadingOf(cfg, latency))[i] ==
            counts[i] + (if BelongsTo(ReadingOf(cfg, latency), i) then 1 else 0)
  {
    hide HistIndex, BelongsTo;
    BelongsToItsIndex(ReadingOf(cfg, latency), i);
  }

  /** In every run each hardware bucket holds the number of late hardware ticks that belong to it. */
  lemma {:induction false} HardCountExact(h: History, i: nat)
    requires i < MAX_LATENCY_RECORD
    ensures Run(h).cpu.hardCount[i] == HowMany(HardReadings(h), i)
  {
    hide Step, Bumped, Late, BelongsTo, HardLatency, SoftLatency, ReadingOf, ClocksAfter;
    if h.After? {
      var s, c, e := Run(h.past), ClocksAfter(h.past), h.last;
      HardCountExact(h.past, i);
      RunShows(h.past);
      match e
      case HardTick(env) =>
        HardTickStep(s, c, env);
        if Late(c.cfg, HardLatency(c, env)) {
          BumpedAt(s.cpu.hardCount, c.cfg, HardLatency(c, env), i);
          HowManyAppend(HardReadings(h.past), ReadingOf(c.cfg, HardLatency(c, env)), i);
        }
      case SoftTick(env) => SoftTickStep(s, c, env);
      case _ => OtherStep(s, e);
    }
  }

  /** In every run each software bucket holds the number of late software ticks that belong to it. */
  lemma {:induction false} SoftCountExact(h: History, i: nat)
    requires i < MAX_LATENCY_RECORD
    ensures Run(h).cpu.softCount[i] == HowMany(SoftReadings(h), i)
  {
    hide Step, Bumped, Late, BelongsTo, HardLatency, SoftLatency, ReadingOf, ClocksAfter;
    if h.After? {
      var s, c, e := Run(h.past), ClocksAfter(h.past), h.last;
      SoftCountExact(h.past, i);
      RunShows(h.past);
      match e
      case HardTick(env) => HardTickStep(s, c, env);
      case SoftTick(env) =>
        SoftTickStep(s, c, env);
        if Late(c.cfg, SoftLatency(c, env)) {
          BumpedAt(s.cpu.softCount, c.cfg, SoftLatency(c, env), i);
          HowManyAppend(SoftReadings(h.past), ReadingOf(c.cfg, SoftLatency(c, env)), i);
        }
      case _ => OtherStep(s, e);
    }
  }

  /** In every run the hardware buffer holds the hardware stacks offered, while room lasts. */
  lemma {:induction false} HardStacksExact(h: History)
    ensures Run(h).cpu.hard == A.AllSaved(HardOffers(h), ARENA_LIMITS)
  {
    hide Step, Bumped, Recorded, Late, HardLatency, SoftLatency, ClocksAfter, A.Saved;
    if h.After? {
      var s, c, e := Run(h.past), ClocksAfter(h.past), h.last;
      HardStacksExact(h.past);
      RunShows(h.past);
      match e
      case HardTick(env) =>
        HardTickStep(s, c, env);
        A.AllSavedAppend(HardOffers(h.past), OfferOf(env, HardLatency(c, env), false), ARENA_LIMITS);
      case SoftTick(env) => SoftTickStep(s, c, env);
      case _ => OtherStep(s, e);
    }
  }

  /** In every run the software buffer holds the software stacks offered, while room lasts. */
  lemma {:induction false} SoftStacksExact(h: History)
    ensures Run(h).cpu.soft == A.AllSaved(SoftOffers(h), ARENA_LIMITS)
  {
    hide Step, Bumped, Recorded, Late, HardLatency, SoftLatency, ClocksAfter, A.Saved, Announces;
    if h.After? {
      var s, c, e := Run(h.past), ClocksAfter(h.past), h.last;
      SoftStacksExact(h.past);
      RunShows(h.past);
      match e
      case HardTick(env) =>
        HardTickStep(s, c, env);
        A.AllSavedAppend(SoftOffers(h.past), OfferOf(env, SoftLatency(c, env), env.regs), ARENA_LIMITS);
      case SoftTick(env) =>
        SoftTickStep(s, c, env);
        A.AllSavedAppend(SoftOffers(h.past), OfferOf(env, SoftLatency(c, env), false), ARENA_LIMITS);
      case _ => OtherStep(s, e);
    }
  }

  // The preliminary stacks between two software ticks.

  lemma SoundIsRecorded(cfg: Settings, latency: u64)
    requires WellSet(cfg) && latency >= cfg.latency
    ensures Recorded(cfg, latency)
  {
  }

  lemma OverdueAnnounces(s: System, c: Clocks, e: Event)
    requires Shows(s, c)
    ensures Overdue(s, e) <==> e.HardTick? && Announces(c, e.env)
  {
    hide Late, Counts;
    if e.HardTick? {
      LateCounts(c.cfg, HardLatency(c, e.env));
    }
  }

  /**
   Without a software tick and a clear, the stacks offered are exactly those of the hardware
   ticks that find the software timer overdue: one each.
   */
  lemma {:induction false} OnlyAnnouncementsOffer(from: History, h: History)
    requires NoSoftTick(from, h) && NoClear(from, h) && Regular(h)
    ensures Regular(from) && |SoftOffers(h)| == |SoftOffers(from)| + PlusCount(from, h)
  {
    hide Run, ClocksAfter, Overdue, Announces, Recorded, OfferOf;
    if h != from {
      var s, c, e := Run(h.past), ClocksAfter(h.past), h.last;
      assert Regular(h.past);
      OnlyAnnouncementsOffer(from, h.past);
      RunShows(h.past);
      OverdueAnnounces(s, c, e);
      RegularState(h.past);
      if e.HardTick? && Announces(c, e.env) {
        AnnouncedLatency(c, e.env);
        SoundIsRecorded(c.cfg, SoftLatency(c, e.env));
      }
    }
  }

  lemma AnnouncedLatency(c: Clocks, env: Env)
    requires Announces(c, env)
    ensures SoftLatency(c, env) >= c.cfg.latency
  {
  }

  // The first hardware tick comes after 60 ms.

  const FIRST_TICK := After(STARTED, HardTick(At(60)))

  /** It is counted in the second bucket, and its stack is stored. */
  lemma FirstLateTick()
    ensures Run(FIRST_TICK).cpu.hardCount[0] == 0 && Run(FIRST_TICK).cpu.hardCount[1] == 1
    ensures Run(FIRST_TICK).cpu.hard == [A.Stack(A.Tag("task", 1, 60_000_000, false), [])]
  {
    hide Run;
    var c := ClocksAfter(STARTED);
    assert c == Clocks(0, 0, false, DEFAULTS);
    assert HardReadings(STARTED) == [] && HardOffers(STARTED) == [];
    var r := Reading(60_000_000, 20_000_000);
    assert HardReadings(FIRST_TICK) == [] + [r];
    var o := A.Offer(A.Tag("task", 1, 60_000_000, false), []);
    assert HardOffers(FIRST_TICK) == [] + [o];
    HardCountExact(FIRST_TICK, 0);
    HardCountExact(FIRST_TICK, 1);
    HowManyAppend([], r, 0);
    HowManyAppend([], r, 1);
    assert Pow2(1) == 2 && Pow2(2) == 4;
    HardStacksExact(FIRST_TICK);
    A.AllSavedAppend([], o, ARENA_LIMITS);
    A.NoFrames();
  }
}
