/**
 How the two handlers of one CPU work together, over every sequence of events.
 */
module IrqoffLaws {
  import opened Bits
  import A = StackArena
  import opened IrqoffModel

  datatype Event =
    | HardTick(env: Env)
    | SoftTick(env: Env)
    | Clear
    | Restart(now: u64)
    | Change(cfg: Settings)

  datatype History = Boot(cfg: Settings) | After(past: History, last: Event)

  datatype System = System(cpu: Cpu, cfg: Settings, clock: u64)

  function Step(s: System, e: Event): (r: System)
    requires Sized(s.cpu)
    ensures Sized(r.cpu)
  {
    match e
    case HardTick(env) => System(HrtimerHandler(s.cpu, s.cfg, env), s.cfg, env.now)
    case SoftTick(env) => System(TimerHandler(s.cpu, s.cfg, env), s.cfg, env.now)
    case Clear => s.(cpu := ClearStacks(s.cpu))
    case Restart(now) => s.(cpu := StartTimers(s.cpu, now), clock := now)
    case Change(cfg) => s.(cfg := cfg)
  }

  function Run(h: History): (s: System)
    ensures Sized(s.cpu)
  {
    match h
    case Boot(cfg) => System(Idle(), cfg, 0)
    case After(past, e) => Step(Run(past), e)
  }

  function TimeOf(e: Event, clock: u64): u64 {
    match e
    case HardTick(env) => env.now
    case SoftTick(env) => env.now
    case Restart(now) => now
    case _ => clock
  }

  /** The clock does not go back, and the settings stay sound. */
  predicate Regular(h: History) {
    match h
    case Boot(cfg) => WellSet(cfg)
    case After(past, e) =>
      Regular(past) && Run(past).clock <= TimeOf(e, Run(past).clock) &&
      (e.Change? ==> WellSet(e.cfg))
  }

  lemma {:induction false} RegularState(h: History)
    requires Regular(h)
    ensures var s := Run(h);
            WellSet(s.cfg) && s.cpu.hardLast <= s.clock && s.cpu.softLast <= s.clock
  {
    if h.After? {
      RegularState(h.past);
      hide Record, WellSet;
      TimesOfStep(Run(h.past), h.last);
    }
  }

  /** A handler writes the clock to its own timestamp and detection to both. */
  lemma TimesOfStep(s: System, e: Event)
    requires Sized(s.cpu)
    ensures
      var c, c' := s.cpu, Step(s, e).cpu;
      && (c'.hardLast == if e.HardTick? then e.env.now else if e.Restart? then e.now else c.hardLast)
      && (c'.softLast == if e.SoftTick? then e.env.now
                         else if e.Restart? then e.now
                         else if e.HardTick? && Detects(c, s.cfg, e.env.now) then e.env.now
                         else c.softLast)
      && (c'.softDelayed == (if e.SoftTick? then false
                             else c.softDelayed ||
                                  (e.HardTick? && FindsOverdue(c, s.cfg, e.env.now))))
  {
  }

  // Between two software ticks.

  predicate Overdue(s: System, e: Event) {
    e.HardTick? && FindsOverdue(s.cpu, s.cfg, e.env.now)
  }

  predicate NoSoftTick(from: History, h: History) {
    h == from || (h.After? && !h.last.SoftTick? && NoSoftTick(from, h.past))
  }

  /** How many preliminary stacks were offered between `from` and `h`. */
  function PlusCount(from: History, h: History): nat {
    if h == from || h.Boot? then 0
    else PlusCount(from, h.past) + (if Overdue(Run(h.past), h.last) then 1 else 0)
  }

  /** At most one preliminary stack is offered between two software ticks, in every run. */
  lemma {:induction false} AtMostOnePlus(from: History, h: History)
    requires NoSoftTick(from, h)
    ensures PlusCount(from, h) <= 1
    ensures PlusCount(from, h) == 1 ==> Run(h).cpu.softDelayed
    ensures Run(from).cpu.softDelayed ==> PlusCount(from, h) == 0 && Run(h).cpu.softDelayed
  {
    if h != from {
      hide Step;
      AtMostOnePlus(from, h.past);
      TimesOfStep(Run(h.past), h.last);
    }
  }

  /** The software stacks a step stores: none, one from a software tick, or one preliminary. */
  lemma SoftStacksOfStep(s: System, e: Event)
    requires Sized(s.cpu) && !e.Clear? && !e.SoftTick?
    ensures s.cpu.soft <= Step(s, e).cpu.soft
    ensures |Step(s, e).cpu.soft| <= |s.cpu.soft| + (if Overdue(s, e) then 1 else 0)
  {
  }

  predicate NoClear(from: History, h: History) {
    h == from || (h.After? && !h.last.Clear? && NoClear(from, h.past))
  }

  /** So at most one software stack is stored between two software ticks. */
  lemma {:induction false} AtMostOneStack(from: History, h: History)
    requires NoSoftTick(from, h) && NoClear(from, h)
    ensures Run(from).cpu.soft <= Run(h).cpu.soft
    ensures |Run(h).cpu.soft| <= |Run(from).cpu.soft| + PlusCount(from, h)
    ensures |Run(h).cpu.soft| <= |Run(from).cpu.soft| + 1
  {
    AtMostOnePlus(from, h);
    if h != from {
      hide Step;
      AtMostOneStack(from, h.past);
      SoftStacksOfStep(Run(h.past), h.last);
    }
  }

  // What the following software tick measures.

  /** Hardware ticks and clears only: no software tick, no restart, no new settings. */
  predicate HardwareOnly(from: History, h: History) {
    h == from ||
    (h.After? && (h.last.HardTick? || h.last.Clear?) && HardwareOnly(from, h.past))
  }

  /** When the hardware timer last ran late between `from` and `h`. */
  function LastDetection(from: History, h: History): Option<u64> {
    if h == from || h.Boot? then None
    else if h.last.HardTick? && Detects(Run(h.past).cpu, Run(h.past).cfg, h.last.env.now)
    then Some(h.last.env.now)
    else LastDetection(from, h.past)
  }

  lemma {:induction false} SoftLastSince(from: History, h: History)
    requires HardwareOnly(from, h) && Regular(h)
    ensures Regular(from) && Run(from).clock <= Run(h).clock && Run(h).cfg == Run(from).cfg
    ensures Run(h).cpu.softLast == match LastDetection(from, h)
                                   case None => Run(from).cpu.softLast
                                   case Some(t) => t
  {
    if h != from {
      hide HrtimerHandler, TimerHandler, ClearStacks;
      SoftLastSince(from, h.past);
      TimesOfStep(Run(h.past), h.last);
    }
  }

  /** What a software tick does in state `s`, with the latency it measures. */
  function Measured(s: System, env: Env): u64 {
    Sub64(env.now, s.cpu.softLast)
  }

  /** The tick counts the latency once and offers a stack without a plus. */
  predicate CountsAndOffers(s: System, env: Env)
    requires Sized(s.cpu)
  {
    var c, c', d := s.cpu, TimerHandler(s.cpu, s.cfg, env), Measured(s, env);
    && c'.softCount == Increment(c.softCount, HistIndex(d, Throttle(s.cfg)))
    && c'.soft == A.Saved(c.soft, TagOf(env, d, false), env.unwound, ARENA_LIMITS)
  }

  lemma LongTick(s: System, env: Env)
    requires Sized(s.cpu) && WellSet(s.cfg) && Measured(s, env) >= s.cfg.latency
    ensures CountsAndOffers(s, env)
  {
    hide HistIndex;
    ThresholdNotThrottled(s.cfg, Measured(s, env));
  }

  /** The early return of the recorder never swallows a latency at or above the threshold. */
  lemma ThresholdNotThrottled(cfg: Settings, delta: u64)
    requires WellSet(cfg) && delta >= cfg.latency
    ensures Counts(cfg, delta)
  {
  }

  /** The software timestamp that the next software tick starts from. */
  lemma AfterPlus(from: History, plus: Env, h: History, env: Env)
    requires Overdue(Run(from), HardTick(plus))
    requires HardwareOnly(After(from, HardTick(plus)), h)
    requires Regular(After(h, SoftTick(env)))
    ensures
      var last, late := Run(from).cpu.softLast, LastDetection(After(from, HardTick(plus)), h);
      && Run(h).cfg == Run(from).cfg && WellSet(Run(h).cfg)
      && last <= plus.now <= env.now
      && Run(h).cpu.softLast == (if late.None? then last else late.value) <= env.now
  {
    hide HrtimerHandler, TimerHandler, WellSet, Throttle;
    var start := After(from, HardTick(plus));
    SoftLastSince(start, h);
    RegularState(from);
    RegularState(h);
    TimesOfStep(Run(from), HardTick(plus));
  }

  /**
   The law of the two handlers. After a preliminary stack, the next software tick measures at
   least the latency of that stack if and only if the hardware timer was not late in between,
   or was last late that long ago; and then it counts the latency and offers its own stack.
   */
  lemma FollowingTick(from: History, plus: Env, h: History, env: Env)
    requires Overdue(Run(from), HardTick(plus))
    requires HardwareOnly(After(from, HardTick(plus)), h)
    requires Regular(After(h, SoftTick(env)))
    ensures
      var announced := Sub64(plus.now, Run(from).cpu.softLast);
      var late := LastDetection(After(from, HardTick(plus)), h);
      && announced >= Run(h).cfg.latency
      && (Measured(Run(h), env) >= announced <==>
            late.None? || env.now - late.value >= announced)
      && (Measured(Run(h), env) >= announced ==> CountsAndOffers(Run(h), env))
  {
    hide Run, Regular, HardwareOnly, LastDetection, CountsAndOffers, WellSet, Throttle;
    AfterPlus(from, plus, h, env);
    if Measured(Run(h), env) >= Run(h).cfg.latency {
      LongTick(Run(h), env);
    }
  }

  // A hardware tick that runs late in between makes the next software tick short.

  function At(msecs: nat): Env {
    Env((msecs * NSEC_PER_MSEC) % TWO64, "task", 1, true, [])
  }

  /** A run at its last hardware tick, with the default settings. */
  ghost predicate Stands(h: History, hard: nat, soft: nat, delayed: bool) {
    var s := Run(h);
    && Regular(h) && s.cfg == DEFAULTS && s.clock == s.cpu.hardLast == hard * NSEC_PER_MSEC
    && s.cpu.softLast == soft * NSEC_PER_MSEC && s.cpu.softDelayed == delayed
  }

  lemma TickFrom(h: History, hard: nat, soft: nat, delayed: bool, ms: nat)
    requires Stands(h, hard, soft, delayed) && soft <= hard <= ms <= 1000
    ensures var late, overdue := ms - hard >= 20, ms - hard < 20 && !delayed && ms - soft >= 50;
            && Stands(After(h, HardTick(At(ms))), ms, if late then ms else soft, delayed || overdue)
            && Overdue(Run(h), HardTick(At(ms))) == overdue
  {
    hide HrtimerHandler, TimerHandler;
    TimesOfStep(Run(h), HardTick(At(ms)));
  }

  const STARTED := After(Boot(DEFAULTS), Restart(0))

  /** After three timely hardware ticks the software timer is 45 ms old. */
  const WAITING :=
    After(After(After(STARTED, HardTick(At(15))), HardTick(At(30))), HardTick(At(45)))

  /** The announced 60 ms are followed by a tick that measures 1 ms and records nothing. */
  lemma LateHardwareHidesTheDelay()
    ensures
      var start := After(WAITING, HardTick(At(60)));
      var h := After(start, HardTick(At(160)));
      && Overdue(Run(WAITING), HardTick(At(60)))
      && HardwareOnly(start, h) && Regular(After(h, SoftTick(At(161))))
      && Measured(Run(h), At(161)) == NSEC_PER_MSEC
      && Run(After(h, SoftTick(At(161)))).cpu.soft == Run(h).cpu.soft
  {
    FreshStart();
    hide Run, Regular;
    TickFrom(STARTED, 0, 0, false, 15);
    TickFrom(After(STARTED, HardTick(At(15))), 15, 0, false, 30);
    TickFrom(After(After(STARTED, HardTick(At(15))), HardTick(At(30))), 30, 0, false, 45);
    TickFrom(WAITING, 45, 0, false, 60);
    TickFrom(After(WAITING, HardTick(At(60))), 60, 0, true, 160);
    ShortSoftTick(After(After(WAITING, HardTick(At(60))), HardTick(At(160))));
  }

  lemma FreshStart()
    ensures Stands(STARTED, 0, 0, false)
  {
  }

  lemma ShortSoftTick(h: History)
    requires Stands(h, 160, 160, true)
    ensures Regular(After(h, SoftTick(At(161))))
    ensures Measured(Run(h), At(161)) == NSEC_PER_MSEC
    ensures Run(After(h, SoftTick(At(161)))).cpu.soft == Run(h).cpu.soft
  {
    hide Record;
    var c := Run(h).cpu.(softLast := At(161).now, softDelayed := false);
    ShortDelta(c, DEFAULTS, Measured(Run(h), At(161)), false, false, At(161));
  }
}
