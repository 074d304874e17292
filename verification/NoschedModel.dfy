/**
 The no-schedule sampler on values. A periodic tick looks how long the running task has held
 the CPU in the kernel and stores its stack once it is too long; the next task switch puts the
 final duration into that stack and lets the tick store again.
 */
module NoschedModel {
  import opened Bits
  import opened StackArena

  const DURATION_HISTOGRAM_ENTRY := 12
  const STEP: u64 := 20_000_000
  const DEFAULT_THRESHOLD: u64 := 50_000_000

  const ARENA_LIMITS := Limits(16, 128, 0)

  datatype Cpu = Cpu(last: u64, skip: bool, stacks: seq<Stack>, hist: seq<nat>)

  /** `fault` is set by a switch that would write outside the array. */
  datatype System = System(cpu: Cpu, threshold: u64, enabled: bool, clock: u64, fault: bool)

  datatype Env = Env(now: u64, comm: string, pid: int, unwound: seq<Frame>)

  /**
   A tick is busy when it interrupts a task in the kernel that others wait for. A switch is
   counted unless the idle task leaves or nobody else could run.
   */
  datatype Event =
    | Tick(env: Env, busy: bool)
    | Switch(now: u64, counted: bool)
    | Clear
    | StartTimer(now: u64)
    | Enable(on: bool)
    | Threshold(t: u64)

  predicate Sized(s: System) {
    |s.cpu.hist| == DURATION_HISTOGRAM_ENTRY
  }

  // The histogram.

  function HistIndex(delta: nat): (i: nat)
    ensures i < DURATION_HISTOGRAM_ENTRY
  {
    var index := Bucket(delta, STEP);
    if index >= DURATION_HISTOGRAM_ENTRY then DURATION_HISTOGRAM_ENTRY - 1 else index
  }

  function HistUpdate(hist: seq<nat>, delta: u64): (r: seq<nat>)
    requires |hist| == DURATION_HISTOGRAM_ENTRY
    ensures |r| == DURATION_HISTOGRAM_ENTRY
  {
    if delta < STEP then hist else hist[HistIndex(delta) := hist[HistIndex(delta)] + 1]
  }

  /** Each bucket below the last holds exactly the durations of its printed range. */
  lemma BucketRange(delta: u64, i: nat)
    requires STEP <= delta && i < DURATION_HISTOGRAM_ENTRY - 1
    ensures HistIndex(delta) == i <==> STEP * Pow2(i) <= delta < STEP * Pow2(i + 1)
  {
    assert STEP * Pow2(0) == STEP;
    if STEP * Pow2(i) <= delta < STEP * Pow2(i + 1) {
      BucketUnique(delta, STEP, i);
    }
  }

  /** A duration is counted under its printed range if and only if it is below 20 ms * 2^12. */
  lemma LabelIff(delta: u64)
    requires STEP <= delta
    ensures InRange(delta, STEP, HistIndex(delta)) <==> delta < STEP * Pow2(DURATION_HISTOGRAM_ENTRY)
  {
    hide Bucket, Pow2;
    CappedRangeIff(delta, STEP, DURATION_HISTOGRAM_ENTRY);
  }

  /** 90 s are counted in the last bucket, whose printed range ends below 82 s. */
  lemma NinetySecondsAreMislabeled()
    ensures HistIndex(90_000_000_000) == 11 && !InRange(90_000_000_000, STEP, 11)
  {
    hide Bucket, Pow2;
    assert Pow2(11) == 2048 && Pow2(12) == 4096 by { LastRange(); }
    BucketBelow(90_000_000_000, STEP, 11);
  }

  lemma LastRange()
    ensures Pow2(11) == 2048 && Pow2(12) == 4096
  {
    assert Pow2(3) == 8 && Pow2(6) == 64 && Pow2(9) == 512;
  }

  // The handlers.

  function TagOf(env: Env, duration: u64): Tag {
    Tag(env.comm, env.pid, duration, false)
  }

  /** The tick stores a stack. */
  predicate Stores(s: System, env: Env) {
    !s.cpu.skip && Sub64(env.now, s.cpu.last) >= s.threshold
  }

  function DoTick(s: System, env: Env, busy: bool): System {
    var c := s.cpu;
    var s1 := s.(clock := env.now);
    if !busy then s1.(cpu := c.(last := env.now))
    else if Stores(s, env) then
      var tag := TagOf(env, Sub64(env.now, c.last));
      s1.(cpu := c.(stacks := Saved(c.stacks, tag, env.unwound, ARENA_LIMITS),
                    skip := SavedOk(c.stacks, tag, env.unwound, ARENA_LIMITS)))
    else s1
  }

  function DoSwitch(s: System, now: u64, counted: bool): System
    requires Sized(s)
  {
    var c := s.cpu;
    var duration := Sub64(now, c.last);
    if !s.enabled then s.(clock := now)
    else
      var hist := if counted then HistUpdate(c.hist, duration) else c.hist;
      if !c.skip then s.(cpu := c.(last := now, hist := hist), clock := now)
      else if c.stacks == [] then s.(fault := true)
      else s.(cpu := Cpu(now, false, Rewritten(c.stacks, duration), hist), clock := now)
  }

  function Step(s: System, e: Event): (r: System)
    requires Sized(s)
    ensures Sized(r)
  {
    match e
    case Tick(env, busy) => DoTick(s, env, busy)
    case Switch(now, counted) => DoSwitch(s, now, counted)
    case Clear => s.(cpu := s.cpu.(stacks := [], hist := Zeros(DURATION_HISTOGRAM_ENTRY)))
    case StartTimer(now) => s.(cpu := s.cpu.(last := now), clock := now)
    case Enable(on) => s.(enabled := on)
    case Threshold(t) => s.(threshold := t)
  }

  datatype History = Loaded | After(past: History, last: Event)

  function Run(h: History): (s: System)
    ensures Sized(s)
  {
    match h
    case Loaded =>
      System(Cpu(0, false, [], Zeros(DURATION_HISTOGRAM_ENTRY)), DEFAULT_THRESHOLD, false, 0, false)
    case After(past, e) => Step(Run(past), e)
  }

  // Between two handled switches.

  predicate HandledSwitch(s: System, e: Event) {
    e.Switch? && s.enabled
  }

  /** No handled switch and no clear between `from` and `h`. */
  predicate OneStretch(from: History, h: History) {
    h == from ||
    (h.After? && !HandledSwitch(Run(h.past), h.last) && !h.last.Clear? && OneStretch(from, h.past))
  }

  lemma StretchStep(s: System, e: Event)
    requires Sized(s) && !HandledSwitch(s, e) && !e.Clear?
    ensures s.cpu.stacks <= Step(s, e).cpu.stacks
    ensures |Step(s, e).cpu.stacks| <= |s.cpu.stacks| + 1
    ensures s.cpu.skip ==> Step(s, e).cpu.skip && Step(s, e).cpu.stacks == s.cpu.stacks
    ensures !Fits(s.cpu.stacks, ARENA_LIMITS) ==> Step(s, e).cpu.stacks == s.cpu.stacks
    ensures Step(s, e).cpu.stacks != s.cpu.stacks ==>
              Step(s, e).cpu.skip || !Fits(Step(s, e).cpu.stacks, ARENA_LIMITS)
  {
  }

  /** While a stored stack waits for its switch, the list does not change. */
  lemma {:induction false} FrozenWhileSkipping(from: History, h: History)
    requires OneStretch(from, h) && Run(from).cpu.skip
    ensures Run(h).cpu.skip && Run(h).cpu.stacks == Run(from).cpu.stacks
  {
    if h != from {
      hide Step;
      FrozenWhileSkipping(from, h.past);
      StretchStep(Run(h.past), h.last);
    }
  }

  /** At most one stack is stored between two handled switches. */
  lemma {:induction false} OneStackPerStretch(from: History, h: History)
    requires OneStretch(from, h)
    ensures Run(from).cpu.stacks <= Run(h).cpu.stacks
    ensures |Run(h).cpu.stacks| <= |Run(from).cpu.stacks| + 1
    ensures |Run(h).cpu.stacks| > |Run(from).cpu.stacks| ==>
              Run(h).cpu.skip || !Fits(Run(h).cpu.stacks, ARENA_LIMITS)
  {
    if h != from {
      hide Step, Fits;
      OneStackPerStretch(from, h.past);
      StretchStep(Run(h.past), h.last);
    }
  }

  // The duration that a stored stack ends up with.

  /** A busy tick that stores its stack and leaves frames free. */
  predicate Catches(s: System, env: Env) {
    Stores(s, env) &&
    SavedOk(s.cpu.stacks, TagOf(env, Sub64(env.now, s.cpu.last)), env.unwound, ARENA_LIMITS)
  }

  /** The switch after a caught stack rewrites the duration of that stack and no other. */
  lemma SwitchFinishesTheStack(from: History, env: Env, h: History, now: u64, counted: bool)
    requires Catches(Run(from), env) && OneStretch(After(from, Tick(env, true)), h)
    requires Run(h).enabled
    ensures
      var before, caught := Run(from).cpu.stacks, Run(After(from, Tick(env, true))).cpu.stacks;
      var s' := Step(Run(h), Switch(now, counted));
      && |caught| == |before| + 1
      && s'.fault == Run(h).fault && !s'.cpu.skip
      && s'.cpu.stacks == Rewritten(caught, Sub64(now, Run(h).cpu.last))
      && s'.cpu.stacks[..|before|] == before
  {
    FrozenWhileSkipping(After(from, Tick(env, true)), h);
  }

  /**
   A stored stack gets its final duration at the next handled switch exactly when storing it
   left frames free; the stack that uses up the frames keeps its preliminary duration.
   */
  lemma FinishedUnlessFull(from: History, env: Env, h: History, now: u64, counted: bool)
    requires Stores(Run(from), env) && Fits(Run(from).cpu.stacks, ARENA_LIMITS)
    requires OneStretch(After(from, Tick(env, true)), h) && Run(h).enabled
    ensures
      var stored := Run(After(from, Tick(env, true))).cpu.stacks;
      && |stored| == |Run(from).cpu.stacks| + 1
      && stored[|stored| - 1].tag.nsecs == Sub64(env.now, Run(from).cpu.last)
      && Step(Run(h), Switch(now, counted)).cpu.stacks ==
         (if FrameCount(stored) < ARENA_LIMITS.frames
          then Rewritten(stored, Sub64(now, Run(h).cpu.last)) else stored)
  {
    hide Step, Fits, FrameCount, Saved, SavedOk, Rewritten;
    StoringTick(Run(from), env);
    if Catches(Run(from), env) {
      SwitchFinishesTheStack(from, env, h, now, counted);
    } else {
      FullStaysFull(After(from, Tick(env, true)), h);
      IdleSwitch(Run(h), now, counted);
    }
  }

  /** A tick that stores a stack waits for its switch exactly if frames are left. */
  lemma StoringTick(s: System, env: Env)
    requires Sized(s) && Stores(s, env) && Fits(s.cpu.stacks, ARENA_LIMITS)
    ensures
      var c := Step(s, Tick(env, true)).cpu;
      && |c.stacks| == |s.cpu.stacks| + 1
      && c.stacks[|c.stacks| - 1].tag.nsecs == Sub64(env.now, s.cpu.last)
      && (c.skip <==> Catches(s, env)) && (c.skip <==> FrameCount(c.stacks) < ARENA_LIMITS.frames)
      && (c.skip || !Fits(c.stacks, ARENA_LIMITS))
  {
    hide FrameCount;
  }

  /** A switch that no stack waits for leaves the stacks alone. */
  lemma IdleSwitch(s: System, now: u64, counted: bool)
    requires Sized(s) && !s.cpu.skip
    ensures Step(s, Switch(now, counted)).cpu.stacks == s.cpu.stacks
  {
  }

  lemma {:induction false} FullStaysFull(from: History, h: History)
    requires OneStretch(from, h) && !Run(from).cpu.skip && !Fits(Run(from).cpu.stacks, ARENA_LIMITS)
    ensures Run(h).cpu.stacks == Run(from).cpu.stacks && !Run(h).cpu.skip
  {
    if h != from {
      FullStaysFull(from, h.past);
      hide FrameCount, Saved, SavedOk;
      FullStep(Run(h.past), h.last);
    }
  }

  lemma FullStep(s: System, e: Event)
    requires Sized(s) && !s.cpu.skip && !Fits(s.cpu.stacks, ARENA_LIMITS)
    requires !HandledSwitch(s, e) && !e.Clear?
    ensures Step(s, e).cpu.stacks == s.cpu.stacks && !Step(s, e).cpu.skip
  {
  }

  /** When the start of the stretch was last moved between `from` and `h`. */
  function LastRefresh(from: History, h: History): Option<u64> {
    if h == from || h.Loaded? then None
    else match h.last
         case Tick(env, busy) => if busy then LastRefresh(from, h.past) else Some(env.now)
         case StartTimer(now) => Some(now)
         case _ => LastRefresh(from, h.past)
  }

  /** What a step does to the start of the stretch, the clock and the fault mark. */
  lemma TimesOfStep(s: System, e: Event)
    requires Sized(s)
    ensures
      var s' := Step(s, e);
      && (e.Tick? ==> s'.clock == e.env.now && s'.cpu.last == if e.busy then s.cpu.last else e.env.now)
      && (e.StartTimer? ==> s'.clock == s'.cpu.last == e.now)
      && (e.Switch? && !s'.fault ==>
            s'.clock == e.now && s'.cpu.last == if s.enabled then e.now else s.cpu.last)
      && (e.Clear? || e.Enable? || e.Threshold? ==> s'.clock == s.clock && s'.cpu.last == s.cpu.last)
      && (s.fault ==> s'.fault)
      && (!HandledSwitch(s, e) ==>
            s'.fault == s.fault && (e.Switch? ==> s'.clock == e.now && s'.cpu.last == s.cpu.last))
  {
    hide Saved, SavedOk, Rewritten, HistUpdate;
  }

  lemma {:induction false} LastSince(from: History, h: History)
    requires OneStretch(from, h)
    ensures Run(h).cpu.last == match LastRefresh(from, h)
                               case None => Run(from).cpu.last
                               case Some(t) => t
  {
    if h != from {
      hide Step;
      TimesOfStep(Run(h.past), h.last);
      LastSince(from, h.past);
    }
  }

  function TimeOf(e: Event, clock: u64): u64 {
    match e
    case Tick(env, _) => env.now
    case Switch(now, _) => now
    case StartTimer(now) => now
    case _ => clock
  }

  predicate Clocked(h: History) {
    h.After? ==> Clocked(h.past) && Run(h.past).clock <= TimeOf(h.last, Run(h.past).clock)
  }

  lemma {:induction false} ClockBounds(h: History)
    requires Clocked(h) && !Run(h).fault
    ensures Run(h).cpu.last <= Run(h).clock
  {
    if h.After? {
      hide Step;
      TimesOfStep(Run(h.past), h.last);
      ClockBounds(h.past);
    }
  }

  lemma {:induction false} ClockGrows(from: History, h: History)
    requires OneStretch(from, h) && Clocked(h)
    ensures Clocked(from) && Run(from).clock <= Run(h).clock && Run(h).fault == Run(from).fault
  {
    if h != from {
      hide Step;
      TimesOfStep(Run(h.past), h.last);
      ClockGrows(from, h.past);
    }
  }

  /**
   The final duration is at least the one at which the stack was stored if and only if no
   idle or user-mode tick restarted the measurement in between, or the last one did so that
   long ago.
   */
  lemma FinalDurationIff(from: History, env: Env, h: History, now: u64, counted: bool)
    requires Catches(Run(from), env) && OneStretch(After(from, Tick(env, true)), h)
    requires Run(h).enabled && !Run(from).fault
    requires Clocked(After(h, Switch(now, counted)))
    ensures
      var first := Sub64(env.now, Run(from).cpu.last);
      var final := Sub64(now, Run(h).cpu.last);
      var refresh := LastRefresh(After(from, Tick(env, true)), h);
      final >= first <==> refresh.None? || now - refresh.value >= first
  {
    var start := After(from, Tick(env, true));
    ClockGrows(start, h);
    ClockBounds(from);
    ClockBounds(h);
    LastSince(start, h);
  }

  // Clearing while a stack waits for its switch.

  /** Clears come only when no stack waits for its switch. */
  predicate TimelyClears(h: History) {
    h.After? ==> TimelyClears(h.past) && (h.last.Clear? ==> !Run(h.past).cpu.skip)
  }

  /** With timely clears there always is a stack to finish. */
  lemma {:induction false} SomethingToFinish(h: History)
    requires TimelyClears(h)
    ensures !Run(h).fault && (Run(h).cpu.skip ==> Run(h).cpu.stacks != [])
  {
    if h.After? {
      SomethingToFinish(h.past);
    }
  }

  /** A handled switch goes wrong if and only if a clear came while its stack was waiting. */
  lemma SwitchFaultIff(from: History, env: Env, h: History, now: u64, counted: bool)
    requires TimelyClears(from) && Catches(Run(from), env)
    requires NoHandledSwitch(After(from, Tick(env, true)), h) && Run(h).enabled
    ensures Step(Run(h), Switch(now, counted)).fault <==>
            !OneStretch(After(from, Tick(env, true)), h)
  {
    SomethingToFinish(from);
    WaitingSince(After(from, Tick(env, true)), h);
  }

  predicate NoHandledSwitch(from: History, h: History) {
    h == from ||
    (h.After? && !HandledSwitch(Run(h.past), h.last) && NoHandledSwitch(from, h.past))
  }

  lemma WaitingStep(s: System, e: Event)
    requires Sized(s) && s.cpu.skip && !HandledSwitch(s, e)
    ensures Step(s, e).cpu.skip && Step(s, e).fault == s.fault
    ensures Step(s, e).cpu.stacks == if e.Clear? then [] else s.cpu.stacks
  {
  }

  lemma {:induction false} WaitingSince(from: History, h: History)
    requires NoHandledSwitch(from, h) && Run(from).cpu.skip && Run(from).cpu.stacks != []
    ensures Run(h).cpu.skip && Run(h).fault == Run(from).fault
    ensures Run(h).cpu.stacks == if OneStretch(from, h) then Run(from).cpu.stacks else []
  {
    if h != from {
      hide Step;
      WaitingSince(from, h.past);
      WaitingStep(Run(h.past), h.last);
    }
  }

  // Runs in which the duration is wrong or the switch faults.

  function At(msecs: nat, unwound: seq<Frame>): Env
    requires msecs < 1000
  {
    Env(msecs * 1_000_000, "task", 1, unwound)
  }

  const ENABLED := After(Loaded, Enable(true))

  /** A clear between the stack of a 60 ms stretch and the switch that ends the stretch. */
  lemma ClearedStackFaults()
    ensures
      var h := After(After(ENABLED, Tick(At(60, []), true)), Event.Clear);
      Run(h).cpu.skip && Run(h).cpu.stacks == [] && Run(After(h, Switch(70_000_000, true))).fault
  {
    var h := After(ENABLED, Tick(At(60, []), true));
    FirstStack([]);
    hide Run, Step;
    assert Run(After(h, Event.Clear)) == Step(Run(h), Event.Clear) by { NextStep(h, Event.Clear); }
    ClearThenSwitch(Run(h), 70_000_000, true);
    NextStep(After(h, Event.Clear), Switch(70_000_000, true));
  }

  lemma NextStep(h: History, e: Event)
    ensures Run(After(h, e)) == Step(Run(h), e)
  {
  }

  lemma ClearThenSwitch(s: System, now: u64, counted: bool)
    requires Sized(s) && s.enabled && s.cpu.skip
    ensures
      var s' := Step(s, Event.Clear);
      s'.cpu.skip && s'.cpu.stacks == [] && Step(s', Switch(now, counted)).fault
  {
    hide HistUpdate, Rewritten;
  }

  /** The first stack of a run, taken after 60 ms. */
  lemma FirstStack(unwound: seq<Frame>)
    requires |unwound| <= 128
    ensures
      var c := Run(After(ENABLED, Tick(At(60, unwound), true))).cpu;
      && c.stacks == [Stack(TagOf(At(60, unwound), 60_000_000), unwound)]
      && c.last == 0 && (c.skip <==> |unwound| < 128)
    ensures Run(After(ENABLED, Tick(At(60, unwound), true))).enabled
  {
    assert Run(ENABLED).cpu == Cpu(0, false, [], Zeros(DURATION_HISTOGRAM_ENTRY));
    var tag := TagOf(At(60, unwound), 60_000_000);
    assert FrameCount([]) == 0;
    assert [Stack(tag, unwound)][..0] == [];
    assert FrameCount([Stack(tag, unwound)]) == |unwound|;
    assert Saved([], tag, unwound, ARENA_LIMITS) == [] + [Stack(tag, unwound)];
  }

  /** A stack of 128 frames keeps its 60 ms although the switch comes after 90 ms. */
  lemma FullStackKeepsDuration(unwound: seq<Frame>)
    requires |unwound| == 128
    ensures
      var h := After(After(ENABLED, Tick(At(60, unwound), true)), Switch(90_000_000, true));
      && |Run(h).cpu.stacks| == 1 && Run(h).cpu.stacks[0].tag.nsecs == 60_000_000
      && Run(h).cpu.last == 90_000_000
  {
    FirstStack(unwound);
    assert Run(After(ENABLED, Tick(At(60, unwound), true))).enabled;
  }

  /** A tick in user mode at 100 ms makes the final duration of a 101 ms stretch 1 ms. */
  lemma RefreshShrinksDuration()
    ensures
      var h := After(After(ENABLED, Tick(At(60, []), true)), Tick(At(100, []), false));
      var c := Run(After(h, Switch(101_000_000, true))).cpu;
      && Clocked(After(h, Switch(101_000_000, true)))
      && |c.stacks| == 1 && c.stacks[0].tag.nsecs == 1_000_000
  {
    var h := After(ENABLED, Tick(At(60, []), true));
    FirstStack([]);
    assert Clocked(ENABLED) && Run(ENABLED).clock == 0;
    assert Run(h).enabled && Run(h).clock == 60_000_000 && Clocked(h);
    var h' := After(h, Tick(At(100, []), false));
    assert Run(h').cpu == Run(h).cpu.(last := 100_000_000) && Run(h').enabled;
    assert Clocked(h') && Run(h').clock == 100_000_000;
  }
}
