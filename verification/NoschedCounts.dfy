/**
 What the no-schedule sampler counts and stores, told from the events alone.
 */
module NoschedCounts {
  import opened Bits
  import opened NoschedModel
  import A = StackArena

  /**
   What the events say: when the current stretch began, the two controls, whether a stack waits
   for its switch, and the stacks.
   */
  datatype Watch = Watch(began: u64, enabled: bool, threshold: u64, waiting: bool, stacks: seq<A.Stack>)

  const UNWATCHED := Watch(0, false, DEFAULT_THRESHOLD, false, [])

  /** The switch ends a stretch that is measured. */
  predicate EndsStretch(w: Watch, e: Event) {
    e.Switch? && w.enabled
  }

  function Duration(w: Watch, now: u64): u64 {
    Sub64(now, w.began)
  }

  /** A tick in the kernel, with others waiting, that is the first to find the stretch too long. */
  predicate Catch(w: Watch, e: Event) {
    e.Tick? && e.busy && !w.waiting && Duration(w, e.env.now) >= w.threshold
  }

  function Began(w: Watch, e: Event): u64 {
    match e
    case Tick(env, busy) => if busy then w.began else env.now
    case StartTimer(now) => now
    case Switch(now, _) => if w.enabled then now else w.began
    case _ => w.began
  }

  function Stacks(w: Watch, e: Event): seq<A.Stack> {
    if e.Clear? then []
    else if Catch(w, e) then
      A.Saved(w.stacks, A.Tag(e.env.comm, e.env.pid, Duration(w, e.env.now), false), e.env.unwound, ARENA_LIMITS)
    else if EndsStretch(w, e) && w.waiting then A.Rewritten(w.stacks, Duration(w, e.now))
    else w.stacks
  }

  /** A stack waits for its switch if it was stored and did not take the last frame. */
  predicate Waits(w: Watch, e: Event) {
    if Catch(w, e) then |Stacks(w, e)| > |w.stacks| && A.FrameCount(Stacks(w, e)) < 128
    else w.waiting && !EndsStretch(w, e)
  }

  function Observe(h: History): Watch {
    match h
    case Loaded => UNWATCHED
    case After(past, e) =>
      var w := Observe(past);
      Watch(Began(w, e), if e.Enable? then e.on else w.enabled,
            if e.Threshold? then e.t else w.threshold, Waits(w, e), Stacks(w, e))
  }

  ghost predicate Tells(s: System, w: Watch) {
    && s.cpu.last == w.began && s.enabled == w.enabled && s.threshold == w.threshold
    && s.cpu.skip == w.waiting && s.cpu.stacks == w.stacks
  }

  lemma StepTells(s: System, w: Watch, e: Event)
    requires Sized(s) && Tells(s, w) && !Step(s, e).fault
    ensures Tells(Step(s, e), Watch(Began(w, e), if e.Enable? then e.on else w.enabled,
                                    if e.Threshold? then e.t else w.threshold, Waits(w, e), Stacks(w, e)))
  {
    hide HistUpdate, A.FrameCount, A.Rewritten;
  }

  /** In every run without a fault, each variable of a CPU is what the events say about it. */
  lemma {:induction false} RunTells(h: History)
    requires !Run(h).fault
    ensures Tells(Run(h), Observe(h))
  {
    hide Step, Began, Waits, Stacks;
    if h.After? {
      TimesOfStep(Run(h.past), h.last);
      RunTells(h.past);
      StepTells(Run(h.past), Observe(h.past), h.last);
    }
  }

  // The histogram.

  /** The stretches of at least 20 ms that ended in a counted switch, since the last clear. */
  function Durations(h: History): seq<u64> {
    match h
    case Loaded => []
    case After(past, e) =>
      var w := Observe(past);
      if e.Clear? then []
      else if EndsStretch(w, e) && e.counted && Duration(w, e.now) >= 20_000_000
      then Durations(past) + [Duration(w, e.now)]
      else Durations(past)
  }

  /** Bucket `i` is the place of the duration; the last bucket takes the rest. */
  predicate BelongsTo(d: u64, i: nat) {
    20_000_000 * Pow2(i) <= d && (i == DURATION_HISTOGRAM_ENTRY - 1 || d < 20_000_000 * Pow2(i + 1))
  }

  function HowMany(ds: seq<u64>, i: nat): nat {
    if ds == [] then 0
    else HowMany(ds[..|ds| - 1], i) + (if BelongsTo(ds[|ds| - 1], i) then 1 else 0)
  }

  lemma HowManyAppend(ds: seq<u64>, d: u64, i: nat)
    ensures HowMany(ds + [d], i) == HowMany(ds, i) + (if BelongsTo(d, i) then 1 else 0)
  {
    hide BelongsTo;
    assert (ds + [d])[..|ds|] == ds;
  }

  lemma BelongsToItsIndex(d: u64, i: nat)
    requires STEP <= d && i < DURATION_HISTOGRAM_ENTRY
    ensures HistIndex(d) == i <==> BelongsTo(d, i)
  {
    hide Bucket, Pow2;
    if i < DURATION_HISTOGRAM_ENTRY - 1 {
      BucketRange(d, i);
    } else {
      BucketBelow(d, STEP, i);
    }
  }

  /** The histogram after a step: one more in the bucket of a counted duration. */
  lemma HistOfStep(s: System, w: Watch, e: Event)
    requires Sized(s) && Tells(s, w) && !Step(s, e).fault
    ensures Step(s, e).cpu.hist ==
            if e.Clear? then Zeros(DURATION_HISTOGRAM_ENTRY)
            else if EndsStretch(w, e) && e.counted && Duration(w, e.now) >= STEP
            then s.cpu.hist[HistIndex(Duration(w, e.now)) := s.cpu.hist[HistIndex(Duration(w, e.now))] + 1]
            else s.cpu.hist
  {
    hide HistIndex, A.Saved, A.SavedOk, A.Rewritten;
  }

  /** In every run without a fault each bucket holds the number of counted durations that belong to it. */
  lemma {:induction false} HistogramExact(h: History, i: nat)
    requires !Run(h).fault && i < DURATION_HISTOGRAM_ENTRY
    ensures Run(h).cpu.hist[i] == HowMany(Durations(h), i)
  {
    hide Step, HistIndex, BelongsTo, Observe;
    if h.After? {
      var s, w, e := Run(h.past), Observe(h.past), h.last;
      TimesOfStep(s, e);
      HistogramExact(h.past, i);
      RunTells(h.past);
      HistOfStep(s, w, e);
      if EndsStretch(w, e) && e.counted && Duration(w, e.now) >= STEP {
        BelongsToItsIndex(Duration(w, e.now), i);
        HowManyAppend(Durations(h.past), Duration(w, e.now), i);
      }
    }
  }

  /** The counts sum to the number of counted switches of at least 20 ms. */
  lemma {:induction false} HistogramTotal(h: History)
    requires !Run(h).fault
    ensures Sum(Run(h).cpu.hist) == |Durations(h)|
  {
    hide Step, HistIndex, Observe, Sum, Zeros;
    SumZeros(DURATION_HISTOGRAM_ENTRY);
    if h.After? {
      var s, w, e := Run(h.past), Observe(h.past), h.last;
      TimesOfStep(s, e);
      HistogramTotal(h.past);
      RunTells(h.past);
      HistOfStep(s, w, e);
      if EndsStretch(w, e) && e.counted && Duration(w, e.now) >= STEP {
        SumIncrement(s.cpu.hist, HistIndex(Duration(w, e.now)));
      }
    }
  }

  /** The first counted switch comes after 100 ms: it is counted in bucket 2. */
  lemma HundredMilliseconds()
    ensures
      var h := After(ENABLED, Switch(100_000_000, true));
      !Run(h).fault && Run(h).cpu.hist[2] == 1 && Run(h).cpu.hist[0] == 0
  {
    var h := After(ENABLED, Switch(100_000_000, true));
    assert Observe(ENABLED) == UNWATCHED.(enabled := true);
    assert !Run(ENABLED).cpu.skip && !Run(h).fault;
    assert Durations(h) == [] + [100_000_000];
    hide Run;
    HistogramExact(h, 0);
    HistogramExact(h, 2);
    HowManyAppend([], 100_000_000, 0);
    HowManyAppend([], 100_000_000, 2);
    assert Pow2(1) == 2 && Pow2(2) == 4 && Pow2(3) == 8;
  }
}
