/**
 The run-queue latency tracer on values: one traced task, the traces published so far and
 the trace still open. Every event handler is one atomic step, as the lock makes it; an
 unlocked check that goes stale only makes a probe return early, so a lost race is a run
 without that event.
 */
module RunqlatModel {
  import opened Bits

  const MAX_TRACE_ENTRIES := 128
  const MAX_TRACE_ENTRY_TASKS := 2048
  const LATENCY_HISTOGRAM_ENTRY := 12
  const THRESHOLD_DEFAULT: u64 := 20_000_000
  const INVALID_PID := -1
  const INVALID_CPU := -1
  const NSEC_PER_MSEC := 1_000_000

  /** A task as the tracepoints hand it over. */
  datatype Task = Task(pid: nat, comm: string, idle: bool)

  datatype TaskEntry = TaskEntry(runtime: u64, pid: int, comm: string)

  datatype Trace = Trace(latency: u64, tasks: seq<TaskEntry>)

  datatype Tracer = Tracer(
    pid: int,
    cpu: int,
    rqStart: u64,
    runStart: u64,
    threshold: u64,
    curr: Option<Task>,
    hist: seq<nat>,
    sumLat: u64,
    published: seq<Trace>,
    open: seq<TaskEntry>)

  datatype Event =
    | Wakeup(p: Task, cpu: nat, now: u64)
    | Switch(onCpu: nat, prev: Task, prevCpu: nat, prevRunning: bool, next: Task, now: u64)
    | Migrate(p: Task, cpu: nat, now: u64)
    | StorePid(pid: int)
    | StoreThreshold(threshold: u64)

  const INIT: Tracer :=
    Tracer(INVALID_PID, INVALID_CPU, 0, 0, THRESHOLD_DEFAULT, None,
           Zeros(LATENCY_HISTOGRAM_ENTRY), 0, [], [])

  /** Task records held by published traces. */
  function Recorded(traces: seq<Trace>): nat {
    if traces == [] then 0
    else Recorded(traces[..|traces| - 1]) + |traces[|traces| - 1].tasks|
  }

  /** All task records in use, the open trace included. */
  function NrTask(s: Tracer): nat {
    Recorded(s.published) + |s.open|
  }

  function Reset(s: Tracer): Tracer {
    s.(rqStart := 0, runStart := 0, cpu := INVALID_CPU, curr := None)
  }

  function RecordTask(s: Tracer, p: Task, runtime: u64): Tracer {
    var s' := s.(open := s.open + [TaskEntry(runtime, p.pid, p.comm)]);
    if NrTask(s') >= MAX_TRACE_ENTRY_TASKS then Reset(s').(pid := INVALID_PID) else s'
  }

  function HistIndex(latency: nat): (i: nat)
    ensures i < LATENCY_HISTOGRAM_ENTRY
  {
    var index := Bucket(latency / NSEC_PER_MSEC, 1);
    if index >= LATENCY_HISTOGRAM_ENTRY then LATENCY_HISTOGRAM_ENTRY - 1 else index
  }

  function CountLatency(s: Tracer, latency: u64): Tracer
    requires |s.hist| == LATENCY_HISTOGRAM_ENTRY
  {
    var i := HistIndex(latency);
    s.(hist := s.hist[i := s.hist[i] + 1],
       sumLat := Add64(s.sumLat, latency / NSEC_PER_MSEC))
  }

  /** Publish the open trace if the wait was long enough, else drop it. */
  function CloseOpen(s: Tracer, latency: u64): Tracer {
    if latency >= s.threshold then
      var p := s.(published := s.published + [Trace(latency, s.open)], open := []);
      if |p.published| >= MAX_TRACE_ENTRIES then Reset(p).(pid := INVALID_PID) else p
    else s.(open := [])
  }

  function Commit(s: Tracer, latency: u64): Tracer
    requires |s.hist| == LATENCY_HISTOGRAM_ENTRY
  {
    var s' := CountLatency(s, latency);
    if s.open == [] then s' else CloseOpen(s', latency)
  }

  function DoWakeup(s: Tracer, p: Task, cpu: nat, now: u64): Tracer {
    if p.pid != s.pid then s
    else s.(rqStart := now, runStart := now, cpu := cpu)
  }

  function SeeNext(s: Tracer, next: Task): Tracer {
    if next.idle then s else s.(curr := Some(next))
  }

  /** Charge the time since the last record to `p`, unless no record was started. */
  function Charge(s: Tracer, p: Task, now: u64): Tracer {
    if s.runStart != 0 then RecordTask(s, p, Sub64(now, s.runStart)) else s
  }

  function DoSwitch(s: Tracer, onCpu: nat, prev: Task, prevCpu: nat, prevRunning: bool,
                    next: Task, now: u64): Tracer
    requires |s.hist| == LATENCY_HISTOGRAM_ENTRY
  {
    if s.pid == INVALID_PID then s
    else if s.cpu == INVALID_CPU then
      if s.pid != prev.pid || !prevRunning then s
      else SeeNext(s.(rqStart := now, runStart := now, cpu := prevCpu), next)
    else if s.cpu != onCpu then s
    else
      var s1 := SeeNext(s, next);
      if s.pid == next.pid then
        var s2 := Charge(s1, prev, now);
        Commit(s2, Sub64(now, s2.rqStart))
      else if s.pid == prev.pid then
        if prevRunning then s1.(rqStart := now, runStart := now) else Reset(s1)
      else
        Charge(s1, prev, now).(runStart := now)
  }

  function DoMigrate(s: Tracer, p: Task, cpu: nat, now: u64): Tracer {
    if p.pid != s.pid || s.cpu == INVALID_CPU then s
    else
      var s1 := if s.curr.Some? then Charge(s, s.curr.value, now) else s;
      s1.(cpu := cpu, runStart := now)
  }

  /** The locked section of a pid write; the check before it may be stale by then. */
  function DoStorePid(s: Tracer, pid: int): Tracer {
    if s.pid == pid then s
    else if pid != INVALID_PID then
      Reset(s).(published := [], open := [],
                hist := Zeros(LATENCY_HISTOGRAM_ENTRY), pid := pid)
    else Reset(s).(pid := pid)
  }

  function Step(s: Tracer, e: Event): Tracer
    requires |s.hist| == LATENCY_HISTOGRAM_ENTRY
  {
    match e
    case Wakeup(p, cpu, now) => DoWakeup(s, p, cpu, now)
    case Switch(onCpu, prev, prevCpu, prevRunning, next, now) =>
      DoSwitch(s, onCpu, prev, prevCpu, prevRunning, next, now)
    case Migrate(p, cpu, now) => DoMigrate(s, p, cpu, now)
    case StorePid(pid) => DoStorePid(s, pid)
    case StoreThreshold(t) => s.(threshold := t)
  }

  /** What every reachable state satisfies, whatever the scheduler does. */
  ghost predicate Safe(s: Tracer) {
    && |s.hist| == LATENCY_HISTOGRAM_ENTRY
    && |s.published| <= MAX_TRACE_ENTRIES
    && NrTask(s) <= MAX_TRACE_ENTRY_TASKS
    && (s.pid != INVALID_PID ==>
          |s.published| < MAX_TRACE_ENTRIES && NrTask(s) < MAX_TRACE_ENTRY_TASKS)
    && (forall t :: t in s.published ==> t.tasks != [])
  }

  /** Everything that happened since the module was loaded. */
  datatype History = Loaded | After(past: History, last: Event)

  function Run(h: History): (s: Tracer)
    ensures Safe(s)
  {
    match h
    case Loaded => INIT
    case After(past, e) =>
      StepSafe(Run(past), e);
      Step(Run(past), e)
  }

  // Safety of the record buffers.

  lemma PublishRecorded(traces: seq<Trace>, t: Trace)
    ensures Recorded(traces + [t]) == Recorded(traces) + |t.tasks|
  {
    assert (traces + [t])[..|traces|] == traces;
  }

  lemma RecordSafe(s: Tracer, p: Task, runtime: u64)
    requires Safe(s) && |s.published| < MAX_TRACE_ENTRIES && NrTask(s) < MAX_TRACE_ENTRY_TASKS
    ensures Safe(RecordTask(s, p, runtime))
  {
  }

  /** Recording into a state with room leaves it safe, even when it forces tracing off. */
  lemma ChargeSafe(s: Tracer, p: Task, now: u64)
    requires Safe(s) && s.pid != INVALID_PID
    ensures Safe(Charge(s, p, now)) && |Charge(s, p, now).published| < MAX_TRACE_ENTRIES
  {
  }

  lemma CloseSafe(s: Tracer, latency: u64)
    requires Safe(s) && |s.published| < MAX_TRACE_ENTRIES && s.open != []
    ensures Safe(CloseOpen(s, latency))
  {
    PublishRecorded(s.published, Trace(latency, s.open));
  }

  lemma CommitSafe(s: Tracer, latency: u64)
    requires Safe(s) && |s.published| < MAX_TRACE_ENTRIES
    ensures Safe(Commit(s, latency))
  {
    if s.open != [] {
      CloseSafe(CountLatency(s, latency), latency);
    }
  }

  lemma StorePidSafe(s: Tracer, pid: int)
    requires Safe(s)
    ensures Safe(DoStorePid(s, pid))
  {
  }

  /** No event, in any order, overruns either record buffer. */
  lemma StepSafe(s: Tracer, e: Event)
    requires Safe(s)
    ensures Safe(Step(s, e))
  {
    hide Charge, Commit;
    match e
    case Switch(onCpu, prev, prevCpu, prevRunning, next, now) =>
      if s.pid != INVALID_PID && s.cpu != INVALID_CPU && s.cpu == onCpu {
        var s1 := SeeNext(s, next);
        ChargeSafe(s1, prev, now);
        if s.pid == next.pid {
          var s2 := Charge(s1, prev, now);
          CommitSafe(s2, Sub64(now, s2.rqStart));
        }
      }
    case Migrate(p, cpu, now) =>
      if p.pid == s.pid && s.curr.Some? {
        ChargeSafe(s, s.curr.value, now);
      }
    case _ =>
  }

  // What the parts of a step leave alone.

  lemma ChargeEffect(s: Tracer, p: Task, now: u64)
    ensures var s' := Charge(s, p, now);
            s'.published == s.published && s'.hist == s.hist && s'.sumLat == s.sumLat
  {
  }

  /** A commit counts the latency and publishes the open list if it is long enough. */
  lemma CommitEffect(s: Tracer, latency: u64)
    requires |s.hist| == LATENCY_HISTOGRAM_ENTRY
    ensures
      var s', i := Commit(s, latency), HistIndex(latency);
      && s'.open == []
      && s'.published == (if s.open != [] && latency >= s.threshold
                          then s.published + [Trace(latency, s.open)] else s.published)
      && s'.hist == s.hist[i := s.hist[i] + 1]
      && s'.sumLat == Add64(s.sumLat, latency / NSEC_PER_MSEC)
  {
  }

  // Published traces are immutable.

  /** A pid write that starts a new session and so clears the buffers. */
  predicate Restarts(s: Tracer, e: Event) {
    e.StorePid? && e.pid != INVALID_PID && e.pid != s.pid
  }

  /** The latency that event `e` commits in state `s`: the traced task gets the CPU. */
  function Committed(s: Tracer, e: Event): Option<u64> {
    if e.Switch? && s.pid != INVALID_PID && s.cpu != INVALID_CPU && s.cpu == e.onCpu &&
       s.pid == e.next.pid
    then Some(Sub64(e.now, Charge(SeeNext(s, e.next), e.prev, e.now).rqStart))
    else None
  }

  /** The trace, if any, that event `e` publishes in state `s`. */
  function Published(s: Tracer, e: Event): Option<Trace> {
    if Committed(s, e).Some? then
      var s2 := Charge(SeeNext(s, e.next), e.prev, e.now);
      var latency := Committed(s, e).value;
      if s2.open != [] && latency >= s.threshold then Some(Trace(latency, s2.open)) else None
    else None
  }

  /** A step that commits nothing and starts no session changes no output. */
  lemma StepQuiet(s: Tracer, e: Event)
    requires Safe(s) && !Restarts(s, e) && Committed(s, e).None?
    ensures var s' := Step(s, e);
            s'.published == s.published && s'.hist == s.hist && s'.sumLat == s.sumLat
  {
    if e.Switch? {
      ChargeEffect(SeeNext(s, e.next), e.prev, e.now);
    } else if e.Migrate? && s.curr.Some? {
      ChargeEffect(s, s.curr.value, e.now);
    }
    hide Charge, Commit;
  }

  /** A committing step publishes at most one trace and counts its latency once. */
  lemma StepCommits(s: Tracer, e: Event)
    requires Safe(s) && Committed(s, e).Some?
    ensures
      var s', latency := Step(s, e), Committed(s, e).value;
      var i := HistIndex(latency);
      && s'.open == []
      && s'.published == (match Published(s, e)
                          case None => s.published
                          case Some(t) => s.published + [t])
      && s'.hist == s.hist[i := s.hist[i] + 1]
      && s'.sumLat == Add64(s.sumLat, latency / NSEC_PER_MSEC)
  {
    var s2 := Charge(SeeNext(s, e.next), e.prev, e.now);
    ChargeEffect(SeeNext(s, e.next), e.prev, e.now);
    assert s2.threshold == s.threshold;
    CommitEffect(s2, Sub64(e.now, s2.rqStart));
    hide Charge, Commit, HistIndex, Add64;
  }

  /** No event of the run from `from` to `h` starts a new session. */
  ghost predicate SameSession(from: History, h: History) {
    h == from ||
    (h.After? && !Restarts(Run(h.past), h.last) && SameSession(from, h.past))
  }

  /** Over any run without a restart, what was published stays, in place and in order. */
  lemma {:induction false} PublishedStable(from: History, h: History)
    requires SameSession(from, h)
    ensures Run(from).published <= Run(h).published
  {
    if h != from {
      PublishedStable(from, h.past);
      hide Step;
      if Committed(Run(h.past), h.last).Some? {
        StepCommits(Run(h.past), h.last);
      } else {
        StepQuiet(Run(h.past), h.last);
      }
    }
  }

  /** A session starts with nothing published and nothing open. */
  lemma RestartClears(s: Tracer, e: Event)
    requires Safe(s) && Restarts(s, e)
    ensures Committed(s, e).None?
    ensures var s' := Step(s, e);
            && s'.published == [] && s'.open == [] && s'.cpu == INVALID_CPU
            && s'.hist == Zeros(LATENCY_HISTOGRAM_ENTRY) && s'.sumLat == s.sumLat
  {
  }

  // The histogram counts exactly the commits of the session.

  /** Latencies committed since the last session start. */
  function Commits(h: History): seq<u64> {
    match h
    case Loaded => []
    case After(past, e) =>
      if Restarts(Run(past), e) then []
      else match Committed(Run(past), e)
           case None => Commits(past)
           case Some(latency) => Commits(past) + [latency]
  }

  /** How many of `latencies` fall into bucket `i`. */
  function InBucket(latencies: seq<u64>, i: nat): nat {
    if latencies == [] then 0
    else InBucket(latencies[..|latencies| - 1], i) +
         (if HistIndex(latencies[|latencies| - 1]) == i then 1 else 0)
  }

  lemma InBucketAppend(latencies: seq<u64>, x: u64, i: nat)
    ensures InBucket(latencies + [x], i) ==
            InBucket(latencies, i) + (if HistIndex(x) == i then 1 else 0)
  {
    assert (latencies + [x])[..|latencies|] == latencies;
  }

  /** Each bucket holds the number of committed latencies that belong to it. */
  lemma {:induction false} HistogramExact(h: History, i: nat)
    requires i < LATENCY_HISTOGRAM_ENTRY
    ensures Run(h).hist[i] == InBucket(Commits(h), i)
  {
    hide Step, Committed, HistIndex;
    if h.After? {
      var s, e := Run(h.past), h.last;
      HistogramExact(h.past, i);
      if Restarts(s, e) {
        RestartClears(s, e);
      } else if Committed(s, e).Some? {
        StepCommits(s, e);
        InBucketAppend(Commits(h.past), Committed(s, e).value, i);
      } else {
        StepQuiet(s, e);
      }
    }
  }

  /** The counts sum to the number of commits since the last start. */
  lemma {:induction false} HistogramTotal(h: History)
    ensures Sum(Run(h).hist) == |Commits(h)|
  {
    hide Step, Committed, HistIndex, Sum, Zeros;
    SumZeros(LATENCY_HISTOGRAM_ENTRY);
    if h.After? {
      var s, e := Run(h.past), h.last;
      HistogramTotal(h.past);
      if Restarts(s, e) {
        RestartClears(s, e);
      } else if Committed(s, e).Some? {
        StepCommits(s, e);
        SumIncrement(s.hist, HistIndex(Committed(s, e).value));
      } else {
        StepQuiet(s, e);
      }
    }
  }

  /**
   Bucket `i` below the last holds exactly the latencies of 2^i up to 2^(i+1) milliseconds;
   a latency under one millisecond is counted in bucket 0, under the label "1 -> 1".
   */
  lemma BucketRange(latency: u64, i: nat)
    requires i < LATENCY_HISTOGRAM_ENTRY - 1
    ensures HistIndex(latency) == i <==>
            (Pow2(i) <= latency / NSEC_PER_MSEC < Pow2(i + 1) ||
             (i == 0 && latency < NSEC_PER_MSEC))
  {
    var ms := latency / NSEC_PER_MSEC;
    if Pow2(i) <= ms < Pow2(i + 1) {
      BucketUnique(ms, 1, i);
    }
    assert Pow2(0) == 1 && Pow2(1) == 2;
  }

  /** A latency is counted under its printed range if and only if it is 1 ms up to 4096 ms. */
  lemma LabelIff(latency: u64)
    ensures var msecs := latency / NSEC_PER_MSEC;
            InRange(msecs, 1, HistIndex(latency)) <==> 1 <= msecs < Pow2(LATENCY_HISTOGRAM_ENTRY)
  {
    var msecs := latency / NSEC_PER_MSEC;
    hide Bucket, Pow2;
    if msecs >= 1 {
      CappedRangeIff(msecs, 1, LATENCY_HISTOGRAM_ENTRY);
    }
  }

  /** Half a millisecond is counted under "1 -> 1". */
  lemma HalfMillisecondIsMislabeled()
    ensures HistIndex(500_000) == 0 && !InRange(500_000 / NSEC_PER_MSEC, 1, 0)
  {
    assert Pow2(0) == 1;
  }

  /** Milliseconds committed over the whole run, across sessions. */
  function CommittedMsecs(h: History): nat {
    match h
    case Loaded => 0
    case After(past, e) =>
      CommittedMsecs(past) + CommittedBy(Run(past), e)
  }

  /** The milliseconds that event `e` commits in state `s`. */
  function CommittedBy(s: Tracer, e: Event): nat {
    if Committed(s, e).Some? then Committed(s, e).value / NSEC_PER_MSEC else 0
  }

  lemma SumStep(s: Tracer, e: Event)
    requires Safe(s)
    ensures Step(s, e).sumLat == (s.sumLat + CommittedBy(s, e)) % TWO64
    ensures Restarts(s, e) ==> CommittedBy(s, e) == 0
  {
    hide Step, Committed, HistIndex;
    if Restarts(s, e) {
      RestartClears(s, e);
    } else if Committed(s, e).Some? {
      StepCommits(s, e);
    } else {
      StepQuiet(s, e);
    }
  }

  /**
   Unlike the histogram beside which it is printed, the sum of latencies is not cleared when
   a session starts: it covers every commit since the module was loaded.
   */
  lemma {:induction false} SumSpansSessions(h: History)
    ensures Run(h).sumLat == CommittedMsecs(h) % TWO64
  {
    hide Step, CommittedBy, Restarts;
    if h.After? {
      SumSpansSessions(h.past);
      SumStep(Run(h.past), h.last);
      AddMod(CommittedMsecs(h.past), CommittedBy(Run(h.past), h.last));
    }
  }

  /** Milliseconds of the latencies of a session. */
  function Msecs(latencies: seq<u64>): nat {
    if latencies == [] then 0
    else Msecs(latencies[..|latencies| - 1]) + latencies[|latencies| - 1] / NSEC_PER_MSEC
  }

  /** Milliseconds committed before the session. */
  function EarlierMsecs(h: History): nat {
    match h
    case Loaded => 0
    case After(past, e) => if Restarts(Run(past), e) then CommittedMsecs(past) else EarlierMsecs(past)
  }

  lemma {:induction false} SessionSplit(h: History)
    ensures CommittedMsecs(h) == EarlierMsecs(h) + Msecs(Commits(h))
  {
    hide Step, Restarts, Committed;
    if h.After? {
      SessionSplit(h.past);
      var s, e := Run(h.past), h.last;
      SumStep(s, e);
      if !Restarts(s, e) && Committed(s, e).Some? {
        var before, x := Commits(h.past), Committed(s, e).value;
        assert (before + [x])[..|before|] == before;
      }
    }
  }

  /** The printed sum is that of the session if and only if nothing was committed before it. */
  lemma SumIsSessionIff(h: History)
    ensures Run(h).sumLat == Msecs(Commits(h)) % TWO64 <==> EarlierMsecs(h) % TWO64 == 0
  {
    hide Run, CommittedMsecs, Commits, EarlierMsecs, Msecs;
    SumSpansSessions(h);
    SessionSplit(h);
  }

  /** A task that waits for 5 ms, and then another session. */
  const TWO_SESSIONS :=
    After(After(After(After(Loaded, StorePid(1)),
                      Wakeup(Task(1, "a", false), 0, 1_000_000)),
                Switch(0, Task(2, "b", false), 0, true, Task(1, "a", false), 6_000_000)),
          StorePid(2))

  /** The second session starts with a printed sum of 5 ms. */
  lemma SumIncludesEarlierSession()
    ensures Run(TWO_SESSIONS).sumLat == 5 && Commits(TWO_SESSIONS) == []
  {
    hide HistIndex;
    var h1 := After(Loaded, StorePid(1));
    assert Run(h1).pid == 1 && Run(h1).sumLat == 0 && Run(h1).open == [] && Run(h1).published == [];
    var h2 := After(h1, Wakeup(Task(1, "a", false), 0, 1_000_000));
    var s2 := Run(h2);
    assert s2 == Run(h1).(rqStart := 1_000_000, runStart := 1_000_000, cpu := 0);
    var e := Switch(0, Task(2, "b", false), 0, true, Task(1, "a", false), 6_000_000);
    assert NrTask(s2) == 0;
    assert Committed(s2, e) == Some(5_000_000);
    SumStep(s2, e);
    var s3 := Run(After(h2, e));
    assert s3.pid == 1 && s3.sumLat == 5 by { KeepsPid(s2, e); }
    RestartClears(s3, StorePid(2));
  }

  /** A commit that fills no buffer leaves tracing on. */
  lemma KeepsPid(s: Tracer, e: Event)
    requires Safe(s) && Committed(s, e).Some? && NrTask(s) == 0 && s.published == []
    ensures Step(s, e).pid == s.pid
  {
    hide HistIndex;
  }
}
