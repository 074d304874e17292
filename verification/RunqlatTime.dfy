/**
 Where the waiting time goes. The runtimes of a published trace are meant to add up to its
 latency. They do so up to three quantities that are known from the event history, and in a
 consistent run these are all zero.
 */
module RunqlatTime {
  import opened Bits
  import opened RunqlatModel

  function Sum(tasks: seq<TaskEntry>): nat {
    if tasks == [] then 0 else Sum(tasks[..|tasks| - 1]) + tasks[|tasks| - 1].runtime
  }

  lemma SumAppend(tasks: seq<TaskEntry>, t: TaskEntry)
    ensures Sum(tasks + [t]) == Sum(tasks) + t.runtime
  {
    assert (tasks + [t])[..|tasks|] == tasks;
  }

  /** The runtimes of a trace account for its latency. */
  predicate Exact(t: Trace) {
    Sum(t.tasks) == t.latency
  }

  /**
   Time that the open trace and the current wait do not share:
   - carried: recorded in the open trace before the current wait began
   - unseen: passed while a migration found no current task to charge
   - settled: already reported by the last commit
   */
  datatype Ledger = Ledger(carried: nat, unseen: nat, settled: nat)

  /** The traced task as the events show it. */
  datatype Phase = Off | Queued | OnCpu

  datatype Account = Account(ledger: Ledger, phase: Phase, clock: u64)

  const NO_ACCOUNT := Account(Ledger(0, 0, 0), Off, 0)

  /** The event reaches the handler's locked section and finds the traced task waiting or running. */
  predicate Handled(s: Tracer, e: Event) {
    match e
    case Wakeup(p, _, _) => p.pid == s.pid
    case Switch(onCpu, prev, _, prevRunning, _, _) =>
      s.pid != INVALID_PID &&
      (if s.cpu == INVALID_CPU then s.pid == prev.pid && prevRunning else s.cpu == onCpu)
    case Migrate(p, _, _) => p.pid == s.pid && s.cpu != INVALID_CPU
    case StorePid(pid) => pid != s.pid
    case StoreThreshold(_) => false
  }

  /** A handled event that begins to time a new wait. */
  predicate StartsWait(s: Tracer, e: Event)
  {
    Handled(s, e) &&
    match e
    case Wakeup(_, _, _) => true
    case Switch(_, prev, _, prevRunning, next, _) =>
      s.cpu == INVALID_CPU || (s.pid != next.pid && s.pid == prev.pid && prevRunning)
    case _ => false
  }

  predicate EndsWait(s: Tracer, e: Event) {
    Handled(s, e) && e.Switch? && s.cpu != INVALID_CPU && s.pid == e.next.pid
  }

  predicate Timed(e: Event) {
    e.Wakeup? || e.Switch? || e.Migrate?
  }

  function Enter(s: Tracer, a: Account, e: Event): Account
  {
    var clock := if Timed(e) then e.now else a.clock;
    if !Handled(s, e) then a.(clock := clock)
    else if StartsWait(s, e) then
      Account(Ledger(Sum(s.open), 0, 0),
              if e.Wakeup? && a.phase == OnCpu then OnCpu else Queued, clock)
    else if EndsWait(s, e) then
      Account(Ledger(0, 0, if s.rqStart <= s.runStart then s.runStart - s.rqStart else 0),
              OnCpu, clock)
    else if e.Migrate? && s.curr.None? then
      a.(ledger := a.ledger.(unseen := a.ledger.unseen + Sub64(e.now, s.runStart)), clock := clock)
    else if e.StorePid? || (e.Switch? && s.pid == e.prev.pid) then
      Account(Ledger(0, 0, 0), Off, clock)
    else a.(clock := clock)
  }

  function Books(h: History): Account {
    match h
    case Loaded => NO_ACCOUNT
    case After(past, e) => Enter(Run(past), Books(past), e)
  }

  predicate Ticks(clock: u64, e: Event) {
    Timed(e) ==> 0 < e.now && clock <= e.now
  }

  /** The clock never stands at zero and never goes back. */
  predicate Clocked(h: History) {
    h.After? ==> Clocked(h.past) && Ticks(Books(h.past).clock, h.last)
  }

  /** The conservation law: both sides count the same stretch of time. */
  ghost predicate Balanced(s: Tracer, a: Account) {
    s.pid != INVALID_PID && s.cpu != INVALID_CPU ==>
      && 0 < s.rqStart <= s.runStart <= a.clock
      && Sum(s.open) + a.ledger.unseen + a.ledger.settled
         == (s.runStart - s.rqStart) + a.ledger.carried
  }

  /** Charging a task moves the time since the last record into the open trace. */
  lemma ChargeSum(s: Tracer, p: Task, now: u64)
    requires s.runStart != 0
    ensures Charge(s, p, now).open == s.open + [TaskEntry(Sub64(now, s.runStart), p.pid, p.comm)]
    ensures Sum(Charge(s, p, now).open) == Sum(s.open) + Sub64(now, s.runStart)
    ensures Charge(s, p, now).pid != INVALID_PID ==>
              Charge(s, p, now) == s.(open := Charge(s, p, now).open)
  {
    SumAppend(s.open, TaskEntry(Sub64(now, s.runStart), p.pid, p.comm));
  }

  /** The traced task gets the CPU: the ledger starts with what was just reported. */
  lemma CommitBalanced(s: Tracer, a: Account, e: Event)
    requires Safe(s) && Balanced(s, a) && Ticks(a.clock, e) && EndsWait(s, e) && s.pid != INVALID_PID
    ensures Balanced(Step(s, e), Enter(s, a, e))
  {
    hide Charge, Commit, Sum, HistIndex, Add64, Recorded;
    var s1 := SeeNext(s, e.next);
    ChargeSum(s1, e.prev, e.now);
    ChargeEffect(s1, e.prev, e.now);
    StepCommits(s, e);
    CommitFrame(Charge(s1, e.prev, e.now), Sub64(e.now, Charge(s1, e.prev, e.now).rqStart));
    assert Sum([]) == 0 by { NoSum(); }
  }

  lemma NoSum()
    ensures Sum([]) == 0
  {
  }

  lemma SwitchBalanced(s: Tracer, a: Account, e: Event)
    requires Safe(s) && Balanced(s, a) && e.Switch? && Ticks(a.clock, e)
    ensures Balanced(Step(s, e), Enter(s, a, e))
  {
    hide Charge, Commit, Sum, Recorded;
    if EndsWait(s, e) {
      CommitBalanced(s, a, e);
    } else if Handled(s, e) && s.cpu != INVALID_CPU {
      ChargeSum(SeeNext(s, e.next), e.prev, e.now);
    }
  }

  /** A commit that leaves tracing on keeps the start of the wait. */
  lemma CommitFrame(s: Tracer, latency: u64)
    requires |s.hist| == LATENCY_HISTOGRAM_ENTRY
    ensures var s' := Commit(s, latency);
            && (s.pid == INVALID_PID ==> s'.pid == INVALID_PID)
            && (s'.pid != INVALID_PID ==>
                  s'.rqStart == s.rqStart && s'.runStart == s.runStart && s'.cpu == s.cpu)
  {
  }

  lemma MigrateBalanced(s: Tracer, a: Account, e: Event)
    requires Safe(s) && Balanced(s, a) && e.Migrate? && Ticks(a.clock, e)
    ensures Balanced(Step(s, e), Enter(s, a, e))
  {
    hide Charge;
    if Handled(s, e) && s.curr.Some? && s.pid != INVALID_PID {
      ChargeSum(s, s.curr.value, e.now);
    }
  }

  /** The handling of one event keeps the books balanced. */
  lemma EnterBalanced(s: Tracer, a: Account, e: Event)
    requires Safe(s) && Balanced(s, a) && Ticks(a.clock, e)
    ensures Balanced(Step(s, e), Enter(s, a, e))
  {
    hide DoSwitch, DoMigrate;
    match e
    case Switch(_, _, _, _, _, _) => SwitchBalanced(s, a, e);
    case Migrate(_, _, _) => MigrateBalanced(s, a, e);
    case _ =>
  }

  /** In every run, with any scheduler, the books balance. */
  lemma {:induction false} RunBalanced(h: History)
    requires Clocked(h)
    ensures Balanced(Run(h), Books(h))
  {
    hide Step, Enter;
    if h.After? {
      RunBalanced(h.past);
      EnterBalanced(Run(h.past), Books(h.past), h.last);
    }
  }

  /** Whether recording one more task uses up the buffer. */
  predicate Fills(s: Tracer) {
    NrTask(s) + 1 >= MAX_TRACE_ENTRY_TASKS
  }

  /** A publishing event publishes the open trace plus the last runner. */
  lemma PublishingEvent(s: Tracer, e: Event)
    requires Safe(s) && Published(s, e).Some? && s.runStart != 0
    ensures
      var t := Published(s, e).value;
      && t.tasks == s.open + [TaskEntry(Sub64(e.now, s.runStart), e.prev.pid, e.prev.comm)]
      && t.latency == if Fills(s) then e.now else Sub64(e.now, s.rqStart)
  {
  }

  /**
   The time of a published trace, for every run on a positive monotone clock: its runtimes
   make up its latency, corrected by the three ledger entries. A record that fills the task
   buffer resets rq_start before the latency is computed, so that trace reports the bare
   clock reading.
   */
  lemma TraceTime(h: History, e: Event)
    requires Clocked(After(h, e)) && Published(Run(h), e).Some?
    ensures
      var s, l, t := Run(h), Books(h).ledger, Published(Run(h), e).value;
      Sum(t.tasks) + l.unseen + l.settled + (if Fills(s) then s.rqStart else 0)
      == t.latency + l.carried
  {
    var s := Run(h);
    assert s.pid != INVALID_PID && s.cpu != INVALID_CPU;
    hide Run, Books, Published, Fills, Clocked, Step, Enter;
    assert Clocked(h) && Ticks(Books(h).clock, e) by { ClockedPast(h, e); }
    RunBalanced(h);
    PublishingEvent(s, e);
    assert e.Switch? by { PublishedIsSwitch(s, e); }
    SumAppend(s.open, TaskEntry(Sub64(e.now, s.runStart), e.prev.pid, e.prev.comm));
  }

  lemma ClockedPast(h: History, e: Event)
    requires Clocked(After(h, e))
    ensures Clocked(h) && Ticks(Books(h).clock, e)
  {
  }

  lemma PublishedIsSwitch(s: Tracer, e: Event)
    requires Published(s, e).Some?
    ensures EndsWait(s, e) && s.pid != INVALID_PID
  {
  }

  // Consistent runs.

  /**
   What a scheduler that reports every switch does: it does not wake a task that is waiting
   with time on its account, nor deschedule it; it does not migrate a task that runs, and
   whoever runs at a migration is known; while the traced task runs, nobody else is switched
   out on its CPU.
   */
  predicate Consistent(s: Tracer, phase: Phase, e: Event) {
    Handled(s, e) ==>
      if StartsWait(s, e) then phase != Queued || s.open == []
      else match e
           case Switch(_, prev, _, _, next, _) =>
             if s.pid != next.pid && s.pid == prev.pid then phase != Queued || s.open == []
             else phase == Queued
           case Migrate(_, _, _) => phase == Queued && s.curr.Some?
           case _ => true
  }

  predicate ConsistentRun(h: History) {
    h.After? ==> ConsistentRun(h.past) && Consistent(Run(h.past), Books(h.past).phase, h.last)
  }

  /** In a consistent run only a waiting task has an open trace, and its ledger is clear. */
  ghost predicate Clear(s: Tracer, a: Account) {
    s.pid != INVALID_PID ==>
      && (a.phase != Queued ==> s.open == [])
      && (a.phase == Off ==> s.cpu == INVALID_CPU)
      && (a.phase == Queued ==> a.ledger == Ledger(0, 0, 0))
  }

  lemma EnterClear(s: Tracer, a: Account, e: Event)
    requires Safe(s) && Clear(s, a) && Consistent(s, a.phase, e)
    ensures Clear(Step(s, e), Enter(s, a, e))
  {
    if Committed(s, e).Some? {
      hide Charge, Commit;
      StepCommits(s, e);
    }
  }

  lemma {:induction false} RunClear(h: History)
    requires ConsistentRun(h)
    ensures Clear(Run(h), Books(h))
  {
    hide Step, Enter, Consistent;
    if h.After? {
      RunClear(h.past);
      EnterClear(Run(h.past), Books(h.past), h.last);
    }
  }

  /**
   In a consistent run a trace accounts for its latency if and only if its last record does
   not fill the task buffer.
   */
  lemma PublishedExactIff(h: History, e: Event)
    requires Clocked(After(h, e)) && ConsistentRun(After(h, e)) && Published(Run(h), e).Some?
    ensures Exact(Published(Run(h), e).value) <==> !Fills(Run(h))
  {
    hide Step, Enter, Run, Books, Published, Fills;
    RunBalanced(h);
    RunClear(h);
    PublishedIsSwitch(Run(h), e);
    TraceTime(h, e);
  }

  /** Publishing moves records without changing how many are in use. */
  lemma PublishKeepsCount(s: Tracer, e: Event)
    requires Safe(s) && Published(s, e).Some? && s.runStart != 0
    ensures Recorded(Step(s, e).published) == NrTask(s) + 1
  {
    hide Step;
    PublishingEvent(s, e);
    StepCommits(s, e);
    hide Published;
    PublishRecorded(s.published, Published(s, e).value);
  }

  /** Recorded never shrinks along a longer list of published traces. */
  lemma {:induction false} RecordedMonotone(traces: seq<Trace>, more: seq<Trace>)
    requires traces <= more
    ensures Recorded(traces) <= Recorded(more)
  {
    if |traces| < |more| {
      RecordedMonotone(traces, more[..|more| - 1]);
    } else {
      assert traces == more;
    }
  }

  /** A trace published while the records still fit is exact. */
  lemma PublishedExact(h: History, e: Event)
    requires Clocked(After(h, e)) && ConsistentRun(After(h, e)) && Published(Run(h), e).Some?
    requires Recorded(Step(Run(h), e).published) < MAX_TRACE_ENTRY_TASKS
    ensures Exact(Published(Run(h), e).value)
  {
    hide Step, Enter, Run, Books, Published, Exact;
    RunBalanced(h);
    PublishedIsSwitch(Run(h), e);
    PublishKeepsCount(Run(h), e);
    PublishedExactIff(h, e);
  }

  /**
   Time conservation: in every consistent run on a positive monotone clock, as long as the
   task buffer has not filled up, the runtimes of every published trace sum to its latency.
   */
  lemma {:induction false} TimeConservation(h: History)
    requires Clocked(h) && ConsistentRun(h)
    requires Recorded(Run(h).published) < MAX_TRACE_ENTRY_TASKS
    ensures forall t :: t in Run(h).published ==> Exact(t)
  {
    hide Step, Enter, Published, Committed, Recorded, Consistent, Exact, Books;
    if h.After? {
      var s, e := Run(h.past), h.last;
      if Restarts(s, e) {
        RestartClears(s, e);
      } else {
        if Committed(s, e).Some? {
          StepCommits(s, e);
        } else {
          StepQuiet(s, e);
          NothingPublished(s, e);
        }
        RecordedMonotone(s.published, Run(h).published);
        TimeConservation(h.past);
        if Published(s, e).Some? {
          PublishedExact(h.past, e);
        }
      }
    }
  }

  lemma NothingPublished(s: Tracer, e: Event)
    requires Committed(s, e).None?
    ensures Published(s, e).None?
  {
  }

  // A consistent run that fills the buffer.

  const TRACED := Task(1, "traced", false)
  const OTHER := Task(2, "other", false)

  /** The traced task wakes up and `n` other tasks take turns before it. */
  function CrowdedWait(n: nat): History {
    if n == 0 then
      After(After(After(Loaded, StoreThreshold(0)), StorePid(1)), Wakeup(TRACED, 0, 1))
    else After(CrowdedWait(n - 1), Turn(n - 1))
  }

  function Turn(n: nat): Event {
    Switch(0, OTHER, 0, true, OTHER, (n + 2) % TWO64)
  }

  ghost predicate Crowded(s: Tracer, a: Account, n: nat) {
    && s.pid == 1 && s.cpu == 0 && s.rqStart == 1 && s.runStart == n + 1 && s.threshold == 0
    && |s.open| == n && s.published == []
    && a.phase == Queued && a.clock == n + 1
  }

  lemma TurnCrowded(s: Tracer, a: Account, n: nat)
    requires n + 1 < MAX_TRACE_ENTRY_TASKS && Safe(s) && Crowded(s, a, n)
    ensures Crowded(Step(s, Turn(n)), Enter(s, a, Turn(n)), n + 1)
    ensures Consistent(s, a.phase, Turn(n)) && Ticks(a.clock, Turn(n))
  {
  }

  lemma FirstWaitRuns()
    ensures Clocked(CrowdedWait(0)) && ConsistentRun(CrowdedWait(0))
    ensures Crowded(Run(CrowdedWait(0)), Books(CrowdedWait(0)), 0)
  {
    var h := After(Loaded, StoreThreshold(0));
    assert Run(h) == INIT.(threshold := 0) && Books(h) == NO_ACCOUNT;
    assert Clocked(h) && ConsistentRun(h);
    var h' := After(h, StorePid(1));
    assert Run(h').pid == 1 && Run(h').open == [] && Run(h').published == [];
    assert Clocked(h') && ConsistentRun(h');
  }

  lemma {:induction false} CrowdedWaitRuns(n: nat)
    requires n < MAX_TRACE_ENTRY_TASKS
    ensures Clocked(CrowdedWait(n)) && ConsistentRun(CrowdedWait(n))
    ensures Crowded(Run(CrowdedWait(n)), Books(CrowdedWait(n)), n)
  {
    hide Step, Enter, Consistent, Crowded;
    if n == 0 {
      FirstWaitRuns();
    } else {
      CrowdedWaitRuns(n - 1);
      TurnCrowded(Run(CrowdedWait(n - 1)), Books(CrowdedWait(n - 1)), n - 1);
    }
  }

  /** The 2048th record of a consistent run makes its trace report more than was waited. */
  lemma FillingTraceIsInexact()
    ensures
      exists h, e :: Clocked(After(h, e)) && ConsistentRun(After(h, e)) &&
                     Published(Run(h), e).Some? && !Exact(Published(Run(h), e).value)
  {
    hide CrowdedWait, Run, Books, Exact;
    var h := CrowdedWait(MAX_TRACE_ENTRY_TASKS - 1);
    var e := Switch(0, OTHER, 0, true, TRACED, MAX_TRACE_ENTRY_TASKS + 1);
    CrowdedWaitRuns(MAX_TRACE_ENTRY_TASKS - 1);
    assert Clocked(After(h, e)) && ConsistentRun(After(h, e));
    PublishedExactIff(h, e);
  }
}
