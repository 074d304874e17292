/**
 The run-queue tracer told from the events alone. Every variable of the tracer is described on
 its own, by the events that set it; together they say whose time each record of a trace is.
 */
module RunqlatWatch {
  import opened Bits
  import opened RunqlatModel
  import opened RunqlatTime

  /**
   What is known from the events: the traced task and the CPU it waits for, when its wait began,
   when the running task was last seen to change, who runs there, the records of the wait, the
   traces published, and the threshold.
   */
  datatype Watch = Watch(
    pid: int,
    cpu: int,
    began: u64,
    changed: u64,
    runner: Option<Task>,
    records: seq<TaskEntry>,
    traces: seq<Trace>,
    threshold: u64)

  const UNWATCHED := Watch(INVALID_PID, INVALID_CPU, 0, 0, None, [], [], THRESHOLD_DEFAULT)

  /** What an event is to the traced task. */
  datatype Meaning =
    | Unrelated
    | Queues(cpu: int)       // it is put on a run queue
    | Runs                   // it gets the CPU
    | Sleeps                 // it leaves the CPU and does not want to run
    | Passes                 // another task leaves the CPU that it waits for
    | Moves(cpu: int)        // it is moved to the queue of another CPU
    | Session(pid: int)      // another task, or none, is to be traced

  function MeaningOf(w: Watch, e: Event): Meaning {
    match e
    case Wakeup(p, cpu, _) => if p.pid == w.pid then Queues(cpu) else Unrelated
    case Switch(onCpu, prev, prevCpu, prevRunning, next, _) =>
      if w.pid == INVALID_PID then Unrelated
      else if w.cpu == INVALID_CPU then
        (if prev.pid == w.pid && prevRunning then Queues(prevCpu) else Unrelated)
      else if onCpu != w.cpu then Unrelated
      else if next.pid == w.pid then Runs
      else if prev.pid != w.pid then Passes
      else if prevRunning then Queues(w.cpu)
      else Sleeps
    case Migrate(p, cpu, _) => if p.pid == w.pid && w.cpu != INVALID_CPU then Moves(cpu) else Unrelated
    case StorePid(pid) => if pid != w.pid then Session(pid) else Unrelated
    case StoreThreshold(_) => Unrelated
  }

  /** Who has used the CPU up to this event, if the event ends such a stretch. */
  function Used(w: Watch, e: Event): Option<Task> {
    match MeaningOf(w, e)
    case Runs => Some(e.prev)
    case Passes => Some(e.prev)
    case Moves(_) => w.runner
    case _ => None
  }

  /** The record of that stretch; none if no change has been seen before. */
  function Record(w: Watch, e: Event): seq<TaskEntry> {
    var p := Used(w, e);
    if p.Some? && w.changed != 0 && Timed(e)
    then [TaskEntry(Sub64(e.now, w.changed), p.value.pid, p.value.comm)] else []
  }

  function InUse(w: Watch): nat {
    Recorded(w.traces) + |w.records|
  }

  /** The record takes the last place. */
  predicate LastPlace(w: Watch, e: Event) {
    Record(w, e) != [] && InUse(w) + 1 >= MAX_TRACE_ENTRY_TASKS
  }

  /** The wait that ends; the record in the last place makes the tracer forget when it began. */
  function Waited(w: Watch, e: Event): u64
    requires Timed(e)
  {
    Sub64(e.now, if LastPlace(w, e) then 0 else w.began)
  }

  /** The trace that the event publishes, if any. */
  function NewTrace(w: Watch, e: Event): seq<Trace> {
    var tasks := w.records + Record(w, e);
    if MeaningOf(w, e).Runs? && tasks != [] && Waited(w, e) >= w.threshold
    then [Trace(Waited(w, e), tasks)] else []
  }

  /** The event uses up the places for records or for traces, which ends the session. */
  predicate Exhausts(w: Watch, e: Event) {
    LastPlace(w, e) || (NewTrace(w, e) != [] && |w.traces| + 1 >= MAX_TRACE_ENTRIES)
  }

  function Pid(w: Watch, e: Event): int {
    if MeaningOf(w, e).Session? then MeaningOf(w, e).pid
    else if Exhausts(w, e) then INVALID_PID else w.pid
  }

  function Cpu(w: Watch, e: Event): int {
    match MeaningOf(w, e)
    case Queues(cpu) => cpu
    case Moves(cpu) => cpu
    case Sleeps => INVALID_CPU
    case Session(_) => INVALID_CPU
    case _ => if Exhausts(w, e) then INVALID_CPU else w.cpu
  }

  function Began(w: Watch, e: Event): u64 {
    match MeaningOf(w, e)
    case Queues(_) => if Timed(e) then e.now else 0
    case Sleeps => 0
    case Session(_) => 0
    case _ => if Exhausts(w, e) then 0 else w.began
  }

  function Changed(w: Watch, e: Event): u64 {
    match MeaningOf(w, e)
    case Unrelated => w.changed
    case Sleeps => 0
    case Session(_) => 0
    case Runs => if Exhausts(w, e) then 0 else w.changed
    case _ => if Timed(e) then e.now else 0
  }

  function Runner(w: Watch, e: Event): Option<Task> {
    match MeaningOf(w, e)
    case Unrelated => w.runner
    case Sleeps => None
    case Session(_) => None
    case _ =>
      if Exhausts(w, e) then None
      else if e.Switch? && !e.next.idle then Some(e.next) else w.runner
  }

  function Records(w: Watch, e: Event): seq<TaskEntry> {
    match MeaningOf(w, e)
    case Runs => []
    case Session(pid) => if pid == INVALID_PID then w.records else []
    case _ => w.records + Record(w, e)
  }

  function Traces(w: Watch, e: Event): seq<Trace> {
    match MeaningOf(w, e)
    case Session(pid) => if pid == INVALID_PID then w.traces else []
    case _ => w.traces + NewTrace(w, e)
  }

  function Observe(h: History): Watch {
    match h
    case Loaded => UNWATCHED
    case After(past, e) =>
      var w := Observe(past);
      Watch(Pid(w, e), Cpu(w, e), Began(w, e), Changed(w, e), Runner(w, e), Records(w, e),
            Traces(w, e), if e.StoreThreshold? then e.threshold else w.threshold)
  }

  /** The tracer's variables are what the events say. */
  ghost predicate Tells(s: Tracer, w: Watch) {
    && s.pid == w.pid && s.cpu == w.cpu && s.rqStart == w.began && s.runStart == w.changed
    && s.curr == w.runner && s.open == w.records && s.published == w.traces
    && s.threshold == w.threshold
  }

  ghost predicate StepTells(s: Tracer, w: Watch, e: Event)
    requires |s.hist| == LATENCY_HISTOGRAM_ENTRY
  {
    Tells(Step(s, e), Watch(Pid(w, e), Cpu(w, e), Began(w, e), Changed(w, e), Runner(w, e),
                            Records(w, e), Traces(w, e),
                            if e.StoreThreshold? then e.threshold else w.threshold))
  }

  lemma OtherEventTells(s: Tracer, w: Watch, e: Event)
    requires Safe(s) && Tells(s, w) && !e.Switch? && !e.Migrate?
    ensures StepTells(s, w, e)
  {
    hide Recorded;
  }

  lemma MigrateTells(s: Tracer, w: Watch, e: Event)
    requires Safe(s) && Tells(s, w) && e.Migrate?
    ensures StepTells(s, w, e)
  {
    hide Recorded;
  }

  lemma SwitchTells(s: Tracer, w: Watch, e: Event)
    requires Safe(s) && Tells(s, w) && e.Switch? && !MeaningOf(w, e).Runs?
    ensures StepTells(s, w, e)
  {
    hide Recorded;
  }

  /** The record of the last runner, before the commit. */
  lemma ChargeTells(s: Tracer, w: Watch, e: Event)
    requires Safe(s) && Tells(s, w) && e.Switch? && MeaningOf(w, e).Runs?
    ensures
      var s1 := Charge(SeeNext(s, e.next), e.prev, e.now);
      && s1.open == w.records + Record(w, e) && s1.published == w.traces && s1.threshold == w.threshold
      && |s1.hist| == LATENCY_HISTOGRAM_ENTRY
      && Sub64(e.now, s1.rqStart) == Waited(w, e)
      && (if LastPlace(w, e)
          then s1.pid == INVALID_PID && s1.cpu == INVALID_CPU && s1.rqStart == s1.runStart == 0 && s1.curr == None
          else s1.pid == w.pid && s1.cpu == w.cpu && s1.rqStart == w.began && s1.runStart == w.changed &&
               s1.curr == if e.next.idle then w.runner else Some(e.next))
  {
    hide Recorded;
    assert w.records + [] == w.records;
  }

  lemma CommitTells(s: Tracer, latency: u64)
    requires |s.hist| == LATENCY_HISTOGRAM_ENTRY
    ensures
      var s', publishes := Commit(s, latency), s.open != [] && latency >= s.threshold;
      && s'.open == [] && s'.threshold == s.threshold
      && s'.published == s.published + (if publishes then [Trace(latency, s.open)] else [])
      && (if publishes && |s.published| + 1 >= MAX_TRACE_ENTRIES
          then s'.pid == INVALID_PID && s'.cpu == INVALID_CPU && s'.rqStart == s'.runStart == 0 && s'.curr == None
          else s'.pid == s.pid && s'.cpu == s.cpu && s'.rqStart == s.rqStart && s'.runStart == s.runStart &&
               s'.curr == s.curr)
  {
    hide HistIndex, Add64;
    assert s.published + [] == s.published;
  }

  lemma RunsTells(s: Tracer, w: Watch, e: Event)
    requires Safe(s) && Tells(s, w) && e.Switch? && MeaningOf(w, e).Runs?
    ensures StepTells(s, w, e)
  {
    hide Recorded, HistIndex, Add64, Charge, Commit, Sub64;
    ChargeTells(s, w, e);
    var s1 := Charge(SeeNext(s, e.next), e.prev, e.now);
    CommitTells(s1, Sub64(e.now, s1.rqStart));
    assert Step(s, e) == Commit(s1, Sub64(e.now, s1.rqStart));
  }

  /** In every run, each variable of the tracer is what the events say about it. */
  lemma {:induction false} RunTells(h: History)
    ensures Tells(Run(h), Observe(h))
  {
    hide Step, Pid, Cpu, Began, Changed, Runner, Records, Traces, MeaningOf;
    if h.After? {
      var s, w, e := Run(h.past), Observe(h.past), h.last;
      RunTells(h.past);
      if !e.Switch? && !e.Migrate? {
        OtherEventTells(s, w, e);
      } else if e.Migrate? {
        MigrateTells(s, w, e);
      } else if MeaningOf(w, e).Runs? {
        RunsTells(s, w, e);
      } else {
        SwitchTells(s, w, e);
      }
    }
  }

  // What is published.

  /** An event commits a latency exactly when the traced task gets the CPU: the time it waited. */
  lemma CommittedByEvents(h: History, e: Event)
    ensures
      var w := Observe(h);
      Committed(Run(h), e) == if MeaningOf(w, e).Runs? then Some(Waited(w, e)) else None
  {
    hide Run, Observe, Charge;
    var s, w := Run(h), Observe(h);
    RunTells(h);
    if MeaningOf(w, e).Runs? {
      ChargeTells(s, w, e);
    }
  }

  /** The trace that an event publishes, told from the events. */
  lemma PublishedByEvents(h: History, e: Event)
    ensures
      var w := Observe(h);
      Published(Run(h), e) == if NewTrace(w, e) == [] then None else Some(NewTrace(w, e)[0])
  {
    hide Run, Observe, Charge, Committed;
    var s, w := Run(h), Observe(h);
    RunTells(h);
    CommittedByEvents(h, e);
    if MeaningOf(w, e).Runs? {
      ChargeTells(s, w, e);
    }
  }

  /** The records since the traced task was last put on a queue. */
  function SinceQueued(h: History): seq<TaskEntry> {
    match h
    case Loaded => []
    case After(past, e) =>
      var w := Observe(past);
      match MeaningOf(w, e)
      case Unrelated => SinceQueued(past)
      case Passes => SinceQueued(past) + Record(w, e)
      case Moves(_) => SinceQueued(past) + Record(w, e)
      case _ => []
  }

  lemma MeaningAgrees(s: Tracer, w: Watch, e: Event)
    requires Tells(s, w)
    ensures MeaningOf(w, e).Queues? <==> StartsWait(s, e)
    ensures MeaningOf(w, e).Queues? ==> Handled(s, e)
    ensures MeaningOf(w, e).Sleeps? ==>
              Handled(s, e) && !StartsWait(s, e) && e.Switch? && s.pid != e.next.pid && s.pid == e.prev.pid
  {
  }

  /** Where a new list begins in a consistent run, the old one is empty. */
  lemma EmptyBefore(s: Tracer, a: Account, w: Watch, e: Event)
    requires Tells(s, w) && Clear(s, a) && Consistent(s, a.phase, e) && w.pid != INVALID_PID
    requires MeaningOf(w, e).Queues? || MeaningOf(w, e).Sleeps?
    ensures w.records == []
  {
    hide MeaningOf, StartsWait, Handled;
    MeaningAgrees(s, w, e);
  }

  /**
   In a consistent run the records of a wait are those since the task was put on the queue:
   one for each task that left the CPU, or was running there when the wait moved on, with the
   time since the change before it.
   */
  lemma {:induction false} RecordsSinceQueued(h: History)
    requires ConsistentRun(h) && Observe(h).pid != INVALID_PID
    ensures Run(h).open == Observe(h).records == SinceQueued(h)
  {
    hide Run, Books, Consistent, MeaningOf, Exhausts, Record, Cpu, Began, Changed, Runner, Traces;
    RunTells(h);
    if h.After? {
      var w, e := Observe(h.past), h.last;
      RunTells(h.past);
      if !MeaningOf(w, e).Session? {
        RecordsSinceQueued(h.past);
        RunClear(h.past);
        if MeaningOf(w, e).Queues? || MeaningOf(w, e).Sleeps? {
          EmptyBefore(Run(h.past), Books(h.past), w, e);
        }
        NoRecord(w, e);
      }
    }
  }

  lemma NoRecord(w: Watch, e: Event)
    ensures MeaningOf(w, e).Unrelated? || MeaningOf(w, e).Queues? || MeaningOf(w, e).Sleeps? ==>
              w.records + Record(w, e) == w.records
  {
    assert w.records + [] == w.records;
  }

  /**
   So the tasks of a trace published in a consistent run are those that used the CPU since the
   task was put on the queue, the last one being the task that it follows.
   */
  lemma PublishedSinceQueued(h: History, e: Event)
    requires ConsistentRun(h) && Published(Run(h), e).Some?
    ensures
      var w, t := Observe(h), Published(Run(h), e).value;
      && MeaningOf(w, e).Runs? && t.latency == Waited(w, e)
      && t.tasks == SinceQueued(h) + Record(w, e)
  {
    hide Run, Observe, SinceQueued, Waited, Record, Published, MeaningOf;
    PublishedByEvents(h, e);
    assert Observe(h).pid != INVALID_PID by { RunsIsTraced(Observe(h), e); }
    RecordsSinceQueued(h);
  }

  lemma RunsIsTraced(w: Watch, e: Event)
    requires MeaningOf(w, e).Runs?
    ensures w.pid != INVALID_PID
  {
  }

  // A wait with a task in between and a migration.

  function Named(pid: nat): Task {
    Task(pid, "task", false)
  }

  const QUEUED := After(After(Loaded, StorePid(1)), Wakeup(Named(1), 0, 1))

  const PASSED := After(QUEUED, Switch(0, Named(2), 0, true, Named(3), 3))

  /** Pid 1 is queued at 1 on CPU 0; 2 hands over to 3 at 3; pid 1 is moved to CPU 5 at 7. */
  const MOVED := After(PASSED, Migrate(Named(1), 5, 7))

  lemma QueuedWait()
    ensures Observe(QUEUED) == UNWATCHED.(pid := 1, cpu := 0, began := 1, changed := 1)
  {
    var w := Observe(After(Loaded, StorePid(1)));
    assert w == UNWATCHED.(pid := 1);
    assert [] + Record(w, Wakeup(Named(1), 0, 1)) == [];
  }

  lemma PassedWait()
    ensures Observe(PASSED) ==
            Watch(1, 0, 1, 3, Some(Named(3)), [TaskEntry(2, 2, "task")], [], THRESHOLD_DEFAULT)
  {
    QueuedWait();
    var w, e := Observe(QUEUED), Switch(0, Named(2), 0, true, Named(3), 3);
    hide Observe, Recorded;
    assert MeaningOf(w, e) == Passes && Record(w, e) == [TaskEntry(2, 2, "task")];
    assert Recorded([]) == 0 by { NothingRecorded(); }
    assert !Exhausts(w, e);
    NextWatch(QUEUED, e);
  }

  lemma NothingRecorded()
    ensures Recorded([]) == 0
  {
  }

  lemma NextWatch(h: History, e: Event)
    requires !e.StoreThreshold?
    ensures
      var w := Observe(h);
      Observe(After(h, e)) == Watch(Pid(w, e), Cpu(w, e), Began(w, e), Changed(w, e), Runner(w, e),
                                    Records(w, e), Traces(w, e), w.threshold)
  {
    hide Pid, Cpu, Began, Changed, Runner, Records, Traces;
  }

  /** The records are the time of 2 up to the switch and of 3 up to the move. */
  lemma MovedWaitRecords()
    ensures
      var s := Run(MOVED);
      && s.open == [TaskEntry(2, 2, "task"), TaskEntry(4, 3, "task")]
      && s.cpu == 5 && s.rqStart == 1 && s.runStart == 7 && s.curr == Some(Named(3))
  {
    PassedWait();
    RunTells(MOVED);
    hide Run, Observe, Recorded;
    var w, e := Observe(PASSED), Migrate(Named(1), 5, 7);
    assert MeaningOf(w, e) == Moves(5) && Record(w, e) == [TaskEntry(4, 3, "task")];
    assert Recorded([]) == 0 by { NothingRecorded(); }
    assert !Exhausts(w, e);
    NextWatch(PASSED, e);
    assert [TaskEntry(2, 2, "task")] + [TaskEntry(4, 3, "task")] ==
           [TaskEntry(2, 2, "task"), TaskEntry(4, 3, "task")];
  }
}
