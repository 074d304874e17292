/**
 The run-queue latency tracer as the module keeps it: one flat array of task records, carved
 into consecutive segments by an array of trace entries, the last of which is still open and
 may be rolled back. Each handler is proved to do, on these arrays, what the model does on
 lists.
 */
module Runqlat {
  import opened Bits
  import M = RunqlatModel

  /** `entries` points at the first task record of the trace; a null pointer is None. */
  datatype TraceEntry = TraceEntry(latency: u64, nrTasks: nat, entries: Option<nat>)

  const NO_TRACE := TraceEntry(0, 0, None)
  const NO_TASK := M.TaskEntry(0, 0, "")

  /** Where trace `i` starts: right after all earlier traces. */
  ghost function Start(traces: seq<TraceEntry>, i: nat): nat
    requires i <= |traces|
  {
    if i == 0 then 0 else Start(traces, i - 1) + traces[i - 1].nrTasks
  }

  /** The segments are consecutive, non-empty, in order, and cover all records in use. */
  ghost predicate Layout(traces: seq<TraceEntry>, nrTrace: nat, nrTask: nat) {
    && |traces| == M.MAX_TRACE_ENTRIES && nrTrace <= |traces|
    && (forall i :: 0 <= i < nrTrace ==>
          traces[i].nrTasks > 0 && traces[i].entries == Some(Start(traces, i)))
    && (forall i :: nrTrace < i < |traces| ==> traces[i].nrTasks == 0)
    && (if nrTrace < |traces| then
          && Start(traces, nrTrace) + traces[nrTrace].nrTasks == nrTask
          && (traces[nrTrace].nrTasks > 0 ==>
                traces[nrTrace].entries == Some(Start(traces, nrTrace)))
        else Start(traces, nrTrace) == nrTask)
  }

  lemma {:induction false} StartMonotone(traces: seq<TraceEntry>, i: nat, j: nat)
    requires i <= j <= |traces|
    ensures Start(traces, i) <= Start(traces, j)
  {
    if i < j {
      StartMonotone(traces, i, j - 1);
    }
  }

  /** The two record buffers and how far they are in use. */
  datatype Arena = Arena(traces: seq<TraceEntry>, nrTrace: nat,
                         tasks: seq<M.TaskEntry>, nrTask: nat)

  ghost predicate Sound(a: Arena) {
    && |a.tasks| == M.MAX_TRACE_ENTRY_TASKS && a.nrTask <= |a.tasks|
    && Layout(a.traces, a.nrTrace, a.nrTask)
  }

  /** The first `n` traces as lists. */
  ghost function Lists(traces: seq<TraceEntry>, tasks: seq<M.TaskEntry>, n: nat): (r: seq<M.Trace>)
    requires n <= |traces| && Start(traces, n) <= |tasks|
    ensures |r| == n
    ensures M.Recorded(r) == Start(traces, n)
  {
    if n == 0 then []
    else
      var t := M.Trace(traces[n - 1].latency, tasks[Start(traces, n - 1)..Start(traces, n)]);
      M.PublishRecorded(Lists(traces, tasks, n - 1), t);
      Lists(traces, tasks, n - 1) + [t]
  }

  /** The first `n` lists depend on the first `n` entries and their records only. */
  lemma {:induction false} ListsFrame(traces: seq<TraceEntry>, tasks: seq<M.TaskEntry>,
                                      traces': seq<TraceEntry>, tasks': seq<M.TaskEntry>, n: nat)
    requires n <= |traces| && n <= |traces'| && traces[..n] == traces'[..n]
    requires Start(traces, n) <= |tasks| && Start(traces, n) <= |tasks'|
    requires tasks[..Start(traces, n)] == tasks'[..Start(traces, n)]
    ensures Start(traces', n) == Start(traces, n)
    ensures Lists(traces', tasks', n) == Lists(traces, tasks, n)
  {
    if n > 0 {
      assert traces[n - 1] == traces[..n][n - 1] == traces'[n - 1];
      assert traces[..n - 1] == traces[..n][..n - 1] == traces'[..n - 1];
      var s, e := Start(traces, n - 1), Start(traces, n);
      assert tasks[..s] == tasks[..e][..s] == tasks'[..s];
      ListsFrame(traces, tasks, traces', tasks', n - 1);
      assert tasks[s..e] == tasks[..e][s..] == tasks'[s..e];
    }
  }

  /** Trace `i` of the lists is exactly the segment its entry points at. */
  lemma {:induction false} ListsAt(traces: seq<TraceEntry>, tasks: seq<M.TaskEntry>, n: nat, i: nat)
    requires i < n <= |traces| && Start(traces, n) <= |tasks|
    ensures Start(traces, i) + traces[i].nrTasks <= |tasks|
    ensures Lists(traces, tasks, n)[i] ==
            M.Trace(traces[i].latency,
                    tasks[Start(traces, i)..Start(traces, i) + traces[i].nrTasks])
  {
    StartMonotone(traces, i + 1, n);
    if i < n - 1 {
      ListsAt(traces, tasks, n - 1, i);
    }
  }

  /** Changing entry `k` moves none of the segments up to it. */
  lemma {:induction false} StartUpdate(traces: seq<TraceEntry>, k: nat, t: TraceEntry, i: nat)
    requires i <= k < |traces|
    ensures Start(traces[k := t], i) == Start(traces, i)
  {
    if i > 0 {
      StartUpdate(traces, k, t, i - 1);
    }
  }

  ghost function Published(a: Arena): (r: seq<M.Trace>)
    requires Sound(a)
    ensures |r| == a.nrTrace
  {
    Lists(a.traces, a.tasks, a.nrTrace)
  }

  ghost function Open(a: Arena): (r: seq<M.TaskEntry>)
    requires Sound(a)
    ensures M.Recorded(Published(a)) + |r| == a.nrTask
    ensures a.nrTrace < |a.traces| ==> |r| == a.traces[a.nrTrace].nrTasks
  {
    a.tasks[Start(a.traces, a.nrTrace)..a.nrTask]
  }

  /** Published trace `i` is the segment its entry points at. */
  lemma PublishedAt(a: Arena, i: nat)
    requires Sound(a) && i < a.nrTrace
    ensures a.nrTrace <= |a.traces| && a.traces[i].entries.Some?
    ensures
      var start, end := a.traces[i].entries.value, a.traces[i].entries.value + a.traces[i].nrTasks;
      end <= |a.tasks| && Published(a)[i] == M.Trace(a.traces[i].latency, a.tasks[start..end])
  {
    ListsAt(a.traces, a.tasks, a.nrTrace, i);
  }

  /** Replacing entry `k` moves none of the segments up to it. */
  lemma StartsKept(traces: seq<TraceEntry>, k: nat, t: TraceEntry)
    requires k < |traces|
    ensures forall i :: 0 <= i <= k ==> Start(traces[k := t], i) == Start(traces, i)
  {
    forall i | 0 <= i <= k
      ensures Start(traces[k := t], i) == Start(traces, i)
    {
      StartUpdate(traces, k, t, i);
    }
  }

  /** Replacing the open entry leaves the published traces alone. */
  lemma PublishedKept(a: Arena, t: TraceEntry, tasks: seq<M.TaskEntry>)
    requires Sound(a) && a.nrTrace < |a.traces| && |tasks| == |a.tasks|
    requires tasks[..Start(a.traces, a.nrTrace)] == a.tasks[..Start(a.traces, a.nrTrace)]
    ensures Start(a.traces[a.nrTrace := t], a.nrTrace) == Start(a.traces, a.nrTrace)
    ensures Lists(a.traces[a.nrTrace := t], tasks, a.nrTrace) == Published(a)
  {
    ListsFrame(a.traces, a.tasks, a.traces[a.nrTrace := t], tasks, a.nrTrace);
  }

  /** The open trace, if it has records, ends at the next free one. */
  ghost predicate EndsAtNext(a: Arena) {
    a.nrTrace < |a.traces| && a.traces[a.nrTrace].nrTasks > 0 ==>
      a.traces[a.nrTrace].entries == Some(a.nrTask - a.traces[a.nrTrace].nrTasks)
  }

  function Appended(a: Arena, e: M.TaskEntry): Arena
    requires a.nrTrace < |a.traces| && a.nrTask < |a.tasks|
  {
    var t := a.traces[a.nrTrace];
    var entries := if t.nrTasks == 0 then Some(a.nrTask) else t.entries;
    Arena(a.traces[a.nrTrace := TraceEntry(t.latency, t.nrTasks + 1, entries)], a.nrTrace,
          a.tasks[a.nrTask := e], a.nrTask + 1)
  }

  lemma AppendedSound(a: Arena, e: M.TaskEntry)
    requires Sound(a) && a.nrTrace < |a.traces| && a.nrTask < |a.tasks|
    ensures EndsAtNext(a) && Sound(Appended(a, e))
  {
    hide Start;
    StartsKept(a.traces, a.nrTrace, Appended(a, e).traces[a.nrTrace]);
  }

  /** A record goes to the end of the open list; published lists do not change. */
  lemma AppendedLists(a: Arena, e: M.TaskEntry)
    requires Sound(a) && a.nrTrace < |a.traces| && a.nrTask < |a.tasks|
    ensures EndsAtNext(a) && Sound(Appended(a, e))
    ensures Published(Appended(a, e)) == Published(a)
    ensures Open(Appended(a, e)) == Open(a) + [e]
  {
    var a' := Appended(a, e);
    AppendedSound(a, e);
    PublishedKept(a, a'.traces[a.nrTrace], a'.tasks);
  }

  function Closed(a: Arena, latency: u64): Arena
    requires a.nrTrace < |a.traces|
  {
    a.(traces := a.traces[a.nrTrace := a.traces[a.nrTrace].(latency := latency)],
       nrTrace := a.nrTrace + 1)
  }

  lemma StartNext(traces: seq<TraceEntry>, i: nat)
    requires i < |traces|
    ensures Start(traces, i + 1) == Start(traces, i) + traces[i].nrTasks
  {
  }

  lemma ClosedSound(a: Arena, latency: u64)
    requires Sound(a) && a.nrTrace < |a.traces| && a.traces[a.nrTrace].nrTasks > 0
    ensures Sound(Closed(a, latency))
    ensures Start(Closed(a, latency).traces, a.nrTrace + 1) == a.nrTask
  {
    hide Start;
    var a' := Closed(a, latency);
    StartsKept(a.traces, a.nrTrace, a'.traces[a.nrTrace]);
    StartNext(a'.traces, a.nrTrace);
  }

  /** Closing the open trace publishes the whole open list and opens an empty one. */
  lemma ClosedLists(a: Arena, latency: u64)
    requires Sound(a) && a.nrTrace < |a.traces| && a.traces[a.nrTrace].nrTasks > 0
    ensures Sound(Closed(a, latency))
    ensures Published(Closed(a, latency)) == Published(a) + [M.Trace(latency, Open(a))]
    ensures Open(Closed(a, latency)) == []
  {
    var a' := Closed(a, latency);
    ClosedSound(a, latency);
    PublishedKept(a, a'.traces[a.nrTrace], a.tasks);
    hide Layout, M.Recorded;
    assert Lists(a'.traces, a'.tasks, a'.nrTrace) ==
           Published(a) + [M.Trace(latency, Open(a))];
  }

  function RolledBack(a: Arena): Arena
    requires a.nrTrace < |a.traces| && a.traces[a.nrTrace].nrTasks <= a.nrTask
  {
    var t := a.traces[a.nrTrace];
    a.(traces := a.traces[a.nrTrace := t.(nrTasks := 0, entries := None)],
       nrTask := a.nrTask - t.nrTasks)
  }

  lemma RolledBackSound(a: Arena)
    requires Sound(a) && a.nrTrace < |a.traces|
    ensures a.traces[a.nrTrace].nrTasks <= a.nrTask
    ensures Sound(RolledBack(a))
  {
    hide Start;
    StartsKept(a.traces, a.nrTrace, RolledBack(a).traces[a.nrTrace]);
  }

  /** Rolling back drops the whole open list and nothing else. */
  lemma RolledBackLists(a: Arena)
    requires Sound(a) && a.nrTrace < |a.traces|
    ensures a.traces[a.nrTrace].nrTasks <= a.nrTask
    ensures Sound(RolledBack(a))
    ensures Published(RolledBack(a)) == Published(a)
    ensures Open(RolledBack(a)) == []
  {
    RolledBackSound(a);
    PublishedKept(a, RolledBack(a).traces[a.nrTrace], a.tasks);
    hide Lists, Start, M.Recorded;
  }

  function EmptyArena(nrTraces: nat, nrTasks: nat): Arena {
    Arena(seq(nrTraces, _ => NO_TRACE), 0, seq(nrTasks, _ => NO_TASK), 0)
  }

  lemma EmptyArenaSound()
    ensures var a := EmptyArena(M.MAX_TRACE_ENTRIES, M.MAX_TRACE_ENTRY_TASKS);
            Sound(a) && Published(a) == [] && Open(a) == []
  {
  }

  class RunqlatInfo {
    var cpu: int
    var pid: int
    var rqStart: u64
    var runStart: u64
    var threshold: u64
    var curr: Option<M.Task>
    const latencyHist: array<nat>
    var sumLat: u64
    var nrTrace: nat
    const traceEntries: array<TraceEntry>
    var nrTask: nat
    const taskEntries: array<M.TaskEntry>

    ghost function Buffers(): Arena
      reads this, traceEntries, taskEntries
    {
      Arena(traceEntries[..], nrTrace, taskEntries[..], nrTask)
    }

    /** The state as the model sees it: lists of records instead of segments of an array. */
    ghost function Model(): (m: M.Tracer)
      requires Sound(Buffers())
      reads this, latencyHist, traceEntries, taskEntries
      ensures M.NrTask(m) == nrTask && |m.published| == nrTrace
    {
      M.Tracer(pid, cpu, rqStart, runStart, threshold, curr, latencyHist[..], sumLat,
               Published(Buffers()), Open(Buffers()))
    }

    ghost predicate Valid()
      reads this, latencyHist, traceEntries, taskEntries
    {
      && latencyHist.Length == M.LATENCY_HISTOGRAM_ENTRY
      && traceEntries.Length == M.MAX_TRACE_ENTRIES
      && taskEntries.Length == M.MAX_TRACE_ENTRY_TASKS
      && Sound(Buffers()) && M.Safe(Model())
    }

    constructor ()
      ensures Valid() && Model() == M.INIT
      ensures fresh(latencyHist) && fresh(traceEntries) && fresh(taskEntries)
    {
      pid := M.INVALID_PID;
      cpu := M.INVALID_CPU;
      rqStart, runStart, threshold, curr := 0, 0, M.THRESHOLD_DEFAULT, None;
      sumLat, nrTrace, nrTask := 0, 0, 0;
      latencyHist := new nat[M.LATENCY_HISTOGRAM_ENTRY](_ => 0);
      traceEntries := new TraceEntry[M.MAX_TRACE_ENTRIES](_ => NO_TRACE);
      taskEntries := new M.TaskEntry[M.MAX_TRACE_ENTRY_TASKS](_ => NO_TASK);
      new;
      assert latencyHist[..] == Zeros(M.LATENCY_HISTOGRAM_ENTRY);
    }

    method Reset()
      requires Valid()
      modifies this`rqStart, this`runStart, this`cpu, this`curr
      ensures Valid() && Model() == M.Reset(old(Model()))
    {
      hide Sound, Published, Open;
      rqStart, runStart := 0, 0;
      cpu := M.INVALID_CPU;
      curr := None;
    }

    /** Force-disable tracing. */
    method Disable()
      requires Sound(Buffers())
      modifies this`rqStart, this`runStart, this`cpu, this`curr, this`pid
      ensures Buffers() == old(Buffers())
      ensures Model() == M.Reset(old(Model())).(pid := M.INVALID_PID)
    {
      hide Sound, Published, Open;
      rqStart, runStart := 0, 0;
      cpu := M.INVALID_CPU;
      curr := None;
      pid := M.INVALID_PID;
    }

    method AppendRecord(e: M.TaskEntry)
      requires nrTrace < traceEntries.Length && nrTask < taskEntries.Length
      requires EndsAtNext(Buffers())
      modifies this`nrTask, traceEntries, taskEntries
      ensures Buffers() == Appended(old(Buffers()), e)
    {
      var trace := traceEntries[nrTrace];
      if trace.nrTasks == 0 {
        trace := trace.(entries := Some(nrTask));
      }
      // The kernel warns here if the open trace does not end at the next free record.
      assert trace.entries == Some(nrTask - trace.nrTasks);
      traceEntries[nrTrace] := trace.(nrTasks := trace.nrTasks + 1);
      taskEntries[nrTask] := e;
      nrTask := nrTask + 1;
    }

    method RecordTask(p: M.Task, runtime: u64)
      requires Valid() && nrTrace < M.MAX_TRACE_ENTRIES && nrTask < M.MAX_TRACE_ENTRY_TASKS
      modifies this, traceEntries, taskEntries
      ensures Valid() && Model() == M.RecordTask(old(Model()), p, runtime)
    {
      hide Sound, Published, Open, M.Safe;
      M.RecordSafe(Model(), p, runtime);
      AppendedLists(Buffers(), M.TaskEntry(runtime, p.pid, p.comm));
      AppendRecord(M.TaskEntry(runtime, p.pid, p.comm));
      if nrTask >= M.MAX_TRACE_ENTRY_TASKS {
        Disable();
      }
    }

    method LatencyHistogramStore(latency: u64)
      requires Valid()
      modifies this`sumLat, latencyHist
      ensures Valid() && Model() == M.CountLatency(old(Model()), latency)
    {
      hide Sound, Published, Open, M.HistIndex, Add64, M.Recorded;
      sumLat := Add64(sumLat, latency / M.NSEC_PER_MSEC);
      var index := MsecIndex(latency);
      latencyHist[index] := latencyHist[index] + 1;
    }

    static method MsecIndex(latency: u64) returns (index: nat)
      ensures index == M.HistIndex(latency)
    {
      var msecs := latency / M.NSEC_PER_MSEC;
      var delta := msecs / 2;
      index := 0;
      while delta > 0
        invariant delta >= 0
        invariant Bucket(msecs, 1) == if delta == 0 then index else index + 1 + Bucket(delta, 1)
      {
        index := index + 1;
        delta := delta / 2;
      }
      if index >= M.LATENCY_HISTOGRAM_ENTRY {
        index := M.LATENCY_HISTOGRAM_ENTRY - 1;
      }
    }

    method PublishOpen(latency: u64)
      requires nrTrace < traceEntries.Length
      modifies this`nrTrace, traceEntries
      ensures Buffers() == Closed(old(Buffers()), latency)
    {
      traceEntries[nrTrace] := traceEntries[nrTrace].(latency := latency);
      nrTrace := nrTrace + 1;
    }

    method DiscardOpen()
      requires nrTrace < traceEntries.Length && traceEntries[nrTrace].nrTasks <= nrTask
      modifies this`nrTask, traceEntries
      ensures Buffers() == RolledBack(old(Buffers()))
    {
      nrTask := nrTask - traceEntries[nrTrace].nrTasks;
      traceEntries[nrTrace] := traceEntries[nrTrace].(nrTasks := 0, entries := None);
    }

    method CloseOpen(latency: u64)
      requires Valid() && nrTrace < M.MAX_TRACE_ENTRIES && traceEntries[nrTrace].nrTasks > 0
      modifies this, traceEntries
      ensures Valid() && Model() == M.CloseOpen(old(Model()), latency)
    {
      hide Sound, Published, Open, M.Safe, M.NrTask;
      M.CloseSafe(Model(), latency);
      ClosedLists(Buffers(), latency);
      RolledBackLists(Buffers());
      if latency >= threshold {
        PublishOpen(latency);
        if nrTrace >= M.MAX_TRACE_ENTRIES {
          Disable();
        }
      } else {
        DiscardOpen();
      }
    }

    method RecordTaskCommit(latency: u64) returns (recorded: bool)
      requires Valid() && nrTrace < M.MAX_TRACE_ENTRIES
      modifies this, latencyHist, traceEntries
      ensures Valid() && Model() == M.Commit(old(Model()), latency)
      ensures recorded == (old(Model()).open != [])
    {
      hide Layout, Published, Open, M.Safe, M.CloseOpen, M.HistIndex;
      LatencyHistogramStore(latency);
      if traceEntries[nrTrace].nrTasks == 0 {
        return false;
      }
      CloseOpen(latency);
      return true;
    }

    method ProbeSchedWakeup(p: M.Task, onCpu: nat, now: u64)
      requires Valid()
      modifies this`rqStart, this`runStart, this`cpu
      ensures Valid() && Model() == M.DoWakeup(old(Model()), p, onCpu, now)
    {
      hide Sound, Published, Open;
      if p.pid != pid {
        return;
      }
      rqStart := now;
      runStart := rqStart;
      cpu := onCpu;
    }

    method ProbeSchedSwitch(onCpu: nat, prev: M.Task, prevCpu: nat, prevRunning: bool,
                            next: M.Task, now: u64)
      requires Valid()
      modifies this, latencyHist, traceEntries, taskEntries
      ensures Valid()
      ensures Model() == M.DoSwitch(old(Model()), onCpu, prev, prevCpu, prevRunning, next, now)
    {
      hide Sound, Published, Open;
      if pid == M.INVALID_PID {
        return;
      }
      if cpu != M.INVALID_CPU && cpu != onCpu {
        return;
      }
      if cpu == M.INVALID_CPU {
        if pid != prev.pid || !prevRunning {
          return;
        }
        rqStart := now;
        runStart := rqStart;
        cpu := prevCpu;
        if !next.idle {
          curr := Some(next);
        }
      } else {
        if !next.idle {
          curr := Some(next);
        }
        assert Model() == M.SeeNext(old(Model()), next);
        if pid == next.pid {
          if runStart != 0 {
            RecordTask(prev, Sub64(now, runStart));
          }
          var _ := RecordTaskCommit(Sub64(now, rqStart));
        } else if pid == prev.pid {
          if prevRunning {
            rqStart := now;
            runStart := now;
          } else {
            Reset();
          }
        } else {
          if runStart != 0 {
            RecordTask(prev, Sub64(now, runStart));
          }
          runStart := now;
        }
      }
    }

    method ProbeSchedMigrateTask(p: M.Task, toCpu: nat, now: u64)
      requires Valid()
      modifies this, traceEntries, taskEntries
      ensures Valid() && Model() == M.DoMigrate(old(Model()), p, toCpu, now)
    {
      hide Sound, Published, Open;
      if p.pid != pid || cpu == M.INVALID_CPU {
        return;
      }
      if curr.Some? && runStart != 0 {
        RecordTask(curr.value, Sub64(now, runStart));
      }
      cpu := toCpu;
      runStart := now;
    }

    method ClearRecords()
      modifies this`nrTrace, this`nrTask, traceEntries, taskEntries, latencyHist
      ensures Buffers() == EmptyArena(traceEntries.Length, taskEntries.Length)
      ensures latencyHist[..] == Zeros(latencyHist.Length)
    {
      nrTrace, nrTask := 0, 0;
      forall i | 0 <= i < traceEntries.Length {
        traceEntries[i] := NO_TRACE;
      }
      forall i | 0 <= i < taskEntries.Length {
        taskEntries[i] := NO_TASK;
      }
      for i := 0 to latencyHist.Length
        invariant forall j :: 0 <= j < i ==> latencyHist[j] == 0
        modifies latencyHist
      {
        latencyHist[i] := 0;
      }
    }

    /** The part of a pid write that runs under the lock. */
    method StorePidLocked(newPid: int)
      requires Valid()
      modifies this, latencyHist, traceEntries, taskEntries
      ensures Valid() && Model() == M.DoStorePid(old(Model()), newPid)
    {
      hide Sound, Published, Open, M.Safe, M.NrTask;
      M.StorePidSafe(Model(), newPid);
      if pid == newPid {
        return;
      }
      if newPid != M.INVALID_PID {
        ClearRecords();
        EmptyArenaSound();
      }
      rqStart, runStart := 0, 0;
      cpu := M.INVALID_CPU;
      curr := None;
      pid := newPid;
    }

    /** A pid write: `input` is None when the text is no number. */
    method TracePidStore(input: Option<int>) returns (r: Result<()>)
      requires Valid()
      modifies this, latencyHist, traceEntries, taskEntries
      ensures Valid()
      ensures r == match input
                   case None => Err(EINVAL)
                   case Some(n) =>
                     if old(pid) != M.INVALID_PID && n != M.INVALID_PID then Err(EPERM) else Ok(())
      ensures Model() == if r.Ok? then M.DoStorePid(old(Model()), input.value) else old(Model())
    {
      hide Sound, Published, Open;
      if input.None? {
        return Err(EINVAL);
      }
      if pid != M.INVALID_PID && input.value != M.INVALID_PID {
        return Err(EPERM);
      }
      StorePidLocked(input.value);
      return Ok(());
    }

    method ThresholdStore(input: Option<u64>) returns (r: Result<()>)
      requires Valid()
      modifies this`threshold
      ensures Valid()
      ensures r == if input.None? then Err(EINVAL) else Ok(())
      ensures Model() == if input.None? then old(Model())
                         else old(Model()).(threshold := input.value)
    {
      hide Sound, Published, Open;
      if input.None? {
        return Err(EINVAL);
      }
      threshold := input.value;
      return Ok(());
    }

    method PrintTasks(entry: TraceEntry) returns (lines: seq<M.TaskEntry>)
      requires entry.entries.Some? && entry.entries.value + entry.nrTasks <= taskEntries.Length
      ensures lines == taskEntries[entry.entries.value..entry.entries.value + entry.nrTasks]
    {
      lines := [];
      for j := 0 to entry.nrTasks
        invariant lines == taskEntries[entry.entries.value..entry.entries.value + j]
      {
        lines := lines + [taskEntries[entry.entries.value + j]];
      }
    }

    /** What the tracer prints, once tracing is off: the published traces, in order. */
    method RunqlatShow() returns (r: Result<seq<M.Trace>>)
      requires Valid()
      ensures r == if pid != M.INVALID_PID then Err(EPERM) else Ok(Model().published)
    {
      hide Layout, Published, Open, M.Safe;
      if pid != M.INVALID_PID {
        return Err(EPERM);
      }
      var printed: seq<M.Trace> := [];
      ghost var a := Buffers();
      for i := 0 to nrTrace
        invariant i <= |Published(a)|
        invariant printed == Published(a)[..i]
      {
        PublishedAt(a, i);
        var entry := traceEntries[i];
        var lines := PrintTasks(entry);
        printed := printed + [M.Trace(entry.latency, lines)];
      }
      assert printed == Published(a);
      return Ok(printed);
    }
  }
}
