/**
 The interrupts-off sampler as the module keeps it: global settings, and for each CPU two
 timestamps, a flag, two histograms and two stack buffers that the handlers update in place.
 */
module Irqoff {
  import opened Bits
  import A = StackArena
  import M = IrqoffModel

  class Control {
    var period: u64
    var latency: u64
    var enabled: bool

    ghost function View(): M.Settings
      reads this
    {
      M.Settings(period, latency, enabled)
    }

    constructor ()
      ensures View() == M.DEFAULTS
    {
      period, latency, enabled := 10_000_000, 50_000_000, false;
    }

    /** `input` is None when the text is no number; zero asks for a clear. */
    method TraceLatencyWrite(input: Option<u64>) returns (r: Result<()>, clear: bool)
      modifies this
      ensures input.None? ==> r == Err(EINVAL) && !clear && View() == old(View())
      ensures input.Some? ==>
                match M.WriteLatency(old(View()), input.value)
                case Accepted(s) => r == Ok(()) && !clear && View() == s
                case Cleared => r == Ok(()) && clear && View() == old(View())
                case Refused => r == Err(EINVAL) && !clear && View() == old(View())
    {
      if input.None? {
        return Err(EINVAL), false;
      }
      var ms := input.value;
      if ms == 0 {
        return Ok(()), true;
      } else if ms < M.Mul64(period, 2) / M.NSEC_PER_MSEC {
        return Err(EINVAL), false;
      }
      latency := M.Mul64(ms, M.NSEC_PER_MSEC);
      return Ok(()), false;
    }

    method SamplingPeriodWrite(input: Option<u64>) returns (r: Result<()>)
      modifies this
      ensures r == if !old(enabled) && input.Some? then Ok(()) else Err(EINVAL)
      ensures View() == if r.Ok? then M.WritePeriod(old(View()), input.value).s else old(View())
    {
      if enabled {
        return Err(EINVAL);
      }
      if input.None? {
        return Err(EINVAL);
      }
      var ns := M.Mul64(input.value, M.NSEC_PER_MSEC);
      if ns > latency / 2 {
        latency := M.Mul64(ns, 2);
      }
      period := ns;
      return Ok(());
    }
  }

  class PerCpu {
    var hardLast: u64
    var softLast: u64
    var softDelayed: bool
    const hardCount: array<nat>
    const softCount: array<nat>
    const hardTrace: A.StackStore
    const softTrace: A.StackStore

    ghost function HardObjects(): set<object> {
      {hardTrace, hardTrace.tags, hardTrace.segments, hardTrace.frames}
    }

    ghost function SoftObjects(): set<object> {
      {softTrace, softTrace.tags, softTrace.segments, softTrace.frames}
    }

    ghost function Objects(): set<object> {
      {this, hardCount, softCount} + HardObjects() + SoftObjects()
    }

    ghost predicate Valid()
      reads Objects()
    {
      && hardCount.Length == softCount.Length == M.MAX_LATENCY_RECORD
      && hardCount != softCount
      && HardObjects() !! SoftObjects()
      && {this, hardCount, softCount} !! HardObjects() + SoftObjects()
      && hardTrace.limits == softTrace.limits == M.ARENA_LIMITS
      && hardTrace.Valid() && softTrace.Valid()
    }

    ghost function View(): (c: M.Cpu)
      requires Valid()
      reads Objects()
      ensures M.Sized(c)
    {
      M.Cpu(hardLast, softLast, softDelayed, hardTrace.List(), softTrace.List(),
            hardCount[..], softCount[..])
    }

    constructor ()
      ensures Valid() && fresh(Objects()) && View() == M.Idle()
    {
      hide A.Inv, A.Stacks, A.StackStore.Valid, A.StackStore.List;
      hardLast, softLast, softDelayed := 0, 0, false;
      hardCount := new nat[M.MAX_LATENCY_RECORD](_ => 0);
      softCount := new nat[M.MAX_LATENCY_RECORD](_ => 0);
      var hard, soft := NewStores();
      hardTrace, softTrace := hard, soft;
      new;
      assert hardCount[..] == softCount[..] == Zeros(M.MAX_LATENCY_RECORD);
    }

    /** Two empty buffers that share nothing. */
    static method NewStores() returns (hard: A.StackStore, soft: A.StackStore)
      ensures hard.Valid() && soft.Valid() && hard.List() == soft.List() == []
      ensures hard.limits == soft.limits == M.ARENA_LIMITS
      ensures fresh({hard, hard.tags, hard.segments, hard.frames})
      ensures fresh({soft, soft.tags, soft.segments, soft.frames})
      ensures {hard, hard.tags, hard.segments, hard.frames} !! {soft, soft.tags, soft.segments, soft.frames}
    {
      hide A.Inv, A.Stacks;
      hard := new A.StackStore(M.ARENA_LIMITS);
      soft := new A.StackStore(M.ARENA_LIMITS);
    }

    /** Empties both buffers and both histograms. */
    method ClearStackTrace()
      requires Valid()
      modifies Objects()
      ensures Valid() && View() == M.ClearStacks(old(View()))
    {
      hide A.Inv, A.Stacks;
      hardTrace.Clear();
      softTrace.Clear();
      ClearCounts();
    }

    method ClearCounts()
      requires Valid()
      modifies hardCount, softCount
      ensures Valid()
      ensures View() == old(View()).(hardCount := Zeros(M.MAX_LATENCY_RECORD),
                                     softCount := Zeros(M.MAX_LATENCY_RECORD))
    {
      hide A.Inv, A.Stacks;
      for i := 0 to M.MAX_LATENCY_RECORD
        invariant Valid() && unchanged(this) && unchanged(hardTrace) && unchanged(softTrace)
        invariant hardTrace.List() == old(hardTrace.List()) && softTrace.List() == old(softTrace.List())
        invariant forall j :: 0 <= j < i ==> hardCount[j] == softCount[j] == 0
      {
        hardCount[i] := 0;
        softCount[i] := 0;
      }
      assert hardCount[..] == softCount[..] == Zeros(M.MAX_LATENCY_RECORD);
    }

    /** Starting the timers begins both measurements. */
    method TimersStart(now: u64)
      requires Valid()
      modifies this
      ensures Valid() && View() == M.StartTimers(old(View()), now)
    {
      hide A.Inv, A.Stacks;
      hardLast := now;
      softLast := now;
    }

    method SaveTrace(env: M.Env, hardirq: bool, useRegs: bool, latency: u64)
      requires Valid()
      modifies Objects() - {this, hardCount, softCount}
      ensures Valid() && View() == M.SaveTrace(old(View()), env, hardirq, useRegs, latency)
    {
      hide A.Inv, A.Stacks, A.Saved;
      var tag := M.TagOf(env, latency, !hardirq && useRegs && env.regs);
      if hardirq {
        var _ := hardTrace.SaveTrace(tag, env.unwound);
      } else {
        var _ := softTrace.SaveTrace(tag, env.unwound);
      }
    }

    static method LatencyIndex(delta0: u64, throttle: u64) returns (index: nat)
      ensures index == M.HistIndex(delta0, throttle)
    {
      var delta := delta0 / 2;
      index := 0;
      while delta > throttle
        invariant delta >= 0
        invariant Bucket(delta0, throttle + 1) ==
                  if delta <= throttle then index else index + 1 + Bucket(delta, throttle + 1)
      {
        index := index + 1;
        delta := delta / 2;
      }
      if index >= M.MAX_LATENCY_RECORD {
        index := M.MAX_LATENCY_RECORD - 1;
      }
    }

    method Count(index: nat, hardirq: bool, skip: bool)
      requires Valid() && index < M.MAX_LATENCY_RECORD
      modifies hardCount, softCount
      ensures Valid()
      ensures View() == if hardirq then old(View()).(hardCount := M.Increment(old(View()).hardCount, index))
                        else if !skip then old(View()).(softCount := M.Increment(old(View()).softCount, index))
                        else old(View())
    {
      hide A.Inv, A.Stacks;
      if hardirq {
        hardCount[index] := hardCount[index] + 1;
      } else if !skip {
        softCount[index] := softCount[index] + 1;
      }
    }

    method TraceIrqoffRecord(cfg: M.Settings, delta: u64, hardirq: bool, skip: bool, env: M.Env)
      returns (counted: bool)
      requires Valid()
      modifies Objects() - {this}
      ensures Valid() && counted == M.Counts(cfg, delta)
      ensures View() == M.Record(old(View()), cfg, delta, hardirq, skip, env)
    {
      var throttle := M.Throttle(cfg);
      if delta < throttle {
        return false;
      }
      var index := LatencyIndex(delta, throttle);
      Count(index, hardirq, skip);
      if delta >= cfg.latency {
        SaveTrace(env, hardirq, skip, delta);
      }
      return true;
    }

    method TraceIrqoffHrtimerHandler(cfg: M.Settings, env: M.Env)
      requires Valid()
      modifies Objects()
      ensures Valid() && View() == M.HrtimerHandler(old(View()), cfg, env)
    {
      var delta := Sub64(env.now, hardLast);
      hardLast := env.now;
      var counted := TraceIrqoffRecord(cfg, delta, true, true, env);
      if counted {
        softLast := env.now;
      } else if !softDelayed {
        var deltaSoft := Sub64(env.now, softLast);
        if deltaSoft >= cfg.latency {
          softDelayed := true;
          var _ := TraceIrqoffRecord(cfg, deltaSoft, false, true, env);
        }
      }
    }

    method TraceIrqoffTimerHandler(cfg: M.Settings, env: M.Env)
      requires Valid()
      modifies Objects()
      ensures Valid() && View() == M.TimerHandler(old(View()), cfg, env)
    {
      var delta := Sub64(env.now, softLast);
      softLast := env.now;
      softDelayed := false;
      var _ := TraceIrqoffRecord(cfg, delta, false, false, env);
    }
  }
}
