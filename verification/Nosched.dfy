/**
 The no-schedule sampler as the module keeps it on each CPU: a timestamp, a flag, a histogram
 and a stack buffer, updated in place by the tick and by the switch probe.
 */
module Nosched {
  import opened Bits
  import A = StackArena
  import M = NoschedModel

  class PerCpu {
    var last: u64
    var skip: bool
    const hist: array<nat>
    const store: A.StackStore

    ghost function Objects(): set<object> {
      {this, hist, store, store.tags, store.segments, store.frames}
    }

    ghost predicate Valid()
      reads Objects()
    {
      && hist.Length == M.DURATION_HISTOGRAM_ENTRY
      && {this, hist} !! {store, store.tags, store.segments, store.frames}
      && store.limits == M.ARENA_LIMITS && store.Valid()
    }

    ghost function View(): (c: M.Cpu)
      requires Valid()
      reads Objects()
      ensures |c.hist| == M.DURATION_HISTOGRAM_ENTRY
    {
      M.Cpu(last, skip, store.List(), hist[..])
    }

    constructor ()
      ensures Valid() && fresh(Objects())
      ensures View() == M.Cpu(0, false, [], Zeros(M.DURATION_HISTOGRAM_ENTRY))
    {
      hide A.Inv, A.Stacks;
      last, skip := 0, false;
      hist := new nat[M.DURATION_HISTOGRAM_ENTRY](_ => 0);
      store := new A.StackStore(M.ARENA_LIMITS);
      new;
      assert hist[..] == Zeros(M.DURATION_HISTOGRAM_ENTRY);
    }

    static method StepIndex(delta0: u64) returns (index: nat)
      requires delta0 >= M.STEP
      ensures index == Bucket(delta0, M.STEP)
    {
      var delta := delta0 / 2;
      index := 0;
      while delta >= M.STEP
        invariant delta >= 0
        invariant Bucket(delta0, M.STEP) ==
                  if delta < M.STEP then index else index + 1 + Bucket(delta, M.STEP)
      {
        delta := delta / 2;
        index := index + 1;
      }
    }

    method HistUpdate(delta: u64)
      requires Valid()
      modifies hist
      ensures Valid() && View() == old(View()).(hist := M.HistUpdate(old(View()).hist, delta))
    {
      hide A.Inv, A.Stacks;
      if delta < M.STEP {
        return;
      }
      var index := StepIndex(delta);
      if index >= M.DURATION_HISTOGRAM_ENTRY {
        index := M.DURATION_HISTOGRAM_ENTRY - 1;
      }
      hist[index] := hist[index] + 1;
    }

    method HrtimerHandler(ghost s: M.System, threshold: u64, env: M.Env, busy: bool)
      requires Valid() && s.cpu == View() && s.threshold == threshold
      modifies Objects()
      ensures Valid() && View() == M.DoTick(s, env, busy).cpu
    {
      hide A.Inv, A.Stacks, A.Saved, A.SavedOk;
      if busy {
        var delta := Sub64(env.now, last);
        if !skip && delta >= threshold {
          var ok := store.SaveTrace(M.TagOf(env, delta), env.unwound);
          if ok {
            skip := true;
          }
        }
      } else {
        last := env.now;
      }
    }

    /**
     The switch probe. It puts the duration into the last slot in use; `fault` tells that there
     is none, because the stacks were cleared while one of them was waiting, so that the index
     wraps around and the store goes outside the array.
     */
    method ProbeSchedSwitch(ghost s: M.System, enabled: bool, now: u64, counted: bool) returns (fault: bool)
      requires Valid() && s.cpu == View() && s.enabled == enabled && !s.fault
      modifies Objects()
      ensures fault == M.DoSwitch(s, now, counted).fault
      ensures !fault ==> Valid() && View() == M.DoSwitch(s, now, counted).cpu
    {
      hide A.Inv, A.Stacks, M.HistUpdate;
      var before := last;
      if !enabled {
        return false;
      }
      last := now;
      if skip {
        skip := false;
        if store.nrStacks == 0 {
          return true;
        }
        store.RewriteDuration(Sub64(now, before));
      }
      if counted {
        HistUpdate(Sub64(now, before));
      }
      return false;
    }

    /** Withdraws the stacks and empties the histogram, but not the mark of a waiting stack. */
    method StackTraceClear(ghost s: M.System)
      requires Valid() && s.cpu == View()
      modifies Objects()
      ensures Valid() && View() == M.Step(s, M.Clear).cpu
    {
      hide A.Inv, A.Stacks;
      store.Clear();
      ClearHist();
    }

    method ClearHist()
      requires Valid()
      modifies hist
      ensures Valid() && View() == old(View()).(hist := Zeros(M.DURATION_HISTOGRAM_ENTRY))
    {
      hide A.Inv, A.Stacks;
      for i := 0 to hist.Length
        invariant Valid() && store.List() == old(store.List())
        invariant forall j :: 0 <= j < i ==> hist[j] == 0
      {
        hist[i] := 0;
      }
      assert hist[..] == Zeros(M.DURATION_HISTOGRAM_ENTRY);
    }

    method TimerStart(ghost s: M.System, now: u64)
      requires Valid() && s.cpu == View()
      modifies this
      ensures Valid() && View() == M.Step(s, M.StartTimer(now)).cpu
    {
      hide A.Inv, A.Stacks;
      last := now;
    }
  }
}
