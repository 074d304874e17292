/**
 The per-CPU stack buffer of both samplers: an append-only array of frames, cut into
 consecutive segments by an array of stack entries. A writer on the CPU appends while readers
 on other CPUs load the number of stacks and then look at them.

 A step of the machine is one store of the writer. The release store of the count comes last
 and the reader's acquire load comes first, so the reader sees memory as of some step.
 */
module StackArena {
  import opened Bits

  type Frame = u64

  datatype Tag = Tag(comm: string, pid: int, nsecs: u64, more: bool)

  datatype Stack = Stack(tag: Tag, frames: seq<Frame>)

  datatype Segment = Segment(start: nat, length: nat)

  /** How many stacks and frames fit, and how many frames must be free to start a stack. */
  datatype Limits = Limits(stacks: nat, frames: nat, reserve: nat)

  datatype Memory = Memory(
    tags: seq<Tag>,
    segments: seq<Segment>,
    frames: seq<Frame>,
    nrStacks: nat,
    nrFrames: nat)

  /** Where the writer is; `job` is the stack it is storing. */
  datatype Phase =
    | Quiet
    | Storing(job: Stack, stored: nat)
    | Stored(job: Stack)
    | Counted(job: Stack)

  datatype State = State(m: Memory, phase: Phase)

  datatype Action =
    | Begin(job: Stack)
    | StoreFrame
    | StoreSegment
    | CountFrames
    | Publish
    | Rewrite(nsecs: u64)
    | Clear

  predicate Sized(m: Memory, l: Limits) {
    |m.tags| == |m.segments| == l.stacks && |m.frames| == l.frames
  }

  predicate Enabled(s: State, a: Action, l: Limits)
    requires Sized(s.m, l)
  {
    var m := s.m;
    match a
    case Begin(job) =>
      s.phase.Quiet? && m.nrStacks < l.stacks && m.nrFrames + l.reserve < l.frames &&
      |job.frames| <= l.frames - m.nrFrames
    case StoreFrame =>
      s.phase.Storing? && s.phase.stored < |s.phase.job.frames| &&
      m.nrFrames + s.phase.stored < l.frames
    case StoreSegment =>
      s.phase.Storing? && s.phase.stored == |s.phase.job.frames| && m.nrStacks < l.stacks
    case CountFrames => s.phase.Stored?
    case Publish => s.phase.Counted?
    case Rewrite(_) => s.phase.Quiet? && 0 < m.nrStacks <= l.stacks
    case Clear => s.phase.Quiet?
  }

  function Next(s: State, a: Action, l: Limits): (s': State)
    requires Sized(s.m, l) && Enabled(s, a, l)
    ensures Sized(s'.m, l)
  {
    var m := s.m;
    match a
    case Begin(job) =>
      State(m.(tags := m.tags[m.nrStacks := job.tag]), Storing(job, 0))
    case StoreFrame =>
      var job, k := s.phase.job, s.phase.stored;
      State(m.(frames := m.frames[m.nrFrames + k := job.frames[k]]), Storing(job, k + 1))
    case StoreSegment =>
      var job := s.phase.job;
      State(m.(segments := m.segments[m.nrStacks := Segment(m.nrFrames, |job.frames|)]), Stored(job))
    case CountFrames =>
      State(m.(nrFrames := m.nrFrames + |s.phase.job.frames|), Counted(s.phase.job))
    case Publish => State(m.(nrStacks := m.nrStacks + 1), Quiet)
    case Rewrite(nsecs) =>
      var i := m.nrStacks - 1;
      State(m.(tags := m.tags[i := m.tags[i].(nsecs := nsecs)]), Quiet)
    case Clear => State(m.(nrStacks := 0, nrFrames := 0), Quiet)
  }

  // The segments of published stacks tile the used frames.

  ghost function End(segments: seq<Segment>, n: nat): nat
    requires n <= |segments|
  {
    if n == 0 then 0 else End(segments, n - 1) + segments[n - 1].length
  }

  /** Published segments are consecutive and lie below `limit`. */
  ghost predicate Tiled(m: Memory, limit: nat) {
    && m.nrStacks <= |m.segments| && limit <= |m.frames|
    && (forall i :: 0 <= i < m.nrStacks ==> m.segments[i].start == End(m.segments, i))
    && End(m.segments, m.nrStacks) == limit
  }

  lemma {:induction false} EndMonotone(segments: seq<Segment>, i: nat, j: nat)
    requires i <= j <= |segments|
    ensures End(segments, i) <= End(segments, j)
  {
    if i < j {
      EndMonotone(segments, i, j - 1);
    }
  }

  lemma {:induction false} EndUpdate(segments: seq<Segment>, k: nat, x: Segment, n: nat)
    requires n <= k < |segments|
    ensures End(segments[k := x], n) == End(segments, n)
  {
    if n > 0 {
      EndUpdate(segments, k, x, n - 1);
    }
  }

  /** The stack that a reader finds in slot `i`. */
  ghost function StackAt(m: Memory, i: nat): Stack
    requires i < |m.segments| && i < |m.tags|
  {
    var g := m.segments[i];
    Stack(m.tags[i], if g.start + g.length <= |m.frames| then m.frames[g.start..g.start + g.length]
                     else [])
  }

  lemma {:induction false} InBounds(m: Memory, limit: nat, i: nat)
    requires Tiled(m, limit) && i < m.nrStacks
    ensures m.segments[i].start + m.segments[i].length <= limit <= |m.frames|
  {
    hide End;
    EndMonotone(m.segments, i + 1, m.nrStacks);
    EndNext(m.segments, i);
  }

  /** The frames in use that belong to published stacks. */
  function Used(s: State): int {
    if s.phase.Counted? then s.m.nrFrames - |s.phase.job.frames| else s.m.nrFrames
  }

  ghost predicate Inv(s: State, l: Limits) {
    var m := s.m;
    && Sized(m, l) && m.nrFrames <= l.frames && 0 <= Used(s) && Tiled(m, Used(s))
    && (!s.phase.Quiet? ==>
          m.nrStacks < l.stacks && m.tags[m.nrStacks] == s.phase.job.tag
          && Used(s) + |s.phase.job.frames| <= l.frames)
    && (s.phase.Storing? ==>
          && s.phase.stored <= |s.phase.job.frames|
          && m.frames[m.nrFrames..m.nrFrames + s.phase.stored] == s.phase.job.frames[..s.phase.stored])
    && (s.phase.Stored? || s.phase.Counted? ==>
          && m.segments[m.nrStacks] == Segment(Used(s), |s.phase.job.frames|)
          && m.frames[Used(s)..Used(s) + |s.phase.job.frames|] == s.phase.job.frames)
  }

  /** Storing at or above the used part leaves every published segment where it is. */
  lemma TiledUpdate(m: Memory, x: Segment, limit: nat)
    requires Tiled(m, limit) && m.nrStacks < |m.segments|
    ensures Tiled(m.(segments := m.segments[m.nrStacks := x]), limit)
  {
    forall i | 0 <= i <= m.nrStacks
      ensures End(m.segments[m.nrStacks := x], i) == End(m.segments, i)
    {
      EndUpdate(m.segments, m.nrStacks, x, i);
    }
  }

  lemma {:induction false} SliceStore(frames: seq<Frame>, from: nat, to: nat, x: Frame)
    requires from <= to < |frames|
    ensures frames[to := x][from..to + 1] == frames[from..to] + [x]
  {
  }

  lemma {:induction false} SliceKept(frames: seq<Frame>, from: nat, to: nat, k: nat, x: Frame)
    requires from <= to <= k < |frames|
    ensures frames[k := x][from..to] == frames[from..to]
  {
  }

  lemma StoreFrameInv(s: State, l: Limits)
    requires Inv(s, l) && Enabled(s, StoreFrame, l)
    ensures Inv(Next(s, StoreFrame, l), l)
  {
    hide End;
    var job, k := s.phase.job, s.phase.stored;
    SliceStore(s.m.frames, s.m.nrFrames, s.m.nrFrames + k, job.frames[k]);
    assert job.frames[..k + 1] == job.frames[..k] + [job.frames[k]];
  }

  lemma StoreSegmentInv(s: State, l: Limits)
    requires Inv(s, l) && Enabled(s, StoreSegment, l)
    ensures Inv(Next(s, StoreSegment, l), l)
  {
    hide End, Tiled;
    TiledUpdate(s.m, Segment(s.m.nrFrames, |s.phase.job.frames|), s.m.nrFrames);
    assert s.phase.job.frames[..s.phase.stored] == s.phase.job.frames;
  }

  lemma EndNext(segments: seq<Segment>, n: nat)
    requires n < |segments|
    ensures End(segments, n + 1) == End(segments, n) + segments[n].length
  {
  }

  lemma PublishInv(s: State, l: Limits)
    requires Inv(s, l) && Enabled(s, Publish, l)
    ensures Inv(Next(s, Publish, l), l)
  {
    hide End;
    EndNext(s.m.segments, s.m.nrStacks);
  }

  lemma ClearInv(s: State, l: Limits)
    requires Inv(s, l) && Enabled(s, Clear, l)
    ensures Inv(Next(s, Clear, l), l)
  {
  }

  lemma NextKeepsInv(s: State, a: Action, l: Limits)
    requires Inv(s, l) && Enabled(s, a, l)
    ensures Inv(Next(s, a, l), l)
  {
    hide End;
    match a
    case StoreFrame => StoreFrameInv(s, l);
    case StoreSegment => StoreSegmentInv(s, l);
    case Publish => PublishInv(s, l);
    case Clear => ClearInv(s, l);
    case _ =>
  }

  /**
   One step changes nothing that a reader can see of a published stack, except that a rewrite
   changes the duration of the newest one. A clear is the only step that withdraws stacks.
   */
  lemma NextKeepsStack(s: State, a: Action, l: Limits, i: nat)
    requires Inv(s, l) && Enabled(s, a, l) && i < s.m.nrStacks && !a.Clear?
    ensures
      var m' := Next(s, a, l).m;
      && i < m'.nrStacks && m'.segments[i] == s.m.segments[i]
      && StackAt(m', i) ==
         if a.Rewrite? && i == s.m.nrStacks - 1
         then var t := StackAt(s.m, i); t.(tag := t.tag.(nsecs := a.nsecs))
         else StackAt(s.m, i)
  {
    hide End;
    InBounds(s.m, Used(s), i);
    if a.StoreFrame? {
      var g, k := s.m.segments[i], s.phase.stored;
      SliceKept(s.m.frames, g.start, g.start + g.length, s.m.nrFrames + k, s.phase.job.frames[k]);
    }
  }

  /** Publishing makes exactly the stack that was begun visible, complete. */
  lemma PublishedIsTheJob(s: State, l: Limits)
    requires Inv(s, l) && s.phase.Counted?
    ensures
      var m' := Next(s, Publish, l).m;
      && m'.nrStacks == s.m.nrStacks + 1
      && m'.segments[s.m.nrStacks].start + m'.segments[s.m.nrStacks].length <= |m'.frames|
      && StackAt(m', s.m.nrStacks) == s.phase.job
  {
  }

  // Runs and readers.

  function Empty(l: Limits): State {
    State(Memory(seq(l.stacks, _ => Tag("", 0, 0, false)), seq(l.stacks, _ => Segment(0, 0)),
                 seq(l.frames, _ => 0), 0, 0), Quiet)
  }

  datatype History = Start | Then(past: History, action: Action)

  /** Steps that are not enabled do nothing. */
  function Reached(h: History, l: Limits): (s: State)
    ensures Sized(s.m, l)
  {
    match h
    case Start => Empty(l)
    case Then(past, a) =>
      var s := Reached(past, l);
      if Enabled(s, a, l) then Next(s, a, l) else s
  }

  lemma {:induction false} ReachedInv(h: History, l: Limits)
    ensures Inv(Reached(h, l), l)
  {
    if h.Then? {
      ReachedInv(h.past, l);
      if Enabled(Reached(h.past, l), h.action, l) {
        NextKeepsInv(Reached(h.past, l), h.action, l);
      }
    }
  }

  /** No clear between `from` and `h`. */
  predicate Undisturbed(from: History, h: History) {
    h == from || (h.Then? && !h.action.Clear? && Undisturbed(from, h.past))
  }

  predicate NeverRewritten(from: History, h: History) {
    h == from || (h.Then? && !h.action.Rewrite? && NeverRewritten(from, h.past))
  }

  /** A slot below the loaded count can be read, at any later step. */
  lemma Readable(h: History, l: Limits, i: nat)
    requires i < Reached(h, l).m.nrStacks
    ensures var m := Reached(h, l).m;
            && i < |m.segments| && i < |m.tags|
            && m.segments[i].start + m.segments[i].length <= |m.frames|
  {
    ReachedInv(h, l);
    InBounds(Reached(h, l).m, Used(Reached(h, l)), i);
  }

  /**
   A reader that loaded the count at `from` and looks at a slot below it at `h`, with any
   steps of the writer in between but no clear, finds the stack as it was at `from`: frames,
   command and pid always, and the duration unless it was rewritten.
   */
  lemma {:induction false} SnapshotStable(from: History, h: History, l: Limits, i: nat)
    requires Undisturbed(from, h) && i < Reached(from, l).m.nrStacks && i < l.stacks
    ensures i < Reached(h, l).m.nrStacks
    ensures
      var seen, now := StackAt(Reached(from, l).m, i), StackAt(Reached(h, l).m, i);
      && now.frames == seen.frames
      && now.tag == seen.tag.(nsecs := now.tag.nsecs)
      && (NeverRewritten(from, h) ==> now == seen)
  {
    Readable(from, l, i);
    if h != from {
      SnapshotStable(from, h.past, l, i);
      var s := Reached(h.past, l);
      ReachedInv(h.past, l);
      if Enabled(s, h.action, l) {
        NextKeepsStack(s, h.action, l, i);
      }
    }
  }

  // Saving a whole stack, as the handlers see it.

  ghost function Stacks(m: Memory): (r: seq<Stack>)
    requires m.nrStacks <= |m.segments| && m.nrStacks <= |m.tags|
    ensures |r| == m.nrStacks
    ensures forall i :: 0 <= i < m.nrStacks ==> r[i] == StackAt(m, i)
  {
    seq(m.nrStacks, i requires 0 <= i < m.nrStacks => StackAt(m, i))
  }

  function FrameCount(stacks: seq<Stack>): nat {
    if stacks == [] then 0
    else FrameCount(stacks[..|stacks| - 1]) + |stacks[|stacks| - 1].frames|
  }

  function Cut(unwound: seq<Frame>, room: int): (r: seq<Frame>)
    ensures r <= unwound
    ensures room >= 0 ==> |r| == if |unwound| <= room then |unwound| else room
  {
    if |unwound| <= room then unwound else if room <= 0 then [] else unwound[..room]
  }

  predicate Fits(stacks: seq<Stack>, l: Limits) {
    |stacks| < l.stacks && FrameCount(stacks) + l.reserve < l.frames
  }

  /** The list after an attempt to save: a stack that does not fit is dropped. */
  function Saved(stacks: seq<Stack>, tag: Tag, unwound: seq<Frame>, l: Limits): seq<Stack> {
    if Fits(stacks, l) then stacks + [Stack(tag, Cut(unwound, l.frames - FrameCount(stacks)))]
    else stacks
  }

  /** The reported outcome: false also when the stack was saved but used up the frames. */
  predicate SavedOk(stacks: seq<Stack>, tag: Tag, unwound: seq<Frame>, l: Limits) {
    Fits(stacks, l) && FrameCount(Saved(stacks, tag, unwound, l)) + l.reserve < l.frames
  }

  // Several stacks in a row.

  datatype Offer = Offer(tag: Tag, unwound: seq<Frame>)

  /** The list after all these attempts to save. */
  function AllSaved(offers: seq<Offer>, l: Limits): seq<Stack> {
    if offers == [] then []
    else
      var o := offers[|offers| - 1];
      Saved(AllSaved(offers[..|offers| - 1], l), o.tag, o.unwound, l)
  }

  lemma AllSavedAppend(offers: seq<Offer>, o: Offer, l: Limits)
    ensures AllSaved(offers + [o], l) == Saved(AllSaved(offers, l), o.tag, o.unwound, l)
  {
    hide Saved;
    assert (offers + [o])[..|offers|] == offers;
  }

  lemma FrameCountAppend(stacks: seq<Stack>, s: Stack)
    ensures FrameCount(stacks + [s]) == FrameCount(stacks) + |s.frames|
  {
    assert (stacks + [s])[..|stacks|] == stacks;
  }

  /** Stack `i` is offer `i`, whole, or cut where the frames end. */
  ghost predicate KeptAs(stacks: seq<Stack>, offers: seq<Offer>, l: Limits, i: nat)
    requires i < |stacks| && i < |offers|
  {
    && stacks[i].tag == offers[i].tag && stacks[i].frames <= offers[i].unwound
    && (stacks[i].frames == offers[i].unwound || FrameCount(stacks[..i + 1]) == l.frames)
  }

  /**
   The stacks are the first offers, in order, each whole unless the frames end in it; and an
   offer is missing only if the slots or the frames are used up.
   */
  ghost predicate FirstOffers(stacks: seq<Stack>, offers: seq<Offer>, l: Limits) {
    && |stacks| <= |offers| && |stacks| <= l.stacks && FrameCount(stacks) <= l.frames
    && (forall i :: 0 <= i < |stacks| ==> KeptAs(stacks, offers, l, i))
    && (|stacks| == |offers| || |stacks| == l.stacks || FrameCount(stacks) + l.reserve >= l.frames)
  }

  /** Whatever is offered, the first offers are kept, as long as room lasts. */
  lemma {:induction false} KeptWhileRoomLasts(offers: seq<Offer>, l: Limits)
    ensures FirstOffers(AllSaved(offers, l), offers, l)
  {
    hide FrameCount;
    if offers == [] {
      assert FrameCount([]) == 0 by { NoFrames(); }
    } else {
      var init, o := offers[..|offers| - 1], offers[|offers| - 1];
      KeptWhileRoomLasts(init, l);
      KeptStep(init, o, l);
      assert offers == init + [o];
    }
  }

  lemma NoFrames()
    ensures FrameCount([]) == 0
  {
  }

  lemma {:induction false} KeptStep(offers: seq<Offer>, o: Offer, l: Limits)
    requires FirstOffers(AllSaved(offers, l), offers, l)
    ensures FirstOffers(AllSaved(offers + [o], l), offers + [o], l)
  {
    hide FrameCount, AllSaved;
    var before, after := AllSaved(offers, l), AllSaved(offers + [o], l);
    AllSavedAppend(offers, o, l);
    if Fits(before, l) {
      var s := Stack(o.tag, Cut(o.unwound, l.frames - FrameCount(before)));
      FrameCountAppend(before, s);
      forall i | 0 <= i < |after|
        ensures KeptAs(after, offers + [o], l, i)
      {
        if i < |before| {
          assert KeptAs(before, offers, l, i);
          assert after[..i + 1] == before[..i + 1];
        } else {
          assert after[..i + 1] == after;
        }
      }
    } else {
      forall i | 0 <= i < |after|
        ensures KeptAs(after, offers + [o], l, i)
      {
        assert KeptAs(before, offers, l, i);
      }
    }
  }

  lemma {:induction false} FrameCountIsEnd(m: Memory, limit: nat, n: nat)
    requires Tiled(m, limit) && n <= m.nrStacks <= |m.tags| && m.nrStacks <= |m.segments|
    ensures FrameCount(Stacks(m)[..n]) == End(m.segments, n)
  {
    hide Tiled;
    if n > 0 {
      FrameCountIsEnd(m, limit, n - 1);
      InBounds(m, limit, n - 1);
      assert Stacks(m)[..n][..n - 1] == Stacks(m)[..n - 1];
    }
  }

  /** The number of frames in use is the total length of the published stacks. */
  lemma QuietFrameCount(m: Memory, l: Limits)
    requires Inv(State(m, Quiet), l)
    ensures FrameCount(Stacks(m)) == m.nrFrames
  {
    FrameCountIsEnd(m, m.nrFrames, m.nrStacks);
    assert Stacks(m)[..m.nrStacks] == Stacks(m);
  }

  /** The writer's own steps keep the list of published stacks, up to publication. */
  lemma NextKeepsStacks(s: State, a: Action, l: Limits)
    requires Inv(s, l) && Enabled(s, a, l) && !a.Clear? && !a.Rewrite?
    ensures Inv(Next(s, a, l), l)
    ensures Stacks(Next(s, a, l).m) ==
            if a.Publish? then Stacks(s.m) + [s.phase.job] else Stacks(s.m)
  {
    hide End, Tiled;
    NextKeepsInv(s, a, l);
    var m' := Next(s, a, l).m;
    forall i | 0 <= i < s.m.nrStacks
      ensures StackAt(m', i) == StackAt(s.m, i)
    {
      NextKeepsStack(s, a, l, i);
    }
    if a.Publish? {
      PublishedIsTheJob(s, l);
    }
  }

  function Rewritten(stacks: seq<Stack>, nsecs: u64): seq<Stack> {
    if stacks == [] then []
    else
      var t := stacks[|stacks| - 1];
      stacks[|stacks| - 1 := t.(tag := t.tag.(nsecs := nsecs))]
  }

  lemma RewriteStacks(m: Memory, nsecs: u64, l: Limits)
    requires Inv(State(m, Quiet), l) && Enabled(State(m, Quiet), Rewrite(nsecs), l)
    ensures Inv(Next(State(m, Quiet), Rewrite(nsecs), l), l)
    ensures Stacks(Next(State(m, Quiet), Rewrite(nsecs), l).m) == Rewritten(Stacks(m), nsecs)
  {
    hide End, Tiled;
    var s := State(m, Quiet);
    NextKeepsInv(s, Rewrite(nsecs), l);
    forall i | 0 <= i < m.nrStacks
      ensures StackAt(Next(s, Rewrite(nsecs), l).m, i) == Rewritten(Stacks(m), nsecs)[i]
    {
      NextKeepsStack(s, Rewrite(nsecs), l, i);
    }
  }

  // What a reader can see, over whole runs.

  /** The stacks handed over and published since the last clear, with rewritten durations. */
  function Jobs(h: History, l: Limits): seq<Stack> {
    match h
    case Start => []
    case Then(past, a) =>
      var s := Reached(past, l);
      if !Enabled(s, a, l) then Jobs(past, l)
      else match a
           case Publish => Jobs(past, l) + [s.phase.job]
           case Rewrite(nsecs) => Rewritten(Jobs(past, l), nsecs)
           case Clear => []
           case _ => Jobs(past, l)
  }

  lemma InvStacks(s: State, l: Limits)
    requires Inv(s, l)
    ensures s.m.nrStacks <= |s.m.segments| && s.m.nrStacks <= |s.m.tags|
  {
  }

  lemma NothingStacked(m: Memory)
    requires m.nrStacks == 0
    ensures Stacks(m) == []
  {
  }

  /**
   In every run, at every store: the stacks that the memory shows to a reader are exactly the
   stacks handed over and published since the last clear, complete and in order.
   */
  lemma {:induction false} VisibleAreTheJobs(h: History, l: Limits)
    ensures Reached(h, l).m.nrStacks <= |Reached(h, l).m.segments|
    ensures Reached(h, l).m.nrStacks <= |Reached(h, l).m.tags|
    ensures Stacks(Reached(h, l).m) == Jobs(h, l)
  {
    hide Inv, Stacks, Rewritten;
    ReachedInv(h, l);
    InvStacks(Reached(h, l), l);
    if h.Start? {
      NothingStacked(Reached(h, l).m);
    } else {
      var s, a := Reached(h.past, l), h.action;
      VisibleAreTheJobs(h.past, l);
      ReachedInv(h.past, l);
      if Enabled(s, a, l) {
        if a.Clear? {
          NothingStacked(Reached(h, l).m);
        } else if a.Rewrite? {
          assert s == State(s.m, Quiet);
          RewriteStacks(s.m, a.nsecs, l);
        } else {
          NextKeepsStacks(s, a, l);
        }
      }
    }
  }

  class StackStore {
    const limits: Limits
    const tags: array<Tag>
    const segments: array<Segment>
    const frames: array<Frame>
    var nrStacks: nat
    var nrFrames: nat

    ghost function Mem(): Memory
      reads this, tags, segments, frames
    {
      Memory(tags[..], segments[..], frames[..], nrStacks, nrFrames)
    }

    ghost predicate Valid()
      reads this, tags, segments, frames
    {
      && tags.Length == segments.Length == limits.stacks && frames.Length == limits.frames
      && Inv(State(Mem(), Quiet), limits)
    }

    ghost function List(): seq<Stack>
      requires Valid()
      reads this, tags, segments, frames
    {
      Stacks(Mem())
    }

    constructor (l: Limits)
      ensures Valid() && List() == [] && limits == l
      ensures fresh(tags) && fresh(segments) && fresh(frames)
    {
      limits := l;
      tags := new Tag[l.stacks](_ => Tag("", 0, 0, false));
      segments := new Segment[l.stacks](_ => Segment(0, 0));
      frames := new Frame[l.frames](_ => 0);
      nrStacks, nrFrames := 0, 0;
    }

    /** Stores one stack; the last store is the one that readers see. */
    method SaveTrace(tag: Tag, unwound: seq<Frame>) returns (ok: bool)
      requires Valid()
      modifies this, tags, segments, frames
      ensures Valid() && List() == Saved(old(List()), tag, unwound, limits)
      ensures ok == SavedOk(old(List()), tag, unwound, limits)
    {
      hide End, Tiled, Stacks, Inv, Next, FrameCount;
      QuietFrameCount(Mem(), limits);
      InvSizes(Mem(), limits);
      if nrStacks >= limits.stacks {
        return false;
      }
      if nrFrames + limits.reserve >= limits.frames {
        return false;
      }
      StoreAll(tag, Cut(unwound, limits.frames - nrFrames));
      QuietFrameCount(Mem(), limits);
      return nrFrames + limits.reserve < limits.frames;
    }

    /** Puts a new duration into the newest stack, which readers may already see. */
    method RewriteDuration(nsecs: u64)
      requires Valid() && nrStacks > 0
      modifies tags
      ensures Valid() && List() == Rewritten(old(List()), nsecs)
    {
      hide Inv, Stacks, Rewritten;
      ghost var m := Mem();
      InvSizes(m, limits);
      RewriteStacks(m, nsecs, limits);
      tags[nrStacks - 1] := tags[nrStacks - 1].(nsecs := nsecs);
      assert Mem() == Next(State(m, Quiet), Rewrite(nsecs), limits).m;
    }

    /** Withdraws all stacks; the arrays keep what they hold. */
    method Clear()
      requires Valid()
      modifies this
      ensures Valid() && List() == []
    {
      hide Inv;
      ghost var m := Mem();
      NextKeepsInv(State(m, Quiet), Action.Clear, limits);
      nrFrames := 0;
      nrStacks := 0;
      assert Mem() == Next(State(m, Quiet), Action.Clear, limits).m;
    }

    method StoreFrames(ghost job: Stack, cut: seq<Frame>)
      requires tags.Length == segments.Length == limits.stacks && frames.Length == limits.frames
      requires cut == job.frames && |cut| <= limits.frames - nrFrames && nrStacks <= limits.stacks
      requires Inv(State(Mem(), Storing(job, 0)), limits)
      modifies frames
      ensures Inv(State(Mem(), Storing(job, |cut|)), limits)
      ensures Stacks(Mem()) == old(Stacks(Mem()))
    {
      hide Inv, Stacks;
      var i := 0;
      while i < |cut|
        invariant 0 <= i <= |cut|
        invariant Inv(State(Mem(), Storing(job, i)), limits)
        invariant Stacks(Mem()) == old(Stacks(Mem()))
      {
        ghost var s := State(Mem(), Storing(job, i));
        NextKeepsStacks(s, StoreFrame, limits);
        frames[nrFrames + i] := cut[i];
        i := i + 1;
        assert State(Mem(), Storing(job, i)) == Next(s, StoreFrame, limits);
      }
    }

    method StoreAll(tag: Tag, cut: seq<Frame>)
      requires Valid() && Enabled(State(Mem(), Quiet), Begin(Stack(tag, cut)), limits)
      modifies this, tags, segments, frames
      ensures Valid() && List() == old(List()) + [Stack(tag, cut)]
    {
      hide Inv, Stacks;
      ghost var job := Stack(tag, cut);
      ghost var s0 := State(Mem(), Quiet);
      NextKeepsStacks(s0, Begin(job), limits);
      tags[nrStacks] := tag;
      assert State(Mem(), Storing(job, 0)) == Next(s0, Begin(job), limits);
      StoreFrames(job, cut);
      PublishStack(job, |cut|);
    }

    /** The last three stores: the segment, the number of frames and the number of stacks. */
    method PublishStack(ghost job: Stack, length: nat)
      requires tags.Length == segments.Length == limits.stacks && frames.Length == limits.frames
      requires length == |job.frames| && nrStacks < limits.stacks
      requires Inv(State(Mem(), Storing(job, length)), limits)
      modifies this, segments
      ensures Valid() && List() == old(Stacks(Mem())) + [job]
    {
      hide Inv, Stacks;
      ghost var s1 := State(Mem(), Storing(job, length));
      NextKeepsStacks(s1, StoreSegment, limits);
      segments[nrStacks] := Segment(nrFrames, length);
      assert State(Mem(), Stored(job)) == Next(s1, StoreSegment, limits);
      NextKeepsStacks(State(Mem(), Stored(job)), CountFrames, limits);
      nrFrames := nrFrames + length;
      NextKeepsStacks(State(Mem(), Counted(job)), Publish, limits);
      nrStacks := nrStacks + 1;
    }
  }

  lemma InvSizes(m: Memory, l: Limits)
    requires Inv(State(m, Quiet), l)
    ensures Sized(m, l) && m.nrFrames <= l.frames && m.nrStacks <= l.stacks
  {
  }
}
