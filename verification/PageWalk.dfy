/**
 Walking a range of an address space: the mapped parts are found by advancing through the
 sorted list of memory areas, and each part is read from the kernel in batches that may come
 back short.
 */
module PageWalk {
  import opened Bits
  import R = PageRanges

  const MAX_VMAS := 10240
  const MAX_ADDR_RANGES := 1024
  const BATCH := 65536
  const ULONG_MAX: u64 := TWO64 - 1

  datatype Vma = Vma(start: u64, end: u64)

  datatype Chunk = Chunk(index: u64, count: nat)

  /** As the kernel lists them: no empty area, ascending, without overlap. */
  ghost predicate Ordered(vmas: seq<Vma>) {
    && (forall i :: 0 <= i < |vmas| ==> vmas[i].start < vmas[i].end)
    && (forall i, j :: 0 <= i < j < |vmas| ==> vmas[i].end <= vmas[j].start)
  }

  ghost predicate Mapped(vmas: seq<Vma>, p: nat) {
    exists i :: 0 <= i < |vmas| && vmas[i].start <= p < vmas[i].end
  }

  /** The reference: test every page of the range. */
  ghost function MappedPages(vmas: seq<Vma>, lo: nat, hi: nat): (r: seq<nat>)
    ensures forall p :: p in r <==> lo <= p < hi && Mapped(vmas, p)
    ensures forall i, j :: 0 <= i < j < |r| ==> r[i] < r[j]
    decreases hi - lo
  {
    if lo >= hi then []
    else
      var rest := MappedPages(vmas, lo + 1, hi);
      assert forall i :: 0 <= i < |rest| ==> rest[i] in rest;
      if Mapped(vmas, lo) then [lo] + rest else rest
  }

  lemma {:induction false} MappedPagesSplit(vmas: seq<Vma>, lo: nat, mid: nat, hi: nat)
    requires lo <= mid <= hi
    ensures MappedPages(vmas, lo, hi) == MappedPages(vmas, lo, mid) + MappedPages(vmas, mid, hi)
    decreases mid - lo
  {
    if lo < mid {
      MappedPagesSplit(vmas, lo + 1, mid, hi);
    }
  }

  lemma {:induction false} NoneMapped(vmas: seq<Vma>, lo: nat, hi: nat)
    requires forall p :: lo <= p < hi ==> !Mapped(vmas, p)
    ensures MappedPages(vmas, lo, hi) == []
    decreases hi - lo
  {
    if lo < hi {
      NoneMapped(vmas, lo + 1, hi);
    }
  }

  lemma {:induction false} AllMapped(vmas: seq<Vma>, lo: nat, hi: nat)
    requires lo <= hi && forall p :: lo <= p < hi ==> Mapped(vmas, p)
    ensures MappedPages(vmas, lo, hi) == Pages(lo, hi - lo)
    decreases hi - lo
  {
    if lo < hi {
      AllMapped(vmas, lo + 1, hi);
      assert Pages(lo, hi - lo) == [lo] + Pages(lo + 1, hi - lo - 1);
    }
  }

  function Pages(index: nat, count: nat): (r: seq<nat>)
    ensures |r| == count && forall i :: 0 <= i < count ==> r[i] == index + i
  {
    seq(count, i requires 0 <= i => index + i)
  }

  function ChunkPages(chunks: seq<Chunk>): seq<nat> {
    if chunks == [] then []
    else ChunkPages(chunks[..|chunks| - 1]) +
         Pages(chunks[|chunks| - 1].index, chunks[|chunks| - 1].count)
  }

  lemma ChunkAppend(chunks: seq<Chunk>, c: Chunk)
    ensures ChunkPages(chunks + [c]) == ChunkPages(chunks) + Pages(c.index, c.count)
  {
    assert (chunks + [c])[..|chunks|] == chunks;
  }

  /** Area `i` is the first that ends after `index`: what it says about the pages from there. */
  lemma FirstArea(vmas: seq<Vma>, i: nat, index: nat, p: nat)
    requires Ordered(vmas) && i < |vmas| && index <= p
    requires forall j :: 0 <= j < i ==> vmas[j].end <= index
    ensures p < vmas[i].start ==> !Mapped(vmas, p)
    ensures vmas[i].start <= p < vmas[i].end ==> Mapped(vmas, p)
  {
  }

  /** The pages up to the end of the first area, or to the end of the range. */
  lemma AreaPages(vmas: seq<Vma>, i: nat, index: nat, start: nat, next: nat)
    requires Ordered(vmas) && i < |vmas|
    requires forall j :: 0 <= j < i ==> vmas[j].end <= index
    requires index <= start < next <= vmas[i].end
    requires vmas[i].start <= start && (start == index || start == vmas[i].start)
    ensures MappedPages(vmas, index, next) == Pages(start, next - start)
  {
    hide MappedPages;
    MappedPagesSplit(vmas, index, start, next);
    forall p | index <= p < start
      ensures !Mapped(vmas, p)
    {
      FirstArea(vmas, i, index, p);
    }
    NoneMapped(vmas, index, start);
    forall p | start <= p < next
      ensures Mapped(vmas, p)
    {
      FirstArea(vmas, i, index, p);
    }
    AllMapped(vmas, start, next);
  }

  lemma NothingBefore(vmas: seq<Vma>, i: nat, index: nat, end: nat)
    requires Ordered(vmas) && i < |vmas| && end <= vmas[i].start
    requires forall j :: 0 <= j < i ==> vmas[j].end <= index
    ensures MappedPages(vmas, index, end) == []
  {
    forall p | index <= p < end
      ensures !Mapped(vmas, p)
    {
      FirstArea(vmas, i, index, p);
    }
    NoneMapped(vmas, index, end);
  }

  // The areas, cut to the range.

  /** The part of an area that lies in the range; nothing if it lies outside. */
  function Clip(v: Vma, lo: u64, hi: nat): seq<Chunk> {
    var start := if v.start > lo then v.start else lo;
    var end := if v.end < hi then v.end else hi;
    if start < end then [Chunk(start, end - start)] else []
  }

  /** The first `n` areas, cut to the range. */
  function Clipped(vmas: seq<Vma>, n: nat, lo: u64, hi: nat): seq<Chunk>
    requires n <= |vmas|
  {
    if n == 0 then [] else Clipped(vmas, n - 1, lo, hi) + Clip(vmas[n - 1], lo, hi)
  }

  /** Areas that begin behind the range add nothing. */
  lemma {:induction false} ClippedRest(vmas: seq<Vma>, n: nat, m: nat, lo: u64, hi: nat)
    requires n <= m <= |vmas| && forall j :: n <= j < m ==> hi <= vmas[j].start || hi <= lo
    ensures Clipped(vmas, m, lo, hi) == Clipped(vmas, n, lo, hi)
  {
    if n < m {
      ClippedRest(vmas, n, m - 1, lo, hi);
    }
  }

  /** Areas that end before the range add nothing. */
  lemma {:induction false} ClippedBefore(vmas: seq<Vma>, n: nat, m: nat, lo: u64, hi: nat)
    requires n <= m <= |vmas| && forall j :: n <= j < m ==> vmas[j].end <= lo
    ensures Clipped(vmas, m, lo, hi) == Clipped(vmas, n, lo, hi)
  {
    if n < m {
      ClippedBefore(vmas, n, m - 1, lo, hi);
    }
  }

  /** The part of area `n` from `index` on is all of it that lies in the range. */
  lemma ClippedNext(vmas: seq<Vma>, n: nat, lo: u64, hi: nat, index: u64)
    requires n < |vmas| && lo <= index < hi && (index == lo || index <= vmas[n].start)
    requires index < vmas[n].end && vmas[n].start < vmas[n].end && vmas[n].start < hi
    ensures
      var start := if vmas[n].start > index then vmas[n].start else index;
      var end := if vmas[n].end < hi then vmas[n].end else hi;
      start < end && Clipped(vmas, n + 1, lo, hi) == Clipped(vmas, n, lo, hi) + [Chunk(start, end - start)]
  {
  }

  lemma NothingClipped(vmas: seq<Vma>, lo: u64, hi: nat)
    ensures Clipped(vmas, 0, lo, hi) == []
  {
  }

  /** How far the first `n` areas reach into the range. */
  function Upto(vmas: seq<Vma>, n: nat, lo: u64, hi: nat): (r: nat)
    requires n <= |vmas| && lo <= hi
    ensures lo <= r <= hi
  {
    if n == 0 || vmas[n - 1].end < lo then lo else if vmas[n - 1].end < hi then vmas[n - 1].end else hi
  }

  lemma {:induction false} ClipPages(vmas: seq<Vma>, n: nat, lo: u64, hi: nat)
    requires Ordered(vmas) && n < |vmas| && lo <= hi
    ensures var from, to := Upto(vmas, n, lo, hi), Upto(vmas, n + 1, lo, hi);
            from <= to && MappedPages(vmas, from, to) == ChunkPages(Clip(vmas[n], lo, hi))
  {
    hide MappedPages, ChunkPages, Pages;
    var from, to := Upto(vmas, n, lo, hi), Upto(vmas, n + 1, lo, hi);
    NoChunks();
    assert n > 0 ==> vmas[n - 1].end <= vmas[n].start < vmas[n].end;
    assert forall j :: 0 <= j < n ==> vmas[j].end <= vmas[n - 1].end by {
      assert forall j :: 0 <= j < n - 1 ==> vmas[j].end <= vmas[n - 1].start < vmas[n - 1].end;
    }
    if Clip(vmas[n], lo, hi) != [] {
      var c := Clip(vmas[n], lo, hi)[0];
      AreaPages(vmas, n, from, c.index, to);
      ChunkAppend([], c);
      assert [] + [c] == [c] && [] + Pages(c.index, c.count) == Pages(c.index, c.count);
    } else if from < to {
      NothingBefore(vmas, n, from, to);
    } else {
      NoneMapped(vmas, from, to);
    }
  }

  lemma NoChunks()
    ensures ChunkPages([]) == []
  {
  }

  lemma {:induction false} ChunkConcat(a: seq<Chunk>, b: seq<Chunk>)
    ensures ChunkPages(a + b) == ChunkPages(a) + ChunkPages(b)
  {
    if b == [] {
      assert a + b == a;
    } else {
      var init := b[..|b| - 1];
      assert (a + b)[..|a + b| - 1] == a + init;
      ChunkConcat(a, init);
    }
  }

  lemma {:induction false} ClippedUpto(vmas: seq<Vma>, n: nat, lo: u64, hi: nat)
    requires Ordered(vmas) && n <= |vmas| && lo <= hi
    ensures ChunkPages(Clipped(vmas, n, lo, hi)) == MappedPages(vmas, lo, Upto(vmas, n, lo, hi))
  {
    hide MappedPages, ChunkPages, Ordered, Clip, Upto;
    if n == 0 {
      NoChunks();
      NoneMapped(vmas, lo, lo);
      assert Upto(vmas, 0, lo, hi) == lo by { UptoNothing(vmas, lo, hi); }
    } else {
      ClippedUpto(vmas, n - 1, lo, hi);
      ClipPages(vmas, n - 1, lo, hi);
      ChunkConcat(Clipped(vmas, n - 1, lo, hi), Clip(vmas[n - 1], lo, hi));
      MappedPagesSplit(vmas, lo, Upto(vmas, n - 1, lo, hi), Upto(vmas, n, lo, hi));
    }
  }

  lemma UptoNothing(vmas: seq<Vma>, lo: u64, hi: nat)
    requires lo <= hi
    ensures Upto(vmas, 0, lo, hi) == lo
  {
  }

  /** The areas cut to the range are exactly the mapped pages of the range, ascending, once each. */
  lemma {:induction false} ClippedPages(vmas: seq<Vma>, lo: u64, hi: nat)
    requires Ordered(vmas) && lo <= hi
    ensures ChunkPages(Clipped(vmas, |vmas|, lo, hi)) == MappedPages(vmas, lo, hi)
  {
    hide MappedPages, ChunkPages, Clipped;
    var to := Upto(vmas, |vmas|, lo, hi);
    ClippedUpto(vmas, |vmas|, lo, hi);
    MappedPagesSplit(vmas, lo, to, hi);
    forall p | to <= p < hi
      ensures !Mapped(vmas, p)
    {
      if vmas != [] {
        var last := |vmas| - 1;
        assert forall j :: 0 <= j < last ==> vmas[j].end <= vmas[last].start;
      }
    }
    NoneMapped(vmas, to, hi);
  }

  class AddressSpace {
    const pgStart: array<u64>
    const pgEnd: array<u64>
    var nrVmas: nat

    ghost predicate Valid()
      reads this, pgStart, pgEnd
    {
      && pgStart.Length == pgEnd.Length == MAX_VMAS && nrVmas <= MAX_VMAS
      && (nrVmas == 0 ==> pgEnd[0] == 0)
      && Ordered(Vmas())
    }

    ghost function Vmas(): (r: seq<Vma>)
      requires nrVmas <= pgStart.Length && nrVmas <= pgEnd.Length
      reads this, pgStart, pgEnd
      ensures |r| == nrVmas
      ensures forall i :: 0 <= i < nrVmas ==> r[i] == Vma(pgStart[i], pgEnd[i])
    {
      seq(nrVmas, i requires 0 <= i < nrVmas reads this, pgStart, pgEnd
                   requires nrVmas <= pgStart.Length && nrVmas <= pgEnd.Length
                   => Vma(pgStart[i], pgEnd[i]))
    }

    /**
     The chunks handed on are the areas cut to the range, and so cover exactly the mapped
     pages of the range, ascending, once each. The sum must not wrap around, as the range
     parser makes sure.
     */
    method WalkTask(first: u64, count: nat) returns (chunks: seq<Chunk>)
      requires Valid() && first + count < TWO64
      ensures chunks == Clipped(Vmas(), nrVmas, first, first + count)
      ensures ChunkPages(chunks) == MappedPages(Vmas(), first, first + count)
    {
      hide MappedPages, ChunkPages, Clipped;
      ghost var vmas := Vmas();
      ClippedPages(vmas, first, first + count);
      chunks := CutAreas(first, count);
    }

    /** The inner loop: the next area that does not end before `index`, if there is one. */
    method NextArea(from: nat, index: u64) returns (i: nat, found: bool)
      requires Valid() && from <= nrVmas && (nrVmas > 0 ==> from < nrVmas)
      ensures from <= i && (found ==> i < nrVmas && pgEnd[i] > index)
      ensures !found ==> nrVmas <= i
      ensures forall j :: from <= j < i && j < nrVmas ==> pgEnd[j] <= index
    {
      hide Ordered;
      i := from;
      while pgEnd[i] <= index
        invariant from <= i && (nrVmas > 0 ==> i < nrVmas) && (nrVmas == 0 ==> i == 0)
        invariant forall j :: from <= j < i ==> pgEnd[j] <= index
        decreases MAX_VMAS - i
      {
        i := i + 1;
        if i >= nrVmas {
          return i, false;
        }
      }
      return i, true;
    }

    method CutAreas(first: u64, count: nat) returns (chunks: seq<Chunk>)
      requires Valid() && first + count < TWO64
      ensures chunks == Clipped(Vmas(), nrVmas, first, first + count)
    {
      hide Clipped, Clip, Ordered;
      ghost var vmas := Vmas();
      var end := Add64(first, count);
      var index := first;
      var i := 0;
      // The areas that are done: none yet, or all up to `i`, of which the rest begins at `index`.
      ghost var done := 0;
      chunks := [];
      NothingClipped(vmas, first, end);
      while index < end
        invariant first <= index <= end && done <= nrVmas && (nrVmas > 0 ==> i < nrVmas) && i <= nrVmas
        invariant chunks == Clipped(vmas, done, first, end)
        invariant if done == 0 then i == 0 && index == first
                  else done == i + 1 && index == if vmas[i].end < end then vmas[i].end else end
        decreases end - index
      {
        var found;
        i, found := NextArea(i, index);
        SkipAreas(vmas, done, if found then i else nrVmas, first, end, index);
        if !found {
          return;
        }
        if pgStart[i] >= end {
          RangeDone(vmas, i, first, end);
          return;
        }
        AreaNonEmpty(vmas, i);
        ClippedNext(vmas, i, first, end, index);
        var start := if pgStart[i] > index then pgStart[i] else index;
        index := if pgEnd[i] < end then pgEnd[i] else end;
        // The program asserts the same.
        assert start < index;
        chunks := chunks + [Chunk(start, index - start)];
        done := i + 1;
      }
      RangeDone(vmas, done, first, end);
    }
  }

  lemma AreaNonEmpty(vmas: seq<Vma>, n: nat)
    requires Ordered(vmas) && n < |vmas|
    ensures vmas[n].start < vmas[n].end
  {
  }

  /** Once the range has ended, the remaining areas add nothing. */
  lemma RangeDone(vmas: seq<Vma>, n: nat, lo: u64, hi: nat)
    requires Ordered(vmas) && n <= |vmas|
    requires hi <= lo || (n > 0 && hi <= vmas[n - 1].end) || (n < |vmas| && hi <= vmas[n].start)
    ensures Clipped(vmas, n, lo, hi) == Clipped(vmas, |vmas|, lo, hi)
  {
    ClippedRest(vmas, n, |vmas|, lo, hi);
  }

  lemma AreaAfter(vmas: seq<Vma>, n: nat)
    requires Ordered(vmas) && 0 < n < |vmas|
    ensures vmas[n - 1].end <= vmas[n].start < vmas[n].end
  {
  }

  /** No area is skipped, except before the range. */
  lemma SkipAreas(vmas: seq<Vma>, done: nat, i: nat, lo: u64, hi: nat, index: u64)
    requires Ordered(vmas) && done <= |vmas| && i <= |vmas| && lo <= index
    requires if done == 0 then index == lo else index == vmas[done - 1].end && done <= i
    requires forall j :: done <= j < i ==> vmas[j].end <= index
    ensures Clipped(vmas, done, lo, hi) == Clipped(vmas, i, lo, hi)
    ensures i < |vmas| ==> index == lo || index <= vmas[i].start
  {
    if done == 0 {
      ClippedBefore(vmas, 0, i, lo, hi);
    } else if done < |vmas| {
      AreaAfter(vmas, done);
    }
  }

  /** The range list of the command line, with the clamp that keeps ends from wrapping. */
  class RangeList {
    var ranges: seq<Chunk>

    ghost predicate Valid()
      reads this
    {
      |ranges| <= MAX_ADDR_RANGES &&
      forall r :: r in ranges ==> r.index + r.count < TWO64
    }

    constructor ()
      ensures Valid() && ranges == []
    {
      ranges := [];
    }

    /** The stored range is the part of the given one below the largest offset; false when full. */
    method AddAddrRange(offset: u64, size: u64) returns (ok: bool)
      requires Valid()
      modifies this
      ensures Valid() && ok == (|old(ranges)| < MAX_ADDR_RANGES)
      ensures ok ==> |ranges| == |old(ranges)| + 1 && ranges[..|old(ranges)|] == old(ranges)
      ensures ok ==>
        forall p: nat :: p in Pages(ranges[|old(ranges)|].index, ranges[|old(ranges)|].count) <==>
          offset <= p < offset + size && p < ULONG_MAX
    {
      if |ranges| >= MAX_ADDR_RANGES {
        return false;
      }
      var clamped := if size < ULONG_MAX - offset then size else ULONG_MAX - offset;
      ghost var n := |ranges|;
      ranges := ranges + [Chunk(offset, clamped)];
      forall p: nat
        ensures p in Pages(offset, clamped) <==> offset <= p < offset + size && p < ULONG_MAX
      {
        if offset <= p < offset + clamped {
          assert Pages(offset, clamped)[p - offset] == p;
        }
      }
      return true;
    }
  }

  // Batched reads.

  /** How many of the requested words a read returns. */
  type Reader = (nat, nat) -> nat

  ghost predicate Honest(read: Reader) {
    forall i, n :: read(i, n) <= n
  }

  function Batch(count: nat): nat {
    if count < BATCH then count else BATCH
  }

  /** How many pages are read before the first read that returns nothing. */
  function Reached(read: Reader, index: nat, count: nat): (n: nat)
    requires Honest(read)
    ensures n <= count
    decreases count
  {
    if count == 0 || read(index, Batch(count)) == 0 then 0
    else
      var pages := read(index, Batch(count));
      pages + Reached(read, index + pages, count - pages)
  }

  /** A chunk breaks off only where a read comes back empty. */
  lemma {:induction false} BreaksOffAtEmptyRead(read: Reader, index: nat, count: nat)
    requires Honest(read)
    ensures var n := Reached(read, index, count);
            n < count ==> read(index + n, Batch(count - n)) == 0
    decreases count
  {
    var pages := read(index, Batch(count));
    if count > 0 && pages > 0 {
      BreaksOffAtEmptyRead(read, index + pages, count - pages);
    }
  }

  /** Reads that always return something reach every page. */
  lemma {:induction false} AllReached(read: Reader, index: nat, count: nat)
    requires Honest(read) && forall i, n :: n > 0 ==> read(i, n) > 0
    ensures Reached(read, index, count) == count
    decreases count
  {
    if count > 0 {
      var pages := read(index, Batch(count));
      AllReached(read, index + pages, count - pages);
    }
  }

  /** The page map entries of a chunk, whatever the batches: page by page from its start. */
  method WalkVma(first: nat, size: nat, pagemap: nat -> u64, read: Reader)
    returns (visited: seq<(nat, u64)>)
    requires Honest(read)
    ensures |visited| == Reached(read, first, size)
    ensures forall i :: 0 <= i < |visited| ==> visited[i] == (first + i, pagemap(first + i))
  {
    var index: nat, count: nat := first, size;
    visited := [];
    while count > 0
      invariant index == first + |visited| && |visited| + count == size
      invariant Reached(read, first, size) == |visited| + Reached(read, index, count)
      invariant forall i :: 0 <= i < |visited| ==> visited[i] == (first + i, pagemap(first + i))
      decreases count
    {
      var pages := read(index, Batch(count));
      if pages == 0 {
        break;
      }
      ghost var done := |visited|;
      for i := 0 to pages
        invariant |visited| == done + i
        invariant forall j :: 0 <= j < |visited| ==> visited[j] == (first + j, pagemap(first + j))
      {
        visited := visited + [(index + i, pagemap(index + i))];
      }
      index := index + pages;
      count := count - pages;
    }
  }

  datatype Visit = Visit(voffset: nat, offset: nat)

  function Visits(voffset: nat, index: nat, n: nat): (r: seq<Visit>)
    ensures |r| == n && forall i :: 0 <= i < n ==> r[i] == Visit(voffset + i, index + i)
  {
    seq(n, i requires 0 <= i => Visit(voffset + i, index + i))
  }

  /** What a walk over page frames reports: every batch starts again at the same voffset. */
  function PfnVisits(read: Reader, voffset: nat, index: nat, count: nat): (r: seq<Visit>)
    requires Honest(read)
    ensures |r| == Reached(read, index, count)
    decreases count
  {
    if count == 0 || read(index, Batch(count)) == 0 then []
    else
      var pages := read(index, Batch(count));
      Visits(voffset, index, pages) + PfnVisits(read, voffset, index + pages, count - pages)
  }

  lemma PfnBatch(read: Reader, voffset: nat, index: nat, count: nat)
    requires Honest(read)
    ensures
      var pages := read(index, Batch(count));
      PfnVisits(read, voffset, index, count) ==
      if pages == 0 then []
      else Visits(voffset, index, pages) + PfnVisits(read, voffset, index + pages, count - pages)
  {
  }

  method ReportBatch(voffset: nat, index: nat, pages: nat) returns (r: seq<Visit>)
    ensures r == Visits(voffset, index, pages)
  {
    r := [];
    for i := 0 to pages
      invariant |r| == i && forall j :: 0 <= j < i ==> r[j] == Visit(voffset + j, index + j)
    {
      r := r + [Visit(voffset + i, index + i)];
    }
  }

  method WalkPfn(voffset: nat, first: nat, size: nat, read: Reader) returns (visited: seq<Visit>)
    requires Honest(read)
    ensures visited == PfnVisits(read, voffset, first, size)
  {
    hide Visits, PfnVisits, Reached;
    var index: nat, count: nat := first, size;
    visited := [];
    while count > 0
      invariant PfnVisits(read, voffset, first, size) ==
                visited + PfnVisits(read, voffset, index, count)
      decreases count
    {
      var pages := read(index, Batch(count));
      PfnBatch(read, voffset, index, count);
      if pages == 0 {
        break;
      }
      var batch := ReportBatch(voffset, index, pages);
      assert visited + (batch + PfnVisits(read, voffset, index + pages, count - pages)) ==
             (visited + batch) + PfnVisits(read, voffset, index + pages, count - pages);
      visited := visited + batch;
      index := index + pages;
      count := count - pages;
    }
    PfnBatch(read, voffset, index, count);
  }

  /** Every page frame read is reported once, at its own offset. */
  lemma {:induction false} PfnOffsets(read: Reader, voffset: nat, index: nat, count: nat, i: nat)
    requires Honest(read) && i < Reached(read, index, count)
    ensures PfnVisits(read, voffset, index, count)[i].offset == index + i
    decreases count
  {
    var pages := read(index, Batch(count));
    if pages <= i {
      PfnOffsets(read, voffset, index + pages, count - pages, i - pages);
    }
  }

  /** The virtual offsets are right if and only if one read returns all that is reached. */
  lemma PfnVoffsetsIff(read: Reader, voffset: nat, index: nat, count: nat)
    requires Honest(read)
    ensures PfnVisits(read, voffset, index, count) ==
              Visits(voffset, index, Reached(read, index, count)) <==>
            Reached(read, index, count) <= read(index, Batch(count))
  {
    var n, pages := Reached(read, index, count), read(index, Batch(count));
    var all := PfnVisits(read, voffset, index, count);
    if 0 < pages < n {
      SecondBatchRestarts(read, voffset, index, count);
      assert all[pages] != Visits(voffset, index, n)[pages];
    } else if count > 0 && pages > 0 {
      assert all == Visits(voffset, index, pages) + [];
    }
  }

  lemma SecondBatchRestarts(read: Reader, voffset: nat, index: nat, count: nat)
    requires Honest(read) && 0 < read(index, Batch(count)) < Reached(read, index, count)
    ensures PfnVisits(read, voffset, index, count)[read(index, Batch(count))].voffset == voffset
  {
    var pages := read(index, Batch(count));
    var rest := PfnVisits(read, voffset, index + pages, count - pages);
    assert rest[0].voffset == voffset;
  }

  /** Every read returns what was asked for. */
  ghost predicate Whole(read: Reader) {
    forall i, n :: read(i, n) == n
  }

  lemma {:induction false} WholeReads(read: Reader, index: nat, count: nat)
    requires Whole(read) && Honest(read)
    ensures Reached(read, index, count) == count
  {
    AllReached(read, index, count);
  }

  /** With whole reads, the virtual offsets are right if and only if one batch is enough. */
  lemma WholeVoffsetsIff(read: Reader, voffset: nat, index: nat, count: nat)
    requires Whole(read) && Honest(read)
    ensures PfnVisits(read, voffset, index, count) == Visits(voffset, index, count) <==> count <= BATCH
  {
    hide PfnVisits, Visits, Reached;
    WholeReads(read, index, count);
    PfnVoffsetsIff(read, voffset, index, count);
  }

  /** The second batch of a walk over 65537 pages from 0 reports page 65536 at offset 0. */
  lemma LongWalkRestarts()
    ensures
      var read: Reader := (_, n) => n;
      && Honest(read)
      && PfnVisits(read, 0, 0, BATCH + 1)[BATCH] == Visit(0, BATCH)
      && PfnVisits(read, 0, 0, BATCH + 1) != Visits(0, 0, BATCH + 1)
  {
    var read: Reader := (_, n) => n;
    hide PfnVisits, Reached, Visits;
    WholeReads(read, 0, BATCH + 1);
    SecondBatchRestarts(read, 0, 0, BATCH + 1);
    PfnOffsets(read, 0, 0, BATCH + 1, BATCH);
    WholeVoffsetsIff(read, 0, 0, BATCH + 1);
  }

  // What such a walk lists.

  /** The pages of a walk, when all of them have the same attributes. */
  function VisitPages(visits: seq<Visit>, attr: R.Attr): (r: seq<R.Page>)
    ensures |r| == |visits|
    ensures forall i :: 0 <= i < |visits| ==>
              r[i] == R.Page(R.Wrap(visits[i].voffset), R.Wrap(visits[i].offset), attr)
  {
    seq(|visits|, i requires 0 <= i < |visits| =>
                    R.Page(R.Wrap(visits[i].voffset), R.Wrap(visits[i].offset), attr))
  }

  /** One range for each batch, all from the same virtual offset. */
  function BatchRanges(read: Reader, voffset: u64, index: nat, count: nat, attr: R.Attr): seq<R.Range>
    requires Honest(read)
    decreases count
  {
    if count == 0 || read(index, Batch(count)) == 0 then []
    else
      var pages := read(index, Batch(count));
      [R.Range(voffset, R.Wrap(index), pages, attr)] +
      BatchRanges(read, voffset, index + pages, count - pages, attr)
  }

  lemma {:induction false} VisitConcat(a: seq<Visit>, b: seq<Visit>, attr: R.Attr)
    ensures VisitPages(a + b, attr) == VisitPages(a, attr) + VisitPages(b, attr)
  {
    hide R.Wrap;
  }

  lemma {:induction false} BatchesExpand(read: Reader, voffset: u64, index: nat, count: nat, attr: R.Attr)
    requires Honest(read)
    ensures R.ExpandAll(BatchRanges(read, voffset, index, count, attr)) ==
            VisitPages(PfnVisits(read, voffset, index, count), attr)
    decreases count
  {
    hide R.Expand, R.Wrap, Visits, VisitPages;
    var pages := read(index, Batch(count));
    if count == 0 || pages == 0 {
      assert VisitPages([], attr) == [];
    } else {
      var r := R.Range(voffset, R.Wrap(index), pages, attr);
      var visits, more := Visits(voffset, index, pages), PfnVisits(read, voffset, index + pages, count - pages);
      BatchesExpand(read, voffset, index + pages, count - pages, attr);
      R.ExpandFirst(r, BatchRanges(read, voffset, index + pages, count - pages, attr));
      BatchPages(r, voffset, index, pages);
      VisitConcat(visits, more, attr);
    }
  }

  lemma BatchPages(r: R.Range, voffset: u64, index: nat, pages: nat)
    requires r.voff == voffset && r.index == R.Wrap(index) && r.count == pages
    ensures R.Expand(r) == VisitPages(Visits(voffset, index, pages), r.attr)
  {
    hide R.Wrap;
    forall i | 0 <= i < pages
      ensures R.PageAt(r, i) == R.Page(R.Wrap(voffset + i), R.Wrap(index + i), r.attr)
    {
      R.WrapAdd(index, i);
    }
  }

  /** A batch never continues the range of the batch before it. */
  lemma BatchNotContinued(a: R.Range, b: R.Range)
    requires a.voff == b.voff && 0 < a.count <= BATCH
    ensures !R.Continues(a, b)
  {
  }

  lemma {:induction false} BatchesMaximal(read: Reader, voffset: u64, index: nat, count: nat, attr: R.Attr)
    requires Honest(read)
    ensures R.Maximal(BatchRanges(read, voffset, index, count, attr))
    ensures forall r :: r in BatchRanges(read, voffset, index, count, attr) ==>
              r.voff == voffset && 0 < r.count <= BATCH
    decreases count
  {
    hide R.Continues, R.Wrap;
    if count > 0 && read(index, Batch(count)) > 0 {
      var pages := read(index, Batch(count));
      var rest := BatchRanges(read, voffset, index + pages, count - pages, attr);
      var all := BatchRanges(read, voffset, index, count, attr);
      BatchesMaximal(read, voffset, index + pages, count - pages, attr);
      forall i | 0 < i < |all|
        ensures !R.Continues(all[i - 1], all[i])
      {
        assert all[i] == rest[i - 1];
        BatchNotContinued(all[i - 1], all[i]);
      }
    }
  }

  /**
   A walk over page frames with equal attributes is one run of pages, but the listing is cut
   at every batch: it prints one range for each, all with the same virtual offset.
   */
  lemma {:induction false} BatchesCutRanges(read: Reader, voffset: u64, index: nat, count: nat, attr: R.Attr,
                                            from: R.Reports, h: R.Reports)
    requires Honest(read) && R.Fresh(from) && R.Listing(from, h)
    requires R.ListedPages(from, h) == VisitPages(PfnVisits(read, voffset, index, count), attr)
    ensures R.Run(from).printed <= R.Run(R.Flushed(h)).printed
    ensures R.PrintedFor(from, h) == BatchRanges(read, voffset, index, count, attr)
  {
    hide R.Maximal, R.ExpandAll, R.Run, R.Listing, R.ListedPages, PfnVisits, BatchRanges;
    BatchesExpand(read, voffset, index, count, attr);
    BatchesMaximal(read, voffset, index, count, attr);
    R.PrintedIsTheShortestList(from, h, BatchRanges(read, voffset, index, count, attr));
  }
}
