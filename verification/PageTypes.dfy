/**
 The whole page report of a process: its address ranges are walked, every page that passes
 the filters is listed and counted, and at the end the list is flushed and the counts are
 printed. The list and the summary come from separate static variables but tell the same.
 */
module PageTypes {
  import opened Bits
  import H = PageHash
  import R = PageRanges
  import W = PageWalk

  const PM_PRESENT := 0x8000_0000_0000_0000
  const PM_SWAP := 0x4000_0000_0000_0000
  const PM_PFRAMES := 0x80_0000_0000_0000
  const MAX_SWAPFILES := 32

  predicate IsPresent(pme: u64) {
    pme / PM_PRESENT % 2 == 1
  }

  predicate IsSwapped(pme: u64) {
    pme / PM_SWAP % 2 == 1
  }

  /** The page frame of a page-map entry; zero when there is none. */
  function PagemapPfn(pme: u64): u64 {
    if IsPresent(pme) then pme % PM_PFRAMES else 0
  }

  function PagemapSwapOffset(pme: u64): u64 {
    if IsSwapped(pme) then pme % PM_PFRAMES / MAX_SWAPFILES else 0
  }

  /**
   The kernel files and the filters: the page map; the attributes of a frame as an entry
   shows it, or None when the frame cannot be read or a filter rejects it; and the flags of
   a swapped entry, or None when a filter rejects it.
   */
  datatype Kernel = Kernel(
    pagemap: nat -> u64,
    frame: (u64, u64) -> Option<R.Attr>,
    swapped: u64 -> Option<u64>)

  /** The report for the page frame of an entry. */
  function FramePages(k: Kernel, index: nat, pme: u64): seq<R.Page> {
    var pfn := PagemapPfn(pme);
    if pfn != 0 && k.frame(pfn, pme).Some?
    then [R.Page(R.Wrap(index), pfn, k.frame(pfn, pme).value)] else []
  }

  /** The report for the swap slot of an entry. */
  function SwapPages(k: Kernel, index: nat, pme: u64): seq<R.Page> {
    if IsSwapped(pme) && k.swapped(pme).Some?
    then [R.Page(R.Wrap(index), PagemapSwapOffset(pme), R.Attr(k.swapped(pme).value, 0, 0))] else []
  }

  /** The reports for one page of the address space. */
  function EntryPages(k: Kernel, index: nat, pme: u64): seq<R.Page> {
    FramePages(k, index, pme) + SwapPages(k, index, pme)
  }

  /** The reference: the reports for a list of addresses, one after the other. */
  function PagesOf(k: Kernel, addresses: seq<nat>): seq<R.Page> {
    if addresses == [] then []
    else PagesOf(k, addresses[..|addresses| - 1]) +
         EntryPages(k, addresses[|addresses| - 1], k.pagemap(addresses[|addresses| - 1]))
  }

  lemma {:induction false} PagesOfConcat(k: Kernel, a: seq<nat>, b: seq<nat>)
    ensures PagesOf(k, a + b) == PagesOf(k, a) + PagesOf(k, b)
  {
    hide EntryPages;
    if b == [] {
      assert a + b == a;
    } else {
      var init := b[..|b| - 1];
      assert (a + b)[..|a + b| - 1] == a + init;
      PagesOfConcat(k, a, init);
    }
  }

  // The list and the counts, as functions of the pages reported.

  function AsRange(p: R.Page): R.Range {
    R.Range(p.voffset, p.offset, 1, p.attr)
  }

  function Reports(ps: seq<R.Page>): R.Reports {
    if ps == [] then R.Nothing
    else R.Then(Reports(ps[..|ps| - 1]), AsRange(ps[|ps| - 1]))
  }

  function Words(ps: seq<R.Page>): H.Pages {
    if ps == [] then H.Nothing
    else H.Then(Words(ps[..|ps| - 1]), ps[|ps| - 1].attr.flags)
  }

  /** How many of the pages carry these flags. */
  function Count(ps: seq<R.Page>, flags: u64): nat {
    if ps == [] then 0
    else Count(ps[..|ps| - 1], flags) + (if ps[|ps| - 1].attr.flags == flags then 1 else 0)
  }

  lemma {:induction false} ReportedAre(ps: seq<R.Page>)
    ensures R.Reported(Reports(ps)) == ps && R.Listing(R.Nothing, Reports(ps))
  {
    if ps != [] {
      hide R.Expand, AsRange;
      ReportedAre(ps[..|ps| - 1]);
      OnePage(ps[|ps| - 1]);
    }
  }

  lemma OnePage(p: R.Page)
    ensures R.Expand(AsRange(p)) == [p] && AsRange(p).count > 0
  {
    assert R.PageAt(AsRange(p), 0) == p;
  }

  lemma {:induction false} TimesIsCount(ps: seq<R.Page>, flags: u64)
    ensures H.Times(Words(ps), flags) == Count(ps, flags) && H.Length(Words(ps)) == |ps|
  {
    if ps != [] {
      TimesIsCount(ps[..|ps| - 1], flags);
    }
  }

  /** What is printed after the pages `ps`. */
  function PrintedList(ps: seq<R.Page>): seq<R.Range> {
    R.Run(R.Flushed(Reports(ps))).printed
  }

  /**
   The summary can be computed from the list: a line (f, c) is printed if and only if the
   listed ranges hold c > 0 pages with flags f, and the total is the number of listed pages.
   */
  lemma {:induction false} SummaryMatchesList(ps: seq<R.Page>, flags: u64, c: nat)
    requires H.CountAll(Words(ps)).Some?
    ensures
      var t, pages := H.CountAll(Words(ps)).value, R.ExpandAll(PrintedList(ps));
      && pages == ps
      && (H.Row(flags, c) in H.Rows(t, H.HASH_SIZE) <==> c == Count(pages, flags) > 0)
      && t.total == Sum(t.counts) == |pages|
  {
    hide H.CountAll, H.Rows, Sum, R.Run, R.ExpandAll, R.Reported;
    R.RoundTrip(Reports(ps));
    ReportedAre(ps);
    TimesIsCount(ps, flags);
    H.SummaryIsExact(Words(ps), flags, c);
    H.TotalIsSum(Words(ps));
  }

  /** The list of one report is the shortest that stands for its pages. */
  lemma {:induction false} ListIsShortest(ps: seq<R.Page>)
    ensures R.Maximal(PrintedList(ps))
    ensures forall rs :: R.ExpandAll(rs) == ps ==> |PrintedList(ps)| <= |rs|
  {
    hide R.Run, R.Maximal, R.ExpandAll, R.Reported, R.ListedPages, R.Listing, Reports;
    var h := Reports(ps);
    ReportedAre(ps);
    R.PrintedIsMaximal(R.Nothing, h);
    R.ListedIsReported(R.Nothing, h);
    assert R.Run(R.Nothing).printed == [] && R.Reported(R.Nothing) == [] by { NothingReported(); }
    assert R.PrintedFor(R.Nothing, h) == PrintedList(ps);
    forall rs | R.ExpandAll(rs) == ps
      ensures |PrintedList(ps)| <= |rs|
    {
      R.PrintedIsTheShortestList(R.Nothing, h, rs);
    }
  }

  lemma NothingReported()
    ensures R.Run(R.Nothing).printed == [] && R.Reported(R.Nothing) == []
  {
  }

  lemma WordsAppend(ps: seq<R.Page>, p: R.Page)
    ensures Words(ps + [p]) == H.Then(Words(ps), p.attr.flags)
    ensures Reports(ps + [p]) == R.Then(Reports(ps), AsRange(p))
  {
    assert (ps + [p])[..|ps|] == ps;
  }

  /** The counts of these pages fit into the table. */
  predicate Fits(ps: seq<R.Page>) {
    H.CountAll(Words(ps)).Some?
  }

  /** Once the table is full, it stays so. */
  lemma {:induction false} FitsPrefix(a: seq<R.Page>, b: seq<R.Page>)
    requires a <= b && Fits(b)
    ensures Fits(a)
  {
    if |a| < |b| {
      FitsPrefix(a, b[..|b| - 1]);
    } else {
      assert a == b;
    }
  }

  lemma {:induction false} FullStaysFull(before: seq<R.Page>, part: seq<R.Page>, all: seq<R.Page>,
                                         done: seq<R.Page>, next: seq<R.Page>)
    requires part <= all && part == done + next && !Fits((before + done) + next)
    ensures !Fits(before + all)
  {
    assert (before + done) + next == before + part;
    if Fits(before + all) {
      FitsPrefix(before + part, before + all);
    }
  }

  lemma {:induction false} PagesOfPrefix(k: Kernel, a: seq<nat>, b: seq<nat>)
    requires a <= b
    ensures PagesOf(k, a) <= PagesOf(k, b)
  {
    assert b == a + b[|a|..];
    PagesOfConcat(k, a, b[|a|..]);
  }

  // The walk.

  /** The addresses of a chunk whose page-map entries could be read. */
  function ReadPages(c: W.Chunk, read: W.Reader): seq<nat>
    requires W.Honest(read)
  {
    W.Pages(c.index, W.Reached(read, c.index, c.count))
  }

  function AllRead(chunks: seq<W.Chunk>, read: W.Reader): seq<nat>
    requires W.Honest(read)
  {
    if chunks == [] then []
    else AllRead(chunks[..|chunks| - 1], read) + ReadPages(chunks[|chunks| - 1], read)
  }

  /** Every chunk is read to its end. */
  ghost predicate FullyRead(chunks: seq<W.Chunk>, read: W.Reader)
    requires W.Honest(read)
  {
    forall i :: 0 <= i < |chunks| ==>
      W.Reached(read, chunks[i].index, chunks[i].count) == chunks[i].count
  }

  /** Nothing is read twice or out of place, and all is read if and only if no chunk breaks off. */
  lemma {:induction false} AllReadIff(chunks: seq<W.Chunk>, read: W.Reader)
    requires W.Honest(read)
    ensures |AllRead(chunks, read)| <= |W.ChunkPages(chunks)|
    ensures |AllRead(chunks, read)| == |W.ChunkPages(chunks)| ==> FullyRead(chunks, read)
    ensures FullyRead(chunks, read) ==> AllRead(chunks, read) == W.ChunkPages(chunks)
  {
    hide W.Reached, W.Honest;
    if chunks != [] {
      var init, c := chunks[..|chunks| - 1], chunks[|chunks| - 1];
      AllReadIff(init, read);
      if |AllRead(chunks, read)| == |W.ChunkPages(chunks)| {
        assert forall i :: 0 <= i < |init| ==> chunks[i] == init[i];
      }
      if FullyRead(chunks, read) {
        assert forall i :: 0 <= i < |init| ==> init[i] == chunks[i];
        assert chunks[|chunks| - 1] == c;
      }
    }
  }

  lemma AllReadAppend(chunks: seq<W.Chunk>, i: nat, read: W.Reader)
    requires W.Honest(read) && i < |chunks|
    ensures AllRead(chunks[..i + 1], read) == AllRead(chunks[..i], read) + ReadPages(chunks[i], read)
  {
    assert chunks[..i + 1][..i] == chunks[..i];
  }

  lemma {:induction false} AllReadPrefix(chunks: seq<W.Chunk>, i: nat, read: W.Reader)
    requires W.Honest(read) && i <= |chunks|
    ensures AllRead(chunks[..i], read) <= AllRead(chunks, read)
  {
    if i < |chunks| {
      AllReadPrefix(chunks[..|chunks| - 1], i, read);
      assert chunks[..|chunks| - 1][..i] == chunks[..i];
    } else {
      assert chunks[..i] == chunks;
    }
  }

  lemma {:induction false} EntryAppend(k: Kernel, a: seq<nat>, i: nat)
    requires i < |a|
    ensures PagesOf(k, a[..i + 1]) == PagesOf(k, a[..i]) + EntryPages(k, a[i], k.pagemap(a[i]))
  {
    assert a[..i + 1][..i] == a[..i];
  }

  class Report {
    const printer: R.RangePrinter
    const counter: H.PageCounter
    ghost var pages: seq<R.Page>

    ghost function Objects(): set<object> {
      {this, printer, counter, counter.pageFlags, counter.nrPages}
    }

    ghost predicate Valid()
      reads Objects()
    {
      && counter.Valid()
      && printer.View() == R.Run(Reports(pages))
      && H.CountAll(Words(pages)) == Some(counter.View())
    }

    constructor ()
      ensures Valid() && fresh(Objects()) && pages == []
    {
      printer := new R.RangePrinter();
      counter := new H.PageCounter();
      pages := [];
    }

    /** Lists and counts one page; false when the table of counts is full. */
    method AddPage(p: R.Page) returns (fits: bool)
      requires Valid()
      modifies Objects()
      ensures fits == Fits(old(pages) + [p])
      ensures fits ==> Valid() && pages == old(pages) + [p]
    {
      hide H.Add, H.Placed, R.Show, Words, Reports;
      WordsAppend(pages, p);
      printer.ShowPageRange(p.voffset, p.offset, 1, p.attr.flags, p.attr.cgroup, p.attr.mapcnt);
      fits := counter.AddPage(p.attr.flags);
      pages := pages + [p];
    }

    method AddPages(ps: seq<R.Page>) returns (fits: bool)
      requires Valid()
      modifies Objects()
      ensures fits == Fits(old(pages) + ps)
      ensures fits ==> Valid() && pages == old(pages) + ps
    {
      hide R.Run, H.CountAll, Words, Reports;
      ghost var all := pages + ps;
      var i := 0;
      while i < |ps|
        invariant 0 <= i <= |ps| && Valid() && pages == old(pages) + ps[..i]
      {
        fits := AddPage(ps[i]);
        if !fits {
          FullStaysFull(old(pages), ps[..i + 1], ps, ps[..i], [ps[i]]);
          return;
        }
        i := i + 1;
      }
      assert pages == all;
      return true;
    }

    method AddEntries(visited: seq<(nat, u64)>, ghost addresses: seq<nat>, k: Kernel) returns (fits: bool)
      requires Valid() && |visited| == |addresses|
      requires forall i :: 0 <= i < |visited| ==> visited[i] == (addresses[i], k.pagemap(addresses[i]))
      modifies Objects()
      ensures fits == Fits(old(pages) + PagesOf(k, addresses))
      ensures fits ==> Valid() && pages == old(pages) + PagesOf(k, addresses)
    {
      hide R.Run, H.CountAll, Words, Reports, EntryPages;
      var i := 0;
      while i < |visited|
        invariant 0 <= i <= |visited| && Valid()
        invariant pages == old(pages) + PagesOf(k, addresses[..i])
      {
        EntryAppend(k, addresses, i);
        fits := AddPages(EntryPages(k, visited[i].0, visited[i].1));
        if !fits {
          PagesOfPrefix(k, addresses[..i + 1], addresses);
          FullStaysFull(old(pages), PagesOf(k, addresses[..i + 1]), PagesOf(k, addresses),
                        PagesOf(k, addresses[..i]), EntryPages(k, addresses[i], k.pagemap(addresses[i])));
          return;
        }
        i := i + 1;
      }
      assert addresses[..i] == addresses;
      return true;
    }

    /** Reports the entries of one mapped part of the address space. */
    method WalkVma(c: W.Chunk, k: Kernel, read: W.Reader) returns (fits: bool)
      requires Valid() && W.Honest(read)
      modifies Objects()
      ensures fits == Fits(old(pages) + PagesOf(k, ReadPages(c, read)))
      ensures fits ==> Valid() && pages == old(pages) + PagesOf(k, ReadPages(c, read))
    {
      hide W.Honest, W.Reached, R.Run, H.CountAll, Words, Reports, PagesOf;
      var visited := W.WalkVma(c.index, c.count, k.pagemap, read);
      fits := AddEntries(visited, ReadPages(c, read), k);
    }

    method WalkChunks(chunks: seq<W.Chunk>, k: Kernel, read: W.Reader) returns (fits: bool)
      requires Valid() && W.Honest(read)
      modifies Objects()
      ensures fits == Fits(old(pages) + PagesOf(k, AllRead(chunks, read)))
      ensures fits ==> Valid() && pages == old(pages) + PagesOf(k, AllRead(chunks, read))
    {
      hide W.Honest, R.Run, H.CountAll, Words, Reports, PagesOf, AllRead, ReadPages;
      var i := 0;
      NothingYet(k, chunks, read);
      while i < |chunks|
        invariant 0 <= i <= |chunks| && Valid()
        invariant pages == old(pages) + PagesOf(k, AllRead(chunks[..i], read))
      {
        AllReadAppend(chunks, i, read);
        PagesOfConcat(k, AllRead(chunks[..i], read), ReadPages(chunks[i], read));
        fits := WalkVma(chunks[i], k, read);
        if !fits {
          AllReadPrefix(chunks, i + 1, read);
          PagesOfPrefix(k, AllRead(chunks[..i + 1], read), AllRead(chunks, read));
          FullStaysFull(old(pages), PagesOf(k, AllRead(chunks[..i + 1], read)),
                        PagesOf(k, AllRead(chunks, read)),
                        PagesOf(k, AllRead(chunks[..i], read)), PagesOf(k, ReadPages(chunks[i], read)));
          return;
        }
        i := i + 1;
      }
      assert chunks[..i] == chunks;
      return true;
    }

    /** One address range: of every area in it, the entries that could be read. */
    method WalkTask(space: W.AddressSpace, r: W.Chunk, k: Kernel, read: W.Reader) returns (fits: bool)
      requires Valid() && W.Honest(read) && r.index + r.count < TWO64
      requires space.Valid() && {space, space.pgStart, space.pgEnd} !! Objects()
      modifies Objects()
      ensures fits == Fits(old(pages) + PagesOf(k, RangeRead(space.Vmas(), r, read)))
      ensures fits ==> Valid() && pages == old(pages) + PagesOf(k, RangeRead(space.Vmas(), r, read))
    {
      hide W.Honest, W.Clipped, W.MappedPages, W.ChunkPages, R.Run, H.CountAll, Words, Reports, PagesOf, AllRead;
      var chunks := space.WalkTask(r.index, r.count);
      fits := WalkChunks(chunks, k, read);
    }

    /** The end of the program: the pending range is flushed and the summary printed. */
    method Finish() returns (list: seq<R.Range>, rows: seq<H.Row>, total: nat)
      requires Valid()
      modifies printer
      ensures R.ExpandAll(list) == pages && R.Maximal(list)
      ensures forall rs :: R.ExpandAll(rs) == pages ==> |list| <= |rs|
      ensures forall flags, c :: H.Row(flags, c) in rows <==> c == Count(pages, flags) > 0
      ensures total == |pages|
    {
      hide H.CountAll, H.Rows, Sum, H.Placed, R.ExpandAll, R.Reported, R.Maximal, Words, Reports, Count;
      ghost var t := counter.View();
      printer.FlushPageRange();
      list, total := printer.printed, counter.totalPages;
      rows := counter.ShowSummary();
      ListIsShortest(pages);
      SummaryMatchesList(pages, 0, 0);
      forall flags, c
        ensures H.Row(flags, c) in rows <==> c == Count(pages, flags) > 0
      {
        SummaryMatchesList(pages, flags, c);
      }
    }
  }

  lemma NothingYet(k: Kernel, chunks: seq<W.Chunk>, read: W.Reader)
    requires W.Honest(read)
    ensures PagesOf(k, AllRead(chunks[..0], read)) == []
  {
  }

  /** The areas of a range. */
  function AreasOf(vmas: seq<W.Vma>, r: W.Chunk): seq<W.Chunk> {
    W.Clipped(vmas, |vmas|, r.index, r.index + r.count)
  }

  /** The addresses of a range whose entries could be read, area by area. */
  function RangeRead(vmas: seq<W.Vma>, r: W.Chunk, read: W.Reader): seq<nat>
    requires W.Honest(read)
  {
    AllRead(AreasOf(vmas, r), read)
  }

  function ReadIn(vmas: seq<W.Vma>, ranges: seq<W.Chunk>, read: W.Reader): seq<nat>
    requires W.Honest(read)
  {
    if ranges == [] then []
    else ReadIn(vmas, ranges[..|ranges| - 1], read) + RangeRead(vmas, ranges[|ranges| - 1], read)
  }

  lemma {:induction false} ReadInAppend(k: Kernel, vmas: seq<W.Vma>, ranges: seq<W.Chunk>, i: nat, read: W.Reader)
    requires i < |ranges| && W.Honest(read)
    ensures PagesOf(k, ReadIn(vmas, ranges[..i + 1], read)) ==
            PagesOf(k, ReadIn(vmas, ranges[..i], read)) + PagesOf(k, RangeRead(vmas, ranges[i], read))
  {
    hide W.Honest, RangeRead, PagesOf;
    assert ranges[..i + 1][..i] == ranges[..i];
    PagesOfConcat(k, ReadIn(vmas, ranges[..i], read), RangeRead(vmas, ranges[i], read));
  }

  lemma {:induction false} ReadInPrefix(vmas: seq<W.Vma>, ranges: seq<W.Chunk>, i: nat, read: W.Reader)
    requires i <= |ranges| && W.Honest(read)
    ensures ReadIn(vmas, ranges[..i], read) <= ReadIn(vmas, ranges, read)
  {
    hide W.Honest, RangeRead;
    if i < |ranges| {
      ReadInPrefix(vmas, ranges[..|ranges| - 1], i, read);
      assert ranges[..|ranges| - 1][..i] == ranges[..i];
    } else {
      assert ranges[..i] == ranges;
    }
  }

  /** Without a range on the command line, everything below the largest offset. */
  const EVERYTHING := W.Chunk(0, W.ULONG_MAX)

  function Asked(ranges: seq<W.Chunk>): seq<W.Chunk> {
    if ranges == [] then [EVERYTHING] else ranges
  }

  /** The pages of the whole report. */
  function Expected(k: Kernel, vmas: seq<W.Vma>, ranges: seq<W.Chunk>, read: W.Reader): seq<R.Page>
    requires W.Honest(read)
  {
    PagesOf(k, ReadIn(vmas, Asked(ranges), read))
  }

  method WalkAddrRanges(report: Report, space: W.AddressSpace, ranges: seq<W.Chunk>, k: Kernel,
                        read: W.Reader) returns (fits: bool)
    requires report.Valid() && W.Honest(read) && (forall r :: r in ranges ==> r.index + r.count < TWO64)
    requires space.Valid() && {space, space.pgStart, space.pgEnd} !! report.Objects()
    modifies report.Objects()
    ensures fits == Fits(old(report.pages) + Expected(k, space.Vmas(), ranges, read))
    ensures fits ==> report.Valid()
    ensures fits ==> report.pages == old(report.pages) + Expected(k, space.Vmas(), ranges, read)
  {
    hide W.Honest, W.Ordered, R.Run, H.CountAll, Words, Reports, PagesOf, ReadIn, RangeRead;
    ghost var vmas := space.Vmas();
    var asked := Asked(ranges);
    NoRangeYet(k, vmas, asked, read);
    var i := 0;
    while i < |asked|
      invariant 0 <= i <= |asked| && report.Valid()
      invariant space.Valid() && space.Vmas() == vmas
      invariant report.pages == old(report.pages) + PagesOf(k, ReadIn(vmas, asked[..i], read))
    {
      ReadInAppend(k, vmas, asked, i, read);
      fits := report.WalkTask(space, asked[i], k, read);
      if !fits {
        ReadInPrefix(vmas, asked, i + 1, read);
        PagesOfPrefix(k, ReadIn(vmas, asked[..i + 1], read), ReadIn(vmas, asked, read));
        FullStaysFull(old(report.pages), PagesOf(k, ReadIn(vmas, asked[..i + 1], read)),
                      PagesOf(k, ReadIn(vmas, asked, read)),
                      PagesOf(k, ReadIn(vmas, asked[..i], read)), PagesOf(k, RangeRead(vmas, asked[i], read)));
        return;
      }
      i := i + 1;
    }
    assert asked[..i] == asked;
    return true;
  }

  lemma NoRangeYet(k: Kernel, vmas: seq<W.Vma>, ranges: seq<W.Chunk>, read: W.Reader)
    requires W.Honest(read)
    ensures PagesOf(k, ReadIn(vmas, ranges[..0], read)) == []
  {
  }

  /**
   The program, for a process and a range list, whatever the reads return: the ranges printed
   are the shortest list that stands for exactly the reports of the entries read, in order;
   the lines of the summary are the exact counts of these pages by flags; and the total is
   their number. It gives up if and only if the pages show too many flag words.
   */
  method ReportProcess(space: W.AddressSpace, ranges: seq<W.Chunk>, k: Kernel, read: W.Reader)
    returns (fits: bool, list: seq<R.Range>, rows: seq<H.Row>, total: nat)
    requires W.Honest(read) && (forall r :: r in ranges ==> r.index + r.count < TWO64)
    requires space.Valid()
    ensures fits == (|H.NonZero(Words(Expected(k, space.Vmas(), ranges, read)))| <= H.SLOTS)
    ensures fits ==> R.ExpandAll(list) == Expected(k, space.Vmas(), ranges, read) && R.Maximal(list)
    ensures fits ==>
      forall rs :: R.ExpandAll(rs) == Expected(k, space.Vmas(), ranges, read) ==> |list| <= |rs|
    ensures fits ==>
      forall flags, c :: H.Row(flags, c) in rows <==>
                         c == Count(Expected(k, space.Vmas(), ranges, read), flags) > 0
    ensures fits ==> total == |Expected(k, space.Vmas(), ranges, read)|
  {
    hide W.Honest, W.Ordered, R.Run, R.ExpandAll, R.Maximal, H.CountAll, H.Rows, H.NonZero, Words, Reports, Expected;
    ghost var expected := Expected(k, space.Vmas(), ranges, read);
    H.FitsIff(Words(expected));
    var report := new Report();
    fits := WalkAddrRanges(report, space, ranges, k, read);
    assert [] + expected == expected;
    list, rows, total := [], [], 0;
    if fits {
      list, rows, total := report.Finish();
    }
  }

  // What is read and what is mapped.

  ghost function RangePages(vmas: seq<W.Vma>, r: W.Chunk): seq<nat> {
    W.MappedPages(vmas, r.index, r.index + r.count)
  }

  /** The mapped pages of several ranges, range by range, as they are given. */
  ghost function MappedIn(vmas: seq<W.Vma>, ranges: seq<W.Chunk>): seq<nat> {
    if ranges == [] then []
    else MappedIn(vmas, ranges[..|ranges| - 1]) + RangePages(vmas, ranges[|ranges| - 1])
  }

  /** Every area of every range is read to its end. */
  ghost predicate NothingBreaksOff(vmas: seq<W.Vma>, ranges: seq<W.Chunk>, read: W.Reader)
    requires W.Honest(read)
  {
    forall i :: 0 <= i < |ranges| ==> RangeComplete(vmas, ranges[i], read)
  }

  ghost predicate RangeComplete(vmas: seq<W.Vma>, r: W.Chunk, read: W.Reader)
    requires W.Honest(read)
  {
    FullyRead(AreasOf(vmas, r), read)
  }

  lemma RangeReadIff(vmas: seq<W.Vma>, r: W.Chunk, read: W.Reader)
    requires W.Ordered(vmas) && W.Honest(read)
    ensures |RangeRead(vmas, r, read)| <= |RangePages(vmas, r)|
    ensures |RangeRead(vmas, r, read)| == |RangePages(vmas, r)| ==> RangeComplete(vmas, r, read)
    ensures RangeComplete(vmas, r, read) ==> RangeRead(vmas, r, read) == RangePages(vmas, r)
  {
    hide W.Clipped, W.ChunkPages, W.MappedPages, W.Ordered, W.Honest, AllRead, FullyRead;
    W.ClippedPages(vmas, r.index, r.index + r.count);
    AllReadIff(W.Clipped(vmas, |vmas|, r.index, r.index + r.count), read);
  }

  lemma {:induction false} ReadInIff(vmas: seq<W.Vma>, ranges: seq<W.Chunk>, read: W.Reader)
    requires W.Ordered(vmas) && W.Honest(read)
    ensures |ReadIn(vmas, ranges, read)| <= |MappedIn(vmas, ranges)|
    ensures |ReadIn(vmas, ranges, read)| == |MappedIn(vmas, ranges)| ==> NothingBreaksOff(vmas, ranges, read)
    ensures NothingBreaksOff(vmas, ranges, read) ==> ReadIn(vmas, ranges, read) == MappedIn(vmas, ranges)
  {
    hide W.Ordered, W.Honest, RangeRead, RangePages, RangeComplete;
    if ranges != [] {
      var init := ranges[..|ranges| - 1];
      ReadInIff(vmas, init, read);
      RangeReadIff(vmas, ranges[|ranges| - 1], read);
      assert NothingBreaksOff(vmas, ranges, read) <==>
             NothingBreaksOff(vmas, init, read) && RangeComplete(vmas, ranges[|ranges| - 1], read) by {
        BreaksOffSplit(vmas, ranges, read);
      }
    }
  }

  lemma BreaksOffSplit(vmas: seq<W.Vma>, ranges: seq<W.Chunk>, read: W.Reader)
    requires ranges != [] && W.Honest(read)
    ensures NothingBreaksOff(vmas, ranges, read) <==>
            NothingBreaksOff(vmas, ranges[..|ranges| - 1], read) &&
            RangeComplete(vmas, ranges[|ranges| - 1], read)
  {
    hide RangeComplete, W.Honest;
    var init := ranges[..|ranges| - 1];
    assert forall i :: 0 <= i < |init| ==> init[i] == ranges[i];
  }

  /** The report covers every mapped page asked for if and only if no area breaks off. */
  lemma ReportIsCompleteIff(vmas: seq<W.Vma>, ranges: seq<W.Chunk>, read: W.Reader)
    requires W.Ordered(vmas) && W.Honest(read)
    ensures ReadIn(vmas, Asked(ranges), read) == MappedIn(vmas, Asked(ranges)) <==>
            NothingBreaksOff(vmas, Asked(ranges), read)
  {
    hide ReadIn, MappedIn, NothingBreaksOff, W.Ordered, W.Honest;
    ReadInIff(vmas, Asked(ranges), read);
  }

  lemma WillingRange(vmas: seq<W.Vma>, r: W.Chunk, read: W.Reader)
    requires W.Honest(read) && forall i, n :: n > 0 ==> read(i, n) > 0
    ensures RangeComplete(vmas, r, read)
  {
    hide AreasOf;
    var areas := AreasOf(vmas, r);
    forall j | 0 <= j < |areas|
      ensures W.Reached(read, areas[j].index, areas[j].count) == areas[j].count
    {
      W.AllReached(read, areas[j].index, areas[j].count);
    }
  }

  /** In particular, if no read comes back empty. */
  lemma WillingReadsAll(vmas: seq<W.Vma>, ranges: seq<W.Chunk>, read: W.Reader)
    requires W.Ordered(vmas) && W.Honest(read) && forall i, n :: n > 0 ==> read(i, n) > 0
    ensures ReadIn(vmas, Asked(ranges), read) == MappedIn(vmas, Asked(ranges))
  {
    hide ReadIn, MappedIn, W.Ordered, RangeComplete;
    forall i | 0 <= i < |Asked(ranges)|
      ensures RangeComplete(vmas, Asked(ranges)[i], read)
    {
      WillingRange(vmas, Asked(ranges)[i], read);
    }
    ReportIsCompleteIff(vmas, ranges, read);
  }

  /** An area whose first read returns nothing, as above the task size, is not reported. */
  lemma EmptyReadLosesArea()
    ensures
      var vmas, read: W.Reader := [W.Vma(0, 1)], (_, _) => 0;
      && W.Ordered(vmas) && W.Honest(read)
      && ReadIn(vmas, Asked([]), read) != MappedIn(vmas, Asked([]))
  {
    hide ReadIn, MappedIn, W.MappedPages, W.ChunkPages;
    var vmas, read: W.Reader := [W.Vma(0, 1)], (_, _) => 0;
    ReportIsCompleteIff(vmas, [], read);
    var areas := AreasOf(vmas, EVERYTHING);
    assert areas == W.Clipped(vmas, 0, 0, W.ULONG_MAX) + [W.Chunk(0, 1)];
    assert areas[0] == W.Chunk(0, 1);
    assert !RangeComplete(vmas, Asked([])[0], read);
  }

  // The addresses and frames in the list.

  /** A page is reported if and only if it belongs to one of the addresses. */
  lemma {:induction false} ReportsOfEntries(k: Kernel, addresses: seq<nat>, p: R.Page)
    ensures p in PagesOf(k, addresses) <==>
            exists i :: 0 <= i < |addresses| &&
                        p in EntryPages(k, addresses[i], k.pagemap(addresses[i]))
  {
    hide EntryPages;
    if addresses != [] {
      var init := addresses[..|addresses| - 1];
      ReportsOfEntries(k, init, p);
      assert forall i :: 0 <= i < |init| ==> init[i] == addresses[i];
    }
  }

  /** A report carries its own address, and the frame or the swap slot of its entry. */
  lemma ReportOfEntry(k: Kernel, index: u64, p: R.Page)
    requires p in EntryPages(k, index, k.pagemap(index))
    ensures
      var pme := k.pagemap(index);
      && p.voffset == index
      && ((IsPresent(pme) && p.offset == PagemapPfn(pme) != 0 && k.frame(p.offset, pme) == Some(p.attr)) ||
          (IsSwapped(pme) && p.offset == PagemapSwapOffset(pme) &&
           k.swapped(pme) == Some(p.attr.flags) && p.attr.cgroup == p.attr.mapcnt == 0))
  {
  }

  lemma {:induction false} ReadIsInChunk(chunks: seq<W.Chunk>, read: W.Reader, a: nat)
    requires W.Honest(read) && a in AllRead(chunks, read)
    ensures a in W.ChunkPages(chunks)
  {
    hide W.Honest, W.Reached;
    var init, c := chunks[..|chunks| - 1], chunks[|chunks| - 1];
    if a in AllRead(init, read) {
      ReadIsInChunk(init, read, a);
    } else {
      assert a in W.Pages(c.index, W.Reached(read, c.index, c.count));
      assert W.Pages(c.index, c.count)[a - c.index] == a;
    }
  }

  lemma {:induction false} ReadIsMapped(vmas: seq<W.Vma>, ranges: seq<W.Chunk>, read: W.Reader, a: nat)
    requires W.Ordered(vmas) && W.Honest(read) && a in ReadIn(vmas, ranges, read)
    ensures W.Mapped(vmas, a)
    ensures exists i :: 0 <= i < |ranges| && ranges[i].index <= a < ranges[i].index + ranges[i].count
  {
    hide W.Honest, W.Ordered, W.Mapped, W.Clipped, W.ChunkPages, AllRead;
    var init, r := ranges[..|ranges| - 1], ranges[|ranges| - 1];
    if a in ReadIn(vmas, init, read) {
      ReadIsMapped(vmas, init, read, a);
      var i :| 0 <= i < |init| && init[i].index <= a < init[i].index + init[i].count;
      assert ranges[i] == init[i];
    } else {
      assert a in RangeRead(vmas, r, read);
      ReadIsInChunk(AreasOf(vmas, r), read, a);
      W.ClippedPages(vmas, r.index, r.index + r.count);
      assert a in W.MappedPages(vmas, r.index, r.index + r.count);
      assert ranges[|ranges| - 1].index <= a < ranges[|ranges| - 1].index + ranges[|ranges| - 1].count;
    }
  }

  /**
   Every page of the report stands at a mapped address that was asked for, and shows the
   frame or the swap slot of the page-map entry at that address.
   */
  lemma {:induction false} ListedAtItsAddress(k: Kernel, vmas: seq<W.Vma>, ranges: seq<W.Chunk>,
                                              read: W.Reader, p: R.Page)
    requires W.Ordered(vmas) && W.Honest(read) && (forall r :: r in ranges ==> r.index + r.count < TWO64)
    requires p in Expected(k, vmas, ranges, read)
    ensures W.Mapped(vmas, p.voffset)
    ensures exists i :: 0 <= i < |Asked(ranges)| &&
                        Asked(ranges)[i].index <= p.voffset < Asked(ranges)[i].index + Asked(ranges)[i].count
    ensures p in EntryPages(k, p.voffset, k.pagemap(p.voffset))
  {
    hide W.Honest, W.Ordered, W.Mapped, ReadIn, EntryPages;
    var addresses := ReadIn(vmas, Asked(ranges), read);
    ReportsOfEntries(k, addresses, p);
    var i :| 0 <= i < |addresses| && p in EntryPages(k, addresses[i], k.pagemap(addresses[i]));
    ReadIsMapped(vmas, Asked(ranges), read, addresses[i]);
    ReportOfEntry(k, addresses[i], p);
  }

  // Nothing that belongs into the list is missing.

  /** A page-map entry by its bits: 63 and 62, the seven below them, and the low 55. */
  function EntryOf(present: bool, swapped: bool, middle: nat, low: nat): u64
    requires middle < 128 && low < PM_PFRAMES
  {
    (if present then PM_PRESENT else 0) + (if swapped then PM_SWAP else 0) + middle * PM_PFRAMES + low
  }

  /** Every entry is made of such bits. */
  lemma EveryEntry(pme: u64)
    ensures exists present, swapped, middle: nat, low: nat ::
              middle < 128 && low < PM_PFRAMES && pme == EntryOf(present, swapped, middle, low)
  {
    var present, swapped := pme / PM_PRESENT == 1, pme / PM_SWAP % 2 == 1;
    var middle, low := pme / PM_PFRAMES % 128, pme % PM_PFRAMES;
    assert pme == EntryOf(present, swapped, middle, low);
  }

  /** The frame is the low 55 bits of a present entry, the swap offset these divided by 32. */
  lemma EntryBits(present: bool, swapped: bool, middle: nat, low: nat)
    requires middle < 128 && low < PM_PFRAMES
    ensures
      var pme := EntryOf(present, swapped, middle, low);
      && IsPresent(pme) == present && IsSwapped(pme) == swapped
      && PagemapPfn(pme) == (if present then low else 0)
      && PagemapSwapOffset(pme) == (if swapped then low / 32 else 0)
  {
  }

  /** What the program must list for an entry: the frame, then the swap slot. */
  function Due(k: Kernel, a: u64, present: bool, swapped: bool, middle: nat, low: nat): seq<R.Page>
    requires middle < 128 && low < PM_PFRAMES
  {
    var pme := EntryOf(present, swapped, middle, low);
    (if present && low != 0 && k.frame(low, pme).Some? then [R.Page(a, low, k.frame(low, pme).value)] else [])
    + (if swapped && k.swapped(pme).Some?
       then [R.Page(a, low / 32, R.Attr(k.swapped(pme).value, 0, 0))] else [])
  }

  lemma EntryIsDue(k: Kernel, a: u64, present: bool, swapped: bool, middle: nat, low: nat)
    requires middle < 128 && low < PM_PFRAMES
    ensures EntryPages(k, a, EntryOf(present, swapped, middle, low)) == Due(k, a, present, swapped, middle, low)
  {
    hide EntryOf, IsPresent, IsSwapped, PagemapPfn, PagemapSwapOffset;
    EntryBits(present, swapped, middle, low);
    assert R.Wrap(a) == a;
  }

  /**
   The report of a list of addresses holds, at the place of each address, exactly what is due
   for the bits of its entry.
   */
  lemma {:induction false} DueAtItsPlace(k: Kernel, addresses: seq<nat>, i: nat,
                                         present: bool, swapped: bool, middle: nat, low: nat)
    requires i < |addresses| && addresses[i] < TWO64 && middle < 128 && low < PM_PFRAMES
    requires k.pagemap(addresses[i]) == EntryOf(present, swapped, middle, low)
    ensures PagesOf(k, addresses) ==
            PagesOf(k, addresses[..i]) + Due(k, addresses[i], present, swapped, middle, low)
            + PagesOf(k, addresses[i + 1..])
  {
    hide PagesOf, EntryPages, Due, EntryOf;
    EntryAppend(k, addresses, i);
    EntryIsDue(k, addresses[i], present, swapped, middle, low);
    assert addresses == addresses[..i + 1] + addresses[i + 1..];
    PagesOfConcat(k, addresses[..i + 1], addresses[i + 1..]);
  }

  /** Every frame and every swap slot of an entry that was read is in the report. */
  lemma {:induction false} EveryEntryIsListed(k: Kernel, vmas: seq<W.Vma>, ranges: seq<W.Chunk>, read: W.Reader,
                                              a: u64, present: bool, swapped: bool, middle: nat, low: nat)
    requires W.Honest(read) && a in ReadIn(vmas, Asked(ranges), read) && middle < 128 && low < PM_PFRAMES
    requires k.pagemap(a) == EntryOf(present, swapped, middle, low)
    ensures present && low != 0 && k.frame(low, k.pagemap(a)).Some? ==>
              R.Page(a, low, k.frame(low, k.pagemap(a)).value) in Expected(k, vmas, ranges, read)
    ensures swapped && k.swapped(k.pagemap(a)).Some? ==>
              R.Page(a, low / 32, R.Attr(k.swapped(k.pagemap(a)).value, 0, 0)) in Expected(k, vmas, ranges, read)
  {
    hide PagesOf, EntryOf, ReadIn, W.Honest;
    var addresses := ReadIn(vmas, Asked(ranges), read);
    var i :| 0 <= i < |addresses| && addresses[i] == a;
    DueAtItsPlace(k, addresses, i, present, swapped, middle, low);
    var before, due := PagesOf(k, addresses[..i]), Due(k, a, present, swapped, middle, low);
    forall p | p in due
      ensures p in PagesOf(k, addresses)
    {
      InTheMiddle(before, due, PagesOf(k, addresses[i + 1..]), p);
    }
    DueHolds(k, a, present, swapped, middle, low);
  }

  lemma InTheMiddle(a: seq<R.Page>, b: seq<R.Page>, c: seq<R.Page>, p: R.Page)
    requires p in b
    ensures p in a + b + c
  {
    assert p in a + b;
  }

  lemma DueHolds(k: Kernel, a: u64, present: bool, swapped: bool, middle: nat, low: nat)
    requires middle < 128 && low < PM_PFRAMES
    ensures
      var pme, due := EntryOf(present, swapped, middle, low), Due(k, a, present, swapped, middle, low);
      && (present && low != 0 && k.frame(low, pme).Some? ==> R.Page(a, low, k.frame(low, pme).value) in due)
      && (swapped && k.swapped(pme).Some? ==>
            R.Page(a, low / 32, R.Attr(k.swapped(pme).value, 0, 0)) in due)
  {
    hide EntryOf;
  }

  /** A swapped page 7 with entry 0x4000000000000040 is listed at swap offset 2. */
  lemma SwapEntryIsListed(k: Kernel, flags: u64)
    requires k.pagemap(7) == 0x4000_0000_0000_0040 && k.swapped(k.pagemap(7)) == Some(flags)
    ensures PagesOf(k, [7]) == [R.Page(7, 2, R.Attr(flags, 0, 0))]
  {
    hide PagesOf, EntryPages;
    assert k.pagemap(7) == EntryOf(false, true, 0, 64);
    DueAtItsPlace(k, [7], 0, false, true, 0, 64);
    assert [7][..0] == [] && [7][1..] == [];
    NoAddresses(k);
    assert [] + [R.Page(7, 2, R.Attr(flags, 0, 0))] + [] == [R.Page(7, 2, R.Attr(flags, 0, 0))];
  }

  lemma NoAddresses(k: Kernel)
    ensures PagesOf(k, []) == []
  {
  }
}
