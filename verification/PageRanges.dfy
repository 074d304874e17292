/**
 The page list: pages are reported one by one and printed as ranges. The printer keeps one
 pending range in static variables that start at zero and prints it when the next page does
 not continue it, or when it is flushed.
 */
module PageRanges {
  import opened Bits

  datatype Attr = Attr(flags: u64, cgroup: u64, mapcnt: u64)

  datatype Page = Page(voffset: u64, offset: u64, attr: Attr)

  datatype Range = Range(voff: u64, index: u64, count: nat, attr: Attr)

  /** What a flush reports, and also the state of the static variables at program start. */
  const NO_RANGE := Range(0, 0, 0, Attr(0, 0, 0))

  function Wrap(x: nat): u64 {
    x % TWO64
  }

  function PageAt(r: Range, i: nat): Page {
    Page(Wrap(r.voff + i), Wrap(r.index + i), r.attr)
  }

  /** The pages that a range stands for. */
  function Expand(r: Range): (ps: seq<Page>)
    ensures |ps| == r.count
    ensures forall i :: 0 <= i < r.count ==> ps[i] == PageAt(r, i)
  {
    seq(r.count, i requires 0 <= i => PageAt(r, i))
  }

  function ExpandAll(rs: seq<Range>): seq<Page> {
    if rs == [] then [] else Expand(rs[0]) + ExpandAll(rs[1..])
  }

  /** Range `b` begins with the page after the last one of `a`, with the same attributes. */
  predicate Continues(a: Range, b: Range) {
    a.attr == b.attr && b.index == Wrap(a.index + a.count) && b.voff == Wrap(a.voff + a.count)
  }

  function Grown(a: Range, n: nat): Range {
    a.(count := a.count + n)
  }

  // The printer.

  datatype Printer = Printer(pending: Range, printed: seq<Range>)

  const START := Printer(NO_RANGE, [])

  function Show(p: Printer, r: Range): Printer {
    if Continues(p.pending, r) && r.count > 0 then
      p.(pending := Grown(p.pending, r.count))
    else
      Printer(r, if p.pending.count > 0 then p.printed + [p.pending] else p.printed)
  }

  datatype Reports = Nothing | Then(past: Reports, r: Range)

  function Run(h: Reports): Printer {
    match h
    case Nothing => START
    case Then(past, r) => Show(Run(past), r)
  }

  /** Everything reported, page by page. */
  function Reported(h: Reports): seq<Page> {
    match h
    case Nothing => []
    case Then(past, r) => Reported(past) + Expand(r)
  }

  function Flushed(h: Reports): Reports {
    Then(h, NO_RANGE)
  }

  // Nothing is lost, added or reordered.

  lemma {:induction false} ExpandAppend(rs: seq<Range>, r: Range)
    ensures ExpandAll(rs + [r]) == ExpandAll(rs) + Expand(r)
  {
    if rs == [] {
      assert ExpandAll([r]) == Expand(r) + ExpandAll([]);
    } else {
      assert (rs + [r])[1..] == rs[1..] + [r];
      ExpandAppend(rs[1..], r);
    }
  }

  /** Growing a range by its continuation appends the continuation's pages. */
  lemma ExpandGrown(a: Range, b: Range)
    requires Continues(a, b)
    ensures Expand(Grown(a, b.count)) == Expand(a) + Expand(b)
  {
    hide Wrap;
    forall i | 0 <= i < b.count
      ensures PageAt(a, a.count + i) == PageAt(b, i)
    {
      WrapAdd(a.index + a.count, i);
      WrapAdd(a.voff + a.count, i);
    }
  }

  lemma WrapAdd(x: nat, i: nat)
    ensures Wrap(Wrap(x) + i) == Wrap(x + i)
  {
  }

  /** At every moment the printed ranges and the pending one are the pages reported so far. */
  lemma {:induction false} NothingLost(h: Reports)
    ensures ExpandAll(Run(h).printed) + Expand(Run(h).pending) == Reported(h)
  {
    if h.Then? {
      var p := Run(h.past);
      NothingLost(h.past);
      if Continues(p.pending, h.r) && h.r.count > 0 {
        ExpandGrown(p.pending, h.r);
      } else if p.pending.count > 0 {
        ExpandAppend(p.printed, p.pending);
      }
    }
  }

  /** After a flush the printed ranges alone expand to every reported page, in order. */
  lemma {:induction false} RoundTrip(h: Reports)
    ensures ExpandAll(Run(Flushed(h)).printed) == Reported(h)
    ensures Run(Flushed(h)).pending == START.pending
  {
    var p := Run(Flushed(h));
    NothingLost(Flushed(h));
    assert p.pending == NO_RANGE && Expand(NO_RANGE) == [];
    assert ExpandAll(p.printed) + [] == ExpandAll(p.printed);
    assert Reported(h) + [] == Reported(h);
  }

  // The printed ranges of a listing are as long as possible.

  /** Nothing is pending: the program has just started or has just flushed. */
  predicate Fresh(h: Reports) {
    h.Nothing? || h.r == NO_RANGE
  }

  /** One listing: pages are reported from `from` to `h`, without a flush. */
  predicate Listing(from: Reports, h: Reports) {
    h == from || (h.Then? && h.r.count > 0 && Listing(from, h.past))
  }

  /** The pages of the listing. */
  function ListedPages(from: Reports, h: Reports): seq<Page> {
    if h == from || h.Nothing? then [] else ListedPages(from, h.past) + Expand(h.r)
  }

  /** The ranges printed for the listing, once it is flushed. */
  function PrintedFor(from: Reports, h: Reports): seq<Range>
    requires Run(from).printed <= Run(Flushed(h)).printed
  {
    Run(Flushed(h)).printed[|Run(from).printed|..]
  }

  ghost predicate NonEmpty(rs: seq<Range>) {
    forall i :: 0 <= i < |rs| ==> rs[i].count > 0
  }

  /** No empty range, and no range that continues the one before it. */
  ghost predicate Maximal(rs: seq<Range>) {
    && NonEmpty(rs)
    && (forall i :: 0 < i < |rs| ==> !Continues(rs[i - 1], rs[i]))
  }

  /** The ranges of a listing that are printed or pending. */
  function Current(from: Reports, h: Reports): seq<Range>
    requires Run(from).printed <= Run(h).printed
  {
    var p := Run(h);
    p.printed[|Run(from).printed|..] + (if p.pending.count > 0 then [p.pending] else [])
  }

  lemma MaximalAppend(rs: seq<Range>, r: Range)
    requires Maximal(rs) && r.count > 0 && (rs != [] ==> !Continues(rs[|rs| - 1], r))
    ensures Maximal(rs + [r])
  {
  }

  /** Letting the last range grow does not let it continue the one before it. */
  lemma MaximalGrown(rs: seq<Range>, r: Range, n: nat)
    requires Maximal(rs + [r])
    ensures Maximal(rs + [Grown(r, n)])
  {
    var before, after := rs + [r], rs + [Grown(r, n)];
    assert forall i :: 0 <= i < |rs| ==> after[i] == before[i];
    forall i | 0 < i < |after|
      ensures !Continues(after[i - 1], after[i])
    {
      assert !Continues(before[i - 1], before[i]);
    }
  }

  lemma FreshPending(h: Reports)
    requires Fresh(h)
    ensures Run(h).pending == NO_RANGE
  {
  }

  lemma {:induction false} ListingMaximal(from: Reports, h: Reports)
    requires Fresh(from) && Listing(from, h)
    ensures Run(from).printed <= Run(h).printed
    ensures Maximal(Current(from, h))
    ensures h != from ==> Run(h).pending.count > 0
    ensures h == from ==> Run(h).pending == NO_RANGE && Current(from, h) == []
  {
    hide Continues, Wrap, Maximal;
    if h == from {
      FreshPending(h);
      NothingMaximal();
      assert Current(from, h) == [];
    } else {
      ListingMaximal(from, h.past);
      ReportMaximal(from, h.past, h.r);
    }
  }

  lemma NothingMaximal()
    ensures Maximal([])
  {
  }

  lemma ReportMaximal(from: Reports, h: Reports, r: Range)
    requires r.count > 0 && Run(from).printed <= Run(h).printed && Maximal(Current(from, h))
    requires Run(h).pending.count == 0 ==> Run(h).pending == NO_RANGE && Current(from, h) == []
    ensures Run(from).printed <= Run(Then(h, r)).printed && Run(Then(h, r)).pending.count > 0
    ensures Maximal(Current(from, Then(h, r)))
  {
    hide Continues, Wrap, Maximal;
    var n, p, p' := |Run(from).printed|, Run(h), Run(Then(h, r));
    if p.pending.count == 0 {
      assert p'.printed == p.printed;
      NothingMaximal();
      MaximalAppend([], p'.pending);
    } else if Continues(p.pending, r) {
      MaximalGrown(p.printed[n..], p.pending, r.count);
    } else {
      assert p'.printed[n..] == Current(from, h);
      MaximalAppend(Current(from, h), r);
    }
  }

  /** Between two flushes the printed list cannot be shortened by merging neighbours. */
  lemma {:induction false} PrintedIsMaximal(from: Reports, h: Reports)
    requires Fresh(from) && Listing(from, h)
    ensures Run(from).printed <= Run(Flushed(h)).printed
    ensures Maximal(PrintedFor(from, h))
  {
    ListingMaximal(from, h);
    assert PrintedFor(from, h) == Current(from, h);
  }

  /** A maximal list is determined by the pages it stands for. */
  lemma {:induction false} MaximalIsUnique(a: seq<Range>, b: seq<Range>)
    requires Maximal(a) && Maximal(b) && ExpandAll(a) == ExpandAll(b)
    ensures a == b
    decreases |a|
  {
    if a == [] || b == [] {
      EmptyExpansion(a);
      EmptyExpansion(b);
    } else {
      FirstRange(a, b);
      FirstRange(b, a);
      var pages, n := ExpandAll(a), a[0].count;
      assert a[0] == b[0] by { FirstPage(a); FirstPage(b); }
      assert ExpandAll(a[1..]) == pages[n..] == ExpandAll(b[1..]);
      MaximalTail(a);
      MaximalTail(b);
      MaximalIsUnique(a[1..], b[1..]);
      assert a == [a[0]] + a[1..] && b == [b[0]] + b[1..];
    }
  }

  lemma {:induction false} MaximalTail(a: seq<Range>)
    requires Maximal(a) && a != []
    ensures Maximal(a[1..])
  {
    forall i | 0 < i < |a[1..]|
      ensures !Continues(a[1..][i - 1], a[1..][i])
    {
      assert a[1..][i - 1] == a[i] && a[1..][i] == a[i + 1];
      assert !Continues(a[i + 1 - 1], a[i + 1]);
    }
  }

  lemma {:induction false} EmptyExpansion(a: seq<Range>)
    requires Maximal(a)
    ensures a == [] <==> ExpandAll(a) == []
  {
  }

  lemma {:induction false} FirstPage(a: seq<Range>)
    requires NonEmpty(a) && a != []
    ensures ExpandAll(a) != []
    ensures var p := ExpandAll(a)[0];
            a[0].voff == p.voffset && a[0].index == p.offset && a[0].attr == p.attr
  {
    assert Expand(a[0])[0] == PageAt(a[0], 0);
  }

  /** If another list has a longer first range, the second range continues the first. */
  lemma {:induction false} ShorterFirstRange(a: seq<Range>, b: seq<Range>)
    requires NonEmpty(a) && NonEmpty(b) && a != [] && b != []
    requires ExpandAll(a) == ExpandAll(b) && b[0].count < a[0].count
    ensures |b| > 1 && Continues(b[0], b[1])
  {
    var pages, n, tail := ExpandAll(a), b[0].count, b[1..];
    FirstPage(a);
    FirstPage(b);
    assert pages[n] == Expand(a[0])[n] == PageAt(a[0], n);
    assert ExpandAll(tail) == pages[n..];
    assert tail != [];
    FirstPage(tail);
  }

  lemma {:induction false} FirstRange(a: seq<Range>, b: seq<Range>)
    requires Maximal(a) && Maximal(b) && ExpandAll(a) == ExpandAll(b) && a != [] && b != []
    ensures a[0].count <= b[0].count
  {
    if b[0].count < a[0].count {
      ShorterFirstRange(a, b);
      assert false;
    }
  }

  lemma {:induction false} ExpandConcat(a: seq<Range>, b: seq<Range>)
    ensures ExpandAll(a + b) == ExpandAll(a) + ExpandAll(b)
  {
    if b == [] {
      assert a + b == a;
    } else {
      var init, r := b[..|b| - 1], b[|b| - 1];
      ExpandConcat(a, init);
      assert a + b == (a + init) + [r] && b == init + [r];
      ExpandAppend(a + init, r);
      ExpandAppend(init, r);
    }
  }

  lemma {:induction false} ListedIsReported(from: Reports, h: Reports)
    requires Listing(from, h)
    ensures Reported(h) == Reported(from) + ListedPages(from, h)
  {
    if h != from {
      ListedIsReported(from, h.past);
    }
  }

  /** The ranges printed for a listing expand to exactly its pages, in order. */
  lemma {:induction false} ListingRoundTrip(from: Reports, h: Reports)
    requires Fresh(from) && Listing(from, h)
    ensures Run(from).printed <= Run(Flushed(h)).printed
    ensures ExpandAll(PrintedFor(from, h)) == ListedPages(from, h)
  {
    hide Expand, ExpandAll, Reported, ListedPages;
    PrintedIsMaximal(from, h);
    NothingLost(from);
    FreshPending(from);
    assert Expand(NO_RANGE) == [] by { NoPages(); }
    RoundTrip(h);
    ListedIsReported(from, h);
    var before, listed := Run(from).printed, PrintedFor(from, h);
    assert before + listed == Run(Flushed(h)).printed;
    ExpandConcat(before, listed);
    assert ExpandAll(before) + [] == ExpandAll(before);
    SamePrefix(ExpandAll(before), ExpandAll(listed), ListedPages(from, h));
  }

  lemma NoPages()
    ensures Expand(NO_RANGE) == []
  {
  }

  lemma SamePrefix(a: seq<Page>, b: seq<Page>, c: seq<Page>)
    requires a + b == a + c
    ensures b == c
  {
    assert b == (a + b)[|a|..] && c == (a + c)[|a|..];
  }

  // No other list is shorter.

  /** Any list of ranges, with empty ranges dropped and neighbours merged. */
  function Merged(rs: seq<Range>): seq<Range> {
    if rs == [] then []
    else
      var r, rest := rs[0], Merged(rs[1..]);
      if r.count == 0 then rest
      else if rest != [] && Continues(r, rest[0]) then [Grown(r, rest[0].count)] + rest[1..]
      else [r] + rest
  }

  /** A range that has grown by its continuation is continued by what continues that. */
  lemma GrownContinues(a: Range, b: Range, c: Range)
    requires Continues(a, b)
    ensures Continues(Grown(a, b.count), c) <==> Continues(b, c)
  {
    hide Wrap;
    WrapAdd(a.index + a.count, b.count);
    WrapAdd(a.voff + a.count, b.count);
  }

  lemma {:induction false} MergedMaximal(rs: seq<Range>)
    ensures Maximal(Merged(rs)) && |Merged(rs)| <= |rs|
  {
    if rs != [] {
      hide Continues, Wrap;
      var r, rest := rs[0], Merged(rs[1..]);
      MergedMaximal(rs[1..]);
      if r.count > 0 && rest != [] && Continues(r, rest[0]) {
        var m := [Grown(r, rest[0].count)] + rest[1..];
        forall i | 0 < i < |m|
          ensures !Continues(m[i - 1], m[i])
        {
          assert m[i] == rest[i] && !Continues(rest[i - 1], rest[i]);
          if i == 1 {
            GrownContinues(r, rest[0], rest[1]);
          }
        }
      } else if r.count > 0 {
        var m := [r] + rest;
        forall i | 0 < i < |m|
          ensures !Continues(m[i - 1], m[i])
        {
          assert m[i] == rest[i - 1];
          assert i > 1 ==> !Continues(rest[i - 2], rest[i - 1]);
        }
      }
    }
  }

  lemma {:induction false} ExpandFirst(r: Range, rest: seq<Range>)
    ensures ExpandAll([r] + rest) == Expand(r) + ExpandAll(rest)
  {
    hide Expand;
    assert ([r] + rest)[1..] == rest;
  }

  lemma ExpandEmpty(r: Range)
    requires r.count == 0
    ensures Expand(r) == []
  {
  }

  lemma {:induction false} MergedExpands(rs: seq<Range>)
    ensures ExpandAll(Merged(rs)) == ExpandAll(rs)
  {
    if rs != [] {
      hide Continues, Expand, ExpandAll;
      var r, tail, rest := rs[0], rs[1..], Merged(rs[1..]);
      assert rs == [r] + tail;
      MergedExpands(tail);
      ExpandFirst(r, tail);
      if r.count == 0 {
        ExpandEmpty(r);
      } else if rest != [] && Continues(r, rest[0]) {
        ExpandGrown(r, rest[0]);
        assert rest == [rest[0]] + rest[1..];
        ExpandFirst(rest[0], rest[1..]);
        ExpandFirst(Grown(r, rest[0].count), rest[1..]);
      } else {
        ExpandFirst(r, rest);
      }
    }
  }

  /**
   Of all lists of ranges that stand for the pages of a listing, the printed one is the
   shortest; and it is the only one without empty ranges and mergeable neighbours.
   */
  lemma {:induction false} PrintedIsTheShortestList(from: Reports, h: Reports, rs: seq<Range>)
    requires Fresh(from) && Listing(from, h) && ExpandAll(rs) == ListedPages(from, h)
    ensures Run(from).printed <= Run(Flushed(h)).printed
    ensures |PrintedFor(from, h)| <= |rs|
    ensures Maximal(rs) ==> PrintedFor(from, h) == rs
  {
    hide Maximal, ExpandAll, Run, Merged, Listing, ListedPages;
    PrintedIsMaximal(from, h);
    ListingRoundTrip(from, h);
    MergedMaximal(rs);
    MergedExpands(rs);
    MaximalIsUnique(PrintedFor(from, h), Merged(rs));
    if Maximal(rs) {
      MaximalIsUnique(PrintedFor(from, h), rs);
    }
  }

  /** The static variables of the printer, and what it has printed. */
  class RangePrinter {
    var flags0: u64
    var cgroup0: u64
    var mapcnt0: u64
    var voff: u64
    var index: u64
    var count: nat
    var printed: seq<Range>

    ghost function View(): Printer
      reads this
    {
      Printer(Range(voff, index, count, Attr(flags0, cgroup0, mapcnt0)), printed)
    }

    constructor ()
      ensures View() == START
    {
      flags0, cgroup0, mapcnt0, voff, index, count, printed := 0, 0, 0, 0, 0, 0, [];
    }

    method ShowPageRange(voffset: u64, offset: u64, size: nat,
                         flags: u64, cgroup: u64, mapcnt: u64)
      modifies this
      ensures View() == Show(old(View()), Range(voffset, offset, size, Attr(flags, cgroup, mapcnt)))
    {
      if flags == flags0 && cgroup == cgroup0 && mapcnt == mapcnt0 &&
         offset == Wrap(index + count) && size > 0 && voffset == Wrap(voff + count) {
        count := count + size;
        return;
      }
      if count > 0 {
        printed := printed + [Range(voff, index, count, Attr(flags0, cgroup0, mapcnt0))];
      }
      flags0 := flags;
      cgroup0 := cgroup;
      mapcnt0 := mapcnt;
      index := offset;
      voff := voffset;
      count := size;
    }

    method FlushPageRange()
      modifies this
      ensures View() == Show(old(View()), NO_RANGE)
    {
      ShowPageRange(0, 0, 0, 0, 0, 0);
    }
  }
}
