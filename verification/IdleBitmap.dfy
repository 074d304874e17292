/**
 Marking pages idle through a bitmap file: one 64-bit word is buffered and written when a
 page of another word is marked. A word is modelled as the set of its one bits. Writing a
 word to the kernel's bitmap marks the pages of its one bits and leaves the others alone.
 */
module IdleBitmap {

  type Word = w: set<nat> | forall b :: b in w ==> b < 64

  /** The pages that word number `q` marks when it is written as `w`. */
  function Pages(q: nat, w: Word): set<nat> {
    set b | b in w :: 64 * q + b
  }

  datatype Buffer = Buffer(off: nat, buf: Word, written: set<nat>)

  const START := Buffer(0, {}, {})

  /** One call; `ok` tells whether a write that it makes succeeds. */
  function Mark(s: Buffer, page: nat, ok: bool): Buffer {
    if page / 64 == s.off / 64 || s.buf == {} then
      s.(buf := s.buf + {page % 64}, off := page)
    else if !ok then s
    else Buffer(page, {page % 64}, s.written + Pages(s.off / 64, s.buf))
  }

  predicate Fails(s: Buffer, page: nat, ok: bool) {
    page / 64 != s.off / 64 && s.buf != {} && !ok
  }

  datatype Marks = Nothing | Then(past: Marks, page: nat, ok: bool)

  function Run(h: Marks): Buffer {
    match h
    case Nothing => START
    case Then(past, page, ok) => Mark(Run(past), page, ok)
  }

  /** The pages whose marking did not fail. */
  function Marked(h: Marks): set<nat> {
    match h
    case Nothing => {}
    case Then(past, page, ok) =>
      if Fails(Run(past), page, ok) then Marked(past) else Marked(past) + {page}
  }

  lemma PagesAdd(w: Word, page: nat)
    ensures Pages(page / 64, w + {page % 64}) == Pages(page / 64, w) + {page}
    ensures Pages(page / 64, {page % 64}) == {page}
  {
    assert page == 64 * (page / 64) + page % 64;
  }

  lemma PagesEmpty(q: nat)
    ensures Pages(q, {}) == {}
  {
  }

  /**
   At every moment, with writes failing or not, the pages already written and those in the
   buffered word are exactly the pages marked so far.
   */
  lemma {:induction false} NothingLost(h: Marks)
    ensures Run(h).written + Pages(Run(h).off / 64, Run(h).buf) == Marked(h)
    ensures Run(h).buf == {} ==> Run(h) == START
  {
    hide Pages;
    if h.Nothing? {
      PagesEmpty(0);
    } else {
      var s, page := Run(h.past), h.page;
      NothingLost(h.past);
      PagesEmpty(page / 64);
      PagesEmpty(s.off / 64);
      PagesAdd(s.buf, page);
    }
  }

  /** No page is ever written that was not marked. */
  lemma WrittenWasMarked(h: Marks)
    ensures Run(h).written <= Marked(h)
  {
    NothingLost(h);
  }

  // Runs in which no write fails.

  predicate NoFailure(h: Marks) {
    h.Then? ==> h.ok && NoFailure(h.past)
  }

  /** The pages marked since a page of another word was last marked. */
  function Streak(h: Marks): set<nat> {
    match h
    case Nothing => {}
    case Then(past, page, _) =>
      if past.Then? && past.page / 64 == page / 64 then Streak(past) + {page} else {page}
  }

  /** The pages marked before that. */
  function Earlier(h: Marks): set<nat> {
    match h
    case Nothing => {}
    case Then(past, page, _) =>
      if past.Then? && past.page / 64 == page / 64 then Earlier(past)
      else Earlier(past) + Streak(past)
  }

  /** The file holds what came before the current streak, the buffer holds the streak. */
  lemma {:induction false} WrittenIsEarlier(h: Marks)
    requires NoFailure(h)
    ensures Run(h).written == Earlier(h)
    ensures Pages(Run(h).off / 64, Run(h).buf) == Streak(h)
    ensures h.Then? ==> Run(h).off == h.page && Run(h).buf != {}
    ensures Marked(h) == Earlier(h) + Streak(h)
  {
    hide Pages;
    if h.Nothing? {
      PagesEmpty(0);
    } else {
      var s, page := Run(h.past), h.page;
      WrittenIsEarlier(h.past);
      PagesEmpty(page / 64);
      PagesAdd(s.buf, page);
    }
  }

  /** The closing call marks page 0, to push out whatever word is buffered. */
  function Closed(h: Marks): Buffer {
    Mark(Run(h), 0, true)
  }

  /** After the closing call every marked page from 64 on is written, and no unmarked page. */
  lemma ClosedWritesHighPages(h: Marks, page: nat)
    requires NoFailure(h)
    ensures page in Closed(h).written ==> page in Marked(h)
    ensures page in Marked(h) && page >= 64 ==> page in Closed(h).written
  {
    WrittenIsEarlier(h);
    if page in Streak(h) {
      assert page in Pages(Run(h).off / 64, Run(h).buf);
    }
  }

  /**
   The closing call completes the marking if and only if the last marked page is not in word
   0, which the call itself would extend, or the last streak repeats written pages.
   */
  lemma ClosedIsCompleteIff(h: Marks)
    requires NoFailure(h)
    ensures Marked(h) <= Closed(h).written <==>
            h.Nothing? || h.page >= 64 || Streak(h) <= Earlier(h)
  {
    WrittenIsEarlier(h);
  }

  /** Page 5 alone is never written: the closing call adds page 0 to its word instead. */
  lemma LowPageIsLost()
    ensures Marked(Then(Nothing, 5, true)) == {5} && Closed(Then(Nothing, 5, true)).written == {}
  {
  }

  // The program: the bitmap is opened for file walks only, closed for address walks only.

  datatype Mode = FileWalk | AddressWalk

  function Attempts(mode: Mode, pages: seq<nat>): Marks {
    if pages == [] then Nothing
    else Then(Attempts(mode, pages[..|pages| - 1]), pages[|pages| - 1], mode.FileWalk?)
  }

  function PageSet(pages: seq<nat>): set<nat> {
    set p | p in pages
  }

  function Session(mode: Mode, pages: seq<nat>): Buffer {
    var s := Run(Attempts(mode, pages));
    if mode.AddressWalk? then Mark(s, 0, false) else s
  }

  lemma {:induction false} UnopenedWritesNothing(pages: seq<nat>)
    ensures Run(Attempts(AddressWalk, pages)).written == {}
  {
    if pages != [] {
      UnopenedWritesNothing(pages[..|pages| - 1]);
    }
  }

  lemma {:induction false} FileWalkSucceeds(pages: seq<nat>)
    ensures NoFailure(Attempts(FileWalk, pages))
    ensures Marked(Attempts(FileWalk, pages)) == PageSet(pages)
  {
    if pages != [] {
      var init := pages[..|pages| - 1];
      FileWalkSucceeds(init);
      WrittenIsEarlier(Attempts(FileWalk, pages));
      WrittenIsEarlier(Attempts(FileWalk, init));
      assert pages == init + [pages[|pages| - 1]];
    }
  }

  /**
   What the program achieves: an address walk writes to a file that it never opened, so
   nothing is marked; a file walk never flushes, so the last streak is missing unless its
   pages were written before.
   */
  lemma {:induction false} SessionIsCompleteIff(mode: Mode, pages: seq<nat>)
    ensures PageSet(pages) <= Session(mode, pages).written <==>
            pages == [] ||
            (mode.FileWalk? &&
             Streak(Attempts(mode, pages)) <= Earlier(Attempts(mode, pages)))
  {
    if mode.AddressWalk? {
      UnopenedWritesNothing(pages);
      if pages != [] {
        assert pages[0] in PageSet(pages);
      }
    } else {
      var h := Attempts(FileWalk, pages);
      FileWalkSucceeds(pages);
      WrittenIsEarlier(h);
      assert PageSet(pages) == Earlier(h) + Streak(h) && Session(mode, pages).written == Earlier(h);
    }
  }

  /** Neither walk marks page 64 alone. */
  lemma SinglePageIsLost(mode: Mode)
    ensures PageSet([64]) == {64} && Session(mode, [64]).written == {}
  {
    assert [64][..0] == [];
    assert Attempts(mode, [64]) == Then(Attempts(mode, []), 64, mode.FileWalk?);
  }

  /** The static variables of the marking function, and the effect on the bitmap file. */
  class IdleMarker {
    var off: nat
    var buf: Word
    var written: set<nat>

    ghost function View(): Buffer
      reads this
    {
      Buffer(off, buf, written)
    }

    constructor ()
      ensures View() == START
    {
      off, buf, written := 0, {}, {};
    }

    /** Returns false when the write fails; then the page is not marked. */
    method MarkPageIdle(page: nat, ok: bool) returns (done: bool)
      modifies this
      ensures View() == Mark(old(View()), page, ok)
      ensures done == !Fails(old(View()), page, ok)
    {
      if page / 64 == off / 64 || buf == {} {
        buf := buf + {page % 64};
        off := page;
        return true;
      }
      if !ok {
        return false;
      }
      written := written + Pages(off / 64, buf);
      buf := {page % 64};
      off := page;
      return true;
    }
  }
}
