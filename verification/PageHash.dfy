/**
 The page counter: an open-addressing table from flag words to counts. Slot 0 belongs to the
 flag word 0, because a zero word also marks an empty slot; every other word is looked for
 in the 8191 slots from 1, starting at its low bits and wrapping from the last slot to 1.
 */
module PageHash {
  import opened Bits

  const HASH_SIZE := 8192
  const SLOTS := 8191

  /** The slot of the first probe; the mask takes the flag word modulo the table size. */
  function Home(flags: u64): (k: nat)
    ensures 1 <= k < HASH_SIZE
  {
    var k := flags % HASH_SIZE;
    if k == 0 then 1 else k
  }

  /** The slot that the search for `flags` looks at in its `i`-th probe. */
  function Probe(flags: u64, i: nat): (k: nat)
    requires i < SLOTS
    ensures 1 <= k < HASH_SIZE
  {
    var k := Home(flags) + i;
    if k < HASH_SIZE then k else k - SLOTS
  }

  /** The probe at which the search for `flags` reaches slot `k`. */
  function ProbeIndex(flags: u64, k: nat): (i: nat)
    requires 1 <= k < HASH_SIZE
    ensures i < SLOTS && Probe(flags, i) == k
  {
    if Home(flags) <= k then k - Home(flags) else k - Home(flags) + SLOTS
  }

  /** Every slot from 1 is probed exactly once. */
  lemma ProbesAreABijection(flags: u64, i: nat, k: nat)
    requires i < SLOTS && 1 <= k < HASH_SIZE
    ensures Probe(flags, i) == k <==> i == ProbeIndex(flags, k)
  {
  }

  datatype Table = Table(flags: seq<u64>, counts: seq<nat>, total: nat)

  const EMPTY := Table(Zeros(HASH_SIZE), Zeros(HASH_SIZE), 0)

  /** Probes from `i` on, up to a slot that is empty or holds `flags`. */
  function Search(words: seq<u64>, flags: u64, i: nat): (r: Option<nat>)
    requires |words| == HASH_SIZE && i <= SLOTS
    ensures r.Some? ==>
              exists j :: i <= j < SLOTS && r.value == Probe(flags, j)
    ensures r.Some? ==> words[r.value] == 0 || words[r.value] == flags
    decreases SLOTS - i
  {
    if i == SLOTS then None
    else if words[Probe(flags, i)] == 0 || words[Probe(flags, i)] == flags
    then Some(Probe(flags, i))
    else Search(words, flags, i + 1)
  }

  function Slot(words: seq<u64>, flags: u64): (r: Option<nat>)
    requires |words| == HASH_SIZE
    ensures r.Some? ==> r.value < HASH_SIZE
  {
    if flags == 0 then Some(0) else Search(words, flags, 0)
  }

  /** Count one page. None when the table is full, where the program gives up. */
  function Add(t: Table, flags: u64): Option<Table>
    requires |t.flags| == |t.counts| == HASH_SIZE
  {
    match Slot(t.flags, flags)
    case None => None
    case Some(k) =>
      Some(Table(t.flags[k := flags], t.counts[k := t.counts[k] + 1], t.total + 1))
  }

  datatype Pages = Nothing | Then(past: Pages, flags: u64)

  function CountAll(ps: Pages): (r: Option<Table>)
    ensures r.Some? ==> |r.value.flags| == |r.value.counts| == HASH_SIZE
  {
    match ps
    case Nothing => Some(EMPTY)
    case Then(past, f) =>
      match CountAll(past)
      case None => None
      case Some(t) => Add(t, f)
  }

  // The reference: how often a flag word was reported.

  function Times(ps: Pages, flags: u64): nat {
    match ps
    case Nothing => 0
    case Then(past, f) => Times(past, flags) + (if f == flags then 1 else 0)
  }

  function Length(ps: Pages): nat {
    match ps
    case Nothing => 0
    case Then(past, _) => Length(past) + 1
  }

  function NonZero(ps: Pages): set<u64> {
    match ps
    case Nothing => {}
    case Then(past, f) => if f == 0 then NonZero(past) else NonZero(past) + {f}
  }

  /** No slot on the search path before the slot that holds a word is empty or holds it too. */
  ghost predicate Placed(words: seq<u64>)
    requires |words| == HASH_SIZE
  {
    && words[0] == 0
    && forall k, i :: 1 <= k < HASH_SIZE && words[k] != 0 && 0 <= i < ProbeIndex(words[k], k) ==>
         words[Probe(words[k], i)] != 0 && words[Probe(words[k], i)] != words[k]
  }

  /** A search that starts before the first fitting slot ends there. */
  lemma {:induction false} SearchFinds(words: seq<u64>, flags: u64, i: nat, j: nat)
    requires |words| == HASH_SIZE && i <= j < SLOTS
    requires words[Probe(flags, j)] == 0 || words[Probe(flags, j)] == flags
    requires forall m :: i <= m < j ==>
               words[Probe(flags, m)] != 0 && words[Probe(flags, m)] != flags
    ensures Search(words, flags, i) == Some(Probe(flags, j))
    decreases j - i
  {
    if i < j {
      SearchFinds(words, flags, i + 1, j);
    }
  }

  lemma FirstProbe(flags: u64)
    ensures Probe(flags, 0) == if flags % HASH_SIZE == 0 then 1 else flags % HASH_SIZE
  {
  }

  lemma NextProbe(flags: u64, i: nat)
    requires i + 1 < SLOTS
    ensures Probe(flags, i + 1) == if Probe(flags, i) + 1 >= HASH_SIZE then 1 else Probe(flags, i) + 1
  {
  }

  lemma SearchStep(words: seq<u64>, flags: u64, i: nat)
    requires |words| == HASH_SIZE && i < SLOTS
    ensures
      var k := Probe(flags, i);
      Search(words, flags, i) == if words[k] == 0 || words[k] == flags then Some(k)
                                 else Search(words, flags, i + 1)
  {
    hide Probe;
  }

  lemma SearchEnd(words: seq<u64>, flags: u64)
    requires |words| == HASH_SIZE
    ensures Search(words, flags, SLOTS) == None
  {
  }

  ghost predicate Taken(words: seq<u64>, flags: u64, i: nat)
    requires |words| == HASH_SIZE && i < SLOTS
  {
    words[Probe(flags, i)] != 0 && words[Probe(flags, i)] != flags
  }

  /** What a search passed over: other words only. */
  lemma {:induction false} SearchPassed(words: seq<u64>, flags: u64, i: nat)
    requires |words| == HASH_SIZE && i <= SLOTS
    ensures Search(words, flags, i).None? ==>
              forall m :: i <= m < SLOTS ==> Taken(words, flags, m)
    ensures Search(words, flags, i).Some? ==>
              forall m :: i <= m < ProbeIndex(flags, Search(words, flags, i).value) ==>
                Taken(words, flags, m)
    decreases SLOTS - i
  {
    if i < SLOTS && Taken(words, flags, i) {
      SearchPassed(words, flags, i + 1);
    }
  }

  /** A stored word is found where it is stored: lookups are repeatable. */
  lemma StoredIsFound(words: seq<u64>, k: nat)
    requires |words| == HASH_SIZE && Placed(words) && 1 <= k < HASH_SIZE && words[k] != 0
    ensures Slot(words, words[k]) == Some(k)
  {
    SearchFinds(words, words[k], 0, ProbeIndex(words[k], k));
  }

  /** Storing a word where the search ends keeps every word findable. */
  lemma StorePlaced(words: seq<u64>, flags: u64)
    requires |words| == HASH_SIZE && Placed(words) && Slot(words, flags).Some?
    ensures Placed(words[Slot(words, flags).value := flags])
  {
    var k := Slot(words, flags).value;
    var words' := words[k := flags];
    SearchPassed(words, flags, 0);
    if words[k] == flags {
      assert words' == words;
    } else {
      forall j, i | 1 <= j < HASH_SIZE && words'[j] != 0 && 0 <= i < ProbeIndex(words'[j], j)
        ensures words'[Probe(words'[j], i)] != 0 && words'[Probe(words'[j], i)] != words'[j]
      {
        if j == k {
          assert Taken(words, flags, i);
        }
      }
    }
  }

  /** Each word sits in one slot only. */
  lemma StoredOnce(words: seq<u64>, j: nat, k: nat)
    requires |words| == HASH_SIZE && Placed(words)
    requires 1 <= j < HASH_SIZE && 1 <= k < HASH_SIZE && words[j] == words[k] != 0
    ensures j == k
  {
    StoredIsFound(words, j);
    StoredIsFound(words, k);
  }

  /** Slot `k` holds the exact count of its word. */
  ghost predicate SlotAgrees(t: Table, ps: Pages, k: nat)
    requires |t.flags| == |t.counts| == HASH_SIZE && k < HASH_SIZE
  {
    if t.flags[k] == 0 && k != 0 then t.counts[k] == 0
    else t.counts[k] == Times(ps, t.flags[k]) && (k != 0 ==> t.flags[k] in NonZero(ps))
  }

  /** The table agrees with the pages counted so far. */
  ghost predicate Agrees(t: Table, ps: Pages) {
    && |t.flags| == |t.counts| == HASH_SIZE
    && Placed(t.flags)
    && (forall k :: 0 <= k < HASH_SIZE ==> SlotAgrees(t, ps, k))
    && (forall f :: f in NonZero(ps) ==> f != 0 && f in t.flags)
    && t.total == Length(ps)
  }

  lemma {:induction false} CountedIsNonZero(ps: Pages, f: u64)
    ensures f in NonZero(ps) <==> f != 0 && Times(ps, f) > 0
  {
    if ps.Then? {
      CountedIsNonZero(ps.past, f);
    }
  }

  lemma AddSlotAgrees(t: Table, ps: Pages, f: u64, j: nat)
    requires Agrees(t, ps) && Add(t, f).Some? && j < HASH_SIZE
    ensures SlotAgrees(Add(t, f).value, Then(ps, f), j)
  {
    var k := Slot(t.flags, f).value;
    assert SlotAgrees(t, ps, j);
    CountedIsNonZero(ps, f);
    if f != 0 && f in t.flags {
      var i :| 0 <= i < HASH_SIZE && t.flags[i] == f;
      StoredIsFound(t.flags, i);
      if j != 0 && t.flags[j] == f {
        StoredOnce(t.flags, i, j);
      }
    }
  }

  lemma AddAgrees(t: Table, ps: Pages, f: u64)
    requires Agrees(t, ps) && Add(t, f).Some?
    ensures Agrees(Add(t, f).value, Then(ps, f))
  {
    var t', k := Add(t, f).value, Slot(t.flags, f).value;
    StorePlaced(t.flags, f);
    forall j | 0 <= j < HASH_SIZE
      ensures SlotAgrees(t', Then(ps, f), j)
    {
      AddSlotAgrees(t, ps, f, j);
    }
    forall g | g in NonZero(Then(ps, f))
      ensures g != 0 && g in t'.flags
    {
      if g in NonZero(ps) {
        var i :| 0 <= i < HASH_SIZE && t.flags[i] == g;
        assert t'.flags[i] == g;
      } else {
        assert t'.flags[k] == g;
      }
    }
  }

  /** Over every sequence of pages that fits, the table is a map from words to exact counts. */
  lemma {:induction false} TableIsExact(ps: Pages)
    requires CountAll(ps).Some?
    ensures Agrees(CountAll(ps).value, ps)
  {
    if ps.Then? {
      TableIsExact(ps.past);
      AddAgrees(CountAll(ps.past).value, ps.past, ps.flags);
    }
  }

  /** A word that was counted is found again, in a slot that holds its exact count. */
  lemma LookupIsExact(ps: Pages, f: u64)
    requires CountAll(ps).Some? && (f == 0 || f in NonZero(ps))
    ensures
      var t := CountAll(ps).value;
      var k := Slot(t.flags, f);
      k.Some? && t.flags[k.value] == f && t.counts[k.value] == Times(ps, f) &&
      (k.value == 0 <==> f == 0)
  {
    TableIsExact(ps);
    var t := CountAll(ps).value;
    if f == 0 {
      assert SlotAgrees(t, ps, 0);
    } else {
      var i :| 0 <= i < HASH_SIZE && t.flags[i] == f;
      StoredIsFound(t.flags, i);
      assert SlotAgrees(t, ps, i);
    }
  }

  // When the table is full.

  function Elements(s: seq<u64>): set<u64> {
    set x | x in s
  }

  lemma {:induction false} ElementsBound(s: seq<u64>)
    ensures |Elements(s)| <= |s|
    ensures (forall i, j :: 0 <= i < j < |s| ==> s[i] != s[j]) ==> |Elements(s)| == |s|
  {
    if s != [] {
      var init := s[..|s| - 1];
      ElementsBound(init);
      assert Elements(s) == Elements(init) + {s[|s| - 1]};
    }
  }

  /** The stored words are the distinct nonzero words seen. */
  lemma StoredWords(t: Table, ps: Pages)
    requires Agrees(t, ps)
    ensures NonZero(ps) <= Elements(t.flags[1..])
  {
    forall f | f in NonZero(ps)
      ensures f in t.flags[1..]
    {
      var i :| 0 <= i < HASH_SIZE && t.flags[i] == f;
      assert t.flags[1..][i - 1] == f;
    }
  }

  /** A search that fails has seen 8191 other words in 8191 slots. */
  lemma FullTable(t: Table, ps: Pages, f: u64)
    requires Agrees(t, ps) && Slot(t.flags, f).None?
    ensures f !in NonZero(ps) && |NonZero(ps)| == SLOTS
  {
    var stored := t.flags[1..];
    SearchPassed(t.flags, f, 0);
    forall k | 1 <= k < HASH_SIZE
      ensures t.flags[k] != 0 && t.flags[k] != f
    {
      assert Taken(t.flags, f, ProbeIndex(f, k));
    }
    forall i, j | 0 <= i < j < |stored|
      ensures stored[i] != stored[j]
    {
      if stored[i] == stored[j] {
        StoredOnce(t.flags, i + 1, j + 1);
      }
    }
    ElementsBound(stored);
    StoredWords(t, ps);
    forall x | x in Elements(stored)
      ensures x in NonZero(ps)
    {
      var i :| 0 <= i < |stored| && stored[i] == x;
      assert SlotAgrees(t, ps, i + 1);
    }
    assert NonZero(ps) == Elements(stored);
  }

  lemma SubsetSize(a: set<u64>, b: set<u64>)
    requires a <= b
    ensures |a| <= |b|
  {
    assert b == a + (b - a);
  }

  /** The program gives up exactly when the pages show more than 8191 distinct nonzero words. */
  lemma {:induction false} FitsIff(ps: Pages)
    ensures CountAll(ps).Some? <==> |NonZero(ps)| <= SLOTS
  {
    if ps.Then? {
      FitsIff(ps.past);
      match CountAll(ps.past)
      case None =>
        SubsetSize(NonZero(ps.past), NonZero(ps));
      case Some(t) =>
        TableIsExact(ps.past);
        if Add(t, ps.flags).None? {
          FullTable(t, ps.past, ps.flags);
        } else {
          AddAgrees(t, ps.past, ps.flags);
          StoredWords(CountAll(ps).value, ps);
          ElementsBound(CountAll(ps).value.flags[1..]);
          SubsetSize(NonZero(ps), Elements(CountAll(ps).value.flags[1..]));
        }
    }
  }

  // The summary.

  /** The printed total is the sum of the printed counts. */
  lemma {:induction false} TotalIsSum(ps: Pages)
    requires CountAll(ps).Some?
    ensures Sum(CountAll(ps).value.counts) == CountAll(ps).value.total == Length(ps)
  {
    hide Slot;
    if ps.Nothing? {
      SumZeros(HASH_SIZE);
    } else {
      var t := CountAll(ps.past).value;
      TotalIsSum(ps.past);
      SumIncrement(t.counts, Slot(t.flags, ps.flags).value);
    }
  }

  datatype Row = Row(flags: u64, count: nat)

  /** The lines printed for the first `n` slots. */
  function Rows(t: Table, n: nat): seq<Row>
    requires |t.flags| == |t.counts| == HASH_SIZE && n <= HASH_SIZE
  {
    if n == 0 then []
    else if t.counts[n - 1] == 0 then Rows(t, n - 1)
    else Rows(t, n - 1) + [Row(t.flags[n - 1], t.counts[n - 1])]
  }

  lemma {:induction false} RowsOfSlots(t: Table, n: nat, r: Row)
    requires |t.flags| == |t.counts| == HASH_SIZE && n <= HASH_SIZE
    ensures r in Rows(t, n) <==>
            exists k :: 0 <= k < n && t.flags[k] == r.flags && t.counts[k] == r.count > 0
  {
    if n > 0 {
      RowsOfSlots(t, n - 1, r);
    }
  }

  /** A line for a word is printed if and only if the word was counted, with its exact count. */
  lemma SummaryIsExact(ps: Pages, f: u64, c: nat)
    requires CountAll(ps).Some?
    ensures Row(f, c) in Rows(CountAll(ps).value, HASH_SIZE) <==> c == Times(ps, f) > 0
  {
    var t := CountAll(ps).value;
    TableIsExact(ps);
    RowsOfSlots(t, HASH_SIZE, Row(f, c));
    CountedIsNonZero(ps, f);
    if c == Times(ps, f) > 0 {
      LookupIsExact(ps, f);
      var k := Slot(t.flags, f).value;
      assert t.flags[k] == f && t.counts[k] == c;
    }
    if Row(f, c) in Rows(t, HASH_SIZE) {
      var k :| 0 <= k < HASH_SIZE && t.flags[k] == f && t.counts[k] == c > 0;
      assert SlotAgrees(t, ps, k);
    }
  }

  /** No word gets two lines. */
  lemma {:induction false} SummaryHasNoRepeats(t: Table, ps: Pages, n: nat, i: nat, j: nat)
    requires Agrees(t, ps) && n <= HASH_SIZE && i < j < |Rows(t, n)|
    ensures Rows(t, n)[i].flags != Rows(t, n)[j].flags
  {
    if j < |Rows(t, n - 1)| {
      SummaryHasNoRepeats(t, ps, n - 1, i, j);
    } else {
      var r := Rows(t, n)[i];
      assert r == Rows(t, n - 1)[i];
      RowsOfSlots(t, n - 1, r);
      var k :| 0 <= k < n - 1 && t.flags[k] == r.flags && t.counts[k] == r.count > 0;
      assert SlotAgrees(t, ps, k) && SlotAgrees(t, ps, n - 1);
      if t.flags[k] == t.flags[n - 1] {
        StoredOnce(t.flags, k, n - 1);
      }
    }
  }

  /** The static arrays of the program. */
  class PageCounter {
    const pageFlags: array<u64>
    const nrPages: array<nat>
    var totalPages: nat

    ghost function View(): Table
      reads this, pageFlags, nrPages
    {
      Table(pageFlags[..], nrPages[..], totalPages)
    }

    ghost predicate Valid()
      reads this, pageFlags, nrPages
    {
      && pageFlags.Length == nrPages.Length == HASH_SIZE
      && pageFlags[0] == 0 && Placed(pageFlags[..])
    }

    constructor ()
      ensures Valid() && View() == EMPTY && fresh(pageFlags) && fresh(nrPages)
    {
      totalPages := 0;
      pageFlags := new u64[HASH_SIZE](_ => 0);
      nrPages := new nat[HASH_SIZE](_ => 0);
      new;
      assert pageFlags[..] == Zeros(HASH_SIZE);
      assert nrPages[..] == Zeros(HASH_SIZE);
    }

    /** The probe loop: stops at an empty slot or at the word itself. */
    method FindSlot(flags: u64) returns (r: Option<nat>)
      requires pageFlags.Length == HASH_SIZE
      ensures r == Search(pageFlags[..], flags, 0)
    {
      hide Search, Probe, Home;
      ghost var words := pageFlags[..];
      var k := flags % HASH_SIZE;
      var i := 1;
      FirstProbe(flags);
      while i < pageFlags.Length
        invariant 1 <= i <= HASH_SIZE
        invariant i < HASH_SIZE ==>
                    Probe(flags, i - 1) == if k == 0 || k >= HASH_SIZE then 1 else k
        invariant Search(words, flags, 0) == Search(words, flags, i - 1)
      {
        if k == 0 || k >= pageFlags.Length {
          k := 1;
        }
        SearchStep(words, flags, i - 1);
        if pageFlags[k] == 0 || pageFlags[k] == flags {
          return Some(k);
        }
        if i < SLOTS {
          NextProbe(flags, i - 1);
        }
        i, k := i + 1, k + 1;
      }
      SearchEnd(words, flags);
      return None;
    }

    /** Finds the slot of a word, or reserves one; None when the table is full. */
    method HashSlot(flags: u64) returns (r: Option<nat>)
      requires Valid()
      modifies pageFlags
      ensures Valid() && r == Slot(old(pageFlags[..]), flags)
      ensures pageFlags[..] == if r.Some? then old(pageFlags[..])[r.value := flags]
                               else old(pageFlags[..])
    {
      hide Placed, Search;
      ghost var words := pageFlags[..];
      if flags == 0 {
        assert words[0 := 0] == words;
        return Some(0);
      }
      r := FindSlot(flags);
      if r.Some? {
        StorePlaced(words, flags);
        pageFlags[r.value] := flags;
        assert pageFlags[..] == words[r.value := flags];
      }
    }

    /** Counts one page; false where the program reports a full table and exits. */
    method AddPage(flags: u64) returns (fits: bool)
      requires Valid()
      modifies this, pageFlags, nrPages
      ensures fits == Add(old(View()), flags).Some?
      ensures fits ==> Valid() && View() == Add(old(View()), flags).value
    {
      hide Placed, Slot;
      var slot := HashSlot(flags);
      if slot.None? {
        return false;
      }
      nrPages[slot.value] := nrPages[slot.value] + 1;
      totalPages := totalPages + 1;
      return true;
    }

    method ShowSummary() returns (rows: seq<Row>)
      requires Valid()
      ensures rows == Rows(View(), HASH_SIZE)
    {
      rows := [];
      for i := 0 to nrPages.Length
        invariant rows == Rows(View(), i)
      {
        if nrPages[i] != 0 {
          rows := rows + [Row(pageFlags[i], nrPages[i])];
        }
      }
    }
  }
}
