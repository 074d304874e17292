/**
 Counting equal allocation records: blocks of text are read from a file, equal neighbours are
 merged while loading, the list is sorted by text, equal neighbours are merged again, and the
 result is sorted by count. The library sort is any function that returns an ordered
 permutation of its input.
 */
module PageOwner {
  import opened Bits

  type Text = seq<char>

  // Reading blocks.

  /** The length of the first line of `s`, its newline included. */
  function LineLength(s: Text): (n: nat)
    ensures n <= |s|
    ensures s != [] ==> n > 0
    ensures forall i :: 0 <= i < n - 1 ==> s[i] != '\n'
    ensures 0 < n < |s| ==> s[n - 1] == '\n'
  {
    if s == [] then 0 else if s[0] == '\n' then 1 else 1 + LineLength(s[1..])
  }

  /** What fgets returns for a buffer of `size` bytes: at most one line, cut if it is too long. */
  function FgetsLength(s: Text, size: nat): (n: nat)
    requires size > 1
    ensures n <= |s| && (s != [] ==> n > 0)
  {
    if LineLength(s) < size then LineLength(s) else size - 1
  }

  predicate IsPfn(line: Text) {
    |line| >= 3 && line[..3] == "PFN"
  }

  datatype Read = EndOfInput | Block(text: Text, rest: Text)

  /** The block that the loop reads into `size` bytes, of which `used` are taken. */
  function ReadLoop(s: Text, buf: Text, size: nat): Read
    decreases |s|
  {
    if size - |buf| <= 1 || s == [] then EndOfInput
    else
      var n := FgetsLength(s, size - |buf|);
      var line, rest := s[..n], s[n..];
      if line[0] == '\n' then Block(buf, rest)
      else if IsPfn(line) then ReadLoop(rest, buf, size)
      else ReadLoop(rest, buf + line, size)
  }

  method ReadBlock(s: Text, size: nat) returns (r: Read)
    ensures r == ReadLoop(s, [], size)
  {
    var buf: Text, rest := [], s;
    while size - |buf| > 1 && rest != []
      invariant ReadLoop(s, [], size) == ReadLoop(rest, buf, size)
      decreases |rest|
    {
      var n := FgetsLength(rest, size - |buf|);
      var line := rest[..n];
      rest := rest[n..];
      if line[0] == '\n' {
        return Block(buf, rest);
      }
      if IsPfn(line) {
        continue;
      }
      buf := buf + line;
    }
    return EndOfInput;
  }

  /** The reference: the lines before the next empty line, without the PFN lines. */
  function NextBlock(s: Text): Read
    decreases |s|
  {
    if s == [] then EndOfInput
    else
      var n := LineLength(s);
      var line, rest := s[..n], s[n..];
      if line[0] == '\n' then Block([], rest)
      else match NextBlock(rest)
           case EndOfInput => EndOfInput
           case Block(text, more) => Block(if IsPfn(line) then text else line + text, more)
  }

  /** Every line of the block, PFN lines included, fits what is left of the buffer. */
  predicate FitsBuffer(s: Text, used: nat, size: nat)
    decreases |s|
  {
    s == [] ||
    (var n := LineLength(s);
     used + n < size &&
     (s[0] == '\n' || FitsBuffer(s[n..], if IsPfn(s[..n]) then used else used + n, size)))
  }

  function Prefixed(buf: Text, r: Read): Read {
    match r
    case EndOfInput => EndOfInput
    case Block(text, rest) => Block(buf + text, rest)
  }

  /** One turn of the loop, when the next line fits. */
  lemma ReadLoopTurn(s: Text, buf: Text, size: nat)
    requires s != [] && |buf| + LineLength(s) < size
    ensures
      var n := LineLength(s);
      ReadLoop(s, buf, size) ==
      if s[0] == '\n' then Block(buf, s[n..])
      else ReadLoop(s[n..], if IsPfn(s[..n]) then buf else buf + s[..n], size)
  {
    hide LineLength, IsPfn;
  }

  /** The block after its first line. */
  lemma NextBlockTurn(s: Text, buf: Text)
    requires s != []
    ensures
      var n := LineLength(s);
      Prefixed(buf, NextBlock(s)) ==
      if s[0] == '\n' then Block(buf, s[n..])
      else Prefixed(if IsPfn(s[..n]) then buf else buf + s[..n], NextBlock(s[n..]))
  {
    hide LineLength, IsPfn;
    var n := LineLength(s);
    if s[0] == '\n' {
      assert buf + [] == buf;
    } else if NextBlock(s[n..]).Block? {
      var line, text := s[..n], NextBlock(s[n..]).text;
      assert (buf + line) + text == buf + (line + text);
    }
  }

  lemma FitsTurn(s: Text, used: nat, size: nat)
    requires s != [] && FitsBuffer(s, used, size)
    ensures
      var n := LineLength(s);
      && used + n < size
      && (s[0] != '\n' ==> FitsBuffer(s[n..], if IsPfn(s[..n]) then used else used + n, size))
  {
    hide LineLength, IsPfn;
  }

  lemma EndTurn(buf: Text, size: nat)
    ensures ReadLoop([], buf, size) == Prefixed(buf, NextBlock([]))
  {
  }

  /** Within the buffer limits the loop reads exactly the next block. */
  lemma {:induction false} ReadLoopIsNextBlock(s: Text, buf: Text, size: nat)
    requires FitsBuffer(s, |buf|, size)
    ensures ReadLoop(s, buf, size) == Prefixed(buf, NextBlock(s))
    decreases |s|
  {
    hide LineLength, IsPfn, ReadLoop, NextBlock, Prefixed, FitsBuffer;
    if s == [] {
      EndTurn(buf, size);
    } else {
      FitsTurn(s, |buf|, size);
      ReadLoopTurn(s, buf, size);
      NextBlockTurn(s, buf);
      var n := LineLength(s);
      if s[0] != '\n' {
        ReadLoopIsNextBlock(s[n..], if IsPfn(s[..n]) then buf else buf + s[..n], size);
      }
    }
  }

  lemma {:induction false} ReadShrinks(s: Text, buf: Text, size: nat)
    ensures ReadLoop(s, buf, size).Block? ==> |ReadLoop(s, buf, size).rest| < |s|
    decreases |s|
  {
    hide LineLength, IsPfn;
    if size - |buf| > 1 && s != [] {
      var n := FgetsLength(s, size - |buf|);
      var line, rest := s[..n], s[n..];
      if line[0] != '\n' {
        ReadShrinks(rest, if IsPfn(line) then buf else buf + line, size);
      }
    }
  }

  /** All blocks of a file, as the program reads them. */
  function Blocks(s: Text, size: nat): seq<Text>
    decreases |s|
  {
    ReadShrinks(s, [], size);
    match ReadLoop(s, [], size)
    case EndOfInput => []
    case Block(text, rest) => [text] + Blocks(rest, size)
  }

  lemma {:induction false} NextShrinks(s: Text)
    ensures NextBlock(s).Block? ==> |NextBlock(s).rest| < |s|
    decreases |s|
  {
    if s != [] && s[0] != '\n' {
      NextShrinks(s[LineLength(s)..]);
    }
  }

  /** All blocks of a file: what an empty line ends. An unterminated last block is no block. */
  function TextBlocks(s: Text): seq<Text>
    decreases |s|
  {
    NextShrinks(s);
    match NextBlock(s)
    case EndOfInput => []
    case Block(text, rest) => [text] + TextBlocks(rest)
  }

  predicate FileFits(s: Text, size: nat)
    decreases |s|
  {
    NextShrinks(s);
    FitsBuffer(s, 0, size) && (NextBlock(s).Block? ==> FileFits(NextBlock(s).rest, size))
  }

  /** Within the buffer limits the program reads all blocks of the file, in order. */
  lemma {:induction false} ReadsAllBlocks(s: Text, size: nat)
    requires FileFits(s, size)
    ensures Blocks(s, size) == TextBlocks(s)
    decreases |s|
  {
    hide LineLength, IsPfn, ReadLoop, FitsBuffer;
    ReadLoopIsNextBlock(s, [], size);
    if NextBlock(s).Block? {
      NextShrinks(s);
      assert [] + NextBlock(s).text == NextBlock(s).text;
      ReadsAllBlocks(NextBlock(s).rest, size);
    }
  }

  // Loading.

  datatype Entry = Entry(text: Text, num: nat)

  function Count(bs: seq<Text>, t: Text): nat {
    if bs == [] then 0
    else Count(bs[..|bs| - 1], t) + (if bs[|bs| - 1] == t then 1 else 0)
  }

  /** Add one block; None when the list is full, where the program exits. */
  function AddList(list: seq<Entry>, t: Text, max: nat): Option<seq<Entry>> {
    var n := |list|;
    if n != 0 && list[n - 1].text == t
    then Some(list[n - 1 := list[n - 1].(num := list[n - 1].num + 1)])
    else if n == max then None
    else Some(list + [Entry(t, 1)])
  }

  function Load(bs: seq<Text>, max: nat): Option<seq<Entry>> {
    if bs == [] then Some([])
    else match Load(bs[..|bs| - 1], max)
         case None => None
         case Some(list) => AddList(list, bs[|bs| - 1], max)
  }

  /** The number of times a block differs from the one before it. */
  function Runs(bs: seq<Text>): nat {
    if bs == [] then 0
    else Runs(bs[..|bs| - 1]) +
         (if |bs| > 1 && bs[|bs| - 2] == bs[|bs| - 1] then 0 else 1)
  }

  /** What an entry adds to a tally: of one text or of all, of blocks or of entries. */
  function Part(e: Entry, which: Option<Text>, entries: bool): nat {
    if which.Some? && which.value != e.text then 0 else if entries then 1 else e.num
  }

  function Tally(list: seq<Entry>, which: Option<Text>, entries: bool): nat {
    if list == [] then 0
    else Tally(list[..|list| - 1], which, entries) + Part(list[|list| - 1], which, entries)
  }

  /** The number of blocks with a given text, or of all blocks. */
  function Occurrences(bs: seq<Text>, which: Option<Text>): nat {
    if which.None? then |bs| else Count(bs, which.value)
  }

  lemma TallyAppend(list: seq<Entry>, e: Entry, which: Option<Text>, entries: bool)
    ensures Tally(list + [e], which, entries) == Tally(list, which, entries) + Part(e, which, entries)
  {
    assert (list + [e])[..|list|] == list;
  }

  ghost predicate Positive(list: seq<Entry>) {
    forall e :: e in list ==> e.num > 0
  }

  lemma AddListTally(list: seq<Entry>, b: Text, max: nat, which: Option<Text>)
    requires AddList(list, b, max).Some?
    ensures Tally(AddList(list, b, max).value, which, false) ==
            Tally(list, which, false) + Part(Entry(b, 1), which, false)
  {
    var n := |list|;
    if n != 0 && list[n - 1].text == b {
      assert AddList(list, b, max).value[..n - 1] == list[..n - 1];
    } else {
      TallyAppend(list, Entry(b, 1), which, false);
    }
  }

  /** Adding a block: whether it fits, how long the list gets and what it ends with. */
  lemma AddListShape(list: seq<Entry>, b: Text, max: nat)
    requires |list| <= max && Positive(list)
    ensures
      var merges := list != [] && list[|list| - 1].text == b;
      && (AddList(list, b, max).Some? <==> merges || |list| < max)
      && (AddList(list, b, max).Some? ==>
            var list' := AddList(list, b, max).value;
            && |list'| == |list| + (if merges then 0 else 1) <= max && Positive(list')
            && list'[|list'| - 1].text == b)
  {
  }

  /** What loading the blocks `bs` must give: the runs fit, and the list ends with the last block. */
  ghost predicate Loads(bs: seq<Text>, max: nat) {
    && (Load(bs, max).Some? <==> Runs(bs) <= max)
    && (Load(bs, max).Some? ==>
          var list := Load(bs, max).value;
          && |list| == Runs(bs) <= max && Positive(list)
          && (bs != [] ==> list != [] && list[|list| - 1].text == bs[|bs| - 1]))
  }

  lemma {:induction false} LoadShape(bs: seq<Text>, max: nat)
    ensures Loads(bs, max)
  {
    hide AddList, Positive;
    if bs == [] {
      NoEntries();
    } else {
      var init, b := bs[..|bs| - 1], bs[|bs| - 1];
      LoadShape(init, max);
      if Load(init, max).Some? {
        AddListShape(Load(init, max).value, b, max);
      }
    }
  }

  lemma NoEntries()
    ensures Positive([])
  {
  }

  lemma {:induction false} LoadTally(bs: seq<Text>, max: nat, which: Option<Text>)
    requires Load(bs, max).Some?
    ensures Tally(Load(bs, max).value, which, false) == Occurrences(bs, which)
  {
    hide AddList;
    if bs != [] {
      var init, b := bs[..|bs| - 1], bs[|bs| - 1];
      LoadTally(init, max, which);
      AddListTally(Load(init, max).value, b, max, which);
    }
  }

  /** Loading succeeds exactly when the runs of equal blocks fit, and keeps every count. */
  lemma {:induction false} LoadIsExact(bs: seq<Text>, max: nat, which: Option<Text>)
    ensures Load(bs, max).Some? <==> Runs(bs) <= max
    ensures Load(bs, max).Some? ==>
              var list := Load(bs, max).value;
              && |list| == Runs(bs) && Positive(list)
              && Tally(list, which, false) == Occurrences(bs, which)
              && (bs != [] ==> list != [] && list[|list| - 1].text == bs[|bs| - 1])
  {
    hide Load, Runs, Tally, Occurrences, Positive;
    LoadShape(bs, max);
    if Load(bs, max).Some? {
      LoadTally(bs, max, which);
    }
  }

  /** The global list and its capacity. */
  class BlockList {
    var list: seq<Entry>
    const maxSize: nat

    constructor (max: nat)
      ensures list == [] && maxSize == max
    {
      list, maxSize := [], max;
    }

    /** False when the list is full. */
    method Add(t: Text) returns (ok: bool)
      modifies this
      ensures ok == AddList(old(list), t, maxSize).Some?
      ensures list == if ok then AddList(old(list), t, maxSize).value else old(list)
    {
      var n := |list|;
      if n != 0 && |t| == |list[n - 1].text| && t == list[n - 1].text {
        list := list[n - 1 := list[n - 1].(num := list[n - 1].num + 1)];
        return true;
      }
      if n == maxSize {
        return false;
      }
      list := list + [Entry(t, 1)];
      return true;
    }

    /** Reads a file of blocks into the empty list; false when it does not fit. */
    method LoadFile(s: Text, size: nat) returns (ok: bool)
      requires list == []
      modifies this
      ensures ok == Load(Blocks(s, size), maxSize).Some?
      ensures ok ==> list == Load(Blocks(s, size), maxSize).value
    {
      hide ReadLoop;
      var rest := s;
      ghost var done: seq<Text> := [];
      while true
        invariant Blocks(s, size) == done + Blocks(rest, size)
        invariant Load(done, maxSize) == Some(list)
        decreases |rest|
      {
        var r := ReadBlock(rest, size);
        ReadShrinks(rest, [], size);
        if r.EndOfInput? {
          assert done + [] == done;
          return true;
        }
        ghost var before := done;
        done := done + [r.text];
        assert done[..|done| - 1] == before;
        assert before + ([r.text] + Blocks(r.rest, size)) == done + Blocks(r.rest, size);
        rest := r.rest;
        var added := Add(r.text);
        if !added {
          LoadFails(done, Blocks(rest, size), maxSize);
          return false;
        }
      }
    }
  }

  /** A list that is full stays full: no later block can be loaded. */
  lemma {:induction false} LoadFails(bs: seq<Text>, more: seq<Text>, max: nat)
    requires Load(bs, max).None?
    ensures Load(bs + more, max).None?
  {
    if more == [] {
      assert bs + more == bs;
    } else {
      LoadFails(bs, more[..|more| - 1], max);
      assert (bs + more)[..|bs + more| - 1] == bs + more[..|more| - 1];
    }
  }

  // Sorting.

  /** The order of strcmp on texts without a zero byte. */
  predicate Leq(a: Text, b: Text) {
    a == [] || (b != [] && (a[0] < b[0] || (a[0] == b[0] && Leq(a[1..], b[1..]))))
  }

  lemma {:induction false} LeqAntisymmetric(a: Text, b: Text)
    requires Leq(a, b) && Leq(b, a)
    ensures a == b
  {
    if a != [] && b != [] {
      LeqAntisymmetric(a[1..], b[1..]);
      assert a == [a[0]] + a[1..] && b == [b[0]] + b[1..];
    }
  }

  lemma {:induction false} LeqTransitive(a: Text, b: Text, c: Text)
    requires Leq(a, b) && Leq(b, c)
    ensures Leq(a, c)
  {
    if a != [] && b != [] && c != [] && a[0] == b[0] == c[0] {
      LeqTransitive(a[1..], b[1..], c[1..]);
    }
  }

  ghost predicate SortedByText(list: seq<Entry>) {
    forall i, j :: 0 <= i < j < |list| ==> Leq(list[i].text, list[j].text)
  }

  ghost predicate SortedByNum(list: seq<Entry>) {
    forall i, j :: 0 <= i < j < |list| ==> list[i].num >= list[j].num
  }

  function Without(list: seq<Entry>, k: nat): seq<Entry>
    requires k < |list|
  {
    list[..k] + list[k + 1..]
  }

  lemma {:induction false} TallyWithout(list: seq<Entry>, k: nat, which: Option<Text>, entries: bool)
    requires k < |list|
    ensures Tally(list, which, entries) ==
            Tally(Without(list, k), which, entries) + Part(list[k], which, entries)
  {
    hide Without, Part;
    var n := |list| - 1;
    var init := list[..n];
    WithoutSplit(list, k);
    if k < n {
      TallyWithout(init, k, which, entries);
      TallyAppend(Without(init, k), list[n], which, entries);
    }
  }

  lemma {:induction false} WithoutSplit(list: seq<Entry>, k: nat)
    requires k < |list|
    ensures var n := |list| - 1;
            Without(list, k) == if k == n then list[..n] else Without(list[..n], k) + [list[n]]
  {
  }

  lemma {:induction false} MultisetWithout(list: seq<Entry>, k: nat)
    requires k < |list|
    ensures multiset(Without(list, k)) == multiset(list) - multiset{list[k]}
  {
    assert list == list[..k] + [list[k]] + list[k + 1..];
  }

  /** A permutation keeps every tally. */
  lemma {:induction false} PermutationTally(a: seq<Entry>, b: seq<Entry>, which: Option<Text>, entries: bool)
    requires multiset(a) == multiset(b)
    ensures Tally(a, which, entries) == Tally(b, which, entries)
    decreases |a|
  {
    hide Without, Part;
    if a == [] {
      assert |multiset(b)| == 0;
    } else {
      var n := |a| - 1;
      assert a[n] in multiset(b);
      var k :| 0 <= k < |b| && b[k] == a[n];
      MultisetWithout(a, n);
      MultisetWithout(b, k);
      TallyWithout(a, n, which, entries);
      TallyWithout(b, k, which, entries);
      assert |Without(a, n)| == |multiset(Without(a, n))| == |a| - 1;
      PermutationTally(Without(a, n), Without(b, k), which, entries);
    }
  }

  // Culling.

  /** Append an entry, or merge it with the last one. */
  function CullStep(done: seq<Entry>, e: Entry): seq<Entry> {
    var n := |done|;
    if n == 0 || done[n - 1].text != e.text then done + [e]
    else done[n - 1 := done[n - 1].(num := done[n - 1].num + e.num)]
  }

  function Cull(list: seq<Entry>): seq<Entry> {
    if list == [] then [] else CullStep(Cull(list[..|list| - 1]), list[|list| - 1])
  }

  method CullList(list: seq<Entry>) returns (list2: seq<Entry>)
    ensures list2 == Cull(list)
  {
    list2 := [];
    for i := 0 to |list|
      invariant list2 == Cull(list[..i])
    {
      assert list[..i + 1][..i] == list[..i];
      var count := |list2|;
      if count == 0 || list2[count - 1].text != list[i].text {
        list2 := list2 + [list[i]];
      } else {
        list2 := list2[count - 1 := list2[count - 1].(num := list2[count - 1].num + list[i].num)];
      }
    }
    assert list[..|list|] == list;
  }

  /** Culling keeps the number of blocks of each text. */
  lemma {:induction false} CullTally(list: seq<Entry>, which: Option<Text>)
    ensures Tally(Cull(list), which, false) == Tally(list, which, false)
  {
    if list != [] {
      var init, e := list[..|list| - 1], list[|list| - 1];
      var done := Cull(init);
      var n := |done|;
      CullTally(init, which);
      if n == 0 || done[n - 1].text != e.text {
        TallyAppend(done, e, which, false);
      } else {
        assert Cull(list)[..n - 1] == done[..n - 1];
      }
    }
  }

  /** Ascending, without repeated texts. */
  ghost predicate Ascending(list: seq<Entry>) {
    forall i, j :: 0 <= i < j < |list| ==>
      Leq(list[i].text, list[j].text) && list[i].text != list[j].text
  }

  lemma AppendAscending(list: seq<Entry>, e: Entry)
    requires Ascending(list)
    requires list != [] ==> Leq(list[|list| - 1].text, e.text) && list[|list| - 1].text != e.text
    ensures Ascending(list + [e])
  {
    var n := |list|;
    forall i | 0 <= i < n - 1
      ensures Leq(list[i].text, e.text) && list[i].text != e.text
    {
      LeqTransitive(list[i].text, list[n - 1].text, e.text);
      if list[i].text == e.text {
        LeqAntisymmetric(list[n - 1].text, e.text);
      }
    }
  }

  lemma CullStepAscending(done: seq<Entry>, e: Entry)
    requires Ascending(done) && Positive(done) && e.num > 0
    requires done != [] ==> Leq(done[|done| - 1].text, e.text)
    ensures
      var done' := CullStep(done, e);
      && Ascending(done') && Positive(done')
      && done' != [] && done'[|done'| - 1].text == e.text
  {
    hide Leq;
    if done == [] || done[|done| - 1].text != e.text {
      AppendAscending(done, e);
    } else {
      var done' := CullStep(done, e);
      assert forall i :: 0 <= i < |done| ==> done'[i].text == done[i].text;
    }
  }

  /** The last entry of a sorted list follows the one before it. */
  lemma SortedInit(list: seq<Entry>)
    requires list != [] && SortedByText(list) && Positive(list)
    ensures
      var init, e := list[..|list| - 1], list[|list| - 1];
      && SortedByText(init) && Positive(init) && e.num > 0
      && (init != [] ==> Leq(init[|init| - 1].text, e.text))
  {
    hide Leq;
  }

  /** Culling a list sorted by text leaves each text once. */
  lemma {:induction false} CullAscending(list: seq<Entry>)
    requires SortedByText(list) && Positive(list)
    ensures Ascending(Cull(list)) && Positive(Cull(list))
    ensures list == [] ==> Cull(list) == []
    ensures list != [] ==> Cull(list) != [] &&
                           Cull(list)[|Cull(list)| - 1].text == list[|list| - 1].text
  {
    if list != [] {
      hide Leq, Ascending, Positive, SortedByText, CullStep;
      SortedInit(list);
      CullAscending(list[..|list| - 1]);
      CullStepAscending(Cull(list[..|list| - 1]), list[|list| - 1]);
    }
  }

  /** Without repeated texts there is at most one entry for a text. */
  lemma {:induction false} AscendingTally(list: seq<Entry>, t: Text)
    requires Ascending(list)
    ensures Tally(list, Some(t), true) <= 1
    ensures Tally(list, Some(t), true) == 0 <==> forall e :: e in list ==> e.text != t
  {
    if list != [] {
      var init := list[..|list| - 1];
      AscendingTally(init, t);
      assert list == init + [list[|list| - 1]];
    }
  }

  lemma {:induction false} TallyZero(list: seq<Entry>, t: Text)
    requires Tally(list, Some(t), true) == 0
    ensures Tally(list, Some(t), false) == 0
  {
    if list != [] {
      TallyZero(list[..|list| - 1], t);
    }
  }

  /** If a text has one entry, that entry stands for all its blocks. */
  lemma SingleEntry(list: seq<Entry>, k: nat)
    requires k < |list| && Tally(list, Some(list[k].text), true) == 1
    ensures Tally(list, Some(list[k].text), false) == list[k].num
  {
    var t := list[k].text;
    TallyWithout(list, k, Some(t), true);
    TallyWithout(list, k, Some(t), false);
    TallyZero(Without(list, k), t);
  }

  /** A text with a positive tally has an entry. */
  lemma {:induction false} PositiveTally(list: seq<Entry>, t: Text)
    requires Positive(list)
    ensures Tally(list, Some(t), true) > 0 <==> Tally(list, Some(t), false) > 0
  {
    if list != [] {
      var init := list[..|list| - 1];
      assert forall e :: e in init ==> e in list;
      assert list[|list| - 1] in list;
      PositiveTally(init, t);
    }
  }

  // The whole program.

  /** `sorted` is a possible state after the first sort, `out` after the second. */
  ghost predicate Pipeline(bs: seq<Text>, max: nat, sorted: seq<Entry>, out: seq<Entry>) {
    && Load(bs, max).Some?
    && multiset(sorted) == multiset(Load(bs, max).value) && SortedByText(sorted)
    && multiset(out) == multiset(Cull(sorted)) && SortedByNum(out)
  }

  lemma SortedIsPositive(bs: seq<Text>, max: nat, sorted: seq<Entry>, out: seq<Entry>)
    requires Pipeline(bs, max, sorted, out)
    ensures Positive(sorted)
  {
    LoadIsExact(bs, max, None);
    forall e | e in sorted
      ensures e.num > 0
    {
      assert e in multiset(sorted);
    }
  }

  /** Every tally of blocks comes through both merges and both sorts unchanged. */
  lemma PipelineTally(bs: seq<Text>, max: nat, sorted: seq<Entry>, out: seq<Entry>, which: Option<Text>)
    requires Pipeline(bs, max, sorted, out)
    ensures Tally(out, which, false) == Occurrences(bs, which)
  {
    hide SortedByText, SortedByNum, Tally, Cull, Load;
    LoadIsExact(bs, max, which);
    PermutationTally(Load(bs, max).value, sorted, which, false);
    CullTally(sorted, which);
    PermutationTally(Cull(sorted), out, which, false);
  }

  /** A text is listed once if it occurs and not at all if it does not. */
  lemma ListedOnce(bs: seq<Text>, max: nat, sorted: seq<Entry>, out: seq<Entry>, t: Text)
    requires Pipeline(bs, max, sorted, out)
    ensures Tally(out, Some(t), true) == if Count(bs, t) > 0 then 1 else 0
  {
    hide SortedByNum, Tally, Cull, Load;
    SortedIsPositive(bs, max, sorted, out);
    LoadIsExact(bs, max, Some(t));
    PermutationTally(Load(bs, max).value, sorted, Some(t), false);
    CullTally(sorted, Some(t));
    CullAscending(sorted);
    AscendingTally(Cull(sorted), t);
    PositiveTally(Cull(sorted), t);
    PermutationTally(Cull(sorted), out, Some(t), true);
  }

  /**
   The output lists each distinct block exactly once, with the number of its occurrences;
   the counts never increase and sum to the number of blocks.
   */
  lemma CountsAreExact(bs: seq<Text>, max: nat, sorted: seq<Entry>, out: seq<Entry>)
    requires Pipeline(bs, max, sorted, out)
    ensures forall t :: Tally(out, Some(t), true) == if Count(bs, t) > 0 then 1 else 0
    ensures forall k :: 0 <= k < |out| ==> out[k].num == Count(bs, out[k].text) > 0
    ensures forall i, j :: 0 <= i < j < |out| ==> out[i].num >= out[j].num
    ensures Tally(out, None, false) == |bs|
  {
    hide Tally, Cull, Load;
    PipelineTally(bs, max, sorted, out, None);
    forall t
      ensures Tally(out, Some(t), true) == if Count(bs, t) > 0 then 1 else 0
    {
      ListedOnce(bs, max, sorted, out, t);
    }
    forall k | 0 <= k < |out|
      ensures out[k].num == Count(bs, out[k].text) > 0
    {
      var t := out[k].text;
      TallyWithout(out, k, Some(t), true);
      ListedOnce(bs, max, sorted, out, t);
      SingleEntry(out, k);
      PipelineTally(bs, max, sorted, out, Some(t));
    }
  }

  // From the file to the output.

  const BUF_SIZE := 131_072

  type Sorter = seq<Entry> -> seq<Entry>

  /** The library sort returns the same entries in order; equal ones may come in any order. */
  ghost predicate SortsByText(sort: Sorter) {
    forall list :: multiset(sort(list)) == multiset(list) && SortedByText(sort(list))
  }

  ghost predicate SortsByNum(sort: Sorter) {
    forall list :: multiset(sort(list)) == multiset(list) && SortedByNum(sort(list))
  }

  /** Each distinct block once, with its number of occurrences, counts never increasing. */
  ghost predicate ExactCounts(out: seq<Entry>, bs: seq<Text>) {
    && (forall t :: Tally(out, Some(t), true) == if Count(bs, t) > 0 then 1 else 0)
    && (forall k :: 0 <= k < |out| ==> out[k].num == Count(bs, out[k].text) > 0)
    && (forall i, j :: 0 <= i < j < |out| ==> out[i].num >= out[j].num)
    && Tally(out, None, false) == |bs|
  }

  /**
   The whole program: for a file whose lines fit the buffer, it gives up if and only if the
   runs of equal blocks are more than a hundredth of the bytes, and otherwise prints the exact
   counts of the blocks of the file.
   */
  method SortPageOwner(s: Text, byText: Sorter, byNum: Sorter) returns (out: Option<seq<Entry>>)
    requires SortsByText(byText) && SortsByNum(byNum)
    ensures out.Some? <==> Runs(Blocks(s, BUF_SIZE)) <= |s| / 100
    ensures out.Some? ==> ExactCounts(out.value, Blocks(s, BUF_SIZE))
    ensures FileFits(s, BUF_SIZE) ==> Blocks(s, BUF_SIZE) == TextBlocks(s)
  {
    hide Tally, Cull, Load, Blocks, FileFits, Runs, SortedByText, SortedByNum;
    ghost var blocks := Blocks(s, BUF_SIZE);
    LoadIsExact(blocks, |s| / 100, None);
    if FileFits(s, BUF_SIZE) {
      ReadsAllBlocks(s, BUF_SIZE);
    }
    var list := new BlockList(|s| / 100);
    var ok := list.LoadFile(s, BUF_SIZE);
    if !ok {
      return None;
    }
    var sorted := byText(list.list);
    var culled := CullList(sorted);
    var result := byNum(culled);
    CountsAreExact(blocks, |s| / 100, sorted, result);
    return Some(result);
  }
}
