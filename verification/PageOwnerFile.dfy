/**
 What the counter of allocation records makes of a whole file: which lines end up in a block,
 and what happens when a block does not fit the buffer.
 */
module PageOwnerFile {
  import opened PageOwner

  // The text of a file and the text of its blocks.

  /** The lines that are neither empty nor PFN lines. */
  function Kept(s: Text): Text
    decreases |s|
  {
    if s == [] then []
    else
      var n := LineLength(s);
      if s[0] == '\n' || IsPfn(s[..n]) then Kept(s[n..]) else s[..n] + Kept(s[n..])
  }

  /** The lines of a file, each with its newline. */
  function Lines(s: Text): seq<Text>
    decreases |s|
  {
    if s == [] then [] else [s[..LineLength(s)]] + Lines(s[LineLength(s)..])
  }

  /** A line that is dropped: an empty one, or one that begins with the letters P, F and N. */
  predicate Dropped(line: Text) {
    line == ['\n'] || (|line| >= 3 && line[0] == 'P' && line[1] == 'F' && line[2] == 'N')
  }

  function WithoutDropped(lines: seq<Text>): seq<Text> {
    if lines == [] then []
    else (if Dropped(lines[0]) then [] else [lines[0]]) + WithoutDropped(lines[1..])
  }

  /** A line is whole: it holds one newline at most, at its end. */
  ghost predicate IsLine(line: Text) {
    line != [] && forall i :: 0 <= i < |line| - 1 ==> line[i] != '\n'
  }

  lemma {:induction false} LinesOfFile(s: Text)
    ensures Join(Lines(s)) == s && forall i :: 0 <= i < |Lines(s)| ==> IsLine(Lines(s)[i])
    decreases |s|
  {
    hide LineLength;
    if s != [] {
      var n := LineLength(s);
      LinesOfFile(s[n..]);
      FirstBlock(s[..n], Lines(s[n..]));
      assert s == s[..n] + s[n..];
    }
  }

  lemma FirstLine(s: Text)
    requires s != []
    ensures var line := s[..LineLength(s)];
            Dropped(line) <==> s[0] == '\n' || IsPfn(line)
  {
    var line := s[..LineLength(s)];
    if |line| >= 3 {
      assert line[..3] == [line[0], line[1], line[2]];
    }
    if s[0] == '\n' {
      assert line == ['\n'];
    }
  }

  /** What is kept of a file is its lines except those that are dropped, in order. */
  lemma {:induction false} KeptLines(s: Text)
    ensures Kept(s) == Join(WithoutDropped(Lines(s)))
    decreases |s|
  {
    if s != [] {
      hide LineLength, IsPfn, Dropped;
      var n := LineLength(s);
      var line, rest := s[..n], Lines(s[n..]);
      KeptLines(s[n..]);
      FirstLine(s);
      assert ([line] + rest)[1..] == rest;
      if Dropped(line) {
        assert [] + WithoutDropped(rest) == WithoutDropped(rest);
      } else {
        FirstBlock(line, WithoutDropped(rest));
      }
    }
  }

  /** The text behind the last empty line. */
  function Tail(s: Text): Text
    decreases |s|
  {
    NextShrinks(s);
    match NextBlock(s)
    case EndOfInput => s
    case Block(_, rest) => Tail(rest)
  }

  function Join(bs: seq<Text>): Text {
    if bs == [] then [] else bs[0] + Join(bs[1..])
  }

  lemma KeptTurn(s: Text)
    requires s != []
    ensures var n := LineLength(s);
            Kept(s) == if s[0] == '\n' || IsPfn(s[..n]) then Kept(s[n..]) else s[..n] + Kept(s[n..])
  {
    hide LineLength, IsPfn;
  }

  lemma BlockTurn(s: Text)
    requires s != []
    ensures
      var n := LineLength(s);
      NextBlock(s) == if s[0] == '\n' then Block([], s[n..])
                      else Prefixed(if IsPfn(s[..n]) then [] else s[..n], NextBlock(s[n..]))
  {
    hide LineLength, IsPfn;
    var n := LineLength(s);
    if s[0] != '\n' && NextBlock(s[n..]).Block? {
      assert [] + NextBlock(s[n..]).text == NextBlock(s[n..]).text;
    }
  }

  lemma {:induction false} Assoc(a: Text, b: Text, c: Text)
    ensures a + (b + c) == (a + b) + c
  {
  }

  lemma {:induction false} BlockKept(s: Text)
    requires NextBlock(s).Block?
    ensures Kept(s) == NextBlock(s).text + Kept(NextBlock(s).rest)
    decreases |s|
  {
    assert s != [];
    hide LineLength, IsPfn, NextBlock, Kept;
    var n := LineLength(s);
    KeptTurn(s);
    BlockTurn(s);
    if s[0] == '\n' {
      assert [] + Kept(s[n..]) == Kept(s[n..]);
    } else {
      BlockKept(s[n..]);
      var b, line := NextBlock(s[n..]), if IsPfn(s[..n]) then [] else s[..n];
      Assoc(line, b.text, Kept(b.rest));
      assert [] + Kept(s[n..]) == Kept(s[n..]);
    }
  }

  lemma FirstBlock(text: Text, bs: seq<Text>)
    ensures Join([text] + bs) == text + Join(bs)
  {
    assert ([text] + bs)[1..] == bs;
  }

  lemma BlocksTurn(s: Text)
    ensures
      match NextBlock(s)
      case EndOfInput => TextBlocks(s) == [] && Tail(s) == s
      case Block(text, rest) => TextBlocks(s) == [text] + TextBlocks(rest) && Tail(s) == Tail(rest)
  {
    hide NextBlock;
  }

  /** The blocks of a file and what is behind its last empty line are all its lines, in order. */
  lemma {:induction false} BlocksAndTail(s: Text)
    ensures Join(TextBlocks(s)) + Kept(Tail(s)) == Kept(s)
    decreases |s|
  {
    hide Kept, Join, NextBlock, TextBlocks, Tail;
    NextShrinks(s);
    BlocksTurn(s);
    if NextBlock(s).EndOfInput? {
      NoBlocks();
      assert [] + Kept(s) == Kept(s);
    } else {
      var text, rest := NextBlock(s).text, NextBlock(s).rest;
      BlocksAndTail(rest);
      BlockKept(s);
      FirstBlock(text, TextBlocks(rest));
      Assoc(text, Join(TextBlocks(rest)), Kept(Tail(rest)));
    }
  }

  lemma NoBlocks()
    ensures Join([]) == []
  {
  }

  /**
   For a file whose lines fit the buffer, the blocks that the program reads hold all lines
   that they should if and only if only PFN lines follow the last empty line.
   */
  lemma NothingDroppedIff(s: Text, size: nat)
    requires FileFits(s, size)
    ensures Join(Blocks(s, size)) == Kept(s) <==> Kept(Tail(s)) == []
  {
    hide Blocks, FileFits, Join, Kept, Tail;
    ReadsAllBlocks(s, size);
    BlocksAndTail(s);
    var blocks, rest := Join(TextBlocks(s)), Kept(Tail(s));
    assert |blocks + rest| == |blocks| + |rest|;
    if rest == [] {
      assert blocks + rest == blocks;
    }
  }

  /** A file with one line and no empty line: the program reads nothing. */
  lemma UnterminatedBlockIsDropped()
    ensures Blocks("a\n", BUF_SIZE) == [] && Kept("a\n") == "a\n"
  {
    var s: Text := "a\n";
    assert s[1..] == "\n" && LineLength("\n") == 1 && LineLength(s) == 2;
    assert s[..2] == s && s[2..] == [];
    assert !IsPfn(s);
    assert ReadLoop(s, [], BUF_SIZE) == ReadLoop([], [] + s, BUF_SIZE) == EndOfInput;
    assert Kept(s) == s + Kept([]);
  }

  // Blocks that do not fit.

  /** No line that is cut for lack of room looks like a PFN line. */
  predicate CutClean(s: Text, used: nat, size: nat)
    decreases |s|
  {
    s == [] ||
    (var n := LineLength(s);
     if used + n < size
     then s[0] == '\n' || CutClean(s[n..], if IsPfn(s[..n]) then used else used + n, size)
     else size <= used + 1 || !IsPfn(s[..size - used - 1]))
  }

  predicate CleanFile(s: Text, size: nat)
    decreases |s|
  {
    NextShrinks(s);
    CutClean(s, 0, size) &&
    (FitsBuffer(s, 0, size) && NextBlock(s).Block? ==> CleanFile(NextBlock(s).rest, size))
  }

  /** A line that does not fit fills the buffer, which ends the reading. */
  lemma CutLineEnds(s: Text, buf: Text, size: nat)
    requires s != [] && |buf| + LineLength(s) >= size
    requires size <= |buf| + 1 || !IsPfn(s[..size - |buf| - 1])
    ensures ReadLoop(s, buf, size) == EndOfInput
  {
    if size - |buf| > 1 {
      var n := size - |buf| - 1;
      assert FgetsLength(s, size - |buf|) == n && n < LineLength(s);
      assert s[..n][0] == s[0] != '\n';
      assert |buf + s[..n]| == size - 1;
    }
  }

  lemma {:induction false} UnfitEnds(s: Text, buf: Text, size: nat)
    requires !FitsBuffer(s, |buf|, size) && CutClean(s, |buf|, size)
    ensures ReadLoop(s, buf, size) == EndOfInput
    decreases |s|
  {
    hide LineLength, IsPfn, ReadLoop;
    var n := LineLength(s);
    if |buf| + n < size {
      ReadLoopTurn(s, buf, size);
      UnfitEnds(s[n..], if IsPfn(s[..n]) then buf else buf + s[..n], size);
    } else {
      CutLineEnds(s, buf, size);
    }
  }

  /** The blocks before the first one that does not fit. */
  function Fitting(s: Text, size: nat): seq<Text>
    decreases |s|
  {
    NextShrinks(s);
    match NextBlock(s)
    case EndOfInput => []
    case Block(text, rest) => if FitsBuffer(s, 0, size) then [text] + Fitting(rest, size) else []
  }

  /** A block that does not fit ends the load: it and all blocks behind it are lost. */
  lemma {:induction false} LoadStopsAtUnfit(s: Text, size: nat)
    requires CleanFile(s, size)
    ensures Blocks(s, size) == Fitting(s, size)
    decreases |s|
  {
    hide FitsBuffer, CutClean, NextBlock, ReadLoop;
    NextShrinks(s);
    ReadShrinks(s, [], size);
    if FitsBuffer(s, 0, size) {
      ReadLoopIsNextBlock(s, [], size);
      if NextBlock(s).Block? {
        assert [] + NextBlock(s).text == NextBlock(s).text;
        LoadStopsAtUnfit(NextBlock(s).rest, size);
      }
    } else {
      UnfitEnds(s, [], size);
    }
  }

  /** Every block that an empty line ends fits the buffer. */
  predicate BlocksFit(s: Text, size: nat)
    decreases |s|
  {
    NextShrinks(s);
    NextBlock(s).Block? ==> FitsBuffer(s, 0, size) && BlocksFit(NextBlock(s).rest, size)
  }

  lemma {:induction false} FittingIff(s: Text, size: nat)
    ensures |Fitting(s, size)| <= |TextBlocks(s)|
    ensures |Fitting(s, size)| == |TextBlocks(s)| ==> BlocksFit(s, size)
    ensures BlocksFit(s, size) ==> Fitting(s, size) == TextBlocks(s)
    decreases |s|
  {
    hide FitsBuffer, NextBlock;
    NextShrinks(s);
    if NextBlock(s).Block? {
      FittingIff(NextBlock(s).rest, size);
    }
  }

  /** The program reads all blocks of a file if and only if each of them fits the buffer. */
  lemma ReadsAllBlocksIff(s: Text, size: nat)
    requires CleanFile(s, size)
    ensures Blocks(s, size) == TextBlocks(s) <==> BlocksFit(s, size)
  {
    hide CleanFile, BlocksFit, Fitting, Blocks, TextBlocks;
    LoadStopsAtUnfit(s, size);
    FittingIff(s, size);
  }

  /** A first line that does not fit hides the whole file. */
  lemma LongLineEndsLoad(s: Text, size: nat)
    requires LineLength(s) >= size > 1 && !IsPfn(s[..size - 1])
    ensures Blocks(s, size) == []
  {
    CutLineEnds(s, [], size);
  }

  function Line(n: nat): (r: Text)
    ensures |r| == n && forall i :: 0 <= i < n ==> r[i] == 'a'
  {
    seq(n, _ => 'a')
  }

  lemma {:induction false} LineOf(n: nat, rest: Text)
    ensures LineLength(Line(n) + ['\n'] + rest) == n + 1
  {
    var s := Line(n) + ['\n'] + rest;
    if n > 0 {
      assert s[1..] == Line(n - 1) + ['\n'] + rest;
      LineOf(n - 1, rest);
    }
  }

  /** A file with one block, of a single line as long as the buffer: the program reads nothing. */
  lemma LongBlockIsLost()
    ensures
      var s := Line(BUF_SIZE) + ['\n'] + ['\n'];
      Blocks(s, BUF_SIZE) == [] && |TextBlocks(s)| == 1
  {
    hide Blocks, LineLength, ReadLoop;
    var s, n := Line(BUF_SIZE) + ['\n'] + ['\n'], BUF_SIZE + 1;
    LineOf(BUF_SIZE, ['\n']);
    assert s[0] == s[..BUF_SIZE - 1][0] == 'a';
    LongLineEndsLoad(s, BUF_SIZE);
    assert s[n..] == ['\n'];
    LineOf(0, []);
    assert Line(0) + ['\n'] + [] == ['\n'];
    assert NextBlock(['\n']) == Block([], []) by { assert ['\n'][1..] == []; }
    assert NextBlock(s).Block? && NextBlock(s).rest == [];
    assert TextBlocks([]) == [];
  }
}
