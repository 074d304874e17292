/**
 The archive writer: a file is read in pieces of 512 bytes into a list of blocks, then a
 header and the blocks are written. A reader of the format must get everything back.
 */
module TarArchive {
  import opened Bits
  import opened TarHeader

  /** sprintf into the header buffer. */
  method Sprintf(h: array<Byte>, at: nat, text: seq<Byte>)
    requires at + |text| < h.Length
    modifies h
    ensures h[..] == PrintAt(old(h[..]), at, text)
  {
    ghost var before := h[..];
    for i := 0 to |text|
      invariant forall j :: 0 <= j < h.Length ==>
                  h[j] == if at <= j < at + i then text[j - at] else before[j]
    {
      h[at + i] := text[i];
    }
    h[at + |text|] := 0;
    assert h[..] == before[..at] + text + [0] + before[at + |text| + 1..];
  }

  method SumChars(h: array<Byte>) returns (sum: int)
    ensures sum == SignedSum(h[..])
  {
    sum := 0;
    for i := 0 to h.Length
      invariant sum == SignedSum(h[..i])
    {
      assert h[..i + 1][..i] == h[..i];
      sum := sum + Signed(h[i]);
    }
    assert h[..h.Length] == h[..];
  }

  method WriteHeader(f: Fields) returns (block: seq<Byte>)
    requires Proper(f)
    ensures block == Header(f)
  {
    hide PrintAt, Padded, SignedSum, Octal;
    var header := new Byte[BLOCK](_ => 0);
    assert header[..] == Blank();
    Sprintf(header, 0, f.path);
    ModeDigits(f.mode);
    Sprintf(header, 100, Padded(f.mode % 512, 7));
    WordDigits(f.uid);
    Sprintf(header, 108, Padded(f.uid, 7));
    WordDigits(f.gid);
    Sprintf(header, 116, Padded(f.gid, 7));
    WordDigits(f.size);
    Sprintf(header, 124, Padded(f.size, 11));
    WordDigits(f.mtime);
    Sprintf(header, 136, Padded(f.mtime, 7));
    Sprintf(header, 148, Repeat(8, SPACE) + [Digit(f.kind)]);
    var sum := SumChars(header);
    WordDigits(Unsigned32(sum));
    Sprintf(header, 148, Padded(Unsigned32(sum), 6));
    return header[..];
  }

  // File contents.

  /** The number of blocks for `size` bytes. */
  function BlockCount(size: nat): nat {
    (size + BLOCK - 1) / BLOCK
  }

  /** As many blocks as are needed, and no more. */
  lemma BlockCountIsCeiling(size: nat)
    ensures size <= BLOCK * BlockCount(size) < size + BLOCK
  {
  }

  function PaddingLength(size: nat): (n: nat)
    ensures size + n == BLOCK * BlockCount(size)
  {
    BLOCK * BlockCount(size) - size
  }

  /** A file's blocks: its bytes, and zeros to a multiple of 512. */
  function Body(content: seq<Byte>): seq<Byte> {
    content + Repeat(PaddingLength(|content|), 0)
  }

  function Archive(f: Fields, content: seq<Byte>): seq<Byte>
    requires Proper(f.(size := |content|))
  {
    Header(f.(size := |content|)) + Body(content)
  }

  /** The results of successive reads: full blocks, then one that is shorter; an error reads as empty. */
  ghost predicate Reads(pieces: seq<seq<Byte>>) {
    pieces != [] && |pieces[0]| <= BLOCK && (|pieces[0]| == BLOCK ==> Reads(pieces[1..]))
  }

  /** What is read: everything up to the first piece that is not full. */
  ghost function Content(pieces: seq<seq<Byte>>): seq<Byte>
    requires Reads(pieces)
  {
    if |pieces[0]| < BLOCK then pieces[0] else pieces[0] + Content(pieces[1..])
  }

  ghost function Concat(pieces: seq<seq<Byte>>): seq<Byte> {
    if pieces == [] then [] else pieces[0] + Concat(pieces[1..])
  }

  lemma {:induction false} ConcatEmpty(pieces: seq<seq<Byte>>)
    ensures Concat(pieces) == [] <==> forall j :: 0 <= j < |pieces| ==> pieces[j] == []
  {
    if pieces != [] {
      ConcatEmpty(pieces[1..]);
      assert forall j :: 0 < j < |pieces| ==> pieces[j] == pieces[1..][j - 1];
    }
  }

  /** Every read before the last one that returns data is a full one. */
  ghost predicate ShortReadLast(pieces: seq<seq<Byte>>) {
    forall i, j :: 0 <= i < j < |pieces| && pieces[j] != [] ==> |pieces[i]| == BLOCK
  }

  lemma {:induction false} ShortReadTail(pieces: seq<seq<Byte>>)
    requires pieces != []
    ensures ShortReadLast(pieces) <==>
            ShortReadLast(pieces[1..]) &&
            (|pieces[0]| == BLOCK || forall j :: 0 <= j < |pieces[1..]| ==> pieces[1..][j] == [])
  {
    var rest := pieces[1..];
    assert forall j :: 0 <= j < |rest| ==> rest[j] == pieces[j + 1];
    if ShortReadLast(pieces) {
      forall i, j | 0 <= i < j < |rest| && rest[j] != []
        ensures |rest[i]| == BLOCK
      {
        assert pieces[j + 1] != [];
      }
      forall j | 0 <= j < |rest| && rest[j] != []
        ensures |pieces[0]| == BLOCK
      {
        assert pieces[j + 1] != [];
      }
    }
    if ShortReadLast(rest) && (|pieces[0]| == BLOCK || forall j :: 0 <= j < |rest| ==> rest[j] == []) {
      forall i, j | 0 <= i < j < |pieces| && pieces[j] != []
        ensures |pieces[i]| == BLOCK
      {
        assert rest[j - 1] == pieces[j];
        if i > 0 {
          assert rest[i - 1] == pieces[i];
        }
      }
    }
  }

  /** The whole file is archived if and only if no data follows a short read. */
  lemma {:induction false} CompleteIff(pieces: seq<seq<Byte>>)
    requires Reads(pieces)
    ensures Content(pieces) <= Concat(pieces)
    ensures Content(pieces) == Concat(pieces) <==> ShortReadLast(pieces)
  {
    hide ShortReadLast;
    var rest := pieces[1..];
    ShortReadTail(pieces);
    ConcatEmpty(rest);
    if |pieces[0]| == BLOCK {
      CompleteIff(rest);
      assert Content(pieces) == Concat(pieces) ==> Content(rest) == Concat(rest) by {
        SameTail(pieces[0], Content(rest), Concat(rest));
      }
    } else {
      SameTail(pieces[0], [], Concat(rest));
      assert pieces[0] + [] == pieces[0];
      if Concat(rest) == [] {
        AllEmpty(rest);
      }
    }
  }

  lemma SameTail(a: seq<Byte>, b: seq<Byte>, c: seq<Byte>)
    ensures a + b == a + c <==> b == c
  {
    assert (a + b)[|a|..] == b && (a + c)[|a|..] == c;
  }

  lemma AllEmpty(pieces: seq<seq<Byte>>)
    requires forall j :: 0 <= j < |pieces| ==> pieces[j] == []
    ensures ShortReadLast(pieces)
  {
  }

  /** Two bytes that are read one by one: only the first is archived. */
  lemma ShortReadTruncates()
    ensures Reads([[1], [2]]) && Content([[1], [2]]) == [1] && Concat([[1], [2]]) == [1, 2]
  {
    var pieces: seq<seq<Byte>> := [[1], [2]];
    assert pieces[1..] == [[2]] && pieces[1..][1..] == [];
    assert Concat(pieces[1..]) == [2] + Concat([]) == [2];
  }

  /** The list of blocks: each piece in a zeroed block. */
  function Boxed(piece: seq<Byte>): seq<Byte>
    requires |piece| <= BLOCK
  {
    piece + Repeat(BLOCK - |piece|, 0)
  }

  ghost function Join(blocks: seq<seq<Byte>>, n: nat): seq<Byte>
    requires n <= |blocks|
  {
    if n == 0 then [] else Join(blocks, n - 1) + blocks[n - 1]
  }

  /** Reads a file: the list of blocks and the number of bytes in it. */
  method ReadFile(pieces: seq<seq<Byte>>) returns (blocks: seq<seq<Byte>>, size: nat)
    requires Reads(pieces)
    ensures size == |Content(pieces)| && BlockCount(size) <= |blocks|
    ensures Join(blocks, BlockCount(size)) == Body(Content(pieces))
  {
    var i := 0;
    blocks, size := [], 0;
    ghost var done: seq<Byte> := [];
    while true
      invariant i < |pieces| && Reads(pieces[i..])
      invariant |blocks| == i && size == BLOCK * i == |done|
      invariant Join(blocks, i) == done && done + Content(pieces[i..]) == Content(pieces)
      decreases |pieces| - i
    {
      var piece := pieces[i];
      assert pieces[i..][0] == piece && pieces[i..][1..] == pieces[i + 1..];
      JoinAppend(blocks, Boxed(piece), i);
      blocks := blocks + [Boxed(piece)];
      size := size + |piece|;
      if |piece| != BLOCK {
        LastBlock(blocks, done, piece, i);
        return;
      }
      assert Boxed(piece) == piece;
      done := done + piece;
      i := i + 1;
    }
  }

  lemma {:induction false} JoinAppend(blocks: seq<seq<Byte>>, b: seq<Byte>, n: nat)
    requires n <= |blocks|
    ensures Join(blocks + [b], n) == Join(blocks, n)
    ensures n == |blocks| ==> Join(blocks + [b], n + 1) == Join(blocks, n) + b
  {
    if n > 0 {
      JoinAppend(blocks, b, n - 1);
    }
  }

  lemma LastBlock(blocks: seq<seq<Byte>>, done: seq<Byte>, piece: seq<Byte>, i: nat)
    requires |piece| < BLOCK && |done| == BLOCK * i && |blocks| == i + 1
    requires Join(blocks, i) == done && Join(blocks, i + 1) == done + Boxed(piece)
    ensures BlockCount(|done| + |piece|) <= i + 1
    ensures Join(blocks, BlockCount(|done| + |piece|)) == Body(done + piece)
  {
    var size := |done| + |piece|;
    if piece == [] {
      assert BlockCount(size) == i;
      assert Body(done + piece) == done + piece == done;
    } else {
      assert BlockCount(size) == i + 1;
      assert Body(done + piece) == done + Boxed(piece);
    }
  }

  /** Archives one file. */
  method ArchiveFile(f: Fields, pieces: seq<seq<Byte>>) returns (out: seq<Byte>)
    requires Reads(pieces) && Proper(f.(size := |Content(pieces)|))
    ensures out == Archive(f, Content(pieces))
    ensures |out| == BLOCK * (1 + BlockCount(|Content(pieces)|))
    ensures BLOCK + |Content(pieces)| <= |out| < BLOCK + |Content(pieces)| + BLOCK && |out| % BLOCK == 0
    ensures out[BLOCK..BLOCK + |Content(pieces)|] == Content(pieces)
    ensures forall i :: BLOCK + |Content(pieces)| <= i < |out| ==> out[i] == 0
  {
    hide Header, Content, Body;
    var blocks, size := ReadFile(pieces);
    var header := WriteHeader(f.(size := size));
    out := header;
    var cur, left: int := 0, size;
    while left > 0
      invariant 0 <= cur <= BlockCount(size) && left == size - BLOCK * cur
      invariant out == header + Join(blocks, cur)
    {
      // The list never runs out while bytes are left.
      assert cur < BlockCount(size) <= |blocks|;
      out := out + blocks[cur];
      cur := cur + 1;
      left := left - BLOCK;
    }
    assert cur == BlockCount(size);
    BodyLength(Content(pieces));
    BodyIsPadded(header, Content(pieces));
  }

  lemma BodyIsPadded(header: seq<Byte>, content: seq<Byte>)
    requires |header| == BLOCK
    ensures
      var out, n := header + Body(content), |content|;
      && BLOCK + n <= |out| < BLOCK + n + BLOCK && |out| % BLOCK == 0
      && out[BLOCK..BLOCK + n] == content
      && (forall i :: BLOCK + n <= i < |out| ==> out[i] == 0)
  {
    BlockCountIsCeiling(|content|);
    assert (header + Body(content))[BLOCK..] == Body(content);
    assert Body(content)[..|content|] == content;
  }

  lemma BodyLength(content: seq<Byte>)
    ensures |Body(content)| == BLOCK * BlockCount(|content|)
  {
  }

  // Reading the archive.

  /** All fields of a header block; None if a field is no number or the checksum is wrong. */
  function ReadFields(h: seq<Byte>): Option<Fields>
    requires |h| == BLOCK
  {
    var mode, uid, gid := Number(h[100..108]), Number(h[108..116]), Number(h[116..124]);
    var size, mtime, kind := Number(h[124..136]), Number(h[136..148]), h[156] - ZERO;
    if mode < 0 || uid < 0 || gid < 0 || size < 0 || mtime < 0 || kind < 0 then None
    else if Number(h[148..156]) != ByteSum(Blanked(h)) then None
    else Some(Fields(ReadPath(h), mode, uid, gid, size, mtime, kind))
  }

  datatype Member = Member(fields: Fields, content: seq<Byte>)

  datatype Parsed = Broken | Parsed(member: Member, rest: seq<Byte>)

  /** Reads one archive member and tells what follows it. */
  function ReadMember(s: seq<Byte>): (r: Parsed)
    ensures r.Parsed? ==> |r.rest| < |s|
  {
    if |s| < BLOCK then Broken
    else match ReadFields(s[..BLOCK])
         case None => Broken
         case Some(f) =>
           if |s| < BLOCK + BLOCK * BlockCount(f.size) then Broken
           else Parsed(Member(f, s[BLOCK..BLOCK + f.size]), s[BLOCK + BLOCK * BlockCount(f.size)..])
  }

  /** The fields of a file fit their places in the header; of the mode only nine bits are kept. */
  predicate Fits(f: Fields) {
    |f.path| <= 100 && Ascii(f.path) && f.uid < Pow8(8) && f.gid < Pow8(8)
  }

  /** What a reader gets of the fields: the permission bits, without the type bits of the mode. */
  function Stored(f: Fields): Fields {
    f.(mode := f.mode % 512)
  }

  lemma KindBack(f: Fields)
    requires Proper(f) && SignedSum(ToType(f)) >= 0
    ensures Header(f)[156] == Digit(f.kind)
  {
    hide PrintAt, Padded;
    BlankedHeader(f);
    assert Blanked(Header(f))[156] == Header(f)[156];
    assert ToType(f)[148..157][8] == ToType(f)[156];
  }

  /** Every field of a header, with the permission bits of the mode, is read back if and only if the fields fit. */
  lemma FieldsBackIff(f: Fields)
    requires Proper(f)
    ensures ReadFields(Header(f)) == Some(Stored(f)) <==> Fits(f)
  {
    hide Header, Number, Until, Pow8, SignedSum, Ascii, ToType, ByteSum, Blanked, ReadPath;
    PathIff(f);
    NumbersBack(f);
    if |f.path| <= 100 {
      ChecksumIff(f);
      AsciiPath(f);
      AsciiSum(ToType(f));
      if Ascii(f.path) {
        KindBack(f);
      }
    }
  }

  /** One member is read back exactly, with whatever follows it left over. */
  lemma MemberBack(f: Fields, content: seq<Byte>, rest: seq<Byte>)
    requires Proper(f.(size := |content|)) && Fits(f)
    ensures ReadMember(Archive(f, content) + rest) ==
            Parsed(Member(Stored(f.(size := |content|)), content), rest)
  {
    hide Header, ReadFields;
    var f' := f.(size := |content|);
    FieldsBackIff(f');
    var s := Archive(f, content) + rest;
    BodyLength(content);
    assert s[..BLOCK] == Header(f');
    assert s[BLOCK..BLOCK + |content|] == content;
    assert s[BLOCK + BLOCK * BlockCount(|content|)..] == rest;
  }

  // A whole archive.

  predicate Archivable(m: Member) {
    Proper(m.fields) && Fits(m.fields) && m.fields.size == |m.content|
  }

  ghost predicate AllArchivable(ms: seq<Member>) {
    forall m :: m in ms ==> Archivable(m)
  }

  ghost function WriteAll(ms: seq<Member>): seq<Byte>
    requires AllArchivable(ms)
  {
    if ms == [] then []
    else
      assert Archivable(ms[0]);
      Archive(ms[0].fields, ms[0].content) + WriteAll(ms[1..])
  }

  function ReadAll(s: seq<Byte>): Option<seq<Member>>
    decreases |s|
  {
    if s == [] then Some([])
    else match ReadMember(s)
         case Broken => None
         case Parsed(m, rest) =>
           match ReadAll(rest)
           case None => None
           case Some(ms) => Some([m] + ms)
  }

  function StoredMember(m: Member): Member {
    m.(fields := Stored(m.fields))
  }

  function AllStored(ms: seq<Member>): (r: seq<Member>)
    ensures |r| == |ms| && forall i :: 0 <= i < |ms| ==> r[i] == StoredMember(ms[i])
  {
    seq(|ms|, i requires 0 <= i < |ms| => StoredMember(ms[i]))
  }

  /** Reading a written archive gives back all its members, in order, with their permission bits. */
  lemma {:induction false} ArchiveRoundTrip(ms: seq<Member>)
    requires AllArchivable(ms)
    ensures ReadAll(WriteAll(ms)) == Some(AllStored(ms))
  {
    hide ReadMember, Archive, Archivable;
    if ms != [] {
      var m := ms[0];
      assert Archivable(m);
      ArchiveRoundTrip(ms[1..]);
      ArchivedMember(m, WriteAll(ms[1..]));
      assert [StoredMember(m)] + AllStored(ms[1..]) == AllStored(ms);
    }
  }

  lemma ArchivedMember(m: Member, rest: seq<Byte>)
    requires Archivable(m)
    ensures Proper(m.fields.(size := |m.content|))
    ensures Archive(m.fields, m.content) != []
    ensures ReadMember(Archive(m.fields, m.content) + rest) == Parsed(StoredMember(m), rest)
  {
    assert m.fields.(size := |m.content|) == m.fields;
    MemberBack(m.fields, m.content, rest);
  }

  /** A regular file of mode 100644, as it is archived and as it comes back. */
  lemma RegularFileBack(content: seq<Byte>)
    requires |content| < 0x8000_0000
    ensures
      var f := Fields([97], 0x81A4, 0, 0, |content|, 0, 0);
      Archivable(Member(f, content)) &&
      ReadAll(Archive(f, content)) == Some([Member(f.(mode := 0x1A4), content)])
  {
    hide Archive, ReadMember, Archivable;
    var f := Fields([97], 0x81A4, 0, 0, |content|, 0, 0);
    assert Archivable(Member(f, content)) by { SmallFileFits(f, content); }
    ArchivedMember(Member(f, content), []);
    assert Archive(f, content) + [] == Archive(f, content);
    var m := StoredMember(Member(f, content));
    assert m == Member(f.(mode := 0x1A4), content);
    assert ReadAll([]) == Some([]) && [m] + [] == [m];
    assert ReadAll(Archive(f, content)) == Some([m] + []);
  }

  lemma SmallFileFits(f: Fields, content: seq<Byte>)
    requires f.path == [97] && f.uid == f.gid == f.mtime == f.kind == 0 && f.size == |content| < 0x8000_0000
    ensures Archivable(Member(f, content))
  {
    assert forall b :: b in f.path ==> b == 97;
  }
}
