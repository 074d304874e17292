/**
 The header block of the archive writer: fields are printed into a zeroed block of 512 bytes
 at fixed offsets, in ascending order, each with a terminating zero that may run into the next
 field before that is printed. The offsets are those of the "ustar Interchange Format" section
 of the pax utility in IEEE Std 1003.1, in the older layout without a magic field.
 */
module TarHeader {
  import opened Bits

  type Byte = x: int | 0 <= x < 256

  const BLOCK := 512
  const SPACE: Byte := 32
  const ZERO: Byte := 48

  // Octal numbers.

  function Digit(d: nat): Byte
    requires d < 10
  {
    ZERO + d
  }

  function Octal(n: nat): (r: seq<Byte>)
    ensures |r| > 0 && forall i :: 0 <= i < |r| ==> ZERO <= r[i] < ZERO + 8
  {
    if n < 8 then [Digit(n)] else Octal(n / 8) + [Digit(n % 8)]
  }

  function Repeat(n: nat, b: Byte): (r: seq<Byte>)
    ensures |r| == n && forall i :: 0 <= i < n ==> r[i] == b
  {
    seq(n, _ => b)
  }

  /** A number printed with at least `width` octal digits. */
  function Padded(n: nat, width: nat): (r: seq<Byte>)
    ensures |r| >= width && |r| > 0 && forall i :: 0 <= i < |r| ==> ZERO <= r[i] < ZERO + 8
    ensures |r| == if |Octal(n)| < width then width else |Octal(n)|
  {
    var d := Octal(n);
    if |d| < width then Repeat(width - |d|, ZERO) + d else d
  }

  function Value(d: seq<Byte>): int {
    if d == [] then 0 else 8 * Value(d[..|d| - 1]) + (d[|d| - 1] - ZERO)
  }

  lemma {:induction false} OctalValue(n: nat)
    ensures Value(Octal(n)) == n
  {
    if n >= 8 {
      OctalValue(n / 8);
      assert Octal(n)[..|Octal(n)| - 1] == Octal(n / 8);
    } else {
      assert Octal(n)[..0] == [];
    }
  }

  lemma {:induction false} LeadingZeros(k: nat, d: seq<Byte>)
    ensures Value(Repeat(k, ZERO) + d) == Value(d)
  {
    if d == [] {
      assert Repeat(k, ZERO) + d == Repeat(k, ZERO);
      ValueOfZeros(k);
    } else {
      LeadingZeros(k, d[..|d| - 1]);
      assert (Repeat(k, ZERO) + d)[..k + |d| - 1] == Repeat(k, ZERO) + d[..|d| - 1];
    }
  }

  lemma {:induction false} ValueOfZeros(k: nat)
    ensures Value(Repeat(k, ZERO)) == 0
  {
    if k > 0 {
      ValueOfZeros(k - 1);
      assert Repeat(k, ZERO)[..k - 1] == Repeat(k - 1, ZERO);
    }
  }

  lemma PaddedValue(n: nat, width: nat)
    ensures Value(Padded(n, width)) == n
  {
    OctalValue(n);
    LeadingZeros(if |Octal(n)| < width then width - |Octal(n)| else 0, Octal(n));
    assert Repeat(0, ZERO) + Octal(n) == Octal(n);
  }

  function Pow8(k: nat): (r: nat)
    ensures r >= 1
  {
    if k == 0 then 1 else 8 * Pow8(k - 1)
  }

  /** A number has at most `k` octal digits if and only if it is below 8^k. */
  lemma {:induction false} OctalLength(n: nat, k: nat)
    requires k > 0
    ensures |Octal(n)| <= k <==> n < Pow8(k)
  {
    if k > 1 && n >= 8 {
      OctalLength(n / 8, k - 1);
    } else if n >= 8 {
      assert |Octal(n / 8)| > 0;
      assert Pow8(1) == 8 * Pow8(0) == 8;
    } else {
      Pow8Grows(k);
    }
  }

  lemma {:induction false} Pow8Grows(k: nat)
    requires k > 0
    ensures Pow8(k) >= 8
  {
    if k > 1 {
      Pow8Grows(k - 1);
    }
  }

  function Shift8(n: nat, k: nat): nat {
    if k == 0 then n else Shift8(n / 8, k - 1)
  }

  /** Dropping the last `k` digits divides by eight `k` times. */
  lemma {:induction false} OctalPrefix(n: nat, k: nat)
    requires k < |Octal(n)|
    ensures Octal(n)[..|Octal(n)| - k] == Octal(Shift8(n, k))
  {
    if k > 0 {
      OctalPrefix(n / 8, k - 1);
      assert Octal(n)[..|Octal(n)| - k] == Octal(n / 8)[..|Octal(n / 8)| - (k - 1)];
    } else {
      assert Octal(n)[..|Octal(n)|] == Octal(n);
    }
  }

  lemma {:induction false} ShiftShrinks(n: nat, k: nat)
    requires k > 0 && n > 0
    ensures Shift8(n, k) < n
  {
    if k > 1 && n / 8 > 0 {
      ShiftShrinks(n / 8, k - 1);
    } else if k > 1 {
      ShiftZero(k - 1);
    }
  }

  lemma {:induction false} ShiftZero(k: nat)
    ensures Shift8(0, k) == 0
  {
    if k > 0 {
      ShiftZero(k - 1);
    }
  }

  // Printing into the block.

  /** sprintf: the text and a terminating zero. */
  function PrintAt(h: seq<Byte>, at: nat, text: seq<Byte>): (r: seq<Byte>)
    requires at + |text| < |h|
    ensures |r| == |h| && r[..at] == h[..at]
    ensures r[at..at + |text|] == text && r[at + |text|] == 0
    ensures r[at + |text| + 1..] == h[at + |text| + 1..]
  {
    h[..at] + text + [0] + h[at + |text| + 1..]
  }

  datatype Fields = Fields(path: seq<Byte>, mode: nat, uid: nat, gid: nat,
                           size: nat, mtime: nat, kind: nat)

  /** What the callers hand over: a path from a 256-byte buffer, 32-bit numbers, a one-digit type. */
  predicate Proper(f: Fields) {
    && |f.path| < 256 && (forall i :: 0 <= i < |f.path| ==> f.path[i] != 0)
    && f.uid < 0x1_0000_0000 && f.gid < 0x1_0000_0000
    && f.size < 0x8000_0000 && f.mtime < 0x1_0000_0000
    && f.kind < 10
  }

  lemma WordDigits(n: nat)
    requires n < 0x1_0000_0000
    ensures |Octal(n)| <= 11
  {
    assert Pow8(11) == 8 * Pow8(10) && Pow8(10) == 8 * Pow8(9) && Pow8(9) == 8 * Pow8(8);
    assert Pow8(8) == 8 * Pow8(7) && Pow8(7) == 8 * Pow8(6) && Pow8(6) == 8 * Pow8(5);
    assert Pow8(5) == 8 * Pow8(4) && Pow8(4) == 8 * Pow8(3) && Pow8(3) == 8 * Pow8(2);
    assert Pow8(2) == 8 * Pow8(1) && Pow8(1) == 8;
    OctalLength(n, 11);
  }

  // The header, field by field.

  function Blank(): seq<Byte> {
    Repeat(BLOCK, 0)
  }

  /** The block after printing the first fields, up to the one in the name. */
  function ToPath(f: Fields): (r: seq<Byte>)
    requires Proper(f)
    ensures |r| == BLOCK
  {
    PrintAt(Blank(), 0, f.path)
  }

  function ToMode(f: Fields): (r: seq<Byte>)
    requires Proper(f)
    ensures |r| == BLOCK
  {
    ModeDigits(f.mode);
    PrintAt(ToPath(f), 100, Padded(f.mode % 512, 7))
  }

  function ToUid(f: Fields): (r: seq<Byte>)
    requires Proper(f)
    ensures |r| == BLOCK
  {
    WordDigits(f.uid);
    PrintAt(ToMode(f), 108, Padded(f.uid, 7))
  }

  function ToGid(f: Fields): (r: seq<Byte>)
    requires Proper(f)
    ensures |r| == BLOCK
  {
    WordDigits(f.gid);
    PrintAt(ToUid(f), 116, Padded(f.gid, 7))
  }

  function ToSize(f: Fields): (r: seq<Byte>)
    requires Proper(f)
    ensures |r| == BLOCK
  {
    WordDigits(f.size);
    PrintAt(ToGid(f), 124, Padded(f.size, 11))
  }

  function ToMtime(f: Fields): (r: seq<Byte>)
    requires Proper(f)
    ensures |r| == BLOCK
  {
    WordDigits(f.mtime);
    PrintAt(ToSize(f), 136, Padded(f.mtime, 7))
  }

  /** The checksum field holds eight blanks while the sum is taken. */
  function ToType(f: Fields): (r: seq<Byte>)
    requires Proper(f)
    ensures |r| == BLOCK
  {
    PrintAt(ToMtime(f), 148, Repeat(8, SPACE) + [Digit(f.kind)])
  }

  /** A C char is signed: bytes from 128 on count as negative. */
  function Signed(b: Byte): int {
    if b < 128 then b else b - 256
  }

  function SignedSum(h: seq<Byte>): int {
    if h == [] then 0 else SignedSum(h[..|h| - 1]) + Signed(h[|h| - 1])
  }

  /** What %o prints for an int: negative values wrap around to 32-bit words. */
  function Unsigned32(n: int): nat {
    n % 0x1_0000_0000
  }

  function Header(f: Fields): (r: seq<Byte>)
    requires Proper(f)
    ensures |r| == BLOCK
  {
    WordDigits(Unsigned32(SignedSum(ToType(f))));
    PrintAt(ToType(f), 148, Padded(Unsigned32(SignedSum(ToType(f))), 6))
  }

  lemma ModeDigits(mode: nat)
    ensures |Octal(mode % 512)| <= 3
  {
    assert Pow8(3) == 8 * Pow8(2) && Pow8(2) == 8 * Pow8(1) && Pow8(1) == 8;
    OctalLength(mode % 512, 3);
  }

  // Reading it back.

  /** A field ends at the first zero byte, or with the field; a number also at a blank. */
  function Until(field: seq<Byte>, blankEnds: bool): seq<Byte> {
    if field == [] || field[0] == 0 || (blankEnds && field[0] == SPACE) then []
    else [field[0]] + Until(field[1..], blankEnds)
  }

  function Number(field: seq<Byte>): int {
    Value(Until(field, true))
  }

  lemma {:induction false} UntilEnd(text: seq<Byte>, rest: seq<Byte>, blankEnds: bool)
    requires forall i :: 0 <= i < |text| ==> text[i] != 0 && (blankEnds ==> text[i] != SPACE)
    requires rest == [] || rest[0] == 0
    ensures Until(text + rest, blankEnds) == text
  {
    if text != [] {
      assert (text + rest)[1..] == text[1..] + rest;
      UntilEnd(text[1..], rest, blankEnds);
    } else {
      assert text + rest == rest;
    }
  }

  /** A text printed at `at`, read back as a field that ends before `end`. */
  lemma ReadBack(h: seq<Byte>, at: nat, end: nat, text: seq<Byte>, blankEnds: bool)
    requires at <= end <= |h| && at + |text| < |h|
    requires forall i :: 0 <= i < |text| ==> text[i] != 0 && (blankEnds ==> text[i] != SPACE)
    ensures Until(PrintAt(h, at, text)[at..end], blankEnds) ==
            if at + |text| <= end then text else text[..end - at]
  {
    var field := PrintAt(h, at, text)[at..end];
    if at + |text| <= end {
      var rest := PrintAt(h, at, text)[at + |text|..end];
      assert field == text + rest;
      UntilEnd(text, rest, blankEnds);
    } else {
      assert field == text[..end - at] + [];
      UntilEnd(text[..end - at], [], blankEnds);
    }
  }

  /** The first digits of a longer number are another number. */
  lemma CutNumber(n: nat, room: nat)
    requires 0 < room < |Octal(n)|
    ensures Value(Octal(n)[..room]) != n
  {
    var k := |Octal(n)| - room;
    OctalPrefix(n, k);
    OctalValue(Shift8(n, k));
    ShiftShrinks(n, k);
  }

  lemma PaddedIsOctal(n: nat, width: nat)
    requires |Octal(n)| >= width
    ensures Padded(n, width) == Octal(n)
  {
  }

  /** A number printed with `width` digits, read back from a field of `room` bytes. */
  lemma NumberBack(h: seq<Byte>, at: nat, room: nat, n: nat, width: nat)
    requires 0 < room && width <= room && at + room <= |h| && at + |Padded(n, width)| < |h|
    ensures Number(PrintAt(h, at, Padded(n, width))[at..at + room]) == n <==> |Octal(n)| <= room
  {
    hide PrintAt, Until, Value, Octal, Padded;
    ReadBack(h, at, at + room, Padded(n, width), true);
    PaddedValue(n, width);
    if |Octal(n)| > room {
      PaddedIsOctal(n, width);
      CutNumber(n, room);
    }
  }

  lemma ShorterPrefix(a: seq<Byte>, b: seq<Byte>, m: nat, n: nat)
    requires m <= n <= |a| && n <= |b| && a[..n] == b[..n]
    ensures a[..m] == b[..m]
  {
    assert a[..m] == a[..n][..m] && b[..m] == b[..n][..m];
  }

  /** Later fields are printed further on, so they leave the earlier ones alone. */
  lemma EarlierFields(f: Fields)
    requires Proper(f)
    ensures Header(f)[..148] == ToMtime(f)[..148]
    ensures Header(f)[..136] == ToSize(f)[..136]
    ensures Header(f)[..124] == ToGid(f)[..124]
    ensures Header(f)[..116] == ToUid(f)[..116]
    ensures Header(f)[..108] == ToMode(f)[..108]
    ensures Header(f)[..100] == ToPath(f)[..100]
  {
    hide PrintAt, Padded, SignedSum;
    var h := Header(f);
    assert h[..148] == ToMtime(f)[..148];
    ShorterPrefix(h, ToMtime(f), 136, 148);
    ShorterPrefix(h, ToSize(f), 124, 136);
    ShorterPrefix(h, ToGid(f), 116, 124);
    ShorterPrefix(h, ToUid(f), 108, 116);
    ShorterPrefix(h, ToMode(f), 100, 108);
  }

  lemma SameSlice(a: seq<Byte>, b: seq<Byte>, from: nat, to: nat)
    requires from <= to <= |a| && to <= |b| && a[..to] == b[..to]
    ensures a[from..to] == b[from..to]
  {
    assert a[from..to] == a[..to][from..] && b[from..to] == b[..to][from..];
  }

  function ReadPath(h: seq<Byte>): seq<Byte>
    requires |h| == BLOCK
  {
    Until(h[0..100], false)
  }

  /** The path is recovered if and only if it has at most 100 bytes. */
  lemma PathIff(f: Fields)
    requires Proper(f)
    ensures ReadPath(Header(f)) == f.path <==> |f.path| <= 100
  {
    hide Header, PrintAt;
    EarlierFields(f);
    SameSlice(Header(f), ToPath(f), 0, 100);
    ReadBack(Blank(), 0, 100, f.path, false);
  }

  /** The numeric fields, read from their places. */
  lemma NumbersBack(f: Fields)
    requires Proper(f)
    ensures Number(Header(f)[100..108]) == f.mode % 512
    ensures Number(Header(f)[108..116]) == f.uid <==> f.uid < Pow8(8)
    ensures Number(Header(f)[116..124]) == f.gid <==> f.gid < Pow8(8)
    ensures Number(Header(f)[124..136]) == f.size
    ensures Number(Header(f)[136..148]) == f.mtime
  {
    hide Header, PrintAt, Padded, Number, Octal, Pow8;
    var h := Header(f);
    EarlierFields(f);
    ModeDigits(f.mode);
    WordDigits(f.uid);
    WordDigits(f.gid);
    WordDigits(f.size);
    WordDigits(f.mtime);
    SameSlice(h, ToMode(f), 100, 108);
    NumberBack(ToPath(f), 100, 8, f.mode % 512, 7);
    SameSlice(h, ToUid(f), 108, 116);
    NumberBack(ToMode(f), 108, 8, f.uid, 7);
    OctalLength(f.uid, 8);
    SameSlice(h, ToGid(f), 116, 124);
    NumberBack(ToUid(f), 116, 8, f.gid, 7);
    OctalLength(f.gid, 8);
    SameSlice(h, ToSize(f), 124, 136);
    NumberBack(ToGid(f), 124, 12, f.size, 11);
    SameSlice(h, ToMtime(f), 136, 148);
    NumberBack(ToSize(f), 136, 12, f.mtime, 7);
  }

  // The checksum.

  function ByteSum(h: seq<Byte>): nat {
    if h == [] then 0 else ByteSum(h[..|h| - 1]) + h[|h| - 1]
  }

  /** The block with its checksum field blanked, over which the checksum is defined. */
  function Blanked(h: seq<Byte>): seq<Byte>
    requires |h| == BLOCK
  {
    h[..148] + Repeat(8, SPACE) + h[156..]
  }

  predicate Ascii(bs: seq<Byte>) {
    forall i :: 0 <= i < |bs| ==> bs[i] < 128
  }

  lemma {:induction false} AsciiSum(h: seq<Byte>)
    ensures ByteSum(h) <= 255 * |h|
    ensures SignedSum(h) <= ByteSum(h)
    ensures SignedSum(h) == ByteSum(h) <==> Ascii(h)
    ensures SignedSum(h) >= -128 * |h|
  {
    if h != [] {
      AsciiSum(h[..|h| - 1]);
      assert h == h[..|h| - 1] + [h[|h| - 1]];
    }
  }

  /** The finished block differs from the one that was summed in the checksum field only. */
  lemma BlankedHeader(f: Fields)
    requires Proper(f) && SignedSum(ToType(f)) >= 0
    ensures Blanked(Header(f)) == ToType(f)
    ensures |Padded(Unsigned32(SignedSum(ToType(f))), 6)| == 6
  {
    var h, t := Header(f), ToType(f);
    var d := Padded(Unsigned32(SignedSum(t)), 6);
    AsciiSum(t);
    SmallSum(SignedSum(t));
    assert h[..148] == t[..148];
    assert h[156..] == t[156..] by {
      assert h[148 + |d| + 1..] == t[148 + |d| + 1..];
      assert h[156..] == h[155..][1..] && t[156..] == t[155..][1..];
    }
    assert t[148..156] == Repeat(8, SPACE) by {
      assert t[148..157] == Repeat(8, SPACE) + [Digit(f.kind)];
      assert t[148..156] == t[148..157][..8];
    }
    assert t == t[..148] + t[148..156] + t[156..];
  }

  lemma SmallSum(n: int)
    requires 0 <= n <= 255 * BLOCK
    ensures Unsigned32(n) == n && |Octal(n)| <= 6
  {
    assert Pow8(6) == 8 * Pow8(5) && Pow8(5) == 8 * Pow8(4) && Pow8(4) == 8 * Pow8(3);
    assert Pow8(3) == 8 * Pow8(2) && Pow8(2) == 8 * Pow8(1) && Pow8(1) == 8;
    OctalLength(n, 6);
  }

  /** With a non-negative sum, the checksum field reads back as the sum of signed bytes. */
  lemma ChecksumBack(f: Fields)
    requires Proper(f) && SignedSum(ToType(f)) >= 0
    ensures Number(Header(f)[148..156]) == SignedSum(ToType(f))
  {
    hide PrintAt, Padded, SignedSum, Number, Octal;
    AsciiSum(ToType(f));
    SmallSum(SignedSum(ToType(f)));
    NumberBack(ToType(f), 148, 8, SignedSum(ToType(f)), 6);
  }

  /** A negative sum prints as eleven digits, of which the field shows a large number. */
  lemma NegativeChecksum(f: Fields)
    requires Proper(f) && SignedSum(ToType(f)) < 0
    ensures Number(Header(f)[148..156]) > 255 * BLOCK
  {
    hide PrintAt, SignedSum, ToType, Octal, Value, Until, Padded;
    AsciiSum(ToType(f));
    var n := Unsigned32(SignedSum(ToType(f)));
    WordDigits(n);
    LargeNumber(n);
    PaddedIsOctal(n, 6);
    ReadBack(ToType(f), 148, 156, Padded(n, 6), true);
  }

  lemma LargeNumber(n: nat)
    requires 0x1_0000_0000 - 128 * BLOCK <= n < 0x1_0000_0000
    ensures |Octal(n)| == 11 && Value(Octal(n)[..8]) > 255 * BLOCK
  {
    hide Octal;
    assert Pow8(10) == 8 * Pow8(9) && Pow8(9) == 8 * Pow8(8) && Pow8(8) == 8 * Pow8(7);
    assert Pow8(7) == 8 * Pow8(6) && Pow8(6) == 8 * Pow8(5) && Pow8(5) == 8 * Pow8(4);
    assert Pow8(4) == 8 * Pow8(3) && Pow8(3) == 8 * Pow8(2) && Pow8(2) == 8 * Pow8(1);
    assert Pow8(1) == 8;
    OctalLength(n, 10);
    WordDigits(n);
    OctalPrefix(n, 3);
    assert Shift8(n, 3) == n / 8 / 8 / 8 by {
      assert Shift8(n, 3) == Shift8(n / 8, 2) == Shift8(n / 8 / 8, 1) == Shift8(n / 8 / 8 / 8, 0);
    }
    OctalValue(Shift8(n, 3));
  }

  lemma PrintAscii(h: seq<Byte>, at: nat, text: seq<Byte>)
    requires at + |text| < |h| && Ascii(h) && Ascii(text)
    ensures Ascii(PrintAt(h, at, text))
  {
  }

  lemma AsciiDigits(n: nat, width: nat)
    ensures Ascii(Padded(n, width))
  {
  }

  lemma AsciiBlock(f: Fields)
    requires Proper(f) && Ascii(f.path)
    ensures Ascii(ToType(f))
  {
    hide PrintAt, Padded, Octal, Ascii;
    assert Ascii(Blank()) by { AsciiZeros(BLOCK, 0); }
    PrintAscii(Blank(), 0, f.path);
    ModeDigits(f.mode);
    AsciiDigits(f.mode % 512, 7);
    PrintAscii(ToPath(f), 100, Padded(f.mode % 512, 7));
    WordDigits(f.uid);
    AsciiDigits(f.uid, 7);
    PrintAscii(ToMode(f), 108, Padded(f.uid, 7));
    WordDigits(f.gid);
    AsciiDigits(f.gid, 7);
    PrintAscii(ToUid(f), 116, Padded(f.gid, 7));
    WordDigits(f.size);
    AsciiDigits(f.size, 11);
    PrintAscii(ToGid(f), 124, Padded(f.size, 11));
    WordDigits(f.mtime);
    AsciiDigits(f.mtime, 7);
    PrintAscii(ToSize(f), 136, Padded(f.mtime, 7));
    AsciiTypeText(f.kind);
    PrintAscii(ToMtime(f), 148, Repeat(8, SPACE) + [Digit(f.kind)]);
  }

  lemma AsciiZeros(n: nat, b: Byte)
    requires b < 128
    ensures Ascii(Repeat(n, b))
  {
  }

  lemma AsciiTypeText(kind: nat)
    requires kind < 10
    ensures Ascii(Repeat(8, SPACE) + [Digit(kind)])
  {
  }

  lemma PathInBlock(f: Fields, i: nat)
    requires Proper(f) && |f.path| <= 100 && i < |f.path|
    ensures ToType(f)[i] == f.path[i]
  {
    hide PrintAt, Padded;
    EarlierFields(f);
    var t := ToType(f);
    assert Header(f)[..148] == t[..148];
    ShorterPrefix(Header(f), t, 100, 148);
    assert t[i] == t[..100][i] == ToPath(f)[..100][i];
    assert ToPath(f)[0..|f.path|][i] == f.path[i];
  }

  lemma AsciiPath(f: Fields)
    requires Proper(f) && |f.path| <= 100
    ensures Ascii(ToType(f)) <==> Ascii(f.path)
  {
    hide ToType;
    if Ascii(f.path) {
      AsciiBlock(f);
    }
    forall i | 0 <= i < |f.path|
      ensures ToType(f)[i] == f.path[i]
    {
      PathInBlock(f, i);
    }
  }

  /**
   The stored checksum is the standard one, the sum of all bytes as unsigned numbers with the
   checksum field blank, if and only if no byte of the path is above 127.
   */
  lemma ChecksumIff(f: Fields)
    requires Proper(f) && |f.path| <= 100
    ensures Number(Header(f)[148..156]) == ByteSum(Blanked(Header(f))) <==> Ascii(f.path)
  {
    hide PrintAt, Header, ToType, SignedSum, ByteSum, Number, Ascii;
    AsciiPath(f);
    AsciiSum(ToType(f));
    AsciiSum(Blanked(Header(f)));
    if SignedSum(ToType(f)) >= 0 {
      ChecksumBack(f);
      BlankedHeader(f);
    } else {
      NegativeChecksum(f);
    }
  }

  // The layout of the header.

  /** At `at` there are exactly `width` octal digits for `n`, and a zero byte behind them. */
  ghost predicate DigitsAt(h: seq<Byte>, at: nat, width: nat, n: int) {
    && at + width < |h| && h[at + width] == 0
    && (forall i :: at <= i < at + width ==> ZERO <= h[i] < ZERO + 8)
    && Value(h[at..at + width]) == n
  }

  lemma PrintedDigits(h: seq<Byte>, at: nat, n: nat, width: nat)
    requires at + |Padded(n, width)| < |h|
    ensures DigitsAt(PrintAt(h, at, Padded(n, width)), at, |Padded(n, width)|, n)
  {
    hide PrintAt, Padded, Value;
    var d, r := Padded(n, width), PrintAt(h, at, Padded(n, width));
    PaddedValue(n, width);
    forall i | at <= i < at + |d|
      ensures ZERO <= r[i] < ZERO + 8
    {
      assert r[i] == r[at..at + |d|][i - at] == d[i - at];
    }
  }

  lemma DigitsKept(h: seq<Byte>, h': seq<Byte>, at: nat, width: nat, n: int, end: nat)
    requires DigitsAt(h, at, width, n) && at + width < end <= |h'| && end <= |h| && h[..end] == h'[..end]
    ensures DigitsAt(h', at, width, n)
  {
    hide Value;
    assert forall i :: 0 <= i < end ==> h[..end][i] == h'[..end][i];
    ShorterPrefix(h, h', at + width, end);
    SameSlice(h, h', at, at + width);
  }

  lemma PaddedWidth(n: nat, width: nat)
    requires width > 0
    ensures n < Pow8(width) ==> |Padded(n, width)| == width
  {
    hide Octal, Pow8;
    OctalLength(n, width);
  }

  /** Every number is stored with leading zeros in the width of its field, if it has no more digits. */
  lemma HeaderLayout(f: Fields)
    requires Proper(f)
    ensures DigitsAt(Header(f), 100, 7, f.mode % 512)
    ensures f.uid < Pow8(7) ==> DigitsAt(Header(f), 108, 7, f.uid)
    ensures f.gid < Pow8(7) ==> DigitsAt(Header(f), 116, 7, f.gid)
    ensures DigitsAt(Header(f), 124, 11, f.size)
    ensures f.mtime < Pow8(7) ==> DigitsAt(Header(f), 136, 7, f.mtime)
  {
    hide Header, PrintAt, Padded, Octal, DigitsAt, Pow8;
    var h := Header(f);
    EarlierFields(f);
    ModeWidth(f.mode);
    PrintedDigits(ToPath(f), 100, f.mode % 512, 7);
    DigitsKept(ToMode(f), h, 100, 7, f.mode % 512, 108);
    if f.uid < Pow8(7) {
      PaddedWidth(f.uid, 7);
      PrintedDigits(ToMode(f), 108, f.uid, 7);
      DigitsKept(ToUid(f), h, 108, 7, f.uid, 116);
    }
    if f.gid < Pow8(7) {
      PaddedWidth(f.gid, 7);
      PrintedDigits(ToUid(f), 116, f.gid, 7);
      DigitsKept(ToGid(f), h, 116, 7, f.gid, 124);
    }
    SizeWidth(f.size);
    PrintedDigits(ToGid(f), 124, f.size, 11);
    DigitsKept(ToSize(f), h, 124, 11, f.size, 136);
    if f.mtime < Pow8(7) {
      PaddedWidth(f.mtime, 7);
      PrintedDigits(ToSize(f), 136, f.mtime, 7);
      DigitsKept(ToMtime(f), h, 136, 7, f.mtime, 148);
    }
  }

  lemma ModeWidth(mode: nat)
    ensures |Padded(mode % 512, 7)| == 7
  {
    ModeDigits(mode);
  }

  lemma SizeWidth(size: nat)
    requires size < 0x8000_0000
    ensures |Padded(size, 11)| == 11
  {
    WordDigits(size);
  }

  /** The checksum is six digits, a zero byte and a blank. */
  lemma ChecksumLayout(f: Fields)
    requires Proper(f) && SignedSum(ToType(f)) >= 0
    ensures DigitsAt(Header(f), 148, 6, SignedSum(ToType(f))) && Header(f)[155] == SPACE
  {
    hide PrintAt, Padded, SignedSum, DigitsAt;
    var sum, t := SignedSum(ToType(f)), ToType(f);
    AsciiSum(t);
    SmallSum(sum);
    BlankedHeader(f);
    PrintedDigits(t, 148, sum, 6);
    assert Header(f)[155..] == t[155..];
    assert t[155] == t[148..157][7] == SPACE;
    assert Header(f)[155] == Header(f)[155..][0];
  }

  // Headers that do not read back.

  const LONG_PATH := Fields(Repeat(101, 97), 0, 0, 0, 0, 0, 0)
  const NON_ASCII := Fields([200], 0, 0, 0, 0, 0, 0)
  const LARGE_UID := Fields([97], 0, 0x100_0000, 0, 0, 0, 0)

  /** A path of 101 bytes does not come back. */
  lemma LongPathIsCut()
    ensures Proper(LONG_PATH) && ReadPath(Header(LONG_PATH)) != LONG_PATH.path
  {
    hide Header, ReadPath;
    PathIff(LONG_PATH);
  }

  /** A path of the single byte 200 makes the stored sum differ from the standard one. */
  lemma NonAsciiChecksumDiffers()
    ensures Proper(NON_ASCII)
    ensures Number(Header(NON_ASCII)[148..156]) != ByteSum(Blanked(Header(NON_ASCII)))
  {
    hide Header, Number, ByteSum, Blanked;
    assert NON_ASCII.path[0] == 200;
    ChecksumIff(NON_ASCII);
  }

  /** The user 16777216 has nine octal digits, of which the field keeps eight. */
  lemma LargeUidIsCut()
    ensures Proper(LARGE_UID) && Number(Header(LARGE_UID)[108..116]) != LARGE_UID.uid
  {
    hide Header, Number;
    assert Pow8(8) == 8 * Pow8(7) && Pow8(7) == 8 * Pow8(6) && Pow8(6) == 8 * Pow8(5);
    assert Pow8(5) == 8 * Pow8(4) && Pow8(4) == 8 * Pow8(3) && Pow8(3) == 8 * Pow8(2);
    assert Pow8(2) == 8 * Pow8(1) && Pow8(1) == 8;
    NumbersBack(LARGE_UID);
  }
}
