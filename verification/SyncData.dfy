/**
 The socket exchange: one write, then a read loop. Every read is made into the start of the
 buffer, with room for the whole message, and the loop ends when enough bytes have come in
 altogether or a read fails. A read that finds the end of the stream is repeated.
 */
module SyncData {

  type Byte = b: nat | b < 256

  /**
   What successive reads return: a number of bytes of at most `size`, zero at the end of the
   stream, a negative number for an error. The loop ends once `missing` bytes have come in,
   or with an error.
   */
  ghost predicate Ends(got: seq<int>, size: nat, missing: int) {
    missing <= 0 ||
    (got != [] && got[0] <= size && (got[0] < 0 || Ends(got[1..], size, missing - got[0])))
  }

  /** The value returned: zero, or the error. */
  ghost function Code(got: seq<int>, size: nat, missing: int): int
    requires Ends(got, size, missing)
  {
    if missing <= 0 then 0
    else if got[0] < 0 then got[0]
    else Code(got[1..], size, missing - got[0])
  }

  /** How many bytes the loop takes from the stream. */
  ghost function Taken(got: seq<int>, size: nat, missing: int): nat
    requires Ends(got, size, missing)
  {
    if missing <= 0 || got[0] < 0 then 0
    else got[0] + Taken(got[1..], size, missing - got[0])
  }

  /** What the buffer holds in the end. */
  ghost function Filled(got: seq<int>, size: nat, missing: int, buf: seq<Byte>, stream: seq<Byte>)
    : (r: seq<Byte>)
    requires Ends(got, size, missing) && |buf| == size
    requires Taken(got, size, missing) <= |stream|
    ensures |r| == size
  {
    if missing <= 0 || got[0] < 0 then buf
    else Filled(got[1..], size, missing - got[0],
                stream[..got[0]] + buf[got[0]..], stream[got[0]..])
  }

  /**
   The exchange. A write of too few bytes is returned and nothing is read, except that a write
   of nothing at all counts as success. If the write is complete and the first read that finds
   data returns the whole message, the call returns 0 with the message in the buffer.
   */
  method SockSyncData(size: nat, written: int, buf: seq<Byte>, stream: seq<Byte>, got: seq<int>)
    returns (rc: int, remote: seq<Byte>, rest: seq<Byte>)
    requires |buf| == size
    requires (written >= size || written == 0) ==>
               Ends(got, size, size) && Taken(got, size, size) <= |stream|
    ensures written < size && written != 0 ==> rc == written && remote == buf && rest == stream
    ensures written >= size || written == 0 ==>
              && rc == Code(got, size, size)
              && remote == Filled(got, size, size, buf, stream)
              && rest == stream[Taken(got, size, size)..]
    ensures written >= size > 0 && FirstData(got) == size <= |stream| ==>
              rc == 0 && remote == stream[..size] && rest == stream[size..]
  {
    rc := written;
    if rc >= size {
      rc := 0;
    }
    remote, rest := buf, stream;
    if rc == 0 {
      rc, remote, rest := ReadAll(size, buf, stream, got);
      if size > 0 && FirstData(got) == size && size <= |stream| {
        WholeReadDelivers(got, size, buf, stream);
      }
    }
  }

  /** The read loop. */
  method ReadAll(size: nat, buf: seq<Byte>, stream: seq<Byte>, got: seq<int>)
    returns (rc: int, remote: seq<Byte>, rest: seq<Byte>)
    requires |buf| == size && Ends(got, size, size) && Taken(got, size, size) <= |stream|
    ensures rc == Code(got, size, size)
    ensures remote == Filled(got, size, size, buf, stream)
    ensures rest == stream[Taken(got, size, size)..]
  {
    rc, remote, rest := 0, buf, stream;
    var total, i := 0, 0;
    ghost var taken := 0;
    while total < size
      invariant rc == 0 && 0 <= i <= |got| && Ends(got[i..], size, size - total)
      invariant |remote| == size && taken <= |stream| && rest == stream[taken..]
      invariant Code(got[i..], size, size - total) == Code(got, size, size)
      invariant taken + Taken(got[i..], size, size - total) == Taken(got, size, size)
      invariant Filled(got[i..], size, size - total, remote, rest) ==
                Filled(got, size, size, buf, stream)
      decreases |got| - i
    {
      var n := got[i];
      assert got[i..][0] == n && got[i..][1..] == got[i + 1..];
      if n < 0 {
        return n, remote, rest;
      }
      remote := rest[..n] + remote[n..];
      rest := rest[n..];
      total, i := total + n, i + 1;
      taken := taken + n;
    }
  }

  // The loop in closed form.

  /** The bytes that the first `k` reads return. */
  function SumTo(got: seq<int>, k: nat): int
    requires k <= |got|
  {
    if k == 0 then 0 else got[0] + SumTo(got[1..], k - 1)
  }

  /** The first `k` reads return bytes, or nothing, and not enough of them. */
  ghost predicate NotEnough(got: seq<int>, size: nat, missing: int, k: nat) {
    k <= |got| && (forall i :: 0 <= i < k ==> 0 <= got[i] <= size) && SumTo(got, k) < missing
  }

  lemma NotEnoughTail(got: seq<int>, size: nat, missing: int, k: nat)
    requires k > 0 && NotEnough(got, size, missing, k)
    ensures NotEnough(got[1..], size, missing - got[0], k - 1)
  {
  }

  lemma {:induction false} SumToPositive(got: seq<int>, k: nat)
    requires k <= |got| && forall i :: 0 <= i < k ==> 0 <= got[i]
    ensures SumTo(got, k) >= 0
  {
    if k > 0 {
      SumToPositive(got[1..], k - 1);
    }
  }

  /** A read that fails while bytes are missing ends the loop, and its error is returned. */
  lemma {:induction false} ErrorIsReturned(got: seq<int>, size: nat, missing: int, k: nat)
    requires k < |got| && NotEnough(got, size, missing, k) && got[k] < 0
    ensures Ends(got, size, missing) && Code(got, size, missing) == got[k]
    ensures Taken(got, size, missing) == SumTo(got, k)
  {
    SumToPositive(got, k);
    if k > 0 {
      NotEnoughTail(got, size, missing, k);
      ErrorIsReturned(got[1..], size, missing - got[0], k - 1);
    }
  }

  /** A read that completes the number of bytes ends the loop; its bytes start the buffer. */
  lemma {:induction false} LastReadStartsBuffer(got: seq<int>, size: nat, missing: int, k: nat,
                                                buf: seq<Byte>, stream: seq<Byte>)
    requires k < |got| && NotEnough(got, size, missing, k)
    requires 0 <= got[k] <= size && SumTo(got, k) + got[k] >= missing
    requires |buf| == size && SumTo(got, k) + got[k] <= |stream|
    ensures Ends(got, size, missing) && Code(got, size, missing) == 0
    ensures Taken(got, size, missing) == SumTo(got, k) + got[k]
    ensures 0 <= SumTo(got, k)
    ensures Filled(got, size, missing, buf, stream)[..got[k]] ==
            stream[SumTo(got, k)..SumTo(got, k) + got[k]]
  {
    SumToPositive(got, k);
    if k > 0 {
      var n, rest := got[0], got[1..];
      NotEnoughTail(got, size, missing, k);
      SumToPositive(rest, k - 1);
      LastReadStartsBuffer(rest, size, missing - n, k - 1, stream[..n] + buf[n..], stream[n..]);
      SliceOfRest(stream, n, SumTo(rest, k - 1), got[k]);
    }
  }

  lemma SliceOfRest(stream: seq<Byte>, n: nat, from: nat, count: nat)
    requires n + from + count <= |stream|
    ensures stream[n..][from..from + count] == stream[n + from..n + from + count]
  {
  }

  /** The exchange succeeds, delivers the message and leaves the stream right behind it. */
  ghost predicate Delivers(got: seq<int>, size: nat, buf: seq<Byte>, stream: seq<Byte>)
    requires Ends(got, size, size) && |buf| == size
    requires size <= |stream| && Taken(got, size, size) <= |stream|
  {
    && Code(got, size, size) == 0
    && Taken(got, size, size) == size
    && Filled(got, size, size, buf, stream) == stream[..size]
  }

  /** The first read that is not at the end of the stream. */
  function FirstData(got: seq<int>): int {
    if got == [] then 0 else if got[0] == 0 then FirstData(got[1..]) else got[0]
  }

  /** A first read that returns the whole message is enough, whatever the bytes. */
  lemma {:induction false} WholeReadDelivers(got: seq<int>, size: nat, buf: seq<Byte>, stream: seq<Byte>)
    requires size > 0 && Ends(got, size, size) && |buf| == size && FirstData(got) == size
    requires size <= |stream|
    ensures Taken(got, size, size) == size
    ensures Delivers(got, size, buf, stream)
  {
    if got[0] == 0 {
      WholeReadDelivers(got[1..], size, buf, stream);
      assert stream[..0] + buf[0..] == buf && stream[0..] == stream;
    } else {
      assert stream[..size] + buf[size..] == stream[..size];
    }
  }

  predicate Ones(stream: seq<Byte>) {
    forall i :: 0 <= i < |stream| ==> stream[i] == 1
  }

  /** A later read overwrites the first byte. */
  lemma {:induction false} FirstByteOverwritten(got: seq<int>, size: nat, missing: int,
                                                buf: seq<Byte>, stream: seq<Byte>)
    requires Ends(got, size, missing) && |buf| == size > 0 && Ones(stream)
    requires Taken(got, size, missing) <= |stream| && Code(got, size, missing) == 0
    requires missing > 0 || buf[0] == 1
    ensures Filled(got, size, missing, buf, stream)[0] == 1
  {
    if missing > 0 {
      var n := got[0];
      FirstByteOverwritten(got[1..], size, missing - n, stream[..n] + buf[n..], stream[n..]);
    }
  }

  /** One zero byte, then ones. */
  ghost function ZeroThenOnes(n: nat): (r: seq<Byte>)
    requires n > 0
    ensures |r| == n && r[0] == 0 && Ones(r[1..])
  {
    [0] + seq(n - 1, _ => 1)
  }

  /** A message that comes in parts loses its first byte. */
  lemma {:induction false} PartsDoNotDeliver(got: seq<int>, size: nat, buf: seq<Byte>, n: nat)
    requires size > 0 && Ends(got, size, size) && |buf| == size && FirstData(got) != size
    requires size <= n && Taken(got, size, size) <= n
    ensures !Delivers(got, size, buf, ZeroThenOnes(n))
  {
    var s, k := ZeroThenOnes(n), got[0];
    if k == 0 {
      PartsDoNotDeliver(got[1..], size, buf, n);
      assert s[..0] + buf[0..] == buf && s[0..] == s;
    } else if k > 0 && Code(got, size, size) == 0 {
      FirstByteOverwritten(got[1..], size, size - k, s[..k] + buf[k..], s[k..]);
    }
  }

  /**
   A message of `size` bytes arrives intact, whatever its bytes and whatever follows it, if
   and only if the first read that finds data returns all of it. So the one-byte syncs are
   intact, while connection data that comes in two parts is not.
   */
  lemma DeliversIff(got: seq<int>, size: nat, buf: seq<Byte>, n: nat)
    requires size > 0 && Ends(got, size, size) && |buf| == size
    requires size <= n && Taken(got, size, size) <= n
    ensures (forall stream: seq<Byte> | |stream| == n :: Delivers(got, size, buf, stream)) <==>
            FirstData(got) == size
  {
    if FirstData(got) == size {
      forall stream: seq<Byte> | |stream| == n
        ensures Delivers(got, size, buf, stream)
      {
        WholeReadDelivers(got, size, buf, stream);
      }
    } else {
      PartsDoNotDeliver(got, size, buf, n);
    }
  }

  /** Two bytes that come one by one: the second is stored over the first. */
  lemma SplitMessageIsLost()
    ensures
      var got := [1, 1];
      && Ends(got, 2, 2) && Taken(got, 2, 2) == 2 && Code(got, 2, 2) == 0
      && Filled(got, 2, 2, [0, 0], [7, 8]) == [8, 0]
  {
    var got := [1, 1];
    assert got[1..] == [1] && got[1..][1..] == [];
    assert Ends([1], 2, 1) && Taken([1], 2, 1) == 1 && Code([1], 2, 1) == 0;
    assert [7, 8][..1] + [0, 0][1..] == [7, 0] && [7, 8][1..] == [8];
    assert [8][..1] + [7, 0][1..] == [8, 0];
    assert Filled([1], 2, 1, [7, 0], [8]) == [8, 0];
  }

  /** When the peer has closed the socket, no number of reads ends the loop. */
  lemma {:induction false} EndOfStreamIsRepeated(got: seq<int>, size: nat, missing: int)
    requires missing > 0 && forall i :: 0 <= i < |got| ==> got[i] == 0
    ensures !Ends(got, size, missing)
  {
    if got != [] {
      EndOfStreamIsRepeated(got[1..], size, missing);
    }
  }
}
