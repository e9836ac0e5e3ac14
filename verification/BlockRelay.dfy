/** The relay of a multi-line response (section 3.1.1 of RFC 3977): octets are
    passed on as they are read, and a window of five octets tells where the
    block ends. The window is only moved on by reads of five octets or more. */
module BlockRelay {
  import opened Wrappers
  import opened Utf8

  const CR: byte := 13
  const LF: byte := 10
  const DOT: byte := 46

  const TERMINATOR: seq<byte> := [CR, LF, DOT, CR, LF]

  /** The window in front of the first read: the line end of the status line. */
  const INITIAL: seq<byte> := [0, 0, 0, CR, LF]

  function Last5(s: seq<byte>): (r: seq<byte>)
    requires |s| >= 5
    ensures |r| == 5
  {
    s[|s| - 5..]
  }

  /** What a read is compared with the terminator by. */
  function Seen(window: seq<byte>, chunk: seq<byte>): (r: seq<byte>)
    requires |window| == 5
    ensures |r| == 5
  {
    if |chunk| < 5 then window[|chunk|..] + chunk else Last5(chunk)
  }

  function NextWindow(window: seq<byte>, chunk: seq<byte>): (r: seq<byte>)
    requires |window| == 5
    ensures |r| == 5
  {
    if |chunk| < 5 then window else Last5(chunk)
  }

  method CheckbufInit(buf: array<byte>)
    requires buf.Length == 5
    modifies buf
    ensures buf[..] == INITIAL
  {
    buf[0] := 0;
    buf[1] := 0;
    buf[2] := 0;
    buf[3] := CR;
    buf[4] := LF;
  }

  method CheckbufIsEnd(buf: array<byte>, rcvbuf: seq<byte>) returns (end: bool)
    requires buf.Length == 5
    modifies buf
    ensures end <==> Seen(old(buf[..]), rcvbuf) == TERMINATOR
    ensures !end ==> buf[..] == NextWindow(old(buf[..]), rcvbuf)
  {
    var bread := |rcvbuf|;
    if bread < 5 {
      var chkbuf := new byte[5];
      var k := 0;
      for j := 0 to 5 - bread
        invariant k == j
        invariant buf[..] == old(buf[..])
        invariant forall i :: 0 <= i < j ==> chkbuf[i] == buf[i + bread]
      {
        chkbuf[k] := buf[j + bread];
        k := k + 1;
      }
      for j := 0 to bread
        invariant k == 5 - bread + j
        invariant buf[..] == old(buf[..])
        invariant forall i :: 0 <= i < 5 - bread ==> chkbuf[i] == buf[i + bread]
        invariant forall i :: 5 - bread <= i < k ==> chkbuf[i] == rcvbuf[i - (5 - bread)]
      {
        chkbuf[k] := rcvbuf[j];
        k := k + 1;
      }
      assert chkbuf[..] == Seen(old(buf[..]), rcvbuf);
      end := chkbuf[0] == CR && chkbuf[1] == LF && chkbuf[2] == DOT && chkbuf[3] == CR && chkbuf[4] == LF;
    } else {
      if rcvbuf[bread - 5] == CR && rcvbuf[bread - 4] == LF && rcvbuf[bread - 3] == DOT
         && rcvbuf[bread - 2] == CR && rcvbuf[bread - 1] == LF {
        return true;
      }
      for j := 0 to 5
        invariant forall i :: 0 <= i < j ==> buf[i] == rcvbuf[bread - 5 + i]
      {
        buf[j] := rcvbuf[bread - 5 + j];
      }
      assert buf[..] == Last5(rcvbuf);
      end := false;
    }
  }

  // ----- a whole relay

  type Chunks = seq<seq<byte>>

  function Concat(chunks: Chunks): seq<byte> {
    if chunks == [] then [] else Concat(chunks[..|chunks| - 1]) + chunks[|chunks| - 1]
  }

  /** The window after the first `n` reads. */
  function Window(chunks: Chunks, n: nat): (w: seq<byte>)
    requires n <= |chunks|
    ensures |w| == 5
  {
    if n == 0 then INITIAL else NextWindow(Window(chunks, n - 1), chunks[n - 1])
  }

  /** The answer of the source at read `k`. */
  predicate Stops(chunks: Chunks, k: nat)
    requires k < |chunks|
  {
    Seen(Window(chunks, k), chunks[k]) == TERMINATOR
  }

  /** The block has ended: with the line end in front of it, the data ends with
      the terminator. */
  predicate Ended(data: seq<byte>) {
    |[CR, LF] + data| >= 5 && Last5([CR, LF] + data) == TERMINATOR
  }

  /** ... after read `k`. */
  predicate EndedAfter(chunks: Chunks, k: nat)
    requires k < |chunks|
  {
    Ended(Concat(chunks[..k + 1]))
  }

  /** The read the source stops at, looking from read `k` on. */
  function StopFrom(chunks: Chunks, k: nat): (r: Option<nat>)
    requires k <= |chunks|
    ensures r.Some? ==> k <= r.value < |chunks|
    decreases |chunks| - k
  {
    if k == |chunks| then None
    else if Stops(chunks, k) then Some(k)
    else StopFrom(chunks, k + 1)
  }

  /** The first read after which the block has ended. */
  function EndFrom(chunks: Chunks, k: nat): (r: Option<nat>)
    requires k <= |chunks|
    ensures r.Some? ==> k <= r.value < |chunks|
    decreases |chunks| - k
  {
    if k == |chunks| then None
    else if EndedAfter(chunks, k) then Some(k)
    else EndFrom(chunks, k + 1)
  }

  datatype Result = Done | ServerDown | ClientGone

  /** What is left of a byte allowance: it is charged until it is used up. */
  function Charge(left: int, chunks: Chunks): int {
    if chunks == [] then left
    else
      var before := Charge(left, chunks[..|chunks| - 1]);
      if before > 0 then before - |chunks[|chunks| - 1]| else before
  }

  /** What one more read adds. */
  lemma {:induction false} ReadStep(chunks: Chunks, k: nat, left: int)
    requires k < |chunks|
    ensures Concat(chunks[..k + 1]) == Concat(chunks[..k]) + chunks[k]
    ensures Charge(left, chunks[..k + 1]) ==
              var before := Charge(left, chunks[..k]);
              if before > 0 then before - |chunks[k]| else before
    ensures Window(chunks, k + 1) == NextWindow(Window(chunks, k), chunks[k])
    ensures StopFrom(chunks, k) == if Stops(chunks, k) then Some(k) else StopFrom(chunks, k + 1)
  {
    assert chunks[..k + 1][..k] == chunks[..k];
  }

  lemma {:induction false} ReadNone(chunks: Chunks, left: int)
    ensures Concat(chunks[..0]) == [] && Charge(left, chunks[..0]) == left
    ensures StopFrom(chunks, |chunks|) == None
    ensures Window(chunks, 0) == INITIAL
  {
  }

  class Client {
    var bytes: nat
    var rbytes: nat
    var groupbytes: nat
    var bytesleft: int

    /** The loop of `passcmd`. `chunks` are the reads the server will satisfy, a
        further read returns nothing; writing the read with index `broken` to
        the client fails. */
    method Relay(chunks: Chunks, broken: nat, acct: bool) returns (result: Result, sent: seq<byte>)
      modifies this
      ensures var stop := StopFrom(chunks, 0);
              var n := if stop.Some? then stop.value + 1 else |chunks|;
              var m := if broken < n then broken else n;
              && result == (if broken < n then ClientGone else if stop.Some? then Done else ServerDown)
              && sent == Concat(chunks[..m])
              && bytes == old(bytes) + (if acct then |sent| else 0)
              && rbytes == old(rbytes) + (if acct then |sent| else 0)
              && groupbytes == old(groupbytes) + |sent|
              && bytesleft == (if acct then Charge(old(bytesleft), chunks[..m]) else old(bytesleft))
    {
      hide Concat, Charge, Window, StopFrom, Seen, NextWindow;
      ReadNone(chunks, bytesleft);
      var chkbuf := new byte[5];
      CheckbufInit(chkbuf);
      sent := [];
      var i := true;
      var k := 0;
      while i
        invariant k <= |chunks| && k <= broken
        invariant i ==> StopFrom(chunks, 0) == StopFrom(chunks, k)
        invariant i ==> chkbuf[..] == Window(chunks, k)
        invariant !i ==> k > 0 && StopFrom(chunks, 0) == Some(k - 1)
        invariant sent == Concat(chunks[..k])
        invariant bytes == old(bytes) + (if acct then |sent| else 0)
        invariant rbytes == old(rbytes) + (if acct then |sent| else 0)
        invariant groupbytes == old(groupbytes) + |sent|
        invariant bytesleft == if acct then Charge(old(bytesleft), chunks[..k]) else old(bytesleft)
        decreases |chunks| - k, i
      {
        if k == |chunks| {
          return ServerDown, sent;
        }
        var bbuf := chunks[k];
        ReadStep(chunks, k, old(bytesleft));
        var end := CheckbufIsEnd(chkbuf, bbuf);
        if end {
          i := false;
        }
        if k == broken {
          return ClientGone, sent;
        }
        sent := sent + bbuf;
        if acct {
          bytes := bytes + |bbuf|;
          rbytes := rbytes + |bbuf|;
          if bytesleft > 0 {
            bytesleft := bytesleft - |bbuf|;
          }
        }
        groupbytes := groupbytes + |bbuf|;
        k := k + 1;
      }
      return Done, sent;
    }
  }

  // ----- when the answers are right

  function Padded(data: seq<byte>): (r: seq<byte>)
    ensures |r| >= 5
  {
    INITIAL + data
  }

  lemma {:induction false} EndedPadded(data: seq<byte>)
    ensures Ended(data) <==> Last5(Padded(data)) == TERMINATOR
  {
    if |data| >= 3 {
      assert Last5(Padded(data)) == Last5([CR, LF] + data);
    } else {
      assert Last5(Padded(data))[0] == INITIAL[|data|];
    }
  }

  ghost predicate NonEmpty(chunks: Chunks) {
    forall i :: 0 <= i < |chunks| ==> chunks[i] != []
  }

  /** The window is up to date after a read of five octets, and at the start. */
  lemma {:induction false} WindowFresh(chunks: Chunks, n: nat)
    requires n <= |chunks|
    requires n == 0 || |chunks[n - 1]| >= 5
    ensures Window(chunks, n) == Last5(Padded(Concat(chunks[..n])))
  {
    if n > 0 {
      ReadStep(chunks, n - 1, 0);
    }
  }

  lemma {:induction false} SeenIsTail(window: seq<byte>, before: seq<byte>, chunk: seq<byte>)
    requires |window| == 5
    requires |chunk| < 5 ==> window == Last5(Padded(before))
    ensures Seen(window, chunk) == Last5(Padded(before + chunk))
  {
    assert Padded(before + chunk) == Padded(before) + chunk;
    if |chunk| < 5 {
      assert Last5(Padded(before + chunk)) == Last5(Padded(before))[|chunk|..] + chunk;
    } else {
      assert Last5(Padded(before + chunk)) == Last5(chunk);
    }
  }

  /** A read is judged correctly when it or the one before it is long, or when it
      is the first. */
  lemma {:induction false} StopsIsEnded(chunks: Chunks, k: nat)
    requires k < |chunks|
    requires |chunks[k]| >= 5 || k == 0 || |chunks[k - 1]| >= 5
    ensures Stops(chunks, k) <==> EndedAfter(chunks, k)
  {
    hide Concat, Window, Seen, Last5, Padded, Ended;
    var before := Concat(chunks[..k]);
    ReadStep(chunks, k, 0);
    EndedPadded(before + chunks[k]);
    if |chunks[k]| < 5 {
      WindowFresh(chunks, k);
    }
    SeenIsTail(Window(chunks, k), before, chunks[k]);
  }

  /** No two short reads in a row. */
  ghost predicate NoShortPair(chunks: Chunks) {
    forall k :: 0 < k < |chunks| ==> |chunks[k]| >= 5 || |chunks[k - 1]| >= 5
  }

  lemma {:induction false} SameStop(chunks: Chunks, k: nat)
    requires k <= |chunks|
    requires forall j :: k <= j < |chunks| ==> (Stops(chunks, j) <==> EndedAfter(chunks, j))
    ensures StopFrom(chunks, k) == EndFrom(chunks, k)
    decreases |chunks| - k
  {
    if k < |chunks| && !Stops(chunks, k) {
      SameStop(chunks, k + 1);
    }
  }

  lemma {:induction false} NoShortPairStopsRight(chunks: Chunks)
    requires NoShortPair(chunks)
    ensures StopFrom(chunks, 0) == EndFrom(chunks, 0)
  {
    forall j | 0 <= j < |chunks| ensures Stops(chunks, j) <==> EndedAfter(chunks, j) {
      StopsIsEnded(chunks, j);
    }
    SameStop(chunks, 0);
  }

  /** A block ends with the terminator and nowhere before. */
  ghost predicate IsBlock(data: seq<byte>) {
    Ended(data) && forall i :: 0 <= i < |data| ==> !Ended(data[..i])
  }

  lemma {:induction false} ConcatPrefix(chunks: Chunks, n: nat)
    requires n <= |chunks|
    ensures Concat(chunks[..n]) <= Concat(chunks)
    ensures NonEmpty(chunks) && n < |chunks| ==> |Concat(chunks[..n])| < |Concat(chunks)|
    decreases |chunks|
  {
    if n < |chunks| {
      ConcatPrefix(chunks[..|chunks| - 1], n);
      assert chunks[..|chunks| - 1][..n] == chunks[..n];
    } else {
      assert chunks[..n] == chunks;
    }
  }

  lemma {:induction false} EndFromLast(chunks: Chunks, k: nat)
    requires k < |chunks| && NonEmpty(chunks) && IsBlock(Concat(chunks))
    ensures EndFrom(chunks, k) == Some(|chunks| - 1)
    decreases |chunks| - k
  {
    if k == |chunks| - 1 {
      assert chunks[..k + 1] == chunks;
    } else {
      ConcatPrefix(chunks, k + 1);
      var n := |Concat(chunks[..k + 1])|;
      assert Concat(chunks[..k + 1]) == Concat(chunks)[..n];
      EndFromLast(chunks, k + 1);
    }
  }

  lemma {:induction false} BlockNotEmpty(chunks: Chunks)
    requires IsBlock(Concat(chunks))
    ensures chunks != []
  {
  }

  /** A block that is read without two short reads in a row is relayed to its
      last read and no further. */
  lemma {:induction false} BlockRelayed(chunks: Chunks)
    requires NonEmpty(chunks) && NoShortPair(chunks) && IsBlock(Concat(chunks))
    ensures StopFrom(chunks, 0) == Some(|chunks| - 1)
    ensures Concat(chunks[..|chunks|]) == Concat(chunks)
  {
    hide StopFrom, EndFrom, Concat, Ended, IsBlock;
    BlockNotEmpty(chunks);
    NoShortPairStopsRight(chunks);
    EndFromLast(chunks, 0);
    assert chunks[..|chunks|] == chunks;
  }
}
