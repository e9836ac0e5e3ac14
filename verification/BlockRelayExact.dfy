/** Exactly which read lengths the relay judges correctly whatever is read. */
module BlockRelayExact {
  import opened Wrappers
  import opened Utf8
  import opened BlockRelay

  /** `chunks` are reads of these lengths. */
  ghost predicate Cut(chunks: Chunks, lens: seq<nat>) {
    |chunks| == |lens| && forall i :: 0 <= i < |lens| ==> |chunks[i]| == lens[i]
  }

  ghost predicate Positive(lens: seq<nat>) {
    forall i :: 0 <= i < |lens| ==> lens[i] > 0
  }

  function Offset(lens: seq<nat>, n: nat): nat
    requires n <= |lens|
  {
    if n == 0 then 0 else Offset(lens, n - 1) + lens[n - 1]
  }

  predicate LongBefore(lens: seq<nat>, i: nat)
    requires i <= |lens|
  {
    exists j :: 0 <= j < i && lens[j] >= 5
  }

  /** A short read behind a short one, unless it ends two or four octets into the
      block and is not itself three octets long. */
  predicate Misjudged(lens: seq<nat>, i: nat)
    requires i < |lens|
  {
    && i > 0
    && lens[i] < 5
    && lens[i - 1] < 5
    && (LongBefore(lens, i) || lens[i] == 3 || Offset(lens, i + 1) !in {2, 4})
  }

  lemma {:induction false} ConcatLength(chunks: Chunks, lens: seq<nat>, n: nat)
    requires Cut(chunks, lens) && n <= |lens|
    ensures |Concat(chunks[..n])| == Offset(lens, n)
  {
    if n > 0 {
      ConcatLength(chunks, lens, n - 1);
      ReadStep(chunks, n - 1, 0);
    }
  }

  lemma {:induction false} OffsetGrows(lens: seq<nat>, k: nat, n: nat)
    requires Positive(lens) && k <= n <= |lens|
    ensures k <= Offset(lens, k)
    ensures Offset(lens, k) + (n - k) <= Offset(lens, n)
  {
    if k < n {
      OffsetGrows(lens, k, n - 1);
    } else if k > 0 {
      OffsetGrows(lens, k - 1, k - 1);
    }
  }

  /** Until a long read the window stays as it was. */
  lemma {:induction false} WindowStale(chunks: Chunks, lens: seq<nat>, i: nat)
    requires Cut(chunks, lens) && i <= |lens| && !LongBefore(lens, i)
    ensures Window(chunks, i) == INITIAL
  {
    if i > 0 {
      assert !LongBefore(lens, i - 1);
      WindowStale(chunks, lens, i - 1);
    }
  }

  /** After the last long read it holds the end of that read. */
  lemma {:induction false} WindowOfLong(chunks: Chunks, j: nat, i: nat)
    requires j < i <= |chunks| && |chunks[j]| >= 5
    requires forall k :: j < k < i ==> |chunks[k]| < 5
    ensures Window(chunks, i) == Last5(chunks[j])
    decreases i
  {
    if j < i - 1 {
      WindowOfLong(chunks, j, i - 1);
    }
  }

  /** With the first window and a read of one, two or four octets the source
      never stops. */
  lemma {:induction false} StaleNeverStops(chunks: Chunks, lens: seq<nat>, i: nat)
    requires Cut(chunks, lens) && i < |lens| && lens[i] in {1, 2, 4} && !LongBefore(lens, i)
    ensures !Stops(chunks, i)
  {
    WindowStale(chunks, lens, i);
    assert Seen(INITIAL, chunks[i])[0] == INITIAL[lens[i]];
  }

  /** Four octets behind one line end are no end. */
  lemma {:induction false} TooFewToEnd(data: seq<byte>)
    requires |data| == 4 || |data| <= 2
    ensures !Ended(data)
  {
    if |data| == 4 {
      assert Last5([CR, LF] + data)[0] == LF;
    }
  }

  lemma {:induction false} JudgedRight(chunks: Chunks, lens: seq<nat>, i: nat)
    requires Cut(chunks, lens) && Positive(lens) && i < |lens| && !Misjudged(lens, i)
    ensures Stops(chunks, i) <==> EndedAfter(chunks, i)
  {
    hide Concat, Ended, Stops, Window;
    if lens[i] >= 5 || i == 0 || lens[i - 1] >= 5 {
      StopsIsEnded(chunks, i);
    } else {
      StaleNeverStops(chunks, lens, i);
      ConcatLength(chunks, lens, i + 1);
      TooFewToEnd(Concat(chunks[..i + 1]));
    }
  }

  // ----- reads that are misjudged

  const FILLER: byte := 97

  function Fill(n: nat): (s: seq<byte>)
    ensures |s| == n && forall i :: 0 <= i < n ==> s[i] == FILLER
  {
    seq(n, i => FILLER)
  }

  lemma {:induction false} EndFromLate(chunks: Chunks, k: nat, i: nat)
    requires k <= i < |chunks|
    requires forall j :: k <= j <= i ==> !EndedAfter(chunks, j)
    ensures EndFrom(chunks, k).Some? ==> EndFrom(chunks, k).value > i
    decreases i - k
  {
    if k < i {
      EndFromLate(chunks, k + 1, i);
    }
  }

  lemma {:induction false} StopFromEarly(chunks: Chunks, k: nat, i: nat)
    requires k <= i < |chunks| && Stops(chunks, i)
    ensures StopFrom(chunks, k).Some? && StopFrom(chunks, k).value <= i
    decreases i - k
  {
    hide Stops;
    if k < i && !Stops(chunks, k) {
      StopFromEarly(chunks, k + 1, i);
    }
  }

  lemma {:induction false} StopFromStops(chunks: Chunks, k: nat)
    requires k <= |chunks|
    ensures StopFrom(chunks, k).Some? ==> Stops(chunks, StopFrom(chunks, k).value)
    decreases |chunks| - k
  {
    hide Stops;
    if k < |chunks| && !Stops(chunks, k) {
      StopFromStops(chunks, k + 1);
    }
  }

  /** Data whose octet `5 - n` from the end is filler has not ended. */
  lemma {:induction false} FillerNotEnded(before: seq<byte>, chunk: seq<byte>, at: nat)
    requires at < |chunk| && |chunk| - 5 <= at && chunk[at] == FILLER
    ensures !Ended(before + chunk)
  {
    var s := [CR, LF] + (before + chunk);
    if |s| >= 5 {
      var i := |s| - |chunk| + at;
      assert s[i] == FILLER;
      assert Last5(s)[i - (|s| - 5)] == FILLER;
    }
  }

  /** A short read that only completes a terminator the window still shows: the
      source stops there, and the block has not ended. `j` is the last long read,
      or `i` if there is none. */
  function Early(lens: seq<nat>, i: nat, j: nat): Chunks
    requires i < |lens| && lens[i] < 5
    requires j < i ==> lens[j] >= 5
  {
    var c := lens[i];
    seq(|lens|, k requires 0 <= k < |lens| =>
      if k == i then TERMINATOR[5 - c..]
      else if k == j && j < i then Fill(lens[j] - (5 - c)) + TERMINATOR[..5 - c]
      else Fill(lens[k]))
  }

  lemma {:induction false} EarlyStops(lens: seq<nat>, i: nat, j: nat)
    requires Positive(lens) && 0 < i < |lens| && lens[i] < 5 && lens[i - 1] < 5
    requires j <= i && (j < i ==> lens[j] >= 5)
    requires forall k :: j < k < i ==> lens[k] < 5
    requires j == i ==> !LongBefore(lens, i) && lens[i] == 3
    ensures Cut(Early(lens, i, j), lens)
    ensures Stops(Early(lens, i, j), i)
  {
    var chunks := Early(lens, i, j);
    if j < i {
      WindowOfLong(chunks, j, i);
      assert Last5(chunks[j])[lens[i]..] == TERMINATOR[..5 - lens[i]];
    } else {
      WindowStale(chunks, lens, i);
      assert INITIAL[3..] == TERMINATOR[..2];
    }
    assert TERMINATOR[..5 - lens[i]] + TERMINATOR[5 - lens[i]..] == TERMINATOR;
  }

  lemma {:induction false} EndedStep(chunks: Chunks, i: nat)
    requires i < |chunks|
    ensures EndedAfter(chunks, i) <==> Ended(Concat(chunks[..i]) + chunks[i])
    ensures i > 0 ==> Concat(chunks[..i]) == Concat(chunks[..i - 1]) + chunks[i - 1]
  {
    hide Ended;
    ReadStep(chunks, i, 0);
    if i > 0 {
      ReadStep(chunks, i - 1, 0);
    }
  }

  /** What the reads of `Early` end with. */
  lemma {:induction false} EarlyEnds(lens: seq<nat>, i: nat, j: nat, k: nat)
    requires Positive(lens) && i < |lens| && lens[i] < 5 && k < i
    requires j <= i && (j < i ==> lens[j] >= 5)
    ensures var chunks := Early(lens, i, j);
            var at := if k == j then lens[j] - (5 - lens[i]) - 1 else lens[k] - 1;
            |chunks| == |lens| && |chunks[i]| == lens[i] && |chunks[k]| == lens[k]
            && 0 <= at < lens[k] && chunks[k][at] == FILLER
  {
  }

  /** At the stop itself filler stands where the terminator would start. */
  lemma {:induction false} EarlyNotEndedAt(lens: seq<nat>, i: nat, j: nat)
    requires Positive(lens) && 0 < i < |lens| && lens[i] < 5 && lens[i - 1] < 5
    requires j <= i && (j < i ==> lens[j] >= 5)
    ensures !EndedAfter(Early(lens, i, j), i)
  {
    hide Early, EndedAfter, Ended, Concat;
    var chunks := Early(lens, i, j);
    EarlyEnds(lens, i, j, i - 1);
    EndedStep(chunks, i);
    FillerBehind(Concat(chunks[..i - 1]), chunks[i - 1], chunks[i]);
  }

  lemma {:induction false} FillerBehind(before: seq<byte>, last: seq<byte>, chunk: seq<byte>)
    requires last != [] && last[|last| - 1] == FILLER
    requires 0 < |chunk| < 5
    ensures !Ended(before + last + chunk)
  {
    assert before + last + chunk == before + (last + chunk);
    FillerNotEnded(before, last + chunk, |last| - 1);
  }

  /** Before, filler stands among the last five octets. */
  lemma {:induction false} EarlyNotEndedBefore(lens: seq<nat>, i: nat, j: nat, k: nat)
    requires Positive(lens) && 0 < i < |lens| && lens[i] < 5
    requires j <= i && (j < i ==> lens[j] >= 5)
    requires k < i
    ensures !EndedAfter(Early(lens, i, j), k)
  {
    hide Early, EndedAfter, Ended, Concat;
    var chunks := Early(lens, i, j);
    EarlyEnds(lens, i, j, k);
    EndedStep(chunks, k);
    var at := if k == j then lens[j] - (5 - lens[i]) - 1 else lens[k] - 1;
    FillerNotEnded(Concat(chunks[..k]), chunks[k], at);
  }

  lemma {:induction false} EarlyCut(lens: seq<nat>, i: nat, j: nat)
    requires Positive(lens) && i < |lens| && lens[i] < 5
    requires j <= i && (j < i ==> lens[j] >= 5)
    ensures Cut(Early(lens, i, j), lens)
  {
  }

  lemma {:induction false} EarlyDiffers(lens: seq<nat>, i: nat, j: nat)
    requires Positive(lens) && 0 < i < |lens| && lens[i] < 5 && lens[i - 1] < 5
    requires j <= i && (j < i ==> lens[j] >= 5)
    requires forall k :: j < k < i ==> lens[k] < 5
    requires j == i ==> !LongBefore(lens, i) && lens[i] == 3
    ensures var chunks := Early(lens, i, j);
            Cut(chunks, lens) && StopFrom(chunks, 0) != EndFrom(chunks, 0)
  {
    hide Stops, EndedAfter, Early, LongBefore, StopFrom, EndFrom;
    var chunks := Early(lens, i, j);
    EarlyCut(lens, i, j);
    EarlyStops(lens, i, j);
    StopFromEarly(chunks, 0, i);
    forall k | 0 <= k <= i ensures !EndedAfter(chunks, k) {
      if k < i {
        EarlyNotEndedBefore(lens, i, j, k);
      } else {
        EarlyNotEndedAt(lens, i, j);
      }
    }
    EndFromLate(chunks, 0, i);
  }

  /** A block that ends with read `i` while the first window is still in place. */
  function LateData(n: nat): (s: seq<byte>)
    requires n == 3 || n >= 5
    ensures |s| == n
  {
    if n == 3 then TERMINATOR[2..] else Fill(n - 5) + TERMINATOR
  }

  lemma {:induction false} LateDataEnds(n: nat, o: nat)
    requires n == 3 || n >= 5
    requires 0 < o <= n
    ensures Ended(LateData(n)[..o]) <==> o == n
  {
    var s := [CR, LF] + LateData(n)[..o];
    if |s| >= 5 {
      if o == n {
        assert Last5(s) == TERMINATOR;
      } else {
        var q := o + 5 - n;
        assert Last5(s)[4] == s[|s| - 1] == LateData(n)[o - 1];
        assert LateData(n)[o - 1] == if q <= 0 then FILLER else TERMINATOR[q - 1];
        if q == 2 {
          assert Last5(s)[2] == s[|s| - 3];
          assert s[|s| - 3] == if n == 5 then LF else FILLER;
        }
      }
    }
  }

  /** `data` cut into reads of these lengths. */
  function Slices(data: seq<byte>, lens: seq<nat>): (chunks: Chunks)
    requires |data| == Offset(lens, |lens|)
    ensures Cut(chunks, lens)
    decreases |lens|
  {
    if lens == [] then []
    else
      var n := |lens| - 1;
      OffsetPrefix(lens, n, n);
      Slices(data[..Offset(lens, n)], lens[..n]) + [data[Offset(lens, n)..]]
  }

  lemma {:induction false} OffsetPrefix(lens: seq<nat>, n: nat, k: nat)
    requires k <= n <= |lens|
    ensures Offset(lens[..n], k) == Offset(lens, k)
    decreases k
  {
    if k > 0 {
      OffsetPrefix(lens, n, k - 1);
    }
  }

  lemma {:induction false} SlicesConcat(data: seq<byte>, lens: seq<nat>, k: nat)
    requires |data| == Offset(lens, |lens|) && k <= |lens|
    ensures Offset(lens, k) <= |data|
    ensures Concat(Slices(data, lens)[..k]) == data[..Offset(lens, k)]
    decreases |lens|
  {
    var chunks := Slices(data, lens);
    if lens != [] {
      var n := |lens| - 1;
      var init := data[..Offset(lens, n)];
      OffsetPrefix(lens, n, n);
      if k < |lens| {
        OffsetPrefix(lens, n, k);
        SlicesConcat(init, lens[..n], k);
        assert chunks[..k] == Slices(init, lens[..n])[..k];
        hide Slices;
        assert data[..Offset(lens, k)] == init[..Offset(lens, k)];
      } else {
        SlicesConcat(init, lens[..n], n);
        assert chunks[..n] == Slices(init, lens[..n])[..n];
        ReadStep(chunks, n, 0);
        assert chunks[n] == data[Offset(lens, n)..];
        hide Slices, Concat;
        assert init[..Offset(lens, n)] + chunks[n] == data[..Offset(lens, k)];
      }
    }
  }

  lemma {:induction false} LateDiffers(lens: seq<nat>, i: nat) returns (chunks: Chunks)
    requires Positive(lens) && i < |lens| && lens[i] in {1, 2, 4} && !LongBefore(lens, i)
    requires Offset(lens, i + 1) == 3 || Offset(lens, i + 1) >= 5
    ensures Cut(chunks, lens) && StopFrom(chunks, 0) != EndFrom(chunks, 0)
  {
    hide LateData, Window, StopFrom, EndFrom, Stops, Ended, Fill, Slices;
    var n := Offset(lens, i + 1);
    OffsetGrows(lens, i + 1, |lens|);
    var data := LateData(n) + Fill(Offset(lens, |lens|) - n);
    chunks := Slices(data, lens);
    forall k | 0 <= k <= i ensures EndedAfter(chunks, k) <==> k == i {
      SlicesConcat(data, lens, k + 1);
      OffsetGrows(lens, k + 1, i + 1);
      LateDataEnds(n, Offset(lens, k + 1));
      assert data[..Offset(lens, k + 1)] == LateData(n)[..Offset(lens, k + 1)];
    }
    EndFromAt(chunks, 0, i);
    StaleNeverStops(chunks, lens, i);
    StopFromStops(chunks, 0);
  }

  lemma {:induction false} EndFromAt(chunks: Chunks, k: nat, i: nat)
    requires k <= i < |chunks|
    requires forall j :: k <= j <= i ==> (EndedAfter(chunks, j) <==> j == i)
    ensures EndFrom(chunks, k) == Some(i)
    decreases i - k
  {
    if k < i {
      EndFromAt(chunks, k + 1, i);
    }
  }

  lemma {:induction false} LastLong(lens: seq<nat>, i: nat) returns (j: nat)
    requires i <= |lens| && LongBefore(lens, i)
    ensures j < i && lens[j] >= 5 && forall k :: j < k < i ==> lens[k] < 5
    decreases i
  {
    if lens[i - 1] >= 5 {
      j := i - 1;
    } else {
      j := LastLong(lens, i - 1);
    }
  }

  lemma {:induction false} MisjudgedSometimes(lens: seq<nat>, i: nat) returns (chunks: Chunks)
    requires Positive(lens) && i < |lens| && Misjudged(lens, i)
    ensures Cut(chunks, lens) && StopFrom(chunks, 0) != EndFrom(chunks, 0)
  {
    if LongBefore(lens, i) {
      var j := LastLong(lens, i);
      EarlyDiffers(lens, i, j);
      chunks := Early(lens, i, j);
    } else if lens[i] == 3 {
      EarlyDiffers(lens, i, i);
      chunks := Early(lens, i, i);
    } else {
      OffsetGrows(lens, 1, i);
      chunks := LateDiffers(lens, i);
    }
  }

  /** The exact condition: with reads of these lengths the relay stops where the
      block ends, whatever is read, if and only if no read is one of those
      `Misjudged` names. */
  lemma {:induction false} LengthsDecideExactly(lens: seq<nat>)
    requires Positive(lens)
    ensures (forall chunks | Cut(chunks, lens) :: StopFrom(chunks, 0) == EndFrom(chunks, 0))
       <==> (forall i :: 0 <= i < |lens| ==> !Misjudged(lens, i))
  {
    if i :| 0 <= i < |lens| && Misjudged(lens, i) {
      var chunks := MisjudgedSometimes(lens, i);
    } else {
      forall chunks | Cut(chunks, lens) ensures StopFrom(chunks, 0) == EndFrom(chunks, 0) {
        forall j | 0 <= j < |chunks| ensures Stops(chunks, j) <==> EndedAfter(chunks, j) {
          JudgedRight(chunks, lens, j);
        }
        SameStop(chunks, 0);
      }
    }
  }

  // ----- the byte allowance

  /** While something is left, exactly what was relayed has been charged; and an
      allowance is overdrawn by less than one read. */
  lemma {:induction false} ChargeExact(left: int, chunks: Chunks, size: nat)
    requires forall i :: 0 <= i < |chunks| ==> |chunks[i]| <= size
    ensures Charge(left, chunks) > 0 <==> left > |Concat(chunks)|
    ensures Charge(left, chunks) > 0 ==> Charge(left, chunks) == left - |Concat(chunks)|
    ensures left > 0 ==> Charge(left, chunks) >= 1 - size || Charge(left, chunks) == left
    ensures left <= 0 ==> Charge(left, chunks) == left
    decreases |chunks|
  {
    if chunks != [] {
      ChargeExact(left, chunks[..|chunks| - 1], size);
    }
  }
}
