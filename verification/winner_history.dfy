/**
 The aggregates and the listing of `src/components/WinnerHistory.tsx`:
 total paid out, floor-average per draw, and the medal colour of each row.
 */
module WinnerHistory {
  import opened Roster

  /** The sum of all amounts, accumulated left to right from 0 as `reduce` does. */
  function TotalDistributed(history: seq<HistoryEntry>): (r: int)
    ensures |history| == 0 ==> r == 0
    ensures (forall i :: 0 <= i < |history| ==> history[i].amount >= 0) ==> r >= 0
  {
    if |history| == 0 then 0
    else TotalDistributed(history[..|history| - 1]) + history[|history| - 1].amount
  }

  /** The same sum accumulated from the front: an independent reference definition. */
  function SumAmounts(history: seq<HistoryEntry>): int
  {
    if |history| == 0 then 0 else history[0].amount + SumAmounts(history[1..])
  }

  lemma {:induction false} SumAmountsAppend(a: seq<HistoryEntry>, b: seq<HistoryEntry>)
    ensures SumAmounts(a + b) == SumAmounts(a) + SumAmounts(b)
    decreases |a|
  {
    if |a| == 0 {
      assert a + b == b;
    } else {
      assert (a + b)[1..] == a[1..] + b;
      SumAmountsAppend(a[1..], b);
    }
  }

  /** The left fold of the source is the plain sum of the amounts. */
  lemma {:induction false} TotalIsSumOfAmounts(history: seq<HistoryEntry>)
    ensures TotalDistributed(history) == SumAmounts(history)
    decreases |history|
  {
    if |history| > 0 {
      var init := history[..|history| - 1];
      var last := history[|history| - 1];
      assert history == init + [last];
      TotalIsSumOfAmounts(init);
      SumAmountsAppend(init, [last]);
    }
  }

  /** Recording a draw of amount `a` raises the total by exactly `a`. */
  lemma AppendRaisesTotal(history: seq<HistoryEntry>, e: HistoryEntry)
    ensures TotalDistributed(history + [e]) == TotalDistributed(history) + e.amount
  {
    assert (history + [e])[..|history|] == history;
  }

  lemma {:induction false} TotalConcat(a: seq<HistoryEntry>, b: seq<HistoryEntry>)
    ensures TotalDistributed(a + b) == TotalDistributed(a) + TotalDistributed(b)
  {
    TotalIsSumOfAmounts(a);
    TotalIsSumOfAmounts(b);
    TotalIsSumOfAmounts(a + b);
    SumAmountsAppend(a, b);
  }

  /** The average prize, rounded down; 0 when no draw has happened. */
  function AverageWinAmount(history: seq<HistoryEntry>): (r: int)
    ensures |history| == 0 ==> r == 0
    ensures |history| > 0 ==>
      r * |history| <= TotalDistributed(history) < (r + 1) * |history|
  {
    // Dafny's `/` rounds down for a positive divisor, as `Math.floor(a / b)` does.
    if |history| > 0 then TotalDistributed(history) / |history| else 0
  }

  /** When every amount lies in [lo, hi], the total lies between n * lo and n * hi. */
  lemma {:induction false} TotalBetween(history: seq<HistoryEntry>, lo: int, hi: int)
    requires forall i :: 0 <= i < |history| ==> lo <= history[i].amount <= hi
    ensures |history| * lo <= TotalDistributed(history) <= |history| * hi
    decreases |history|
  {
    if |history| > 0 {
      var n := |history|;
      var init := history[..n - 1];
      assert forall i :: 0 <= i < |init| ==> init[i] == history[i];
      TotalBetween(init, lo, hi);
      assert n * lo == (n - 1) * lo + lo;
      assert n * hi == (n - 1) * hi + hi;
    }
  }

  /** For a positive n, a * n <= b * n exactly when a <= b. */
  lemma ScaleMonotone(a: int, b: int, n: int)
    requires n > 0
    ensures a * n <= b * n <==> a <= b
  {
    if a <= b {
      assert b * n - a * n == (b - a) * n;
    } else {
      assert a * n - b * n == (a - b) * n;
    }
  }

  /** The average lies between the smallest and largest prize. */
  lemma AverageBetween(history: seq<HistoryEntry>, lo: int, hi: int)
    requires |history| > 0
    requires forall i :: 0 <= i < |history| ==> lo <= history[i].amount <= hi
    ensures lo <= AverageWinAmount(history) <= hi
  {
    TotalBetween(history, lo, hi);
    var n := |history|;
    var avg := AverageWinAmount(history);
    var total := TotalDistributed(history);
    assert n * lo <= total < (avg + 1) * n;
    ScaleMonotone(lo, avg + 1, n);
    assert avg * n <= total <= n * hi;
    ScaleMonotone(avg, hi, n);
  }

  /** If every draw paid out the same amount, the average is that amount. */
  lemma AverageOfEqualPrizes(history: seq<HistoryEntry>, a: int)
    requires |history| > 0
    requires forall i :: 0 <= i < |history| ==> history[i].amount == a
    ensures AverageWinAmount(history) == a
  {
    AverageBetween(history, a, a);
  }

  /** The colour of the trophy disc of a history row. */
  datatype Medal = Gold | Silver | Bronze | Plain

  function MedalFor(index: nat): (r: Medal)
    ensures r == Gold <==> index == 0
    ensures r == Silver <==> index == 1
    ensures r == Bronze <==> index == 2
    ensures r == Plain <==> index >= 3
  {
    if index == 0 then Gold
    else if index == 1 then Silver
    else if index == 2 then Bronze
    else Plain
  }

  datatype Row = Row(entry: HistoryEntry, medal: Medal)

  /** The rows of the history list, in storage order. */
  function Listing(history: seq<HistoryEntry>): (r: seq<Row>)
    ensures |r| == |history|
    ensures forall i :: 0 <= i < |r| ==> r[i].entry == history[i]
    ensures forall i :: 0 <= i < |r| ==> r[i].medal == MedalFor(i)
  {
    seq(|history|, i requires 0 <= i < |history| => Row(history[i], MedalFor(i)))
  }

  /**
   The medal depends on the position only: two histories of the same length
   get the same medals, and gold, silver and bronze go to at most one row each.
   */
  lemma MedalsByPositionOnly(h1: seq<HistoryEntry>, h2: seq<HistoryEntry>)
    requires |h1| == |h2|
    ensures forall i :: 0 <= i < |h1| ==> Listing(h1)[i].medal == Listing(h2)[i].medal
    ensures forall i, j :: 0 <= i < j < |h1| && Listing(h1)[i].medal == Listing(h1)[j].medal
              ==> Listing(h1)[i].medal == Plain
  {
  }
}
