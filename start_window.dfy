/** `pickStartIndexWithinWindow`: the indices of a price series that may start
    a round, and the choice of one of them. The window bounds are given as
    the two "YYYY-MM-DD" strings the page computes from the clock, and the
    value of `Math.random()` is given as `roll`. */
module StartWindow {
  import opened Wrappers
  import opened Prices
  import DateFormat

  /** Index `i` may start a round: its date lies inside `[minStr, maxStr]` under
      JavaScript string comparison (`date >= minStr` is `!(date < minStr)`),
      six earlier days exist for the chart and a next day exists to resolve
      the first guess. */
  predicate IsCandidate(s: seq<PricePoint>, minStr: string, maxStr: string, i: int)
    requires 0 <= i < |s|
  {
    !DateFormat.LexLess(s[i].date, minStr) && !DateFormat.LexLess(maxStr, s[i].date)
    && i >= 6 && i + 1 < |s|
  }

  /** The candidates among the indices below `n`, in ascending order: the
      `candidates` array after `n` turns of the loop. */
  function CandidatesBelow(s: seq<PricePoint>, minStr: string, maxStr: string, n: nat): seq<nat>
    requires n <= |s|
  {
    if n == 0 then []
    else CandidatesBelow(s, minStr, maxStr, n - 1)
         + (if IsCandidate(s, minStr, maxStr, n - 1) then [n - 1] else [])
  }

  function Candidates(s: seq<PricePoint>, minStr: string, maxStr: string): seq<nat> {
    CandidatesBelow(s, minStr, maxStr, |s|)
  }

  /** The candidate list below `n` holds exactly the candidates below `n`, each
      once, in strictly ascending order. */
  lemma {:induction false} CandidatesBelowExact(s: seq<PricePoint>, minStr: string, maxStr: string, n: nat)
    requires n <= |s|
    ensures forall k :: 0 <= k < |CandidatesBelow(s, minStr, maxStr, n)| ==>
      CandidatesBelow(s, minStr, maxStr, n)[k] < n &&
      IsCandidate(s, minStr, maxStr, CandidatesBelow(s, minStr, maxStr, n)[k])
    ensures forall i :: 0 <= i < n && IsCandidate(s, minStr, maxStr, i) ==>
      i in CandidatesBelow(s, minStr, maxStr, n)
    ensures forall j, k :: 0 <= j < k < |CandidatesBelow(s, minStr, maxStr, n)| ==>
      CandidatesBelow(s, minStr, maxStr, n)[j] < CandidatesBelow(s, minStr, maxStr, n)[k]
  {
    if n > 0 {
      CandidatesBelowExact(s, minStr, maxStr, n - 1);
    }
  }

  /** The candidate list holds every candidate index and nothing else. */
  lemma CandidatesExact(s: seq<PricePoint>, minStr: string, maxStr: string)
    ensures forall i :: i in Candidates(s, minStr, maxStr) <==> 0 <= i < |s| && IsCandidate(s, minStr, maxStr, i)
  {
    CandidatesBelowExact(s, minStr, maxStr, |s|);
  }

  /** `Math.floor(roll * n)`: the position the random number picks in a list
      of `n` candidates. */
  function PickPosition(roll: real, n: nat): (k: nat)
    requires 0.0 <= roll < 1.0 && n > 0
    ensures k < n
  {
    assert roll * n as real < n as real;
    (roll * n as real).Floor
  }

  /** Each position is picked by exactly the rolls in `[k/n, (k+1)/n)`, an
      interval of width `1/n`: with a uniform roll, every candidate is equally
      likely. */
  lemma PickPositionInterval(roll: real, n: nat, k: nat)
    requires 0.0 <= roll < 1.0 && n > 0
    ensures PickPosition(roll, n) == k <==> k as real / n as real <= roll < (k + 1) as real / n as real
  {
    ScaleBy(k as real, roll, n as real);
    ScaleBy((k + 1) as real, roll, n as real);
  }

  /** Dividing by a positive `n` on one side is multiplying by it on the other. */
  lemma ScaleBy(a: real, b: real, n: real)
    requires n > 0.0
    ensures a / n <= b <==> a <= b * n
    ensures a / n < b <==> a < b * n
  {
    assert a / n * n == a;
  }

  /** The selector: `INSUFFICIENT_DATA` when no index qualifies, otherwise the
      candidate at the picked position. */
  function Select(s: seq<PricePoint>, minStr: string, maxStr: string, roll: real): (r: Result<nat, GameError>)
    requires 0.0 <= roll < 1.0
    ensures r.Failure? <==> forall i :: 0 <= i < |s| ==> !IsCandidate(s, minStr, maxStr, i)
    ensures r.Failure? ==> r.error == InsufficientData
    ensures r.Success? ==> r.value < |s| && IsCandidate(s, minStr, maxStr, r.value)
  {
    CandidatesExact(s, minStr, maxStr);
    var c := Candidates(s, minStr, maxStr);
    if |c| == 0 then
      Failure(InsufficientData)
    else
      assert c[PickPosition(roll, |c|)] in c;
      Success(c[PickPosition(roll, |c|)])
  }

  /** A selected index leaves room for the six-day history before it and for a
      next day after it. */
  lemma SelectedInBounds(s: seq<PricePoint>, minStr: string, maxStr: string, roll: real)
    requires 0.0 <= roll < 1.0
    requires Select(s, minStr, maxStr, roll).Success?
    ensures 6 <= Select(s, minStr, maxStr, roll).value
    ensures Select(s, minStr, maxStr, roll).value + 1 < |s|
  {
  }

  /** A series of fewer than eight days never yields a start index. */
  lemma ShortSeriesFails(s: seq<PricePoint>, minStr: string, maxStr: string, roll: real)
    requires 0.0 <= roll < 1.0 && |s| < 8
    ensures Select(s, minStr, maxStr, roll) == Failure(InsufficientData)
  {
  }

  /** Every candidate is the result for some roll. */
  lemma EveryCandidateSelectable(s: seq<PricePoint>, minStr: string, maxStr: string, i: nat)
    requires i < |s| && IsCandidate(s, minStr, maxStr, i)
    ensures exists roll: real :: 0.0 <= roll < 1.0 && Select(s, minStr, maxStr, roll) == Success(i)
  {
    CandidatesExact(s, minStr, maxStr);
    var c := Candidates(s, minStr, maxStr);
    assert i in c;
    var k :| 0 <= k < |c| && c[k] == i;
    var n := |c| as real;
    var roll := k as real / n;
    assert roll * n == k as real;
    ScaleBy(k as real, 1.0, n);
    assert PickPosition(roll, |c|) == k;
    assert Select(s, minStr, maxStr, roll) == Success(i);
  }

  /** When the series dates and the window bounds are all `dateToYMD` strings of
      real calendar days, the string test is the calendar test: the date lies
      between the two bound days, both included. */
  lemma StringWindowIsCalendarWindow(s: seq<PricePoint>, lo: DateFormat.Day, hi: DateFormat.Day,
                                     d: DateFormat.Day, i: nat)
    requires DateFormat.WellFormed(lo) && DateFormat.FourDigitYear(lo)
    requires DateFormat.WellFormed(hi) && DateFormat.FourDigitYear(hi)
    requires DateFormat.WellFormed(d) && DateFormat.FourDigitYear(d)
    requires i < |s| && s[i].date == DateFormat.DateToYMD(d)
    ensures IsCandidate(s, DateFormat.DateToYMD(lo), DateFormat.DateToYMD(hi), i) <==>
      !DateFormat.Before(d, lo) && !DateFormat.Before(hi, d) && 6 <= i && i + 1 < |s|
  {
    DateFormat.DateToYMDOrder(d, lo);
    DateFormat.DateToYMDOrder(hi, d);
  }

  /** The loop of `pickStartIndexWithinWindow`: collect the candidates, fail
      when there are none, otherwise return the one the roll picks. */
  method PickStartIndexWithinWindow(seriesAsc: seq<PricePoint>, minStr: string, maxStr: string, roll: real)
    returns (r: Result<nat, GameError>)
    requires 0.0 <= roll < 1.0
    ensures r == Select(seriesAsc, minStr, maxStr, roll)
    ensures r.Failure? <==> forall i :: 0 <= i < |seriesAsc| ==> !IsCandidate(seriesAsc, minStr, maxStr, i)
    ensures r.Success? ==> r.value < |seriesAsc| && IsCandidate(seriesAsc, minStr, maxStr, r.value)
  {
    var candidates: seq<nat> := [];
    for i := 0 to |seriesAsc|
      invariant candidates == CandidatesBelow(seriesAsc, minStr, maxStr, i)
    {
      var date := seriesAsc[i].date;
      if !DateFormat.LexLess(date, minStr) && !DateFormat.LexLess(maxStr, date) {
        if i >= 6 && i + 1 < |seriesAsc| {
          candidates := candidates + [i];
        }
      }
    }
    if |candidates| == 0 {
      return Failure(InsufficientData);
    }
    var idx := PickPosition(roll, |candidates|);
    return Success(candidates[idx]);
  }
}
