/** The game's round engine: the session record, what starting a game, a
    guess, ending and resetting do to it, and a `Game` object whose fields are
    updated in place as the page's module-level `state` is. */
module RoundEngine {
  import opened Wrappers
  import opened Prices
  import StartWindow

  datatype Direction = Up | Down

  /** The session record `{ticker, seriesAsc, startIndex, currentIndex, score,
      inRound, ended}`; `None` stands for JavaScript's `null`. */
  datatype GameState = GameState(
    ticker: Option<string>,
    seriesAsc: seq<PricePoint>,
    startIndex: Option<nat>,
    currentIndex: Option<nat>,
    score: nat,
    inRound: bool,
    ended: bool)

  /** `initialState()`: no ticker, no series, no indices, score 0, not in a
      round and not ended. */
  function InitialState(): GameState {
    GameState(None, [], None, None, 0, false, false)
  }

  /** The invariant of play. Inside a round the start index leaves room for
      the six-day history and a first guess, the current day exists, at or
      after the start, and the score is at most the number of guesses
      resolved. Outside a round there are no indices and no score. */
  predicate Inv(st: GameState) {
    if st.inRound then
      st.startIndex.Some? && st.currentIndex.Some? &&
      6 <= st.startIndex.value && st.startIndex.value + 1 < |st.seriesAsc| &&
      st.startIndex.value <= st.currentIndex.value < |st.seriesAsc| &&
      st.score <= st.currentIndex.value - st.startIndex.value
    else
      st.startIndex.None? && st.currentIndex.None? && st.score == 0
  }

  lemma InitialStateValid()
    ensures Inv(InitialState())
    ensures forall d :: GuessTransition(InitialState(), d) == Step(InitialState(), Ignored)
  {
  }

  // ---------------------------------------------------------------------
  // The initial chart window

  /** An index argument of `Array.prototype.slice`: negative values count from
      the end, and the result is clamped to `[0, n]`. */
  function SliceIndex(k: int, n: nat): (j: nat)
    ensures j <= n
    ensures 0 <= k <= n ==> j == k
  {
    if k < 0 then (if n + k < 0 then 0 else n + k) else if k < n then k else n
  }

  /** `s.slice(begin, end)`. */
  function Slice<T>(s: seq<T>, begin: int, end: int): (r: seq<T>)
    ensures |r| <= |s|
    ensures 0 <= begin <= end <= |s| ==> r == s[begin..end]
  {
    var b, e := SliceIndex(begin, |s|), SliceIndex(end, |s|);
    if b <= e then s[b..e] else []
  }

  /** The labels and values handed to the chart. */
  datatype ChartWindow = ChartWindow(labels: seq<string>, values: seq<real>)

  /** `seriesAsc.slice(startIndex - 6, startIndex + 1)`, mapped to dates and
      closes. When six earlier days exist (the selector's `i >= 6`), the window
      is exactly the seven days ending at the start day, in order. */
  function InitialWindow(s: seq<PricePoint>, startIndex: nat): (w: ChartWindow)
    ensures |w.labels| == |w.values|
    ensures 6 <= startIndex < |s| ==>
      |w.labels| == 7 &&
      (forall k :: 0 <= k < 7 ==> w.labels[k] == s[startIndex - 6 + k].date) &&
      (forall k :: 0 <= k < 7 ==> w.values[k] == s[startIndex - 6 + k].close)
  {
    var slice := Slice(s, startIndex - 6, startIndex + 1);
    ChartWindow(seq(|slice|, k requires 0 <= k < |slice| => slice[k].date),
                seq(|slice|, k requires 0 <= k < |slice| => slice[k].close))
  }

  /** Without the history guard the window is never seven days: a start
      below 6 gives a negative slice begin, which counts from the end. */
  lemma WindowNeedsHistory(s: seq<PricePoint>, k: nat)
    requires k < 6
    ensures |InitialWindow(s, k).labels| < 7
  {
  }

  // ---------------------------------------------------------------------
  // Starting a game

  datatype StartStep = StartStep(state: GameState, window: Result<ChartWindow, GameError>)

  /** The state part of `startGame` after the reset: a failed fetch leaves the
      initial state and passes its error on; otherwise the ticker and series
      are stored, and when the selector then fails with `INSUFFICIENT_DATA`
      they stay stored while no round begins. On success the round starts at
      the selected index with score 0, and the chart gets its window. */
  function StartTransition(ticker: string, fetched: Result<seq<PricePoint>, GameError>,
                           minStr: string, maxStr: string, roll: real): (r: StartStep)
    requires 0.0 <= roll < 1.0
    ensures Inv(r.state)
    ensures fetched.Failure? ==> r == StartStep(InitialState(), Failure(fetched.error))
    ensures fetched.Success? ==> r.state.ticker == Some(ticker) && r.state.seriesAsc == fetched.value
    ensures r.window.Success? <==> r.state.inRound
    ensures fetched.Success? && r.window.Failure? ==>
      r.window.error == InsufficientData &&
      (forall i :: 0 <= i < |fetched.value| ==> !StartWindow.IsCandidate(fetched.value, minStr, maxStr, i)) &&
      r.state == InitialState().(ticker := Some(ticker), seriesAsc := fetched.value)
    ensures r.state.inRound ==>
      fetched.Success? &&
      StartWindow.IsCandidate(fetched.value, minStr, maxStr, r.state.startIndex.value) &&
      r.state.currentIndex == r.state.startIndex && r.state.score == 0 && !r.state.ended &&
      r.window.value == InitialWindow(fetched.value, r.state.startIndex.value) &&
      |r.window.value.labels| == 7
  {
    match fetched
    case Failure(e) => StartStep(InitialState(), Failure(e))
    case Success(series) =>
      var st := InitialState().(ticker := Some(ticker), seriesAsc := series);
      match StartWindow.Select(series, minStr, maxStr, roll)
      case Failure(e) => StartStep(st, Failure(e))
      case Success(k) =>
        StartStep(st.(startIndex := Some(k), currentIndex := Some(k), score := 0, inRound := true, ended := false),
                  Success(InitialWindow(series, k)))
  }

  // ---------------------------------------------------------------------
  // Guessing

  /** What the page reports after a guess. */
  datatype Outcome =
    | Ignored
    | NoMoreData
    | Resolved(date: string, close: real, correct: bool, movedUp: bool, movedDown: bool, changePct: real)

  datatype Step = Step(state: GameState, outcome: Outcome)

  /** The day's percentage change, 0 when today's close is 0 (no division by
      zero). */
  function ChangePct(todayClose: real, nextClose: real): (pct: real)
    ensures todayClose == 0.0 ==> pct == 0.0
    ensures todayClose != 0.0 ==> pct * todayClose == (nextClose - todayClose) * 100.0
    ensures todayClose > 0.0 ==> (pct > 0.0 <==> nextClose > todayClose) && (pct < 0.0 <==> nextClose < todayClose)
  {
    if todayClose != 0.0 then (nextClose - todayClose) / todayClose * 100.0 else 0.0
  }

  /** `endGame`: the game is over, nothing else changes. */
  function EndTransition(st: GameState): GameState {
    st.(ended := true)
  }

  /** `evaluateGuess`. Outside a round or after the end nothing happens. When
      the current day is the last one the game ends with no scoring. Otherwise
      the next day becomes current and the score goes up by one exactly when
      the guess was up and the close rose, or down and the close fell; no other
      field changes. */
  function GuessTransition(st: GameState, dir: Direction): (r: Step)
    requires st.inRound && !st.ended ==> st.currentIndex.Some?
    ensures !st.inRound || st.ended ==> r == Step(st, Ignored)
    ensures st.inRound && !st.ended && st.currentIndex.value + 1 >= |st.seriesAsc| ==>
      r.outcome == NoMoreData && r.state.ended &&
      r.state.(ended := st.ended) == st
    ensures st.inRound && !st.ended && st.currentIndex.value + 1 < |st.seriesAsc| ==>
      var i := st.currentIndex.value;
      var today, next := st.seriesAsc[i].close, st.seriesAsc[i + 1].close;
      var won := (dir == Up && next > today) || (dir == Down && next < today);
      r.state.currentIndex == Some(i + 1) &&
      r.state.score == (if won then st.score + 1 else st.score) &&
      r.state.(currentIndex := st.currentIndex, score := st.score) == st &&
      r.outcome.Resolved? && r.outcome.correct == won &&
      r.outcome.date == st.seriesAsc[i + 1].date && r.outcome.close == next &&
      r.outcome.movedUp == (next > today) && r.outcome.movedDown == (next < today) &&
      r.outcome.changePct == ChangePct(today, next)
  {
    if !st.inRound || st.ended then Step(st, Ignored)
    else
      var i := st.currentIndex.value;
      if i + 1 >= |st.seriesAsc| then Step(EndTransition(st), NoMoreData)
      else
        var todayClose := st.seriesAsc[i].close;
        var next := st.seriesAsc[i + 1];
        var movedUp := next.close > todayClose;
        var movedDown := next.close < todayClose;
        var correct := (dir == Up && movedUp) || (dir == Down && movedDown);
        Step(st.(score := if correct then st.score + 1 else st.score, currentIndex := Some(i + 1)),
             Resolved(next.date, next.close, correct, movedUp, movedDown, ChangePct(todayClose, next.close)))
  }

  /** A guess keeps the invariant of play. */
  lemma GuessPreservesInv(st: GameState, dir: Direction)
    requires Inv(st)
    ensures Inv(GuessTransition(st, dir).state)
  {
  }

  /** When the next close equals today's, neither guess scores. */
  lemma FlatDayScoresNothing(st: GameState, dir: Direction)
    requires Inv(st) && st.inRound && !st.ended
    requires st.currentIndex.value + 1 < |st.seriesAsc|
    requires st.seriesAsc[st.currentIndex.value + 1].close == st.seriesAsc[st.currentIndex.value].close
    ensures GuessTransition(st, dir).state.score == st.score
  {
  }

  /** `endGame` sets `ended`, changes nothing else, is idempotent, keeps the
      invariant, and every later guess is ignored. */
  lemma EndTransitionEffect(st: GameState, dir: Direction)
    ensures EndTransition(st).ended && EndTransition(st).(ended := st.ended) == st
    ensures EndTransition(EndTransition(st)) == EndTransition(st)
    ensures Inv(st) ==> Inv(EndTransition(st))
    ensures GuessTransition(EndTransition(st), dir) == Step(EndTransition(st), Ignored)
  {
  }

  /** An eight-day series started on its last possible day: the close goes
      from 9 to 12, so an up guess is correct and moves to the last day. */
  lemma UpGuessOnRisingDay(d: seq<string>)
    requires |d| == 8
    ensures var s := [PricePoint(d[0], 10.0), PricePoint(d[1], 11.0), PricePoint(d[2], 9.0),
                      PricePoint(d[3], 9.0), PricePoint(d[4], 9.0), PricePoint(d[5], 9.0),
                      PricePoint(d[6], 9.0), PricePoint(d[7], 12.0)];
      var st := GameState(Some("T"), s, Some(6), Some(6), 0, true, false);
      GuessTransition(st, Up).state == st.(currentIndex := Some(7), score := 1) &&
      GuessTransition(st, Up).outcome.correct
  {
  }

  // ---------------------------------------------------------------------
  // A sequence of guesses

  /** The state after the guesses `dirs`, in order. */
  function Play(st: GameState, dirs: seq<Direction>): (r: GameState)
    requires Inv(st)
    ensures Inv(r)
    ensures r.ticker == st.ticker && r.seriesAsc == st.seriesAsc && r.startIndex == st.startIndex
    ensures r.inRound == st.inRound
    ensures st.ended ==> r.ended
    ensures st.score <= r.score
    ensures st.inRound ==> st.currentIndex.value <= r.currentIndex.value
    decreases |dirs|
  {
    if dirs == [] then st
    else GuessTransition(Play(st, dirs[..|dirs| - 1]), dirs[|dirs| - 1]).state
  }

  /** Whether guessing `d` called a change of `delta` correctly. */
  predicate Matches(d: Direction, delta: real) {
    match d
    case Up => delta > 0.0
    case Down => delta < 0.0
  }

  /** The number of guesses in `dirs`, made from day `from` on, whose
      direction matches the sign of the day-to-day change of the close. */
  function CountCorrect(s: seq<PricePoint>, from: nat, dirs: seq<Direction>): (n: nat)
    requires from + |dirs| < |s|
    ensures n <= |dirs|
    decreases |dirs|
  {
    if dirs == [] then 0
    else
      var last := |dirs| - 1;
      CountCorrect(s, from, dirs[..last])
        + (if Matches(dirs[last], s[from + last + 1].close - s[from + last].close) then 1 else 0)
  }

  /** While data lasts, each guess moves one day forward and the score counts
      exactly the correct guesses. */
  lemma {:induction false} PlayCountsCorrectGuesses(st: GameState, dirs: seq<Direction>)
    requires Inv(st) && st.inRound && !st.ended
    requires st.currentIndex.value + |dirs| < |st.seriesAsc|
    ensures !Play(st, dirs).ended
    ensures Play(st, dirs).currentIndex == Some(st.currentIndex.value + |dirs|)
    ensures Play(st, dirs).score == st.score + CountCorrect(st.seriesAsc, st.currentIndex.value, dirs)
    decreases |dirs|
  {
    if dirs != [] {
      PlayCountsCorrectGuesses(st, dirs[..|dirs| - 1]);
    }
  }

  /** Playing a sequence of guesses is playing its first `m` guesses and then
      the rest. */
  lemma {:induction false} PlaySplit(st: GameState, dirs: seq<Direction>, m: nat)
    requires Inv(st) && m <= |dirs|
    ensures Play(st, dirs) == Play(Play(st, dirs[..m]), dirs[m..])
    decreases |dirs|
  {
    if m == |dirs| {
      assert dirs[..m] == dirs && dirs[m..] == [];
    } else {
      var n := |dirs| - 1;
      var p, rest := Play(st, dirs[..m]), dirs[m..];
      PlaySplit(st, dirs[..n], m);
      assert dirs[..n][..m] == dirs[..m];
      assert rest[..|rest| - 1] == dirs[..n][m..];
      assert rest[|rest| - 1] == dirs[n];
      assert Play(p, rest) == GuessTransition(Play(p, dirs[..n][m..]), dirs[n]).state;
    }
  }

  /** Once the game has ended, further guesses change nothing. */
  lemma {:induction false} PlayAfterEnd(st: GameState, dirs: seq<Direction>)
    requires Inv(st) && st.ended
    ensures Play(st, dirs) == st
    decreases |dirs|
  {
    if dirs != [] {
      PlayAfterEnd(st, dirs[..|dirs| - 1]);
    }
  }

  /** A guess on the last day ends the game: after as many guesses as there
      are days left, and any number more, the game has ended on the last day
      with the score earned on the way. */
  lemma GameEndsWhenDataRunsOut(st: GameState, dirs: seq<Direction>)
    requires Inv(st) && st.inRound && !st.ended
    requires |dirs| >= |st.seriesAsc| - st.currentIndex.value
    ensures Play(st, dirs).ended
    ensures Play(st, dirs).currentIndex == Some(|st.seriesAsc| - 1)
    ensures Play(st, dirs).score ==
      st.score + CountCorrect(st.seriesAsc, st.currentIndex.value, dirs[..|st.seriesAsc| - 1 - st.currentIndex.value])
  {
    var m := |st.seriesAsc| - 1 - st.currentIndex.value;
    PlayCountsCorrectGuesses(st, dirs[..m]);
    PlayFromLastDay(Play(st, dirs[..m]), dirs[m..]);
    PlaySplit(st, dirs, m);
  }

  /** On the last day, the first guess ends the game and the rest are ignored. */
  lemma PlayFromLastDay(st: GameState, dirs: seq<Direction>)
    requires Inv(st) && st.inRound && !st.ended
    requires st.currentIndex.value == |st.seriesAsc| - 1 && |dirs| >= 1
    ensures Play(st, dirs) == EndTransition(st)
  {
    assert Play(st, dirs[..1]) == EndTransition(st) by {
      assert dirs[..1][..0] == [];
    }
    PlaySplit(st, dirs, 1);
    PlayAfterEnd(EndTransition(st), dirs[1..]);
  }

  // ---------------------------------------------------------------------
  // The session object

  /** The module-level `state` of the page; its methods update the fields
      in place. */
  class Game {
    var ticker: Option<string>
    var seriesAsc: seq<PricePoint>
    var startIndex: Option<nat>
    var currentIndex: Option<nat>
    var score: nat
    var inRound: bool
    var ended: bool

    function State(): GameState
      reads this
    {
      GameState(ticker, seriesAsc, startIndex, currentIndex, score, inRound, ended)
    }

    ghost predicate Valid()
      reads this
    {
      Inv(State())
    }

    /** `let state = initialState()`. */
    constructor ()
      ensures State() == InitialState() && Valid()
    {
      ticker, seriesAsc, startIndex, currentIndex := None, [], None, None;
      score, inRound, ended := 0, false, false;
    }

    /** The state part of `resetUIForNewGame`: `state = initialState()`. */
    method Reset()
      modifies this
      ensures State() == InitialState() && Valid()
    {
      ticker, seriesAsc, startIndex, currentIndex := None, [], None, None;
      score, inRound, ended := 0, false, false;
    }

    /** `startGame` once its fetch has produced `fetched`: reset, store the
        ticker and series, select the start index, and start the round, or
        report the error. Returns the chart's initial window on success. */
    method StartGame(t: string, fetched: Result<seq<PricePoint>, GameError>,
                     minStr: string, maxStr: string, roll: real)
      returns (window: Result<ChartWindow, GameError>)
      requires 0.0 <= roll < 1.0
      modifies this
      ensures StartStep(State(), window) == StartTransition(t, fetched, minStr, maxStr, roll)
      ensures Valid()
    {
      Reset();
      if fetched.Failure? {
        return Failure(fetched.error);
      }
      ticker := Some(t);
      seriesAsc := fetched.value;
      var picked := StartWindow.PickStartIndexWithinWindow(seriesAsc, minStr, maxStr, roll);
      if picked.Failure? {
        return Failure(picked.error);
      }
      var k := picked.value;
      startIndex := Some(k);
      var w := InitialWindow(seriesAsc, k);
      currentIndex := Some(k);
      score := 0;
      inRound := true;
      ended := false;
      return Success(w);
    }

    /** `evaluateGuess(direction)`. */
    method EvaluateGuess(dir: Direction) returns (outcome: Outcome)
      requires inRound && !ended ==> currentIndex.Some?
      modifies this
      ensures Step(State(), outcome) == GuessTransition(old(State()), dir)
      ensures old(Valid()) ==> Valid()
    {
      if !inRound || ended {
        return Ignored;
      }
      var i := currentIndex.value;
      if i + 1 >= |seriesAsc| {
        EndGame();
        return NoMoreData;
      }
      var todayClose := seriesAsc[i].close;
      var next := seriesAsc[i + 1];
      var movedUp := next.close > todayClose;
      var movedDown := next.close < todayClose;
      var changePct := ChangePct(todayClose, next.close);
      var correct := false;
      if dir == Up && movedUp {
        correct := true;
      }
      if dir == Down && movedDown {
        correct := true;
      }
      if correct {
        score := score + 1;
      }
      currentIndex := Some(i + 1);
      return Resolved(next.date, next.close, correct, movedUp, movedDown, changePct);
    }

    /** `endGame()`. */
    method EndGame()
      modifies this
      ensures State() == EndTransition(old(State()))
      ensures old(Valid()) ==> Valid()
    {
      ended := true;
    }
  }
}
