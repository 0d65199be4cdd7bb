# Stock predictor round engine, in Dafny

This project models the round engine of a browser game. The player picks a stock ticker. The page loads that ticker's daily closing prices and picks a start day from roughly the last hundred days, keeping the last week out. The player then guesses, day by day, whether the next close will be higher or lower. Each correct guess scores a point. All of this lives in `app.js`. The model covers:

- `dateToYMD`, which prints a day as `YYYY-MM-DD` (module `DateFormat`, file `date_format.dfy`). The model also covers JavaScript's string `<`, which the selector applies to those strings.
- `pickStartIndexWithinWindow`, the start-day selector (module `StartWindow`, file `start_window.dfy`). An index is a candidate when its date string lies in `[minStr, maxStr]`, it is at least 6, and a next day exists. The selector fails with `INSUFFICIENT_DATA` when no index is a candidate. Otherwise `Math.floor(Math.random() * n)` picks one.
- The game state machine (module `RoundEngine`, file `round_engine.dfy`). Its parts are the state record and `initialState()`, the reset, the state part of `startGame`, the 7-day initial chart window, `evaluateGuess` and `endGame`. Each operation is a pure transition on the `GameState` record. The class `Game` holds the same fields and updates them in place, as the page updates its module-level `state`. Each method of `Game` is proved to perform the matching transition and to keep the invariant of play.

Support files: `wrappers.dfy` (Option, Result) and `prices.dfy` (a price point and the error codes).

Modelling choices:

- Closing prices are exact `real`s. Only `>`, `<` and the percentage change depend on them.
- `Math.random()` is a parameter `roll` with `0 <= roll < 1`. `PickPositionInterval` shows that each candidate is chosen by a sub-interval of width `1/n`. So with a uniform roll, every candidate is equally likely.
- The window bounds `minStr`/`maxStr` and the fetched series are parameters. The fetch result is a `Result`, so its failure path goes through `StartGame` too.
- JavaScript's `null` is `None`.
- A guess is `Up` or `Down`. The page only ever passes `"up"` or `"down"`.

Two consequences of the code worth knowing:

- On `INSUFFICIENT_DATA` the state is not back to `initialState()`. `startGame` stores `state.ticker` and `state.seriesAsc` (app.js:215-216) before the selector throws (app.js:218). So both stay set, and no round starts (`StartTransition`).
- Any series shorter than 8 days fails, because a candidate needs `i >= 6` and `i + 1 < length` (`ShortSeriesFails`).

## Model

| member | source | states |
|---|---|---|
| `DateFormat.PadStart` | app.js:109-110 | `padStart(width, fill)` returns `s` when it is already `width` long or longer. Otherwise it prefixes `s` with `fill` up to `width` characters. |
| `DateFormat.YMDShape` | app.js:107-112 | For a real calendar day with a four-digit year, `DateToYMD` (the model of `dateToYMD`) gives 10 characters: digits everywhere, with dashes at positions 4 and 7. |
| `DateFormat.YMDAsDigits` | app.js:107-112 | For such days, `DateToYMD` equals the fixed-width rendering `FixedWidthYMD`: 4 year digits, 2 month digits (1-based) and 2 day digits, separated by dashes. |
| `DateFormat.DateToYMDOrder` | app.js:107-112 | For such days, one `dateToYMD` string is below another under JavaScript `<` exactly when the first day is chronologically earlier. The strings are equal exactly when the days are. |
| `DateFormat.DigitsOrder` | app.js:108-110 | Fixed-width decimal strings of numbers below 10^k compare by string order exactly as the numbers compare. They are equal exactly when the numbers are. |
| `DateFormat.NatToStringIsDigits` | app.js:108-110 | `String(n)` of a k-digit number is its k fixed-width digits. |
| `DateFormat.LexLessTrichotomy` | app.js:127 | `LexLess` (the model of JavaScript string `<`) is a strict total order: for two strings, exactly one of "equal", "a below b" and "b below a" holds. |
| `DateFormat.LexLessIrreflexive` | app.js:127 | No string is below itself under `LexLess`. |
| `DateFormat.JoinOrder` | app.js:111 | The order of "Y-M-D" strings whose parts have equal widths is decided part by part: year, then month, then day. |
| `StartWindow.CandidatesBelowExact` | app.js:124-132 | After the loop has scanned the indices below `n`, `candidates` holds exactly the qualifying indices below `n`, in strictly ascending order. |
| `StartWindow.CandidatesExact` | app.js:124-132 | The full candidate list holds every index satisfying `IsCandidate` (the date-window and index guards of app.js:127-128), and no other. |
| `StartWindow.PickPosition` | app.js:140 | `Math.floor(roll * n)` is a valid position in a list of `n > 0` candidates. |
| `StartWindow.PickPositionInterval` | app.js:140 | Position `k` is picked exactly by the rolls in `[k/n, (k+1)/n)`. |
| `StartWindow.Select` | app.js:124-141 | The result is `INSUFFICIENT_DATA` exactly when no index qualifies. Otherwise the result is a qualifying index: its date is inside `[minStr, maxStr]`, it is at least 6, and it has a next day. |
| `StartWindow.PickStartIndexWithinWindow` | app.js:114-142 | The loop that collects candidates, then fails or picks, returns exactly `Select`'s result. So its failure and success cases are those above. |
| `StartWindow.SelectedInBounds` | app.js:128 | A selected index is at least 6, and it is followed by at least one day. |
| `StartWindow.ShortSeriesFails` | app.js:128 | A series of fewer than 8 days always fails with `INSUFFICIENT_DATA`. |
| `StartWindow.EveryCandidateSelectable` | app.js:140-141 | Every qualifying index is returned for some roll in `[0, 1)`. |
| `StartWindow.StringWindowIsCalendarWindow` | app.js:121-127 | Suppose the bounds and the series dates are `dateToYMD` strings of real days. Then the string test is the calendar test: the day lies between the two bound days, both included. |
| `RoundEngine.InitialStateValid` | app.js:25-33 | `InitialState` (the model of `initialState()`) satisfies the invariant of play. In that state every guess is ignored. |
| `RoundEngine.SliceIndex` | app.js:222 | A `slice` index argument is clamped to `[0, n]`, and an in-range index is kept as it is. |
| `RoundEngine.Slice` | app.js:222 | `slice(begin, end)` with `0 <= begin <= end <= length` is the subsequence `begin..end`. No slice is longer than its input. |
| `RoundEngine.InitialWindow` | app.js:221-224 | When `6 <= startIndex < length`, the chart window has exactly 7 labels and 7 values. These are the dates and closes of days `startIndex-6` to `startIndex`, in order. |
| `RoundEngine.WindowNeedsHistory` | app.js:221-222 | Without the `i >= 6` guard the window is never 7 days: for any series and any start below 6, `InitialWindow` has fewer than 7 labels. |
| `RoundEngine.StartTransition` | app.js:210-231 | A failed fetch leaves exactly `initialState()` and passes its error on. After a fetch succeeds, the ticker and series are stored. A selector failure is `INSUFFICIENT_DATA`: no index qualifies, and nothing else changes. A success starts a round at a qualifying index: `currentIndex == startIndex`, `score == 0`, `inRound`, not `ended`, and the 7-day window goes to the chart. The invariant of play holds in every case. |
| `RoundEngine.ChangePct` | app.js:275 | The percentage change is 0 when today's close is 0, so there is no division by zero. Otherwise, `pct * today == (next - today) * 100`. For a positive close its sign matches the direction of the move. |
| `RoundEngine.GuessTransition` | app.js:262-299 | Outside a round, or after the end, the state is unchanged. With no next day the game ends, and nothing else changes. Otherwise `currentIndex` goes up by exactly 1. `score` goes up by 1 exactly when the guess was up and the next close is higher, or down and it is lower. No other field changes. The page is told the next day's date and close, whether the close went up or down, and its `ChangePct`. |
| `RoundEngine.GuessPreservesInv` | app.js:262-299 | Each guess keeps the invariant of play: the current day exists, and `score <= currentIndex - startIndex`. |
| `RoundEngine.FlatDayScoresNothing` | app.js:273-280 | When the next close equals today's, neither an up nor a down guess scores. |
| `RoundEngine.EndTransitionEffect` | app.js:301-307 | `EndTransition` (the model of `endGame`) sets `ended`, changes no other field, is idempotent and keeps the invariant. Every later guess is ignored. |
| `RoundEngine.UpGuessOnRisingDay` | app.js:271-283 | Take the 8-day series with closes 10, 11, 9, 9, 9, 9, 9, 12, started at index 6. An up guess is correct: `score` becomes 1 and `currentIndex` becomes 7. |
| `RoundEngine.Play` | app.js:262-299 | Over any sequence of guesses the invariant holds. The series, ticker, start index and `inRound` stay fixed, and an ended game stays ended. Score and `currentIndex` never decrease. |
| `RoundEngine.CountCorrect` | app.js:278-280 | The number of guesses that match the sign of the day-to-day close change is at most the number of guesses. |
| `RoundEngine.PlayCountsCorrectGuesses` | app.js:271-297 | While data lasts, `n` guesses move `currentIndex` forward by exactly `n`. The score grows by exactly the number of correct guesses. |
| `RoundEngine.PlaySplit` | app.js:262-299 | Playing a sequence of guesses equals playing its first part and then the rest. |
| `RoundEngine.PlayAfterEnd` | app.js:263 | Once the game has ended, any further guesses leave the state unchanged. |
| `RoundEngine.PlayFromLastDay` | app.js:264-270 | On the last day, the next guess ends the game without scoring. Later guesses are ignored. |
| `RoundEngine.GameEndsWhenDataRunsOut` | app.js:264-270 | Given enough guesses, the game ends on the last day, and the score counts the correct guesses made up to that day. |
| `RoundEngine.Game.constructor` | app.js:35 | The new session object holds exactly `initialState()`. |
| `RoundEngine.Game.Reset` | app.js:197-198 | The reset restores exactly `initialState()`. |
| `RoundEngine.Game.StartGame` | app.js:210-231 | Performs `StartTransition` in place on the fields. It returns the chart window or the error, and the invariant holds afterwards. |
| `RoundEngine.Game.EvaluateGuess` | app.js:262-299 | Performs `GuessTransition` in place on the fields and returns what the page reports. It keeps the invariant of play. |
| `RoundEngine.Game.EndGame` | app.js:301-307 | Sets `ended`, leaves every other field as it was, and keeps the invariant of play. |

## Left out

- Fetching from Alpha Vantage and checking the response shape (app.js:62-105) is left out: it is network I/O with float parsing and `Date`-based sorting. The fetch result is a parameter of `StartGame`.
- The window bounds come from the clock, using `new Date()` and `setDate` arithmetic (app.js:115-122). They are parameters `minStr`/`maxStr`.
- `Math.random()` (app.js:140) is the parameter `roll`.
- Chart.js rendering and point appending (app.js:144-195) belong to an external library. The model returns the initial window; the appended point is the `Resolved` outcome.
- DOM updates are left out: button enabling, status bar, CSS classes, messages, keyboard and form handlers, `localStorage` (app.js:5-20, 37-60, 289-294, 309-386).
- Number formatting with `toFixed`, the result texts, and the mapping from error codes to messages (app.js:240-256, 276-286) are presentation only.
- The loading gate and the async/await plumbing of `startGame` (app.js:210-214, 257-259) are event-loop behaviour. A throw from the chart library inside `startGame` is not modelled either.
- Closing prices are exact reals, not IEEE doubles. Rounding in `changePct` is not modelled.
- JavaScript compares strings by UTF-16 code units, while the model compares characters by code point. The two agree on the ASCII date strings involved.
- DateFormat.DateToYMDOrder holds only for years 1000-9999. Outside that range, `String(year)` has a different width or a minus sign, so string order is no longer chronological: for example `"10000-01-01" < "9999-01-01"`. The model states this range instead of a property for all years.
- A moving-average predictor and a cache of fetched series are not part of this model: they do not appear in `app.js`.
