/** The value types the round engine exchanges with its collaborators. */
module Prices {

  /** One trading day of a series: its ISO date string ("YYYY-MM-DD") and its
      closing price. Prices are exact reals here, not floating point. */
  datatype PricePoint = PricePoint(date: string, close: real)

  /** The `code` values the game's errors carry. The first five come from the
      data fetch, which is not modelled; InsufficientData is raised by the
      start-window selector. */
  datatype GameError =
    | RateLimit
    | Information
    | InvalidTicker
    | NoSeries
    | NetworkError
    | InsufficientData
}
