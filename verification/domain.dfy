/** The domain values of the service: hourly price points, price windows
    with their time zone, and the electricity price provider. */
module Domain {
  import opened Wrappers

  const SecondsPerDay: int := 86400

  /** A fixed UTC offset in seconds, as chrono's `FixedOffset` admits it. */
  type Offset = o: int | -SecondsPerDay < o < SecondsPerDay

  const Utc: Offset := 0

  /** The calendar date (days since 1970-01-01) of an instant given in UTC seconds. */
  function Day(moment: int): int {
    moment / SecondsPerDay
  }

  lemma DayMonotone(a: int, b: int)
    requires a <= b
    ensures Day(a) <= Day(b)
  {
  }

  /** One hour's price, starting at `moment` (UTC seconds). */
  datatype PricePoint = PricePoint(moment: int, monetaryAmount: real)

  /** An instant (UTC seconds) together with the offset it is shown in. */
  datatype DateTime = DateTime(utc: int, offset: Offset) {
    /** The wall-clock reading of the instant in its offset, in seconds. */
    function Local(): int {
      utc + offset
    }
  }

  datatype PriceWindow = PriceWindow(startsAt: DateTime, endsAt: DateTime, averagePrice: string)

  /** Re-expresses both instants of a window in another offset. */
  function WithTimezone(w: PriceWindow, zone: Offset): (r: PriceWindow)
    ensures r.startsAt.utc == w.startsAt.utc && r.endsAt.utc == w.endsAt.utc
    ensures r.startsAt.offset == zone && r.endsAt.offset == zone
    ensures r.averagePrice == w.averagePrice
  {
    PriceWindow(DateTime(w.startsAt.utc, zone), DateTime(w.endsAt.utc, zone), w.averagePrice)
  }

  /** The length of a window, on the clock and on the wall, is zone independent. */
  lemma WithTimezoneKeepsSpan(w: PriceWindow, zone: Offset)
    requires w.startsAt.offset == w.endsAt.offset
    ensures var r := WithTimezone(w, zone);
      r.endsAt.utc - r.startsAt.utc == w.endsAt.utc - w.startsAt.utc &&
      r.endsAt.Local() - r.startsAt.Local() == w.endsAt.Local() - w.startsAt.Local()
  {
  }

  /** Only the last projection matters; in particular projecting is idempotent. */
  lemma WithTimezoneLastWins(w: PriceWindow, a: Offset, b: Offset)
    ensures WithTimezone(WithTimezone(w, a), b) == WithTimezone(w, b)
    ensures WithTimezone(WithTimezone(w, a), a) == WithTimezone(w, a)
  {
  }

  /** The wall clock moves by the offset, and reading it back in UTC gives the original window. */
  lemma WithTimezoneRoundTrip(w: PriceWindow, zone: Offset)
    requires w.startsAt.offset == Utc && w.endsAt.offset == Utc
    ensures WithTimezone(w, zone).startsAt.Local() - zone == w.startsAt.utc
    ensures WithTimezone(w, zone).endsAt.Local() - zone == w.endsAt.utc
    ensures WithTimezone(WithTimezone(w, zone), Utc) == w
  {
  }

  datatype ProviderError = FetchPrices(message: string) {
    /** The error's text, `failed to fetch prices: {0}`. */
    function Display(): (s: string)
      ensures |s| > |message| && s[|s| - |message|..] == message
    {
      "failed to fetch prices: " + message
    }
  }

  /** The external price provider. What its `fetch_prices` call answers is fixed
      when it is created; `fetches` counts how often that call was made. */
  class ElectricityPriceProvider {
    const name: string
    const answer: Result<seq<PricePoint>, ProviderError>
    ghost var fetches: nat

    constructor (name: string, answer: Result<seq<PricePoint>, ProviderError>)
      ensures this.name == name && this.answer == answer && fetches == 0
    {
      this.name := name;
      this.answer := answer;
      fetches := 0;
    }

    method FetchPrices() returns (r: Result<seq<PricePoint>, ProviderError>)
      modifies this
      ensures r == answer && fetches == old(fetches) + 1
    {
      r := answer;
      fetches := fetches + 1;
    }
  }
}
