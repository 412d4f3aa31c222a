/** The cheapest-window query of the price repository: the rows of the
    requested range, partitioned by calendar date and ordered by moment; for
    every row the frame of that row and the next `k` rows of its partition;
    the frame's average rounded to three decimals; and the one row whose
    average sorts first. */
module WindowQuery {
  import opened Wrappers
  import opened Decimal
  import opened Domain
  import opened PriceText

  /** `interval '59 minutes 59 seconds'`, added to the last hour of a frame. */
  const EndOfHour: int := 59 * 60 + 59

  /** The largest number of following rows a frame takes. */
  const MaxLookahead: nat := 23

  /** `clamp(lo, hi)`: the nearest value of `[lo, hi]`; values inside are kept. */
  function Clamp(x: int, lo: int, hi: int): (r: int)
    requires lo <= hi
    ensures lo <= r <= hi
    ensures lo <= x <= hi ==> r == x
    ensures x < lo ==> r == lo
    ensures x > hi ==> r == hi
  {
    if x < lo then lo else if x > hi then hi else x
  }

  // ---------------------------------------------------------------------------
  // From a requested duration to the number of following rows

  /** `duration - 1` clamped to [0, 23]: the number of rows a frame takes
      after its own. */
  function Lookahead(duration: int): (k: nat)
    ensures k <= MaxLookahead
    ensures duration <= 1 ==> k == 0
    ensures duration >= MaxLookahead + 1 ==> k == MaxLookahead
    ensures 1 <= duration <= MaxLookahead + 1 ==> k + 1 == duration
  {
    Clamp(duration - 1, 0, MaxLookahead)
  }

  /** `duration -= 1` on an `i32` in a build where arithmetic wraps:
      `i32::MIN` becomes `i32::MAX`. */
  function WrappingDecrement(d: Int32): Int32 {
    if d == I32_MIN then I32_MAX else d - 1
  }

  /** The wrapped result is the one `i32` that agrees with `d - 1` modulo
      2^32, i.e. two's-complement subtraction. */
  lemma WrappingDecrementIsTwosComplement(d: Int32, r: Int32)
    ensures r == WrappingDecrement(d) <==> (r - (d - 1)) % 0x1_0000_0000 == 0
  {
  }

  /** The lookahead as the source computes it in a build where `i32`
      arithmetic wraps: `duration -= 1` before clamping. */
  function LookaheadWrapping(duration: Int32): (k: nat)
    ensures k <= MaxLookahead
  {
    Clamp(WrappingDecrement(duration), 0, MaxLookahead)
  }

  /** Away from `i32::MIN` the wrapping computation is the intended one. */
  lemma LookaheadWrappingAgrees(duration: Int32)
    requires duration > I32_MIN
    ensures LookaheadWrapping(duration) == Lookahead(duration)
  {
  }

  /** At `i32::MIN` the subtraction wraps to `i32::MAX`, and a request for the
      smallest duration gets the largest frame. */
  lemma LookaheadWrapsAtMinimum()
    ensures LookaheadWrapping(I32_MIN) == MaxLookahead
    ensures Lookahead(I32_MIN) == 0
  {
  }

  // ---------------------------------------------------------------------------
  // Selecting and ordering the rows

  /** `where moment >= start and moment <= end`, in stored order. */
  function InRange(points: seq<PricePoint>, start: int, end: int): (r: seq<PricePoint>)
    ensures |r| <= |points|
    ensures forall p :: p in r <==> p in points && start <= p.moment <= end
  {
    if points == [] then []
    else (if start <= points[0].moment <= end then [points[0]] else []) + InRange(points[1..], start, end)
  }

  /** The filter keeps every stored row in range as often as it is stored,
      so two providers' equal rows are two candidates. */
  lemma {:induction false} InRangeKeepsMultiplicity(points: seq<PricePoint>, start: int, end: int)
    ensures forall p :: multiset(InRange(points, start, end))[p] == if start <= p.moment <= end then multiset(points)[p] else 0
  {
    if points != [] {
      InRangeKeepsMultiplicity(points[1..], start, end);
      assert points == [points[0]] + points[1..];
    }
  }

  predicate SortedByMoment(s: seq<PricePoint>) {
    forall i, j :: 0 <= i < j < |s| ==> s[i].moment <= s[j].moment
  }

  function Insert(p: PricePoint, s: seq<PricePoint>): (r: seq<PricePoint>)
    ensures |r| == |s| + 1
    ensures multiset(r) == multiset(s) + multiset{p}
  {
    if s == [] || p.moment <= s[0].moment then [p] + s
    else
      assert s == [s[0]] + s[1..];
      [s[0]] + Insert(p, s[1..])
  }

  lemma InsertBound(p: PricePoint, s: seq<PricePoint>, b: int)
    requires b <= p.moment && forall t :: 0 <= t < |s| ==> b <= s[t].moment
    ensures forall t :: 0 <= t < |Insert(p, s)| ==> b <= Insert(p, s)[t].moment
  {
    var r := Insert(p, s);
    forall t | 0 <= t < |r|
      ensures b <= r[t].moment
    {
      assert r[t] in multiset(r);
      if r[t] != p {
        assert r[t] in multiset(s);
      }
    }
  }

  lemma {:induction false} InsertSorted(p: PricePoint, s: seq<PricePoint>)
    requires SortedByMoment(s)
    ensures SortedByMoment(Insert(p, s))
  {
    if s != [] && p.moment > s[0].moment {
      InsertSorted(p, s[1..]);
      InsertBound(p, s[1..], s[0].moment);
      assert Insert(p, s) == [s[0]] + Insert(p, s[1..]);
    }
  }

  /** `order by moment`; rows with equal moments keep their stored order. */
  function SortByMoment(s: seq<PricePoint>): (r: seq<PricePoint>)
    ensures |r| == |s|
    ensures SortedByMoment(r)
    ensures multiset(r) == multiset(s)
  {
    if s == [] then []
    else
      assert s == [s[0]] + s[1..];
      InsertSorted(s[0], SortByMoment(s[1..]));
      Insert(s[0], SortByMoment(s[1..]))
  }

  // ---------------------------------------------------------------------------
  // Frames

  /** The end of the run of rows from `i` on that share the date of row `i`,
      scanning from `j`. */
  function RunEnd(s: seq<PricePoint>, i: nat, j: nat): (e: nat)
    requires i < j <= |s|
    requires forall t :: i <= t < j ==> Day(s[t].moment) == Day(s[i].moment)
    ensures j <= e <= |s|
    ensures forall t :: i <= t < e ==> Day(s[t].moment) == Day(s[i].moment)
    ensures e < |s| ==> Day(s[e].moment) != Day(s[i].moment)
    decreases |s| - j
  {
    if j < |s| && Day(s[j].moment) == Day(s[i].moment) then RunEnd(s, i, j + 1) else j
  }

  /** `rows between current row and k following` of row `i` of the sorted
      rows `s`, within the partition of row `i`'s date. */
  function Frame(s: seq<PricePoint>, i: nat, k: nat): (f: seq<PricePoint>)
    requires i < |s|
    ensures 1 <= |f| <= k + 1 && i + |f| <= |s|
    ensures f == s[i..i + |f|]
    ensures forall t :: 0 <= t < |f| ==> Day(f[t].moment) == Day(s[i].moment)
    ensures |f| < k + 1 ==> i + |f| == |s| || Day(s[i + |f|].moment) != Day(s[i].moment)
  {
    var e := RunEnd(s, i, i + 1);
    s[i..if e < i + k + 1 then e else i + k + 1]
  }

  predicate NonEmptyFrames(fs: seq<seq<PricePoint>>) {
    forall i :: 0 <= i < |fs| ==> |fs[i]| > 0
  }

  function Frames(s: seq<PricePoint>, k: nat): (fs: seq<seq<PricePoint>>)
    ensures |fs| == |s| && NonEmptyFrames(fs)
  {
    seq(|s|, i requires 0 <= i < |s| => Frame(s, i, k))
  }

  /** The frame of every row the query selects, in moment order. */
  function Candidates(points: seq<PricePoint>, start: int, end: int, k: nat): (fs: seq<seq<PricePoint>>)
    ensures |fs| == |InRange(points, start, end)| && NonEmptyFrames(fs)
  {
    Frames(SortByMoment(InRange(points, start, end)), k)
  }

  // ---------------------------------------------------------------------------
  // The columns of a row

  function Sum(f: seq<PricePoint>): real {
    if f == [] then 0.0 else f[0].monetaryAmount + Sum(f[1..])
  }

  /** `avg(price) over price_window` */
  function Mean(f: seq<PricePoint>): real
    requires |f| > 0
  {
    Sum(f) / |f| as real
  }

  /** `max(moment) over price_window` */
  function MaxMoment(f: seq<PricePoint>): (m: int)
    requires |f| > 0
    ensures exists t :: 0 <= t < |f| && f[t].moment == m
    ensures forall t :: 0 <= t < |f| ==> f[t].moment <= m
  {
    if |f| == 1 then f[0].moment
    else
      var m := MaxMoment(f[1..]);
      assert forall t :: 1 <= t < |f| ==> f[t] == f[1..][t - 1];
      if f[0].moment > m then f[0].moment else m
  }

  /** The frame's average in thousandths, as `round(..., 3)` leaves it. */
  function RoundedMean(f: seq<PricePoint>): int
    requires |f| > 0
  {
    RoundToThousandths(Mean(f))
  }

  /** The row the query returns for a frame: its first moment, the end of the
      hour of its latest moment, and the rounded average as text. */
  function WindowOf(f: seq<PricePoint>): PriceWindow
    requires |f| > 0
  {
    PriceWindow(DateTime(f[0].moment, Utc), DateTime(MaxMoment(f) + EndOfHour, Utc), NumericText(RoundedMean(f)))
  }

  // ---------------------------------------------------------------------------
  // Choosing the row

  /** What the rows are ordered by: the varchar `average_price` column, or the
      rounded numeric value it renders. */
  datatype SortKey = ByText | ByValue

  predicate KeyLe(f: seq<PricePoint>, g: seq<PricePoint>, key: SortKey)
    requires |f| > 0 && |g| > 0
  {
    match key
    case ByText => TextLe(WindowOf(f).averagePrice, WindowOf(g).averagePrice)
    case ByValue => RoundedMean(f) <= RoundedMean(g)
  }

  lemma KeyLeTotal(f: seq<PricePoint>, g: seq<PricePoint>, key: SortKey)
    requires |f| > 0 && |g| > 0
    ensures KeyLe(f, g, key) || KeyLe(g, f, key)
  {
    if key == ByText {
      TextLeTotal(WindowOf(f).averagePrice, WindowOf(g).averagePrice);
    }
  }

  lemma KeyLeTransitive(f: seq<PricePoint>, g: seq<PricePoint>, h: seq<PricePoint>, key: SortKey)
    requires |f| > 0 && |g| > 0 && |h| > 0
    requires KeyLe(f, g, key) && KeyLe(g, h, key)
    ensures KeyLe(f, h, key)
  {
    if key == ByText {
      TextLeTransitive(WindowOf(f).averagePrice, WindowOf(g).averagePrice, WindowOf(h).averagePrice);
    }
  }

  /** The position of the first frame that sorts first. */
  function ArgMin(fs: seq<seq<PricePoint>>, key: SortKey): (i: nat)
    requires |fs| > 0 && NonEmptyFrames(fs)
    ensures i < |fs|
  {
    if |fs| == 1 then 0
    else
      var m := ArgMin(fs[1..], key) + 1;
      if KeyLe(fs[0], fs[m], key) then 0 else m
  }

  lemma {:induction false} ArgMinIsMinimal(fs: seq<seq<PricePoint>>, key: SortKey)
    requires |fs| > 0 && NonEmptyFrames(fs)
    ensures forall t :: 0 <= t < |fs| ==> KeyLe(fs[ArgMin(fs, key)], fs[t], key)
  {
    if |fs| > 1 {
      var tail := fs[1..];
      ArgMinIsMinimal(tail, key);
      var m := ArgMin(tail, key) + 1;
      assert fs[m] == tail[m - 1];
      assert forall t :: 1 <= t < |fs| ==> fs[t] == tail[t - 1];
      KeyLeTotal(fs[0], fs[m], key);
      if KeyLe(fs[0], fs[m], key) {
        forall t | 0 <= t < |fs|
          ensures KeyLe(fs[0], fs[t], key)
        {
          if t == 0 {
            KeyLeTotal(fs[0], fs[0], key);
          } else {
            KeyLeTransitive(fs[0], fs[m], fs[t], key);
          }
        }
      } else {
        KeyLeTotal(fs[m], fs[0], key);
      }
    } else {
      KeyLeTotal(fs[0], fs[0], key);
    }
  }

  /** `w` is the row of a candidate frame that sorts no later than any other. */
  ghost predicate IsCheapestWindow(fs: seq<seq<PricePoint>>, w: PriceWindow, key: SortKey)
    requires NonEmptyFrames(fs)
  {
    exists i :: 0 <= i < |fs| && w == WindowOf(fs[i]) && forall t :: 0 <= t < |fs| ==> KeyLe(fs[i], fs[t], key)
  }

  lemma CheapestFrame(fs: seq<seq<PricePoint>>, w: PriceWindow, key: SortKey) returns (i: nat)
    requires NonEmptyFrames(fs) && IsCheapestWindow(fs, w, key)
    ensures i < |fs| && w == WindowOf(fs[i])
    ensures forall t :: 0 <= t < |fs| ==> KeyLe(fs[i], fs[t], key)
  {
    i :| 0 <= i < |fs| && w == WindowOf(fs[i]) && forall t :: 0 <= t < |fs| ==> KeyLe(fs[i], fs[t], key);
  }

  /** The row the query returns is that of one of the candidates. */
  lemma SelectedFrame(fs: seq<seq<PricePoint>>, key: SortKey) returns (i: nat)
    requires NonEmptyFrames(fs) && fs != []
    ensures i < |fs| && Select(fs, key) == Some(WindowOf(fs[i]))
  {
    i := ArgMin(fs, key);
  }

  /** `order by ... limit 1` over the candidates, or no row at all. */
  function Select(fs: seq<seq<PricePoint>>, key: SortKey): (r: Option<PriceWindow>)
    requires NonEmptyFrames(fs)
    ensures r.None? <==> fs == []
    ensures r.Some? ==> IsCheapestWindow(fs, r.value, key)
  {
    if fs == [] then None
    else
      ArgMinIsMinimal(fs, key);
      Some(WindowOf(fs[ArgMin(fs, key)]))
  }

  /** The query as written: rows ordered by the text of their average. */
  function OptimalWindowAsWritten(points: seq<PricePoint>, start: int, end: int, k: nat): (r: Option<PriceWindow>)
    ensures r.None? <==> InRange(points, start, end) == []
    ensures r.Some? ==> IsCheapestWindow(Candidates(points, start, end, k), r.value, ByText)
  {
    Select(Candidates(points, start, end, k), ByText)
  }

  /** The query with rows ordered by the value of their rounded average: the
      window of least average price. */
  function OptimalWindow(points: seq<PricePoint>, start: int, end: int, k: nat): (r: Option<PriceWindow>)
    ensures r.None? <==> InRange(points, start, end) == []
    ensures r.Some? ==> IsCheapestWindow(Candidates(points, start, end, k), r.value, ByValue)
  {
    Select(Candidates(points, start, end, k), ByValue)
  }

  /** The two readings of the per-duration query: the program as written
      orders by the text of the average and computes `duration - 1` with
      `i32` wrap-around; the intended query orders by value and does not wrap. */
  datatype Reading = AsWritten | Intended

  /** The query of one requested duration under a reading. */
  function WindowForDuration(points: seq<PricePoint>, start: int, end: int, duration: Int32, reading: Reading): Option<PriceWindow> {
    Select(Candidates(points, start, end, LookaheadOf(duration, reading)), KeyOf(reading))
  }

  /** The ordering of the averages under a reading. */
  function KeyOf(reading: Reading): SortKey {
    if reading == AsWritten then ByText else ByValue
  }

  /** The number of following rows a duration gives under a reading. */
  function LookaheadOf(duration: Int32, reading: Reading): nat {
    if reading == AsWritten then LookaheadWrapping(duration) else Lookahead(duration)
  }

  // ---------------------------------------------------------------------------
  // What the candidates and the chosen window are

  /** In rows sorted by moment a frame is sorted too, and it is shorter than
      k + 1 rows only when no later row falls on its date. */
  lemma SortedFrameShape(s: seq<PricePoint>, i: nat, k: nat)
    requires SortedByMoment(s) && i < |s|
    ensures SortedByMoment(Frame(s, i, k))
    ensures |Frame(s, i, k)| < k + 1 ==>
      forall t :: i + |Frame(s, i, k)| <= t < |s| ==> Day(s[t].moment) > Day(s[i].moment)
  {
    var f := Frame(s, i, k);
    var e := i + |f|;
    if |f| < k + 1 && e < |s| {
      DayMonotone(s[i].moment, s[e].moment);
      forall t | e <= t < |s|
        ensures Day(s[t].moment) > Day(s[i].moment)
      {
        DayMonotone(s[e].moment, s[t].moment);
      }
    }
  }

  /** Every row of a candidate frame is a stored row within the range. */
  lemma CandidateRowsInRange(points: seq<PricePoint>, start: int, end: int, k: nat, i: nat)
    requires i < |InRange(points, start, end)|
    ensures forall p :: p in Candidates(points, start, end, k)[i] ==> p in points && start <= p.moment <= end
  {
    var r := InRange(points, start, end);
    var s := SortByMoment(r);
    var f := Candidates(points, start, end, k)[i];
    assert f == Frame(s, i, k);
    forall p | p in f
      ensures p in r
    {
      assert p in s;
      assert p in multiset(s);
    }
  }

  /** Every candidate frame starts at its own row, holds at most k + 1 rows of
      the range, all of one date and in moment order, and is shorter than
      k + 1 rows only when no later row of the range falls on that date. */
  lemma CandidateFrameShape(points: seq<PricePoint>, start: int, end: int, k: nat, i: nat)
    requires i < |InRange(points, start, end)|
    ensures var s := SortByMoment(InRange(points, start, end));
      var f := Candidates(points, start, end, k)[i];
      && 1 <= |f| <= k + 1
      && f[0] == s[i]
      && (forall p :: p in f ==> p in points && start <= p.moment <= end)
      && (forall t :: 0 <= t < |f| ==> Day(f[t].moment) == Day(f[0].moment))
      && SortedByMoment(f)
      && (|f| < k + 1 ==> forall t :: i + |f| <= t < |s| ==> Day(s[t].moment) > Day(f[0].moment))
  {
    var s := SortByMoment(InRange(points, start, end));
    assert Candidates(points, start, end, k)[i] == Frame(s, i, k);
    SortedFrameShape(s, i, k);
    CandidateRowsInRange(points, start, end, k, i);
  }

  /** The rows of `s` that fall on date `day`, in their order: the partition
      `partition by moment::date` gives that date. */
  function OnDate(s: seq<PricePoint>, day: int): seq<PricePoint> {
    if s == [] then []
    else (if Day(s[0].moment) == day then [s[0]] else []) + OnDate(s[1..], day)
  }

  function Take<T>(s: seq<T>, n: nat): seq<T> {
    if n <= |s| then s[..n] else s
  }

  /** In sorted rows, a run of rows of date `day` followed only by rows of
      later dates is exactly that date's partition. */
  lemma {:induction false} OnDateOfRun(t: seq<PricePoint>, day: int, m: nat)
    requires SortedByMoment(t) && m <= |t|
    requires forall x :: 0 <= x < m ==> Day(t[x].moment) == day
    requires m < |t| ==> Day(t[m].moment) > day
    ensures OnDate(t, day) == t[..m]
  {
    if t != [] {
      var rest := t[1..];
      assert SortedByMoment(rest);
      if m == 0 {
        if |rest| > 0 {
          DayMonotone(t[0].moment, t[1].moment);
        }
        OnDateOfRun(rest, day, 0);
      } else {
        OnDateOfRun(rest, day, m - 1);
        assert t[..m] == [t[0]] + rest[..m - 1];
      }
    }
  }

  /** The frame of row `i` is the row itself and the next `k` rows of its
      date's partition, when there are so many: the frame clause
      `rows between current row and k following` read directly. */
  lemma FrameIsPartitionWindow(s: seq<PricePoint>, i: nat, k: nat)
    requires SortedByMoment(s) && i < |s|
    ensures Frame(s, i, k) == Take(OnDate(s[i..], Day(s[i].moment)), k + 1)
  {
    var day := Day(s[i].moment);
    var e := RunEnd(s, i, i + 1);
    if e < |s| {
      DayMonotone(s[i].moment, s[e].moment);
    }
    OnDateOfRun(s[i..], day, e - i);
    assert OnDate(s[i..], day) == s[i..e];
    FrameTakesRun(s, i, k);
  }

  /** The frame is the first `k + 1` rows of the row's same-date run. */
  lemma FrameTakesRun(s: seq<PricePoint>, i: nat, k: nat)
    requires i < |s|
    ensures var e := RunEnd(s, i, i + 1);
      i < e <= |s| && Frame(s, i, k) == Take(s[i..e], k + 1)
  {
    var e := RunEnd(s, i, i + 1);
    var n := if e < i + k + 1 then e else i + k + 1;
    assert Frame(s, i, k) == s[i..n];
    if e >= i + k + 1 {
      assert s[i..e][..k + 1] == s[i..n];
    }
  }

  /** In a frame ordered by moment the window ends with the hour of its last row. */
  lemma WindowOfSortedFrame(f: seq<PricePoint>)
    requires |f| > 0 && SortedByMoment(f)
    ensures WindowOf(f).startsAt.utc == f[0].moment
    ensures WindowOf(f).endsAt.utc == f[|f| - 1].moment + EndOfHour
  {
  }

  /** Under either ordering, the chosen window starts at a row of the range,
      ends with the hour of a row of the range on the same date, and is at
      least one hour long. */
  lemma OptimalWindowWithinRange(points: seq<PricePoint>, start: int, end: int, k: nat, key: SortKey)
    requires InRange(points, start, end) != []
    ensures Select(Candidates(points, start, end, k), key).Some?
    ensures var w := Select(Candidates(points, start, end, k), key).value;
      && start <= w.startsAt.utc <= end
      && w.startsAt.utc + EndOfHour <= w.endsAt.utc <= end + EndOfHour
      && Day(w.endsAt.utc - EndOfHour) == Day(w.startsAt.utc)
      && w.startsAt.offset == Utc && w.endsAt.offset == Utc
  {
    var i := SelectedFrame(Candidates(points, start, end, k), key);
    CandidateWindowWithinRange(points, start, end, k, i);
  }

  /** The window of every candidate lies within the range as the chosen one does. */
  lemma CandidateWindowWithinRange(points: seq<PricePoint>, start: int, end: int, k: nat, i: nat)
    requires i < |Candidates(points, start, end, k)|
    ensures var w := WindowOf(Candidates(points, start, end, k)[i]);
      && start <= w.startsAt.utc <= end
      && w.startsAt.utc + EndOfHour <= w.endsAt.utc <= end + EndOfHour
      && Day(w.endsAt.utc - EndOfHour) == Day(w.startsAt.utc)
      && w.startsAt.offset == Utc && w.endsAt.offset == Utc
  {
    CandidateFrameShape(points, start, end, k, i);
    WindowOfSortedFrame(Candidates(points, start, end, k)[i]);
  }

  lemma {:induction false} SumOfConstant(f: seq<PricePoint>, c: real)
    requires forall p :: p in f ==> p.monetaryAmount == c
    ensures Sum(f) == |f| as real * c
  {
    if f != [] {
      assert f[0] in f;
      SumOfConstant(f[1..], c);
    }
  }

  lemma MeanOfConstant(f: seq<PricePoint>, c: real)
    requires |f| > 0
    requires forall p :: p in f ==> p.monetaryAmount == c
    ensures Mean(f) == c
  {
    SumOfConstant(f, c);
    var n := |f| as real;
    assert Mean(f) == (n * c) / n;
  }

  /** Over a flat price series every duration reports that price, rounded,
      under either ordering. */
  lemma FlatSeriesAverage(points: seq<PricePoint>, start: int, end: int, k: nat, c: real, key: SortKey)
    requires forall p :: p in points ==> p.monetaryAmount == c
    requires InRange(points, start, end) != []
    ensures Select(Candidates(points, start, end, k), key).Some?
    ensures Select(Candidates(points, start, end, k), key).value.averagePrice == NumericText(RoundToThousandths(c))
  {
    var fs := Candidates(points, start, end, k);
    var i := SelectedFrame(fs, key);
    CandidateRowsInRange(points, start, end, k, i);
    MeanOfConstant(fs[i], c);
  }

  lemma OneHourFrame(points: seq<PricePoint>, start: int, end: int, i: nat)
    requires i < |Candidates(points, start, end, 0)|
    ensures |Candidates(points, start, end, 0)[i]| == 1
  {
    var s := SortByMoment(InRange(points, start, end));
    assert Candidates(points, start, end, 0)[i] == Frame(s, i, 0);
  }

  lemma SingleRowWindow(f: seq<PricePoint>)
    requires |f| == 1
    ensures WindowOf(f) == PriceWindow(DateTime(f[0].moment, Utc), DateTime(f[0].moment + EndOfHour, Utc),
                                       NumericText(RoundToThousandths(f[0].monetaryAmount)))
  {
    assert f[0] in f;
    MeanOfConstant(f, f[0].monetaryAmount);
  }

  /** A duration of one hour (or less) gives a one-hour window priced at that
      hour's price, rounded; as written this fails at `i32::MIN` (see
      `LookaheadWrapsAtMinimum`). */
  lemma DurationOneIsOneHour(points: seq<PricePoint>, start: int, end: int, duration: Int32, reading: Reading)
    requires duration <= 1 && (reading == AsWritten ==> duration > I32_MIN)
    requires InRange(points, start, end) != []
    ensures WindowForDuration(points, start, end, duration, reading).Some?
    ensures var w := WindowForDuration(points, start, end, duration, reading).value;
      IsStoredHour(points, start, end, w)
  {
    NoLookaheadBelowTwo(duration, reading);
    assert WindowForDuration(points, start, end, duration, reading) == Select(Candidates(points, start, end, 0), KeyOf(reading));
    OneHourSelected(points, start, end, KeyOf(reading));
  }

  /** `w` is one stored hour of the range: it starts at a stored point's
      moment within `[start, end]`, ends 59m59s later and carries that
      point's price, rounded. */
  ghost predicate IsStoredHour(points: seq<PricePoint>, start: int, end: int, w: PriceWindow) {
    exists p :: p in points && start <= p.moment <= end
      && w.startsAt.utc == p.moment && w.endsAt.utc == p.moment + EndOfHour
      && w.averagePrice == NumericText(RoundToThousandths(p.monetaryAmount))
  }

  /** With no following rows, under either ordering, the query returns one
      stored hour of the range at that hour's rounded price. */
  lemma OneHourSelected(points: seq<PricePoint>, start: int, end: int, key: SortKey)
    requires InRange(points, start, end) != []
    ensures Select(Candidates(points, start, end, 0), key).Some?
    ensures var w := Select(Candidates(points, start, end, 0), key).value;
      IsStoredHour(points, start, end, w)
  {
    var i := SelectedFrame(Candidates(points, start, end, 0), key);
    OneHourCandidate(points, start, end, i);
  }

  lemma NoLookaheadBelowTwo(duration: Int32, reading: Reading)
    requires duration <= 1 && (reading == AsWritten ==> duration > I32_MIN)
    ensures LookaheadOf(duration, reading) == 0
  {
    if reading == AsWritten {
      LookaheadWrappingAgrees(duration);
    }
  }

  /** With no following rows every candidate is one stored hour of the range. */
  lemma OneHourCandidate(points: seq<PricePoint>, start: int, end: int, i: nat)
    requires i < |Candidates(points, start, end, 0)|
    ensures var w := WindowOf(Candidates(points, start, end, 0)[i]);
      IsStoredHour(points, start, end, w)
  {
    var f := Candidates(points, start, end, 0)[i];
    OneHourFrame(points, start, end, i);
    CandidateRowsInRange(points, start, end, 0, i);
    SingleRowWindow(f);
    assert f[0] in f;
  }

  /** Away from `i32::MIN` the two readings differ only in how they order the averages. */
  lemma ReadingsDifferInOrderOnly(points: seq<PricePoint>, start: int, end: int, duration: Int32)
    requires duration > I32_MIN
    ensures WindowForDuration(points, start, end, duration, AsWritten) == OptimalWindowAsWritten(points, start, end, Lookahead(duration))
    ensures WindowForDuration(points, start, end, duration, Intended) == OptimalWindow(points, start, end, Lookahead(duration))
  {
    LookaheadWrappingAgrees(duration);
  }

  /** For frames whose rounded averages lie in [0, 10) both orderings agree. */
  lemma KeyOrdersAgreeBelowTen(f: seq<PricePoint>, g: seq<PricePoint>)
    requires |f| > 0 && |g| > 0
    requires 0 <= RoundedMean(f) < 10000 && 0 <= RoundedMean(g) < 10000
    ensures KeyLe(f, g, ByText) <==> KeyLe(f, g, ByValue)
  {
    TextOrderIsNumericBelowTen(RoundedMean(f), RoundedMean(g));
  }

  /** When every rounded average lies in [0, 10), the query as written does
      find a window of least average price. */
  lemma AsWrittenIsCheapestBelowTen(points: seq<PricePoint>, start: int, end: int, k: nat)
    requires forall i :: 0 <= i < |Candidates(points, start, end, k)| ==>
      0 <= RoundedMean(Candidates(points, start, end, k)[i]) < 10000
    requires OptimalWindowAsWritten(points, start, end, k).Some?
    ensures IsCheapestWindow(Candidates(points, start, end, k), OptimalWindowAsWritten(points, start, end, k).value, ByValue)
  {
    var fs := Candidates(points, start, end, k);
    var w := OptimalWindowAsWritten(points, start, end, k).value;
    var i := CheapestFrame(fs, w, ByText);
    forall t | 0 <= t < |fs|
      ensures KeyLe(fs[i], fs[t], ByValue)
    {
      KeyOrdersAgreeBelowTen(fs[i], fs[t]);
    }
  }

  // ---------------------------------------------------------------------------
  // Concrete days

  lemma {:induction false} InRangeOfAll(points: seq<PricePoint>, start: int, end: int)
    requires forall t :: 0 <= t < |points| ==> start <= points[t].moment <= end
    ensures InRange(points, start, end) == points
  {
    if points != [] {
      InRangeOfAll(points[1..], start, end);
    }
  }

  lemma {:induction false} SortOfSorted(s: seq<PricePoint>)
    requires SortedByMoment(s)
    ensures SortByMoment(s) == s
  {
    if s != [] {
      var rest := s[1..];
      assert SortedByMoment(rest);
      SortOfSorted(rest);
      assert rest == [] || s[0].moment <= rest[0].moment;
      assert Insert(s[0], rest) == [s[0]] + rest;
      assert [s[0]] + rest == s;
    }
  }

  /** 2024-01-01T00:00:00Z in UTC seconds. */
  const NewYear2024: int := 1_704_067_200

  /** The last second of 2024-01-01 (UTC). */
  const NewYear2024End: int := NewYear2024 + 86399

  /** The first three hours of 2024-01-01 priced 0.30, 0.10 and 0.50. */
  const ExampleHours: seq<PricePoint> :=
    [PricePoint(NewYear2024, 0.30), PricePoint(NewYear2024 + 3600, 0.10), PricePoint(NewYear2024 + 7200, 0.50)]

  /** The first two hours of 2024-01-01 priced -0.05 and -0.10. */
  const NegativeHours: seq<PricePoint> :=
    [PricePoint(NewYear2024, -0.05), PricePoint(NewYear2024 + 3600, -0.10)]

  lemma ExampleFrames()
    ensures Frame(ExampleHours, 0, 1) == ExampleHours[0..2]
    ensures Frame(ExampleHours, 1, 1) == ExampleHours[1..3]
    ensures Frame(ExampleHours, 2, 1) == ExampleHours[2..3]
  {
    var points := ExampleHours;
    assert Day(points[0].moment) == Day(points[1].moment) == Day(points[2].moment);
    assert RunEnd(points, 0, 1) >= 2 by {
      assert RunEnd(points, 0, 1) == RunEnd(points, 0, 2);
    }
  }

  lemma ExampleRows()
    ensures SortByMoment(InRange(ExampleHours, NewYear2024, NewYear2024End)) == ExampleHours
  {
    InRangeOfAll(ExampleHours, NewYear2024, NewYear2024End);
    SortOfSorted(ExampleHours);
  }

  lemma FramesOfThree(s: seq<PricePoint>)
    requires |s| == 3
    requires Frame(s, 0, 1) == s[0..2] && Frame(s, 1, 1) == s[1..3] && Frame(s, 2, 1) == s[2..3]
    ensures Frames(s, 1) == [s[0..2], s[1..3], s[2..3]]
  {
  }

  lemma ExampleCandidates()
    ensures Candidates(ExampleHours, NewYear2024, NewYear2024End, 1)
      == [ExampleHours[0..2], ExampleHours[1..3], ExampleHours[2..3]]
  {
    ExampleRows();
    ExampleFrames();
    FramesOfThree(ExampleHours);
  }

  lemma ExampleAverages()
    ensures RoundedMean(ExampleHours[0..2]) == 200
    ensures RoundedMean(ExampleHours[1..3]) == 300
    ensures RoundedMean(ExampleHours[2..3]) == 500
  {
    var p0, p1, p2 := PricePoint(NewYear2024, 0.30), PricePoint(NewYear2024 + 3600, 0.10), PricePoint(NewYear2024 + 7200, 0.50);
    var f0, f1, f2 := [p0, p1], [p1, p2], [p2];
    assert ExampleHours[0..2] == f0 && ExampleHours[1..3] == f1 && ExampleHours[2..3] == f2;
    assert f0[1..] == [p1] && f1[1..] == [p2];
    assert Sum([p1]) == 0.10 && Sum([p2]) == 0.50;
    assert Sum(f0) == 0.40 && Mean(f0) == 0.20;
    assert Sum(f1) == 0.60 && Mean(f1) == 0.30;
    assert Sum(f2) == 0.50 && Mean(f2) == 0.50;
  }

  lemma FirstOfThreeSortsFirst(f0: seq<PricePoint>, f1: seq<PricePoint>, f2: seq<PricePoint>, key: SortKey)
    requires |f0| > 0 && |f1| > 0 && |f2| > 0
    requires KeyLe(f0, f1, key) && KeyLe(f0, f2, key) && KeyLe(f1, f2, key)
    ensures ArgMin([f0, f1, f2], key) == 0
  {
    var fs := [f0, f1, f2];
    assert fs[1..] == [f1, f2] && fs[1..][1..] == [f2];
  }

  lemma ExampleWindow()
    ensures WindowOf(ExampleHours[0..2]) == PriceWindow(DateTime(NewYear2024, Utc), DateTime(NewYear2024 + 7199, Utc), "0.200")
  {
    ExampleAverages();
    var f0 := ExampleHours[0..2];
    assert MaxMoment(f0) == NewYear2024 + 3600 by {
      assert f0[1..] == [ExampleHours[1]];
    }
    assert NatText(0) == "0";
    assert NumericText(200) == "0.200";
  }

  /** Three hours priced 0.30, 0.10 and 0.50 and a two-hour duration: the
      frames average 0.200, 0.300 and 0.500 (the last one cut at the end of
      the day's rows), and the first wins under either ordering. */
  lemma ThreeHourExample()
    ensures var expected := PriceWindow(DateTime(NewYear2024, Utc), DateTime(NewYear2024 + 7199, Utc), "0.200");
      && OptimalWindow(ExampleHours, NewYear2024, NewYear2024End, Lookahead(2)) == Some(expected)
      && OptimalWindowAsWritten(ExampleHours, NewYear2024, NewYear2024End, Lookahead(2)) == Some(expected)
  {
    ExampleCandidates();
    ExampleAverages();
    ExampleWindow();
    var f0, f1, f2 := ExampleHours[0..2], ExampleHours[1..3], ExampleHours[2..3];
    TextOrderIsNumericBelowTen(200, 300);
    TextOrderIsNumericBelowTen(300, 500);
    TextOrderIsNumericBelowTen(200, 500);
    FirstOfThreeSortsFirst(f0, f1, f2, ByValue);
    FirstOfThreeSortsFirst(f0, f1, f2, ByText);
  }

  lemma NegativeRows()
    ensures SortByMoment(InRange(NegativeHours, NewYear2024, NewYear2024End)) == NegativeHours
  {
    InRangeOfAll(NegativeHours, NewYear2024, NewYear2024End);
    SortOfSorted(NegativeHours);
  }

  lemma NegativeAverages()
    ensures RoundedMean(NegativeHours[0..1]) == -50
    ensures RoundedMean(NegativeHours[1..2]) == -100
  {
    var f0, f1 := NegativeHours[0..1], NegativeHours[1..2];
    assert Sum(f0) == -0.05 && Mean(f0) == -0.05;
    assert Sum(f1) == -0.10 && Mean(f1) == -0.10;
  }

  lemma NegativeCandidates()
    ensures Candidates(NegativeHours, NewYear2024, NewYear2024End, 0) == [NegativeHours[0..1], NegativeHours[1..2]]
  {
    var points := NegativeHours;
    NegativeRows();
    assert Frame(points, 0, 0) == points[0..1];
    assert Frame(points, 1, 0) == points[1..2];
  }

  lemma NegativeWindows()
    ensures WindowOf(NegativeHours[0..1]) == PriceWindow(DateTime(NewYear2024, Utc), DateTime(NewYear2024 + EndOfHour, Utc), "-0.050")
    ensures WindowOf(NegativeHours[1..2]) == PriceWindow(DateTime(NewYear2024 + 3600, Utc), DateTime(NewYear2024 + 3600 + EndOfHour, Utc), "-0.100")
  {
    NegativeAverages();
    assert NatText(0) == "0";
    assert NumericText(-50) == "-0.050";
    assert NumericText(-100) == "-0.100";
  }

  /** Two hours priced -0.05 and -0.10 and a one-hour duration: ordering by
      the text of the average picks the first hour (`-0.050` sorts before
      `-0.100`), while the second hour is the cheaper one. */
  lemma TextOrderPicksDearerWindow()
    ensures OptimalWindowAsWritten(NegativeHours, NewYear2024, NewYear2024End, Lookahead(1))
         == Some(PriceWindow(DateTime(NewYear2024, Utc), DateTime(NewYear2024 + EndOfHour, Utc), "-0.050"))
    ensures OptimalWindow(NegativeHours, NewYear2024, NewYear2024End, Lookahead(1))
         == Some(PriceWindow(DateTime(NewYear2024 + 3600, Utc), DateTime(NewYear2024 + 3600 + EndOfHour, Utc), "-0.100"))
  {
    NegativeCandidates();
    NegativeAverages();
    NegativeWindows();
    var f0, f1 := NegativeHours[0..1], NegativeHours[1..2];
    var fs := [f0, f1];
    TextOrderMisranksNegatives();
    assert fs[1..] == [f1];
    assert ArgMin(fs, ByText) == 0;
    assert ArgMin(fs, ByValue) == 1;
  }
}
