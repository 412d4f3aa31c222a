/** The price repository: the `prices` table tagged by provider, the
    all-or-nothing batch insert of a provider's prices, the date queries, and
    the per-duration loop around the cheapest-window query. */
module PriceRepository {
  import opened Wrappers
  import opened Decimal
  import opened Domain
  import opened WindowQuery

  /** What the database driver reports when a query that must return a row returns none. */
  const RowNotFound: string := "no rows returned by a query that expected to return at least one row"

  /** An `insert ... VALUES` with no tuples after `VALUES`, as the database reports it. */
  const SyntaxErrorAtEnd: string := "error returned from database: syntax error at end of input"

  /** A second row for the same provider and moment, as the database reports it. */
  const DuplicateKey: string := "error returned from database: duplicate key value violates unique constraint"

  datatype PersistError = PersistenceError(message: string) {
    /** The error's text, `the prices could not be persisted: {0}`. */
    function Display(): (s: string)
      ensures |s| > |message| && s[|s| - |message|..] == message
    {
      "the prices could not be persisted: " + message
    }
  }

  /** One row of the `prices` table. */
  datatype StoredPrice = StoredPrice(providerId: int, moment: int, price: real)

  /** The arguments of one call of `persist_prices`. */
  datatype PersistCall = PersistCall(prices: seq<PricePoint>, providerName: string)

  /** The rows as the window query reads them: every provider's, in stored order. */
  function Points(rows: seq<StoredPrice>): (ps: seq<PricePoint>)
    ensures |ps| == |rows|
  {
    if rows == [] then [] else [PricePoint(rows[0].moment, rows[0].price)] + Points(rows[1..])
  }

  lemma {:induction false} PointsAt(rows: seq<StoredPrice>, j: nat)
    requires j < |rows|
    ensures Points(rows)[j] == PricePoint(rows[j].moment, rows[j].price)
  {
    if j > 0 {
      PointsAt(rows[1..], j - 1);
    }
  }

  /** The rows `push_values` produces for a batch: each price bound with the provider's id. */
  function Tagged(prices: seq<PricePoint>, id: int): (t: seq<StoredPrice>)
    ensures Points(t) == prices
    ensures forall j :: 0 <= j < |t| ==> t[j].providerId == id
  {
    if prices == [] then []
    else
      var t := [StoredPrice(id, prices[0].moment, prices[0].monetaryAmount)] + Tagged(prices[1..], id);
      assert Points(t)[1..] == Points(t[1..]);
      t
  }

  /** No two rows share a provider and a moment: the table's unique key. */
  predicate UniqueKeys(rows: seq<StoredPrice>) {
    forall i, j :: 0 <= i < j < |rows| ==> rows[i].providerId != rows[j].providerId || rows[i].moment != rows[j].moment
  }

  /** Some row's moment falls on calendar date `date`: `COUNT(*) ... WHERE moment::date = $1` is positive. */
  predicate HasRowOn(rows: seq<StoredPrice>, date: int) {
    exists j :: 0 <= j < |rows| && Day(rows[j].moment) == date
  }

  /** How `persist_prices` ends, given the provider table, the rows already
      stored, the batch, the provider name, and the failure (if any) the
      database reports for the insert statement itself. */
  function PersistVerdict(providers: map<string, int>, rows: seq<StoredPrice>, prices: seq<PricePoint>,
                          providerName: string, dbFailure: Option<string>): (r: Outcome<PersistError>)
    ensures providerName !in providers ==> r == Fail(PersistenceError(RowNotFound))
    ensures providerName in providers && prices == [] ==> r == Fail(PersistenceError(SyntaxErrorAtEnd))
    ensures r.Pass? <==> providerName in providers && prices != [] && dbFailure.None?
                         && UniqueKeys(rows + Tagged(prices, providers[providerName]))
  {
    if providerName !in providers then Fail(PersistenceError(RowNotFound))
    else if prices == [] then Fail(PersistenceError(SyntaxErrorAtEnd))
    else if !UniqueKeys(rows + Tagged(prices, providers[providerName])) then Fail(PersistenceError(DuplicateKey))
    else if dbFailure.Some? then Fail(PersistenceError(dbFailure.value))
    else Pass
  }

  /** `SELECT moment, monetary_amount FROM prices WHERE moment::date = $1`. */
  function PricesOfDate(rows: seq<StoredPrice>, date: int): (ps: seq<PricePoint>)
    ensures forall p :: p in ps <==> p in Points(rows) && Day(p.moment) == date
  {
    if rows == [] then []
    else
      var rest := PricesOfDate(rows[1..], date);
      assert Points(rows) == [PricePoint(rows[0].moment, rows[0].price)] + Points(rows[1..]);
      if Day(rows[0].moment) == date then [PricePoint(rows[0].moment, rows[0].price)] + rest else rest
  }

  // ---------------------------------------------------------------------------
  // The store

  /** The `prices` table together with the `providers` table it refers to. */
  class PriceStore {
    /** `providers`: name to id. */
    const providers: map<string, int>
    /** `prices`, in insertion order. */
    var rows: seq<StoredPrice>
    /** Every call of `persist_prices` so far, in order. */
    ghost var persistCalls: seq<PersistCall>

    ghost predicate Valid()
      reads this
    {
      UniqueKeys(rows)
    }

    predicate HasPricesOn(date: int)
      reads this
    {
      HasRowOn(rows, date)
    }

    constructor (providers: map<string, int>, initial: seq<StoredPrice>)
      requires UniqueKeys(initial)
      ensures Valid()
      ensures this.providers == providers && rows == initial && persistCalls == []
    {
      this.providers := providers;
      rows := initial;
      persistCalls := [];
    }

    /** `has_prices_of_date`: counts the rows of the date and compares the count with zero. */
    method HasPricesOfDate(date: int) returns (present: bool)
      ensures present <==> HasPricesOn(date)
    {
      var count: nat := 0;
      var i := 0;
      while i < |rows|
        invariant 0 <= i <= |rows|
        invariant count > 0 <==> exists j :: 0 <= j < i && Day(rows[j].moment) == date
      {
        if Day(rows[i].moment) == date {
          count := count + 1;
        }
        i := i + 1;
      }
      present := count > 0;
    }

    /** `persist_prices`: look the provider up, build one insert of every
        price tagged with its id, and run it; the table changes only when
        the whole statement succeeds. */
    method PersistPrices(prices: seq<PricePoint>, providerName: string, dbFailure: Option<string>)
      returns (r: Outcome<PersistError>)
      requires Valid()
      modifies this
      ensures Valid()
      ensures r == PersistVerdict(providers, old(rows), prices, providerName, dbFailure)
      ensures r.Pass? ==> rows == old(rows) + Tagged(prices, providers[providerName])
      ensures r.Fail? ==> rows == old(rows)
      ensures persistCalls == old(persistCalls) + [PersistCall(prices, providerName)]
    {
      if providerName !in providers {
        r := Fail(PersistenceError(RowNotFound));
      } else {
        var id := providers[providerName];
        var batch: seq<StoredPrice> := [];
        for i := 0 to |prices|
          invariant batch == Tagged(prices[..i], id)
          invariant unchanged(this)
        {
          TaggedSnoc(prices[..i], prices[i], id);
          assert prices[..i + 1] == prices[..i] + [prices[i]];
          batch := batch + [StoredPrice(id, prices[i].moment, prices[i].monetaryAmount)];
        }
        assert prices[..|prices|] == prices;
        if batch == [] {
          r := Fail(PersistenceError(SyntaxErrorAtEnd));
        } else if !UniqueKeys(rows + batch) {
          r := Fail(PersistenceError(DuplicateKey));
        } else if dbFailure.Some? {
          r := Fail(PersistenceError(dbFailure.value));
        } else {
          rows := rows + batch;
          r := Pass;
        }
      }
      persistCalls := persistCalls + [PersistCall(prices, providerName)];
    }

    /** `fetch_optimal_price_window_of_window_for_durations`: per duration,
        `duration -= 1` (wrapping), the clamp to [0, 23] and the query ordered
        by the text of the average; one window per duration, in order, or the
        first error. */
    method FetchOptimalWindows(startMoment: int, endMoment: int, durations: seq<Int32>)
      returns (r: Result<seq<PriceWindow>, string>)
      ensures r == WindowsFor(Points(rows), startMoment, endMoment, durations, AsWritten)
    {
      var points := Points(rows);
      ghost var answers := Answers(points, startMoment, endMoment, durations, AsWritten);
      assert WindowsFor(points, startMoment, endMoment, durations, AsWritten) == Collect(answers);
      var windows: seq<PriceWindow> := [];
      for i := 0 to |durations|
        invariant Collect(answers[..i]) == Success(windows)
      {
        var duration: Int32 := durations[i];
        duration := WrappingDecrement(duration);
        var k := Clamp(duration, 0, MaxLookahead);
        var row := OptimalWindowAsWritten(points, startMoment, endMoment, k);
        AnswerAsWritten(points, startMoment, endMoment, durations, i);
        if row.None? {
          CollectStops(answers, i);
          return Failure(RowNotFound);
        }
        CollectStep(answers, i, windows);
        windows := windows + [row.value];
      }
      assert answers[..|durations|] == answers;
      r := Success(windows);
    }
  }

  /** The answer the loop computes for duration `i` is the as-written query's. */
  lemma AnswerAsWritten(points: seq<PricePoint>, start: int, end: int, durations: seq<Int32>, i: nat)
    requires i < |durations|
    ensures Answers(points, start, end, durations, AsWritten)[i]
         == OptimalWindowAsWritten(points, start, end, Clamp(WrappingDecrement(durations[i]), 0, MaxLookahead))
  {
  }

  /** The loop's short-circuit over the answers of the durations: all their
      windows in order, or the "no rows" error of the first missing one. */
  function Collect(answers: seq<Option<PriceWindow>>): Result<seq<PriceWindow>, string> {
    if answers == [] then Success([])
    else
      var init := Collect(answers[..|answers| - 1]);
      if init.Failure? then init
      else match answers[|answers| - 1]
        case None => Failure(RowNotFound)
        case Some(w) => Success(init.value + [w])
  }

  /** The query's answer for every requested duration. */
  function Answers(points: seq<PricePoint>, start: int, end: int, durations: seq<Int32>, reading: Reading): seq<Option<PriceWindow>> {
    seq(|durations|, j requires 0 <= j < |durations| => WindowForDuration(points, start, end, durations[j], reading))
  }

  /** The outcome of the loop over the durations. */
  function WindowsFor(points: seq<PricePoint>, start: int, end: int, durations: seq<Int32>, reading: Reading): Result<seq<PriceWindow>, string> {
    Collect(Answers(points, start, end, durations, reading))
  }

  /** One more answer with a row extends the windows by that row. */
  lemma CollectStep(answers: seq<Option<PriceWindow>>, i: nat, windows: seq<PriceWindow>)
    requires i < |answers| && answers[i].Some?
    requires Collect(answers[..i]) == Success(windows)
    ensures Collect(answers[..i + 1]) == Success(windows + [answers[i].value])
  {
    assert answers[..i + 1][..i] == answers[..i];
  }

  /** The collection fails exactly when some answer is missing, and then with
      the "no rows" error; there is no partial list. */
  lemma {:induction false} CollectFails(answers: seq<Option<PriceWindow>>)
    ensures Collect(answers).Failure? <==> exists j :: 0 <= j < |answers| && answers[j].None?
    ensures Collect(answers).Failure? ==> Collect(answers).error == RowNotFound
  {
    if answers != [] {
      var n := |answers| - 1;
      CollectFails(answers[..n]);
      if exists j :: 0 <= j < n && answers[..n][j].None? {
        var j :| 0 <= j < n && answers[..n][j].None?;
        assert answers[j].None?;
      }
      if exists j :: 0 <= j < |answers| && answers[j].None? {
        var j :| 0 <= j < |answers| && answers[j].None?;
        if j < n {
          assert answers[..n][j].None?;
        }
      }
    }
  }

  /** The first missing answer ends the collection with the "no rows" error. */
  lemma CollectStops(answers: seq<Option<PriceWindow>>, i: nat)
    requires i < |answers| && answers[i].None?
    requires Collect(answers[..i]).Success?
    ensures Collect(answers) == Failure(RowNotFound)
  {
    var prefix := answers[..i + 1];
    assert prefix[..i] == answers[..i] && prefix[i] == answers[i];
    assert Collect(prefix) == Failure(RowNotFound);
    CollectFailureKept(answers, i + 1);
  }

  /** Once a prefix fails, the whole collection fails the same way. */
  lemma {:induction false} CollectFailureKept(answers: seq<Option<PriceWindow>>, n: nat)
    requires n <= |answers| && Collect(answers[..n]).Failure?
    ensures Collect(answers) == Collect(answers[..n])
    decreases |answers|
  {
    if |answers| == n {
      assert answers[..n] == answers;
    } else {
      var init := answers[..|answers| - 1];
      assert init[..n] == answers[..n];
      CollectFailureKept(init, n);
    }
  }

  /** On success there is one window per answer, in order. */
  lemma {:induction false} CollectElements(answers: seq<Option<PriceWindow>>)
    requires Collect(answers).Success?
    ensures |Collect(answers).value| == |answers|
    ensures forall j :: 0 <= j < |answers| ==> answers[j] == Some(Collect(answers).value[j])
  {
    if answers != [] {
      var n := |answers| - 1;
      CollectElements(answers[..n]);
      forall j | 0 <= j < n
        ensures answers[j] == Some(Collect(answers).value[j])
      {
        assert answers[j] == answers[..n][j];
      }
    }
  }

  /** A duration finds no row exactly when no row lies in the range. */
  lemma WindowForDurationMissing(points: seq<PricePoint>, start: int, end: int, duration: Int32, reading: Reading)
    ensures WindowForDuration(points, start, end, duration, reading).None? <==> InRange(points, start, end) == []
  {
  }

  /** The loop fails exactly when some duration is requested and no row
      lies in the range, and then with the driver's "no rows" error. */
  lemma WindowsForFails(points: seq<PricePoint>, start: int, end: int, durations: seq<Int32>, reading: Reading)
    ensures var r := WindowsFor(points, start, end, durations, reading);
      && (r.Failure? <==> durations != [] && InRange(points, start, end) == [])
      && (r.Failure? ==> r.error == RowNotFound)
  {
    var answers := Answers(points, start, end, durations, reading);
    CollectFails(answers);
    if durations != [] {
      WindowForDurationMissing(points, start, end, durations[0], reading);
      assert answers[0] == WindowForDuration(points, start, end, durations[0], reading);
    }
    if exists j :: 0 <= j < |answers| && answers[j].None? {
      var j :| 0 <= j < |answers| && answers[j].None?;
      WindowForDurationMissing(points, start, end, durations[j], reading);
    }
  }

  /** On success there is one window per requested duration, in the order
      requested, each the window the query returns for that duration. */
  lemma WindowsForElements(points: seq<PricePoint>, start: int, end: int, durations: seq<Int32>, reading: Reading)
    requires durations == [] || InRange(points, start, end) != []
    ensures WindowsFor(points, start, end, durations, reading).Success?
    ensures var ws := WindowsFor(points, start, end, durations, reading).value;
      |ws| == |durations| &&
      forall j :: 0 <= j < |durations| ==> Some(ws[j]) == WindowForDuration(points, start, end, durations[j], reading)
  {
    WindowsForFails(points, start, end, durations, reading);
    var answers := Answers(points, start, end, durations, reading);
    CollectElements(answers);
  }

  /** A single requested duration gives its own window, or the "no rows" error. */
  lemma WindowsForOne(points: seq<PricePoint>, start: int, end: int, duration: Int32, reading: Reading)
    ensures var r := WindowForDuration(points, start, end, duration, reading);
      WindowsFor(points, start, end, [duration], reading) == if r.Some? then Success([r.value]) else Failure(RowNotFound)
  {
    var r := WindowForDuration(points, start, end, duration, reading);
    assert Answers(points, start, end, [duration], reading) == [r];
    CollectOne(r);
  }

  lemma CollectOne(answer: Option<PriceWindow>)
    ensures Collect([answer]) == if answer.Some? then Success([answer.value]) else Failure(RowNotFound)
  {
    assert [answer][..0] == [];
    assert Collect([answer][..0]) == Success([]);
    if answer.Some? {
      assert [] + [answer.value] == [answer.value];
    }
  }

  /** Two hours priced -0.05 and -0.10 and `durations=1`: the store as written
      answers with the dearer first hour, the intended query with the second. */
  lemma StoreReturnsDearerHour()
    ensures WindowsFor(NegativeHours, NewYear2024, NewYear2024End, [1], AsWritten)
         == Success([PriceWindow(DateTime(NewYear2024, Utc), DateTime(NewYear2024 + EndOfHour, Utc), "-0.050")])
    ensures WindowsFor(NegativeHours, NewYear2024, NewYear2024End, [1], Intended)
         == Success([PriceWindow(DateTime(NewYear2024 + 3600, Utc), DateTime(NewYear2024 + 3600 + EndOfHour, Utc), "-0.100")])
  {
    TextOrderPicksDearerWindow();
    ReadingsDifferInOrderOnly(NegativeHours, NewYear2024, NewYear2024End, 1);
    WindowsForOne(NegativeHours, NewYear2024, NewYear2024End, 1, AsWritten);
    WindowsForOne(NegativeHours, NewYear2024, NewYear2024End, 1, Intended);
  }

  lemma TaggedSnoc(prices: seq<PricePoint>, p: PricePoint, id: int)
    ensures Tagged(prices + [p], id) == Tagged(prices, id) + [StoredPrice(id, p.moment, p.monetaryAmount)]
  {
    if prices != [] {
      assert (prices + [p])[1..] == prices[1..] + [p];
      TaggedSnoc(prices[1..], p, id);
    }
  }

  // ---------------------------------------------------------------------------
  // Properties of persisting

  /** On success every given price is stored under the provider's id, the rows
      already there stay, and nothing else is added. */
  lemma {:induction false} PersistStoresEveryPrice(rows: seq<StoredPrice>, prices: seq<PricePoint>, id: int)
    ensures Points(rows + Tagged(prices, id)) == Points(rows) + prices
    ensures forall p :: p in prices ==> StoredPrice(id, p.moment, p.monetaryAmount) in rows + Tagged(prices, id)
  {
    PointsAppend(rows, Tagged(prices, id));
    forall p | p in prices
      ensures StoredPrice(id, p.moment, p.monetaryAmount) in Tagged(prices, id)
    {
      var j :| 0 <= j < |prices| && prices[j] == p;
      var t := Tagged(prices, id);
      PointsAt(t, j);
      assert t[j] == StoredPrice(id, p.moment, p.monetaryAmount);
    }
  }

  lemma {:induction false} PointsAppend(a: seq<StoredPrice>, b: seq<StoredPrice>)
    ensures Points(a + b) == Points(a) + Points(b)
  {
    if a == [] {
      assert a + b == b;
    } else {
      assert (a + b)[1..] == a[1..] + b;
      PointsAppend(a[1..], b);
    }
  }

  lemma TaggedAt(prices: seq<PricePoint>, id: int, j: nat)
    requires j < |prices|
    ensures Tagged(prices, id)[j] == StoredPrice(id, prices[j].moment, prices[j].monetaryAmount)
  {
    PointsAt(Tagged(prices, id), j);
  }

  lemma DateAvailableFromBatch(rows: seq<StoredPrice>, prices: seq<PricePoint>, id: int, date: int)
    requires HasRowOn(rows + Tagged(prices, id), date) && !HasRowOn(rows, date)
    ensures exists p :: p in prices && Day(p.moment) == date
  {
    var all := rows + Tagged(prices, id);
    var j :| 0 <= j < |all| && Day(all[j].moment) == date;
    assert j >= |rows|;
    TaggedAt(prices, id, j - |rows|);
    assert prices[j - |rows|] in prices;
  }

  lemma DateAvailableAfterBatch(rows: seq<StoredPrice>, prices: seq<PricePoint>, id: int, date: int)
    requires HasRowOn(rows, date) || exists p :: p in prices && Day(p.moment) == date
    ensures HasRowOn(rows + Tagged(prices, id), date)
  {
    var all := rows + Tagged(prices, id);
    if HasRowOn(rows, date) {
      var j :| 0 <= j < |rows| && Day(rows[j].moment) == date;
      assert all[j] == rows[j];
    } else {
      var p :| p in prices && Day(p.moment) == date;
      var j :| 0 <= j < |prices| && prices[j] == p;
      TaggedAt(prices, id, j);
      assert all[|rows| + j] == Tagged(prices, id)[j];
    }
  }

  /** A successful persist of a price on `date` makes the date available, and
      a date becomes available in no other way. */
  lemma PersistMakesDateAvailable(rows: seq<StoredPrice>, prices: seq<PricePoint>, id: int, date: int)
    ensures HasRowOn(rows + Tagged(prices, id), date) <==>
            HasRowOn(rows, date) || exists p :: p in prices && Day(p.moment) == date
  {
    if HasRowOn(rows + Tagged(prices, id), date) && !HasRowOn(rows, date) {
      DateAvailableFromBatch(rows, prices, id, date);
    }
    if HasRowOn(rows, date) || exists p :: p in prices && Day(p.moment) == date {
      DateAvailableAfterBatch(rows, prices, id, date);
    }
  }

  /** Prices of one provider never clash with rows of the others: uniqueness
      is per provider, so two providers may both hold a price for one moment. */
  lemma OtherProvidersNeverConflict(rows: seq<StoredPrice>, prices: seq<PricePoint>, id: int)
    requires UniqueKeys(rows)
    requires forall j :: 0 <= j < |rows| ==> rows[j].providerId != id
    requires forall a, b :: 0 <= a < b < |prices| ==> prices[a].moment != prices[b].moment
    ensures UniqueKeys(rows + Tagged(prices, id))
  {
    var t := Tagged(prices, id);
    var all := rows + t;
    forall a, b | 0 <= a < b < |all|
      ensures all[a].providerId != all[b].providerId || all[a].moment != all[b].moment
    {
      if b < |rows| {
        assert all[a] == rows[a] && all[b] == rows[b];
      } else if a < |rows| {
        assert all[a] == rows[a] && all[b] == t[b - |rows|];
      } else {
        assert all[a] == t[a - |rows|] && all[b] == t[b - |rows|];
        PointsAt(t, a - |rows|);
        PointsAt(t, b - |rows|);
      }
    }
  }

  /** The store rejects a batch it already holds instead of overwriting it. */
  lemma RepeatedBatchRejected(providers: map<string, int>, rows: seq<StoredPrice>, prices: seq<PricePoint>,
                              providerName: string, first: Option<string>, second: Option<string>)
    requires PersistVerdict(providers, rows, prices, providerName, first).Pass?
    ensures PersistVerdict(providers, rows + Tagged(prices, providers[providerName]), prices, providerName, second)
            == Fail(PersistenceError(DuplicateKey))
  {
    var t := Tagged(prices, providers[providerName]);
    var all := rows + t + t;
    assert all[|rows|] == t[0] && all[|rows| + |t|] == t[0];
  }

  /** The rows of a date are exactly the stored points on that date, so the
      date has prices exactly when that query is non-empty. */
  lemma PricesOfDateAgree(rows: seq<StoredPrice>, date: int)
    ensures PricesOfDate(rows, date) != [] <==> HasRowOn(rows, date)
  {
    var ps := Points(rows);
    if HasRowOn(rows, date) {
      var j :| 0 <= j < |rows| && Day(rows[j].moment) == date;
      PointsAt(rows, j);
      assert ps[j] in ps;
      assert ps[j] in PricesOfDate(rows, date);
    }
    if PricesOfDate(rows, date) != [] {
      var p := PricesOfDate(rows, date)[0];
      assert p in ps;
      var j :| 0 <= j < |ps| && ps[j] == p;
      PointsAt(rows, j);
      assert Day(rows[j].moment) == date;
    }
  }
}
