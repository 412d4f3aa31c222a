/** The `/time-slots` endpoint: the duration list of the query string, the
    availability gate that fetches and persists today's prices when none are
    stored, and the projection of the chosen windows into the caller's offset. */
module Http {
  import opened Wrappers
  import opened Decimal
  import opened Domain
  import opened WindowQuery
  import opened PriceRepository

  /** The query parameters of `/time-slots`. */
  datatype TimeslotParameters = TimeslotParameters(durations: string, momentStart: DateTime, momentEnd: DateTime)

  // ---------------------------------------------------------------------------
  // The duration list

  /** `str::split(',')`: the pieces between commas, empty ones included; the
      empty string is one empty piece. */
  function Split(s: string): (tokens: seq<string>)
    ensures |tokens| >= 1
    ensures forall t :: 0 <= t < |tokens| ==> ',' !in tokens[t]
  {
    if s == [] then [[]]
    else if s[0] == ',' then [[]] + Split(s[1..])
    else
      var rest := Split(s[1..]);
      [[s[0]] + rest[0]] + rest[1..]
  }

  function Commas(s: string): nat {
    if s == [] then 0 else (if s[0] == ',' then 1 else 0) + Commas(s[1..])
  }

  /** `str::parse::<i32>`: an optional `+` or `-`, then at least one ASCII
      digit and nothing else, with a value in the `i32` range. */
  function ParseI32(t: string): (v: Option<Int32>)
    ensures v.Some? ==> |t| > 0 && (IsDigit(t[0]) || t[0] == '+' || t[0] == '-')
    ensures v.Some? ==> forall i :: 1 <= i < |t| ==> IsDigit(t[i])
    ensures v.Some? ==> IsDigit(t[|t| - 1])
  {
    if t == [] then None
    else if (t[0] == '+' || t[0] == '-') && |t| == 1 then None
    else
      var digits := if t[0] == '+' || t[0] == '-' then t[1..] else t;
      if !AllDigits(digits) then None
      else
        var magnitude: int := DigitsValue(digits);
        var value := if t[0] == '-' then -magnitude else magnitude;
        if I32_MIN <= value <= I32_MAX then Some(value) else None
  }

  /** `filter_map(|s| s.parse::<i32>().ok())`. */
  function ParsedTokens(tokens: seq<string>): (values: seq<Int32>)
    ensures |values| <= |tokens|
  {
    if tokens == [] then []
    else
      match ParseI32(tokens[0])
      case Some(v) => [v] + ParsedTokens(tokens[1..])
      case None => ParsedTokens(tokens[1..])
  }

  /** `TimeslotParameters::get_durations`. */
  function GetDurations(s: string): seq<Int32> {
    ParsedTokens(Split(s))
  }

  /** Rust's `to_string` of each value, joined with commas. */
  function JoinDurations(xs: seq<Int32>): string {
    if xs == [] then ""
    else if |xs| == 1 then IntText(xs[0])
    else IntText(xs[0]) + "," + JoinDurations(xs[1..])
  }

  /** There is one piece more than there are commas. */
  lemma {:induction false} SplitCount(s: string)
    ensures |Split(s)| == Commas(s) + 1
  {
    if s != [] {
      SplitCount(s[1..]);
    }
  }

  /** Splitting at one comma splits both sides independently. */
  lemma {:induction false} SplitComma(a: string, b: string)
    ensures Split(a + "," + b) == Split(a) + Split(b)
  {
    if a == [] {
      assert a + "," + b == [','] + b;
      assert ([','] + b)[1..] == b;
    } else {
      assert (a + "," + b)[1..] == a[1..] + "," + b;
      assert (a + "," + b)[0] == a[0];
      SplitComma(a[1..], b);
    }
  }

  /** A piece without commas is its own only piece. */
  lemma {:induction false} SplitNoComma(s: string)
    requires ',' !in s
    ensures Split(s) == [s]
  {
    if s != [] {
      assert ',' !in s[1..] by {
        forall i | 0 <= i < |s[1..]|
          ensures s[1..][i] != ','
        {
          assert s[1..][i] == s[i + 1];
        }
      }
      SplitNoComma(s[1..]);
      assert [s[0]] + s[1..] == s;
    }
  }

  lemma {:induction false} ParsedTokensAppend(a: seq<string>, b: seq<string>)
    ensures ParsedTokens(a + b) == ParsedTokens(a) + ParsedTokens(b)
  {
    if a == [] {
      assert a + b == b;
    } else {
      assert (a + b)[1..] == a[1..] + b;
      ParsedTokensAppend(a[1..], b);
    }
  }

  /** The empty query string gives no durations, and there are never more
      durations than comma-separated pieces. */
  lemma GetDurationsBounds(s: string)
    ensures GetDurations("") == []
    ensures |GetDurations(s)| <= Commas(s) + 1
  {
    assert ParseI32("") == None;
    SplitCount(s);
  }

  /** The durations of a comma-joined query string are those of its two
      sides, in order: every piece is parsed on its own. */
  lemma GetDurationsConcat(a: string, b: string)
    ensures GetDurations(a + "," + b) == GetDurations(a) + GetDurations(b)
  {
    SplitComma(a, b);
    ParsedTokensAppend(Split(a), Split(b));
  }

  /** A piece that is not an `i32` contributes nothing; one that is
      contributes its value. */
  lemma GetDurationsPiece(t: string)
    requires ',' !in t
    ensures ParseI32(t).None? ==> GetDurations(t) == []
    ensures ParseI32(t).Some? ==> GetDurations(t) == [ParseI32(t).value]
  {
    SplitNoComma(t);
    assert [t][1..] == [];
  }

  /** Empty pieces, pieces with a blank and pieces with a sign but no digit
      are not durations. */
  lemma ParseI32Rejects(t: string)
    ensures ParseI32("") == None
    ensures ParseI32("+") == None && ParseI32("-") == None
    ensures ' ' in t ==> ParseI32(t) == None
  {
    if ParseI32(t).Some? {
      assert forall i :: 0 <= i < |t| ==> t[i] != ' ';
    }
  }

  /** A sign, or none, followed by one or more digits reads as its value,
      leading zeros and a `+` included, exactly when that value is an `i32`. */
  lemma ParseI32Value(sign: string, digits: string)
    requires sign == "" || sign == "+" || sign == "-"
    requires |digits| > 0 && AllDigits(digits)
    ensures var value: int := if sign == "-" then -(DigitsValue(digits) as int) else DigitsValue(digits);
      && (ParseI32(sign + digits).Some? <==> I32_MIN <= value <= I32_MAX)
      && (ParseI32(sign + digits).Some? ==> ParseI32(sign + digits).value == value)
  {
    if sign == "" {
      assert sign + digits == digits;
      ParseUnsigned(digits);
    } else {
      assert sign + digits == [sign[0]] + digits;
      ParseSigned(sign[0], digits);
    }
  }

  lemma ParseUnsigned(digits: string)
    requires |digits| > 0 && AllDigits(digits)
    ensures ParseI32(digits).Some? <==> DigitsValue(digits) <= I32_MAX
    ensures ParseI32(digits).Some? ==> ParseI32(digits).value == DigitsValue(digits)
  {
    assert IsDigit(digits[0]);
  }

  lemma ParseSigned(sign: char, digits: string)
    requires sign == '+' || sign == '-'
    requires |digits| > 0 && AllDigits(digits)
    ensures var value: int := if sign == '-' then -(DigitsValue(digits) as int) else DigitsValue(digits);
      && (ParseI32([sign] + digits).Some? <==> I32_MIN <= value <= I32_MAX)
      && (ParseI32([sign] + digits).Some? ==> ParseI32([sign] + digits).value == value)
  {
    assert ([sign] + digits)[1..] == digits;
  }

  /** `+7` and `007` are 7 and `-12` is -12. */
  lemma ParseI32Examples()
    ensures ParseI32("+7") == Some(7) && ParseI32("007") == Some(7)
    ensures ParseI32("-12") == Some(-12)
  {
    ParseI32Value("+", "7");
    ParseI32Value("", "007");
    assert "-12" == "-" + "12";
    ParseI32Value("-", "12");
  }

  /** Anything beyond the `i32` range is not a duration. */
  lemma ParseI32RejectsOverflow(n: nat)
    requires n > I32_MAX
    ensures ParseI32(NatText(n)) == None
  {
    var t := NatText(n);
    NatTextRoundTrip(n);
    assert IsDigit(t[0]);
  }

  /** Reading back the rendering of an `i32` gives that `i32`. */
  lemma ParseI32RoundTrip(v: Int32)
    ensures ParseI32(IntText(v)) == Some(v)
  {
    var t := IntText(v);
    if v < 0 {
      var n: nat := -(v as int);
      var digits := NatText(n);
      assert t == ['-'] + digits && t[1..] == digits;
      NatTextRoundTrip(n);
    } else {
      NatTextRoundTrip(v);
      assert IsDigit(t[0]);
    }
  }

  lemma IntTextHasNoComma(v: int)
    ensures ',' !in IntText(v)
  {
    var t := IntText(v);
    forall i | 0 <= i < |t|
      ensures t[i] != ','
    {
      if v < 0 && i > 0 {
        assert t[i] == NatText(-v)[i - 1];
      }
    }
  }

  /** Joining the renderings of any `i32` list with commas and reading the
      durations back gives that list. */
  lemma {:induction false} GetDurationsRoundTrip(xs: seq<Int32>)
    ensures GetDurations(JoinDurations(xs)) == xs
  {
    if xs == [] {
      GetDurationsBounds("");
    } else {
      var x, rest := xs[0], xs[1..];
      assert xs == [x] + rest;
      IntTextHasNoComma(x);
      ParseI32RoundTrip(x);
      GetDurationsPiece(IntText(x));
      assert GetDurations(IntText(x)) == [x];
      if rest != [] {
        GetDurationsConcat(IntText(x), JoinDurations(rest));
        GetDurationsRoundTrip(rest);
      }
    }
  }

  // ---------------------------------------------------------------------------
  // The gate and the handler

  /** A response of `/time-slots`: status 200 with the windows, or status 500
      with the error's text. */
  datatype Reply = Ok(windows: seq<PriceWindow>) | InternalServerError(body: string)

  /** Every window re-expressed in `zone`. */
  function Project(ws: seq<PriceWindow>, zone: Offset): (ps: seq<PriceWindow>)
    ensures |ps| == |ws|
  {
    seq(|ws|, i requires 0 <= i < |ws| => WithTimezone(ws[i], zone))
  }

  /** Projection keeps every window's instants and price and only changes the
      offset they are shown in. */
  lemma ProjectKeepsWindows(ws: seq<PriceWindow>, zone: Offset)
    ensures forall i :: 0 <= i < |ws| ==>
      var p := Project(ws, zone)[i];
      p.startsAt.utc == ws[i].startsAt.utc && p.endsAt.utc == ws[i].endsAt.utc
      && p.averagePrice == ws[i].averagePrice && p.startsAt.offset == zone && p.endsAt.offset == zone
  {
  }

  /** `fetch_prices_of_today_from_provider`: fetch, and persist what was
      fetched under the provider's name; a fetch error is passed on as it is
      and a persistence error becomes a fetch error with its text. */
  method FetchPricesOfTodayFromProvider(provider: ElectricityPriceProvider, store: PriceStore, dbFailure: Option<string>)
    returns (r: Result<seq<PricePoint>, ProviderError>)
    requires store.Valid()
    modifies provider, store
    ensures store.Valid()
    ensures provider.fetches == old(provider.fetches) + 1
    ensures provider.answer.Failure? ==>
      r == provider.answer && store.rows == old(store.rows) && store.persistCalls == old(store.persistCalls)
    ensures provider.answer.Success? ==>
      store.persistCalls == old(store.persistCalls) + [PersistCall(provider.answer.value, provider.name)]
    ensures provider.answer.Success? ==>
      var verdict := PersistVerdict(store.providers, old(store.rows), provider.answer.value, provider.name, dbFailure);
      && (verdict.Pass? ==> r == Success(provider.answer.value)
                            && store.rows == old(store.rows) + Tagged(provider.answer.value, store.providers[provider.name]))
      && (verdict.Fail? ==> r == Failure(FetchPrices(verdict.error.Display())) && store.rows == old(store.rows))
  {
    var fetched := provider.FetchPrices();
    if fetched.Failure? {
      return fetched;
    }
    var persisted := store.PersistPrices(fetched.value, provider.name, dbFailure);
    if persisted.Fail? {
      return Failure(FetchPrices(persisted.error.Display()));
    }
    r := Success(fetched.value);
  }

  /** `get_time_slots`: when no price of `today` is stored, fetch and persist
      today's prices first and answer 500 if that fails; then run the window
      query for every requested duration and show the windows in the offset
      of `moment_start`. */
  method GetTimeSlots(store: PriceStore, provider: ElectricityPriceProvider, today: int,
                      parameters: TimeslotParameters, dbFailure: Option<string>)
    returns (reply: Reply)
    requires store.Valid()
    modifies store, provider
    ensures store.Valid()
    ensures old(store.HasPricesOn(today)) ==>
      provider.fetches == old(provider.fetches) && store.rows == old(store.rows)
      && store.persistCalls == old(store.persistCalls)
    ensures !old(store.HasPricesOn(today)) ==> provider.fetches == old(provider.fetches) + 1
    ensures !old(store.HasPricesOn(today)) && provider.answer.Failure? ==>
      reply == InternalServerError(provider.answer.error.Display()) && store.rows == old(store.rows)
      && store.persistCalls == old(store.persistCalls)
    ensures !old(store.HasPricesOn(today)) && provider.answer.Success? ==>
      var verdict := PersistVerdict(store.providers, old(store.rows), provider.answer.value, provider.name, dbFailure);
      && store.persistCalls == old(store.persistCalls) + [PersistCall(provider.answer.value, provider.name)]
      && (verdict.Pass? ==> store.rows == old(store.rows) + Tagged(provider.answer.value, store.providers[provider.name]))
      && (verdict.Fail? ==> reply == InternalServerError(FetchPrices(verdict.error.Display()).Display())
                            && store.rows == old(store.rows))
    ensures var gatePassed := old(store.HasPricesOn(today))
              || (provider.answer.Success?
                  && PersistVerdict(store.providers, old(store.rows), provider.answer.value, provider.name, dbFailure).Pass?);
      var found := WindowsFor(Points(store.rows), parameters.momentStart.utc, parameters.momentEnd.utc,
                              GetDurations(parameters.durations), AsWritten);
      && (reply.Ok? <==> gatePassed && found.Success?)
      && (reply.Ok? ==> reply.windows == Project(found.value, parameters.momentStart.offset))
      && (gatePassed && reply.InternalServerError? ==> reply.body == RowNotFound)
  {
    var available := store.HasPricesOfDate(today);
    if !available {
      var fetched := FetchPricesOfTodayFromProvider(provider, store, dbFailure);
      if fetched.Failure? {
        return InternalServerError(fetched.error.Display());
      }
    }
    var durations := GetDurations(parameters.durations);
    var zone := parameters.momentStart.offset;
    var found := store.FetchOptimalWindows(parameters.momentStart.utc, parameters.momentEnd.utc, durations);
    if found.Failure? {
      WindowsForFails(Points(store.rows), parameters.momentStart.utc, parameters.momentEnd.utc, durations, AsWritten);
      return InternalServerError(found.error);
    }
    reply := Ok(Project(found.value, zone));
  }

  /** Two requests on one day: once the first has stored a price of `today`,
      the second finds it and does not ask the provider again. */
  method TwoRequestsOneFetch(store: PriceStore, provider: ElectricityPriceProvider, today: int,
                             first: TimeslotParameters, second: TimeslotParameters,
                             firstFailure: Option<string>, secondFailure: Option<string>)
    returns (firstReply: Reply, secondReply: Reply)
    requires store.Valid()
    requires store.HasPricesOn(today)
             || (provider.answer.Success? && (exists p :: p in provider.answer.value && Day(p.moment) == today)
                 && PersistVerdict(store.providers, store.rows, provider.answer.value, provider.name, firstFailure).Pass?)
    modifies store, provider
    ensures store.Valid() && store.HasPricesOn(today)
    ensures provider.fetches <= old(provider.fetches) + 1
  {
    ghost var before := store.rows;
    firstReply := GetTimeSlots(store, provider, today, first, firstFailure);
    if !HasRowOn(before, today) {
      PersistMakesDateAvailable(before, provider.answer.value, store.providers[provider.name], today);
    }
    secondReply := GetTimeSlots(store, provider, today, second, secondFailure);
  }
}
