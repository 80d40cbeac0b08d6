/**
 * `get_quotes_history`: one provider request per ticker, in ticker order,
 * stopping at the first failed request; then one table per response,
 * stopping at the first response without quotes or table that cannot be
 * built.
 */
module QuoteHistory {
  import opened Wrappers
  import opened Time
  import opened DataFrame
  import opened QuoteTable

  /** A provider response; reading its quotes fails when it holds none. */
  datatype Response = Response(quotes: Result<seq<Quote>, string>)

  /** Where a failure came from: the quote provider, or the table library. */
  datatype FetchError = Provider(message: string) | Polars(error: PolarsError)

  /** What the provider answers for a ticker and a time range. */
  type History = (string, Instant, Instant) -> Result<Response, string>

  /** The quote provider: its answers are a fixed function of the request, and every request is logged. */
  class YahooConnector {
    const history: History
    var requested: seq<string>

    constructor (history: History)
      ensures this.history == history && requested == []
    {
      this.history := history;
      requested := [];
    }

    /** One request: the provider's answer, and the ticker appended to the log. */
    method GetQuoteHistory(ticker: string, start: Instant, end: Instant) returns (r: Result<Response, string>)
      modifies this
      ensures r == history(ticker, start, end)
      ensures requested == old(requested) + [ticker]
    {
      r := history(ticker, start, end);
      requested := requested + [ticker];
    }
  }

  // ----- the specification of the two loops -----

  /** The responses for `tickers`, or the error of the first request that fails. */
  function FetchAll(history: History, tickers: seq<string>, start: Instant, end: Instant): Result<seq<Response>, string>
    decreases |tickers|
  {
    if tickers == [] then Ok([])
    else
      match FetchAll(history, tickers[..|tickers| - 1], start, end)
      case Err(e) => Err(e)
      case Ok(rs) =>
        match history(tickers[|tickers| - 1], start, end)
        case Err(e) => Err(e)
        case Ok(r) => Ok(rs + [r])
  }

  /** The tickers the loop asks the provider for: all of them, or up to and including the first that fails. */
  function Attempted(history: History, tickers: seq<string>, start: Instant, end: Instant): seq<string>
    decreases |tickers|
  {
    if tickers == [] then []
    else
      var init := tickers[..|tickers| - 1];
      if FetchAll(history, init, start, end).Err? then Attempted(history, init, start, end)
      else init + [tickers[|tickers| - 1]]
  }

  /** What turns one response's quotes into a table: `df_from_quotes` with the request's columns. */
  type Builder = seq<Quote> -> Result<Table, PolarsError>

  function BuilderFor(columns: Option<seq<string>>): Builder {
    quotes => FromQuotes(quotes, columns)
  }

  /** The tables for `responses`, or the first failure reading quotes or building a table. */
  function Tables(responses: seq<Response>, build: Builder): Result<seq<Table>, FetchError>
    decreases |responses|
  {
    if responses == [] then Ok([])
    else
      match Tables(responses[..|responses| - 1], build)
      case Err(e) => Err(e)
      case Ok(ts) =>
        match responses[|responses| - 1].quotes
        case Err(m) => Err(Provider(m))
        case Ok(quotes) =>
          match build(quotes)
          case Err(e) => Err(Polars(e))
          case Ok(t) => Ok(ts + [t])
  }

  /** What `get_quotes_history` returns. */
  function QuotesHistory(history: History, tickers: seq<string>, start: Instant, end: Instant,
                         columns: Option<seq<string>>): Result<seq<Table>, FetchError>
  {
    match FetchAll(history, tickers, start, end)
    case Err(m) => Err(Provider(m))
    case Ok(responses) => Tables(responses, BuilderFor(columns))
  }

  // ----- errors stick -----

  lemma {:induction false} FetchAllSticky(history: History, tickers: seq<string>, i: nat, start: Instant, end: Instant)
    requires i <= |tickers| && FetchAll(history, tickers[..i], start, end).Err?
    ensures FetchAll(history, tickers, start, end) == FetchAll(history, tickers[..i], start, end)
    ensures Attempted(history, tickers, start, end) == Attempted(history, tickers[..i], start, end)
    decreases |tickers|
  {
    if i < |tickers| {
      var init := tickers[..|tickers| - 1];
      assert init[..i] == tickers[..i];
      FetchAllSticky(history, init, i, start, end);
    } else {
      assert tickers[..i] == tickers;
    }
  }

  lemma {:induction false} TablesSticky(responses: seq<Response>, build: Builder, i: nat)
    requires i <= |responses| && Tables(responses[..i], build).Err?
    ensures Tables(responses, build) == Tables(responses[..i], build)
    decreases |responses|
  {
    if i < |responses| {
      var init := responses[..|responses| - 1];
      assert init[..i] == responses[..i];
      TablesSticky(init, build, i);
    } else {
      assert responses[..i] == responses;
    }
  }

  // ----- the loops -----

  /** The first loop: one request per ticker, returning on the first error. */
  method FetchResponses(provider: YahooConnector, tickers: seq<string>, start: Instant, end: Instant)
    returns (r: Result<seq<Response>, string>)
    modifies provider
    ensures r == FetchAll(provider.history, tickers, start, end)
    ensures provider.requested == old(provider.requested) + Attempted(provider.history, tickers, start, end)
  {
    var responses: seq<Response> := [];
    for i := 0 to |tickers|
      invariant FetchAll(provider.history, tickers[..i], start, end) == Ok(responses)
      invariant provider.requested == old(provider.requested) + tickers[..i]
    {
      assert tickers[..i + 1][..i] == tickers[..i];
      var resp := provider.GetQuoteHistory(tickers[i], start, end);
      if resp.Err? {
        FetchAllSticky(provider.history, tickers, i + 1, start, end);
        assert tickers[..i + 1] == tickers[..i] + [tickers[i]];
        return Err(resp.error);
      }
      responses := responses + [resp.value];
    }
    assert tickers[..|tickers|] == tickers;
    AttemptedAll(provider.history, tickers, start, end);
    r := Ok(responses);
  }

  /** The second loop: one table per response, returning on the first error. */
  method BuildTables(responses: seq<Response>, columns: Option<seq<string>>) returns (r: Result<seq<Table>, FetchError>)
    ensures r == Tables(responses, BuilderFor(columns))
  {
    var build := BuilderFor(columns);
    var dataframes: seq<Table> := [];
    for i := 0 to |responses|
      invariant Tables(responses[..i], build) == Ok(dataframes)
    {
      assert responses[..i + 1][..i] == responses[..i];
      var quotes := responses[i].quotes;
      if quotes.Err? {
        TablesSticky(responses, build, i + 1);
        return Err(Provider(quotes.error));
      }
      var df := DfFromQuotes(quotes.value, columns);
      assert df == build(quotes.value);
      if df.Err? {
        TablesSticky(responses, build, i + 1);
        return Err(Polars(df.error));
      }
      dataframes := dataframes + [df.value];
    }
    assert responses[..|responses|] == responses;
    r := Ok(dataframes);
  }

  /** `get_quotes_history`: both loops, returning early on the first error. */
  method GetQuotesHistory(provider: YahooConnector, tickers: seq<string>, start: Instant, end: Instant,
                          columns: Option<seq<string>>) returns (r: Result<seq<Table>, FetchError>)
    modifies provider
    ensures r == QuotesHistory(provider.history, tickers, start, end, columns)
    ensures provider.requested == old(provider.requested) + Attempted(provider.history, tickers, start, end)
  {
    var responses := FetchResponses(provider, tickers, start, end);
    if responses.Err? {
      return Err(Provider(responses.error));
    }
    r := BuildTables(responses.value, columns);
  }

  // ----- properties -----

  /** Every request succeeds exactly when the fetch does, and then response `j` answers ticker `j`. */
  lemma {:induction false} FetchAllOk(history: History, tickers: seq<string>, start: Instant, end: Instant)
    ensures FetchAll(history, tickers, start, end).Ok? <==>
      forall j :: 0 <= j < |tickers| ==> history(tickers[j], start, end).Ok?
    ensures FetchAll(history, tickers, start, end).Ok? ==>
      var rs := FetchAll(history, tickers, start, end).value;
      |rs| == |tickers| && forall j :: 0 <= j < |tickers| ==> rs[j] == history(tickers[j], start, end).value
    decreases |tickers|
  {
    if tickers != [] {
      var init := tickers[..|tickers| - 1];
      FetchAllOk(history, init, start, end);
      forall j | 0 <= j < |init| ensures init[j] == tickers[j] {
      }
    }
  }

  /**
   * A failed fetch reports the first failing ticker's error, and the
   * provider is asked for exactly the tickers up to and including it.
   */
  lemma {:induction false} FetchAllFirstError(history: History, tickers: seq<string>, start: Instant, end: Instant)
    requires FetchAll(history, tickers, start, end).Err?
    ensures exists k :: (0 <= k < |tickers|
      && (forall j :: 0 <= j < k ==> history(tickers[j], start, end).Ok?)
      && history(tickers[k], start, end) == Err(FetchAll(history, tickers, start, end).error)
      && Attempted(history, tickers, start, end) == tickers[..k + 1])
    decreases |tickers|
  {
    var init := tickers[..|tickers| - 1];
    var k;
    if FetchAll(history, init, start, end).Err? {
      FetchAllFirstError(history, init, start, end);
      k :| 0 <= k < |init|
        && (forall j :: 0 <= j < k ==> history(init[j], start, end).Ok?)
        && history(init[k], start, end) == Err(FetchAll(history, init, start, end).error)
        && Attempted(history, init, start, end) == init[..k + 1];
      assert init[..k + 1] == tickers[..k + 1];
    } else {
      k := |tickers| - 1;
      FetchAllOk(history, init, start, end);
      assert init + [tickers[k]] == tickers[..k + 1];
    }
    assert forall j :: 0 <= j < k ==> history(tickers[j], start, end).Ok? by {
      forall j | 0 <= j < k ensures history(tickers[j], start, end).Ok? {
        assert init[j] == tickers[j];
      }
    }
  }

  /** When the fetch succeeds, every ticker is requested once, in order. */
  lemma AttemptedAll(history: History, tickers: seq<string>, start: Instant, end: Instant)
    requires FetchAll(history, tickers, start, end).Ok?
    ensures Attempted(history, tickers, start, end) == tickers
  {
    if tickers != [] {
      assert tickers[..|tickers| - 1] + [tickers[|tickers| - 1]] == tickers;
    }
  }

  /** Successful tables: one per response, each the table built from that response's quotes. */
  lemma {:induction false} TablesOk(responses: seq<Response>, build: Builder)
    requires Tables(responses, build).Ok?
    ensures var ts := Tables(responses, build).value;
      |ts| == |responses| && forall j :: 0 <= j < |responses| ==>
        responses[j].quotes.Ok? && build(responses[j].quotes.value) == Ok(ts[j])
    decreases |responses|
  {
    if responses != [] {
      var init := responses[..|responses| - 1];
      TablesOk(init, build);
      forall j | 0 <= j < |init| ensures init[j] == responses[j] {
      }
    }
  }

  /** A successful history has one table per ticker, built from that ticker's quotes. */
  lemma QuotesHistoryOk(history: History, tickers: seq<string>, start: Instant, end: Instant, columns: Option<seq<string>>)
    requires QuotesHistory(history, tickers, start, end, columns).Ok?
    ensures var ts := QuotesHistory(history, tickers, start, end, columns).value;
      |ts| == |tickers| && forall j :: 0 <= j < |tickers| ==>
        && history(tickers[j], start, end).Ok?
        && history(tickers[j], start, end).value.quotes.Ok?
        && FromQuotes(history(tickers[j], start, end).value.quotes.value, columns) == Ok(ts[j])
  {
    FetchAllOk(history, tickers, start, end);
    TablesOk(FetchAll(history, tickers, start, end).value, BuilderFor(columns));
  }

  /** Without tickers nothing is requested and the result is the empty list. */
  lemma NoTickers(history: History, start: Instant, end: Instant, columns: Option<seq<string>>)
    ensures QuotesHistory(history, [], start, end, columns) == Ok([])
    ensures Attempted(history, [], start, end) == []
  {
  }
}
