/**
 * The work plan of `main` (run_etl.py:98-160): for each target coin, set up
 * its tables and load its price history, then for each of its exchanges
 * load open interest, long/short ratio and funding rate, pacing the calls
 * with fixed sleeps.  A `Load` step stands for fetch -> process -> (debug
 * head) -> save into one table; the plan is the sequence of those steps.
 */
module Orchestrator {
  import opened Wrappers
  import opened Text

  const TargetCoins: seq<string> := ["BTC", "ETH", "XRP", "SOL"]
  const DebugMode: bool := false
  const DebugRecordLimit: nat := 5

  const OiApiUrl: string := "https://api.coinalyze.net/v1/open-interest-history"
  const PriceApiUrl: string := "https://api.coinalyze.net/v1/ohlcv-history"
  const LsrApiUrl: string := "https://api.coinalyze.net/v1/long-short-ratio-history"
  const FrApiUrl: string := "https://api.coinalyze.net/v1/funding-rate-history"

  const Interval: string := "5min"
  /** Ten days, in seconds: the trailing window every request asks for. */
  const Lookback: nat := 86400 * 10
  const PriceSymbolSuffix: string := "USDT.6"

  /** Seconds slept before each per-exchange call, after each exchange, and between coins. */
  const CallPause: nat := 2
  const ExchangePause: nat := 5
  const CoinPause: nat := 15

  datatype Metric = Price | OpenInterest | LongShortRatio | FundingRate

  /** One entry of `get_exchange_config(coin)`: name -> {code, contracts}, in dict order. */
  datatype Exchange = Exchange(name: string, code: string, contracts: seq<string>)

  /**
   * The query parameters.  `from`/`to` are read from the clock when the dict
   * is built, so a request keeps only the window length (see `Window`).
   */
  datatype Params = Params(symbols: string, interval: string, lookback: nat, convertToUsd: bool)

  /**
   * Fetch `Endpoint(metric)` with `params`, process as `metric`, keep
   * `rowLimit` rows if set, save to `table`.
   */
  datatype Job = Job(metric: Metric, params: Params, table: string, rowLimit: Option<nat>)

  datatype Step = SetupTables(coin: string) | Load(job: Job) | Sleep(seconds: nat)

  // ---- Names and parameters ----

  function Endpoint(m: Metric): string {
    match m
    case Price => PriceApiUrl
    case OpenInterest => OiApiUrl
    case LongShortRatio => LsrApiUrl
    case FundingRate => FrApiUrl
  }

  /** Each metric is fetched from its own URL. */
  lemma EndpointsDistinct(m1: Metric, m2: Metric)
    requires Endpoint(m1) == Endpoint(m2)
    ensures m1 == m2
  {
  }

  function TableSuffix(m: Metric): string {
    match m
    case Price => "_price_history"
    case OpenInterest => "_oi_history"
    case LongShortRatio => "_lsr_history"
    case FundingRate => "_funding_rate_history"
  }

  /** The table a metric is saved to; the price table has no exchange part. */
  function TableName(m: Metric, coin: string, exchange: string): (r: string)
    ensures |TableSuffix(m)| <= |r| && r[|r| - |TableSuffix(m)|..] == TableSuffix(m)
  {
    if m == Price then Lower(coin) + TableSuffix(m)
    else Lower(coin) + "_" + Lower(exchange) + TableSuffix(m)
  }

  /** Reads the metric back from a table name: the tenth character from the end tells them apart. */
  function MetricOfTable(name: string): Option<Metric> {
    if |name| < 10 then None
    else
      match name[|name| - 10]
      case 'c' => Some(Price)
      case 'o' => Some(OpenInterest)
      case 's' => Some(LongShortRatio)
      case 't' => Some(FundingRate)
      case _ => None
  }

  /** The `symbols` parameter: each contract followed by the exchange code, comma-joined. */
  function Symbols(ex: Exchange): string {
    Join(seq(|ex.contracts|, i requires 0 <= i < |ex.contracts| => ex.contracts[i] + ex.code), ',')
  }

  function CommonParams(ex: Exchange): Params {
    Params(Symbols(ex), Interval, Lookback, false)
  }

  function PriceParams(coin: string): Params {
    Params(coin + PriceSymbolSuffix, Interval, Lookback, false)
  }

  function RowLimit(debug: bool): Option<nat> {
    if debug then Some(DebugRecordLimit) else None
  }

  function PriceJob(coin: string, debug: bool): Job {
    Job(Price, PriceParams(coin), TableName(Price, coin, ""), RowLimit(debug))
  }

  /** Only the open-interest request adds `convert_to_usd`. */
  function ExchangeJob(m: Metric, coin: string, ex: Exchange, debug: bool): Job
    requires m != Price
  {
    var common := CommonParams(ex);
    var params := if m == OpenInterest then common.(convertToUsd := true) else common;
    Job(m, params, TableName(m, coin, ex.name), RowLimit(debug))
  }

  // ---- The plan ----

  /** One exchange: 2 s, OI, 2 s, LSR, 2 s, FR, then 5 s. */
  function ExchangeSteps(coin: string, ex: Exchange, debug: bool): seq<Step> {
    [ Sleep(CallPause), Load(ExchangeJob(OpenInterest, coin, ex, debug)),
      Sleep(CallPause), Load(ExchangeJob(LongShortRatio, coin, ex, debug)),
      Sleep(CallPause), Load(ExchangeJob(FundingRate, coin, ex, debug)),
      Sleep(ExchangePause) ]
  }

  function ExchangesSteps(coin: string, exs: seq<Exchange>, debug: bool): seq<Step> {
    if exs == [] then []
    else ExchangesSteps(coin, exs[..|exs| - 1], debug) + ExchangeSteps(coin, exs[|exs| - 1], debug)
  }

  /** One coin's steps; the coin pause is skipped when the coin equals the last listed one. */
  function CoinSteps(coin: string, exs: seq<Exchange>, last: string, debug: bool): seq<Step> {
    [SetupTables(coin), Load(PriceJob(coin, debug))]
    + ExchangesSteps(coin, exs, debug)
    + (if coin != last then [Sleep(CoinPause)] else [])
  }

  function PlanSteps(coins: seq<string>, exchangesOf: string -> seq<Exchange>, last: string, debug: bool): seq<Step> {
    if coins == [] then []
    else
      var coin := coins[|coins| - 1];
      PlanSteps(coins[..|coins| - 1], exchangesOf, last, debug) + CoinSteps(coin, exchangesOf(coin), last, debug)
  }

  function LastCoin(coins: seq<string>): string {
    if coins == [] then "" else coins[|coins| - 1]
  }

  /** The steps `main` performs for `coins`, with `get_exchange_config` given as `exchangesOf`. */
  function Plan(coins: seq<string>, exchangesOf: string -> seq<Exchange>, debug: bool): seq<Step> {
    PlanSteps(coins, exchangesOf, LastCoin(coins), debug)
  }

  lemma PlanStepsExtend(coins: seq<string>, exchangesOf: string -> seq<Exchange>, last: string, debug: bool, i: nat)
    requires i < |coins|
    ensures PlanSteps(coins[..i + 1], exchangesOf, last, debug)
         == PlanSteps(coins[..i], exchangesOf, last, debug) + CoinSteps(coins[i], exchangesOf(coins[i]), last, debug)
  {
    assert coins[..i + 1][..i] == coins[..i];
  }

  lemma ExchangesStepsExtend(coin: string, exs: seq<Exchange>, debug: bool, j: nat)
    requires j < |exs|
    ensures ExchangesSteps(coin, exs[..j + 1], debug) == ExchangesSteps(coin, exs[..j], debug) + ExchangeSteps(coin, exs[j], debug)
  {
    assert exs[..j + 1][..j] == exs[..j];
  }

  /** The nested loops of `main`, recording each call instead of making it. */
  method RunMain(coins: seq<string>, exchangesOf: string -> seq<Exchange>, debug: bool) returns (steps: seq<Step>)
    ensures steps == Plan(coins, exchangesOf, debug)
  {
    steps := [];
    var i := 0;
    while i < |coins|
      invariant 0 <= i <= |coins|
      invariant steps == PlanSteps(coins[..i], exchangesOf, LastCoin(coins), debug)
    {
      var coin := coins[i];
      var block := RunCoin(coin, exchangesOf(coin), LastCoin(coins), debug);
      PlanStepsExtend(coins, exchangesOf, LastCoin(coins), debug, i);
      steps := steps + block;
      i := i + 1;
    }
    assert coins[..i] == coins;
  }

  /** One pass of the outer loop body of `main`, for `coin`. */
  method RunCoin(coin: string, exchanges: seq<Exchange>, last: string, debug: bool) returns (steps: seq<Step>)
    ensures steps == CoinSteps(coin, exchanges, last, debug)
  {
    var price := Job(Price, PriceParams(coin), Lower(coin) + "_price_history", RowLimit(debug));
    assert price == PriceJob(coin, debug);
    steps := [SetupTables(coin), Load(price)];
    var perExchange := RunExchanges(coin, exchanges, debug);
    steps := steps + perExchange;
    if coin != last {
      steps := steps + [Sleep(CoinPause)];
    }
  }

  /** The inner loop of `main` over `get_exchange_config(coin).items()`. */
  method RunExchanges(coin: string, exchanges: seq<Exchange>, debug: bool) returns (steps: seq<Step>)
    ensures steps == ExchangesSteps(coin, exchanges, debug)
  {
    steps := [];
    var j := 0;
    while j < |exchanges|
      invariant 0 <= j <= |exchanges|
      invariant steps == ExchangesSteps(coin, exchanges[..j], debug)
    {
      var ex := exchanges[j];
      var common := Params(Symbols(ex), Interval, Lookback, false);
      var oi := common.(convertToUsd := true);
      var prefix := Lower(coin) + "_" + Lower(ex.name);
      var oiJob := Job(OpenInterest, oi, prefix + "_oi_history", RowLimit(debug));
      var lsrJob := Job(LongShortRatio, common, prefix + "_lsr_history", RowLimit(debug));
      var frJob := Job(FundingRate, common, prefix + "_funding_rate_history", RowLimit(debug));
      assert oiJob == ExchangeJob(OpenInterest, coin, ex, debug);
      assert lsrJob == ExchangeJob(LongShortRatio, coin, ex, debug);
      assert frJob == ExchangeJob(FundingRate, coin, ex, debug);
      ExchangesStepsExtend(coin, exchanges, debug, j);
      steps := steps + [Sleep(CallPause), Load(oiJob), Sleep(CallPause), Load(lsrJob),
                        Sleep(CallPause), Load(frJob), Sleep(ExchangePause)];
      j := j + 1;
    }
    assert exchanges[..j] == exchanges;
  }

  // ---- Data handling around each load ----

  /**
   * `raw[0].get("history", []) if raw and raw[0] else []`: the price series is
   * the "history" list of the first object of the response, or nothing.
   */
  function PriceHistory<P>(raw: seq<map<string, seq<P>>>): (h: seq<P>)
    ensures |raw| > 0 && "history" in raw[0] ==> h == raw[0]["history"]
    ensures !(|raw| > 0 && "history" in raw[0]) ==> h == []
  {
    if |raw| > 0 && |raw[0]| > 0 then (if "history" in raw[0] then raw[0]["history"] else []) else []
  }

  /** Only the first object of the response is read; later ones never change the series. */
  lemma PriceHistoryReadsFirstOnly<P>(first: map<string, seq<P>>, rest: seq<map<string, seq<P>>>)
    ensures PriceHistory([first] + rest) == PriceHistory([first])
  {
    assert ([first] + rest)[0] == first;
  }

  /** `df.head(n)` when a debug limit is set: the first rows, at most `n` of them. */
  function Head<R>(rows: seq<R>, limit: Option<nat>): (r: seq<R>)
    ensures r <= rows
    ensures limit.None? ==> r == rows
    ensures limit.Some? ==> |r| == (if |rows| < limit.value then |rows| else limit.value)
  {
    match limit
    case None => rows
    case Some(n) => if |rows| <= n then rows else rows[..n]
  }

  /**
   * `from`/`to` of a request: two separate clock reads, the first shifted
   * back by the lookback.  With a clock that does not run backwards the
   * window spans at least the lookback, and exactly it within one second.
   */
  function Window(p: Params, fromRead: int, toRead: int): (w: (int, int))
    ensures w.1 == toRead
    ensures fromRead <= toRead ==> w.1 - w.0 >= p.lookback
    ensures fromRead == toRead ==> w.1 - w.0 == p.lookback
  {
    (fromRead - p.lookback, toRead)
  }

  // ---- Table names ----

  /** The table name determines the metric, whatever the coin and exchange names are. */
  lemma TableNameRoundTrip(m: Metric, coin: string, exchange: string)
    ensures MetricOfTable(TableName(m, coin, exchange)) == Some(m)
  {
    var name := TableName(m, coin, exchange);
    var suffix := TableSuffix(m);
    assert name[|name| - |suffix|..] == suffix;
    assert name[|name| - 10] == suffix[|suffix| - 10];
  }

  /** Tables of different metrics never share a name. */
  lemma TableNamesSeparateMetrics(m1: Metric, c1: string, e1: string, m2: Metric, c2: string, e2: string)
    requires TableName(m1, c1, e1) == TableName(m2, c2, e2)
    ensures m1 == m2
  {
    TableNameRoundTrip(m1, c1, e1);
    TableNameRoundTrip(m2, c2, e2);
  }

  lemma SuffixNoUpper(m: Metric)
    ensures NoUpper(TableSuffix(m))
  {
    var suffix := TableSuffix(m);
    forall i | 0 <= i < |suffix|
      ensures !IsUpper(suffix[i])
    {
      match m
      case Price =>
      case OpenInterest =>
      case LongShortRatio =>
      case FundingRate =>
    }
  }

  /** Every table name is lower case. */
  lemma TableNameLowerCase(m: Metric, coin: string, exchange: string)
    ensures NoUpper(TableName(m, coin, exchange))
  {
    LowerHasNoUpper(coin);
    SuffixNoUpper(m);
    if m == Price {
      NoUpperConcat(Lower(coin), TableSuffix(m));
    } else {
      LowerHasNoUpper(exchange);
      assert NoUpper("_");
      NoUpperConcat(Lower(coin), "_");
      NoUpperConcat(Lower(coin) + "_", Lower(exchange));
      NoUpperConcat(Lower(coin) + "_" + Lower(exchange), TableSuffix(m));
    }
  }

  /** Every table name starts with the lower-cased coin. */
  lemma TableNameStartsWithCoin(m: Metric, coin: string, exchange: string)
    ensures TableName(m, coin, exchange)[..|coin|] == Lower(coin)
  {
    StartsWithFirst(Lower(coin), "_", Lower(exchange), TableSuffix(m));
  }

  // ---- Request parameters ----

  /** `symbols` lists contract+code for every contract, in contract order. */
  lemma SymbolsRoundTrip(ex: Exchange)
    requires |ex.contracts| > 0
    requires ',' !in ex.code
    requires forall i :: 0 <= i < |ex.contracts| ==> ',' !in ex.contracts[i]
    ensures var parts := Split(Symbols(ex), ',');
            && |parts| == |ex.contracts|
            && forall i :: 0 <= i < |parts| ==> parts[i] == ex.contracts[i] + ex.code
  {
    var parts := seq(|ex.contracts|, i requires 0 <= i < |ex.contracts| => ex.contracts[i] + ex.code);
    forall i | 0 <= i < |parts|
      ensures ',' !in parts[i]
    {
      assert parts[i] == ex.contracts[i] + ex.code;
    }
    SplitJoin(parts, ',');
  }

  /** An exchange without contracts asks for the empty symbol list. */
  lemma SymbolsWithoutContracts(ex: Exchange)
    requires ex.contracts == []
    ensures Symbols(ex) == ""
  {
  }

  // ---- Blocks of a concatenated plan ----

  /** The blocks `f(x)` of all `xs`, one after another in order. */
  function Flatten<X>(xs: seq<X>, f: X -> seq<Step>): seq<Step> {
    if xs == [] then []
    else Flatten(xs[..|xs| - 1], f) + f(xs[|xs| - 1])
  }

  lemma {:induction false} ExchangesAreBlocks(coin: string, exs: seq<Exchange>, debug: bool, f: Exchange -> seq<Step>)
    requires forall ex :: f(ex) == ExchangeSteps(coin, ex, debug)
    ensures ExchangesSteps(coin, exs, debug) == Flatten(exs, f)
  {
    if exs != [] {
      ExchangesAreBlocks(coin, exs[..|exs| - 1], debug, f);
    }
  }

  lemma {:induction false} CoinsAreBlocks(coins: seq<string>, exchangesOf: string -> seq<Exchange>, last: string, debug: bool, f: string -> seq<Step>)
    requires forall c :: f(c) == CoinSteps(c, exchangesOf(c), last, debug)
    ensures PlanSteps(coins, exchangesOf, last, debug) == Flatten(coins, f)
  {
    if coins != [] {
      CoinsAreBlocks(coins[..|coins| - 1], exchangesOf, last, debug, f);
    }
  }


  /** Block `i` sits right after the blocks of the elements before it. */
  lemma {:induction false} FlattenBlockAt<X>(xs: seq<X>, f: X -> seq<Step>, i: nat)
    requires i < |xs|
    ensures var start := |Flatten(xs[..i], f)|;
            && start + |f(xs[i])| <= |Flatten(xs, f)|
            && Flatten(xs, f)[start .. start + |f(xs[i])|] == f(xs[i])
  {
    var init := xs[..|xs| - 1];
    if i < |xs| - 1 {
      FlattenBlockAt(init, f, i);
      assert init[..i] == xs[..i] && init[i] == xs[i];
    } else {
      assert init == xs[..i];
    }
  }

  lemma {:induction false} FlattenUniformLength<X>(xs: seq<X>, f: X -> seq<Step>, k: nat)
    requires forall x :: |f(x)| == k
    ensures |Flatten(xs, f)| == k * |xs|
  {
    if xs != [] {
      var n := |xs| - 1;
      FlattenUniformLength(xs[..n], f, k);
      assert k * (n + 1) == k * n + k;
    }
  }

  /** With blocks of seven steps each, block `i` starts at offset `7 * i`. */
  lemma FlattenSevensAt<X>(xs: seq<X>, f: X -> seq<Step>, i: nat)
    requires forall x :: |f(x)| == 7
    requires i < |xs|
    ensures |Flatten(xs, f)| == 7 * |xs|
    ensures Flatten(xs, f)[7 * i .. 7 * i + 7] == f(xs[i])
  {
    FlattenUniformLength(xs, f, 7);
    FlattenUniformLength(xs[..i], f, 7);
    FlattenBlockAt(xs, f, i);
  }

  /** A slice that falls inside the middle part of `a + b + c` is a slice of `b`. */
  lemma SliceOfMiddle(a: seq<Step>, b: seq<Step>, c: seq<Step>, lo: nat, hi: nat)
    requires |a| <= lo <= hi <= |a| + |b|
    ensures (a + b + c)[lo .. hi] == b[lo - |a| .. hi - |a|]
  {
  }

  // ---- Tallies and pacing ----

  /** The number of `Load` steps: one fetch-and-save each. */
  function Loads(steps: seq<Step>): nat {
    if steps == [] then 0
    else Loads(steps[..|steps| - 1]) + (if steps[|steps| - 1].Load? then 1 else 0)
  }

  /** The seconds spent in pacing sleeps. */
  function PauseSeconds(steps: seq<Step>): nat {
    if steps == [] then 0
    else PauseSeconds(steps[..|steps| - 1]) + (if steps[|steps| - 1].Sleep? then steps[|steps| - 1].seconds else 0)
  }

  lemma TallyAppend(a: seq<Step>, e: Step)
    ensures Loads(a + [e]) == Loads(a) + (if e.Load? then 1 else 0)
    ensures PauseSeconds(a + [e]) == PauseSeconds(a) + (if e.Sleep? then e.seconds else 0)
  {
    assert (a + [e])[..|a|] == a;
  }

  lemma {:induction false} TallyConcat(a: seq<Step>, b: seq<Step>)
    ensures Loads(a + b) == Loads(a) + Loads(b)
    ensures PauseSeconds(a + b) == PauseSeconds(a) + PauseSeconds(b)
    decreases |b|
  {
    if b == [] {
      assert a + b == a;
    } else {
      var b' := b[..|b| - 1];
      TallyConcat(a, b');
      assert (a + b)[..|a + b| - 1] == a + b';
    }
  }

  /**
   * Each load comes right after what the script does before it: the price
   * load right after table setup (with no pause), every other load right
   * after the 2 s pause.
   */
  ghost predicate Preceded(s: seq<Step>) {
    forall i :: 0 <= i < |s| && s[i].Load? ==>
      0 < i && (if s[i].job.metric == Price then s[i - 1].SetupTables? else s[i - 1] == Sleep(CallPause))
  }

  /** What every request of a run shares, given the debug flag. */
  ghost predicate Conforms(j: Job, debug: bool) {
    && j.params.interval == Interval
    && j.params.lookback == Lookback
    && (j.params.convertToUsd <==> j.metric == OpenInterest)
    && j.rowLimit == RowLimit(debug)
    && MetricOfTable(j.table) == Some(j.metric)
  }

  ghost predicate AllConform(s: seq<Step>, debug: bool) {
    forall i :: 0 <= i < |s| && s[i].Load? ==> Conforms(s[i].job, debug)
  }

  lemma ConcatKeeps(a: seq<Step>, b: seq<Step>, debug: bool)
    requires Preceded(a) && Preceded(b) && AllConform(a, debug) && AllConform(b, debug)
    ensures Preceded(a + b) && AllConform(a + b, debug)
  {
    forall i | 0 <= i < |a + b| && (a + b)[i].Load?
      ensures 0 < i && (if (a + b)[i].job.metric == Price then (a + b)[i - 1].SetupTables? else (a + b)[i - 1] == Sleep(CallPause))
      ensures Conforms((a + b)[i].job, debug)
    {
      if i >= |a| {
        assert (a + b)[i] == b[i - |a|];
        assert (a + b)[i - 1] == b[i - |a| - 1];
      }
    }
  }

  lemma PausedLoadTally(j: Job)
    ensures Loads([Sleep(CallPause), Load(j)]) == 1
    ensures PauseSeconds([Sleep(CallPause), Load(j)]) == CallPause
  {
    TallyAppend([], Sleep(CallPause));
    assert [] + [Sleep(CallPause)] == [Sleep(CallPause)];
    TallyAppend([Sleep(CallPause)], Load(j));
  }

  lemma ExchangeStepsTally(coin: string, ex: Exchange, debug: bool)
    ensures Loads(ExchangeSteps(coin, ex, debug)) == 3
    ensures PauseSeconds(ExchangeSteps(coin, ex, debug)) == 11
  {
    var p1 := [Sleep(CallPause), Load(ExchangeJob(OpenInterest, coin, ex, debug))];
    var p2 := [Sleep(CallPause), Load(ExchangeJob(LongShortRatio, coin, ex, debug))];
    var p3 := [Sleep(CallPause), Load(ExchangeJob(FundingRate, coin, ex, debug))];
    PausedLoadTally(ExchangeJob(OpenInterest, coin, ex, debug));
    PausedLoadTally(ExchangeJob(LongShortRatio, coin, ex, debug));
    PausedLoadTally(ExchangeJob(FundingRate, coin, ex, debug));
    TallyConcat(p1, p2);
    TallyConcat(p1 + p2, p3);
    TallyAppend(p1 + p2 + p3, Sleep(ExchangePause));
    assert ExchangeSteps(coin, ex, debug) == p1 + p2 + p3 + [Sleep(ExchangePause)];
  }

  lemma ExchangeStepsPaced(coin: string, ex: Exchange, debug: bool)
    ensures Preceded(ExchangeSteps(coin, ex, debug))
  {
    var s := ExchangeSteps(coin, ex, debug);
    forall i | 0 <= i < |s| && s[i].Load?
      ensures 0 < i && s[i].job.metric != Price && s[i - 1] == Sleep(CallPause)
    {
      assert i == 1 || i == 3 || i == 5;
    }
  }

  lemma ExchangeStepsConform(coin: string, ex: Exchange, debug: bool)
    ensures AllConform(ExchangeSteps(coin, ex, debug), debug)
  {
    var s := ExchangeSteps(coin, ex, debug);
    forall i | 0 <= i < |s| && s[i].Load?
      ensures Conforms(s[i].job, debug)
    {
      assert i == 1 || i == 3 || i == 5;
      var m := s[i].job.metric;
      assert m != Price && s[i].job == ExchangeJob(m, coin, ex, debug);
      ExchangeJobConforms(m, coin, ex, debug);
    }
  }

  lemma ExchangeJobConforms(m: Metric, coin: string, ex: Exchange, debug: bool)
    requires m != Price
    ensures Conforms(ExchangeJob(m, coin, ex, debug), debug)
  {
    TableNameRoundTrip(m, coin, ex.name);
  }

  lemma {:induction false} ExchangesLength(coin: string, exs: seq<Exchange>, debug: bool)
    ensures |ExchangesSteps(coin, exs, debug)| == 7 * |exs|
  {
    if exs != [] {
      ExchangesLength(coin, exs[..|exs| - 1], debug);
    }
  }

  /** Per exchange: seven steps each, the block of exchange `e` at offset `7 * e`. */
  lemma ExchangeBlockAt(coin: string, exs: seq<Exchange>, debug: bool, e: nat)
    requires e < |exs|
    ensures |ExchangesSteps(coin, exs, debug)| == 7 * |exs|
    ensures ExchangesSteps(coin, exs, debug)[7 * e .. 7 * e + 7] == ExchangeSteps(coin, exs[e], debug)
  {
    var f := ex => ExchangeSteps(coin, ex, debug);
    ExchangesAreBlocks(coin, exs, debug, f);
    FlattenSevensAt(exs, f, e);
  }

  lemma {:induction false} ExchangesFacts(coin: string, exs: seq<Exchange>, debug: bool)
    ensures Loads(ExchangesSteps(coin, exs, debug)) == 3 * |exs|
    ensures PauseSeconds(ExchangesSteps(coin, exs, debug)) == 11 * |exs|
    ensures Preceded(ExchangesSteps(coin, exs, debug)) && AllConform(ExchangesSteps(coin, exs, debug), debug)
  {
    if exs != [] {
      var init := exs[..|exs| - 1];
      var ex := exs[|exs| - 1];
      ExchangesFacts(coin, init, debug);
      ExchangeStepsTally(coin, ex, debug);
      ExchangeStepsPaced(coin, ex, debug);
      ExchangeStepsConform(coin, ex, debug);
      TallyConcat(ExchangesSteps(coin, init, debug), ExchangeSteps(coin, ex, debug));
      ConcatKeeps(ExchangesSteps(coin, init, debug), ExchangeSteps(coin, ex, debug), debug);
    }
  }

  /** Within a coin's steps: setup, its price load, then exchange `e` in the seven steps from `2 + 7 * e`. */
  lemma CoinExchangeBlocks(coin: string, exs: seq<Exchange>, last: string, debug: bool)
    ensures var s := CoinSteps(coin, exs, last, debug);
            && |s| == 2 + 7 * |exs| + (if coin != last then 1 else 0)
            && s[0] == SetupTables(coin)
            && s[1] == Load(PriceJob(coin, debug))
            && forall e :: 0 <= e < |exs| ==> s[2 + 7 * e .. 9 + 7 * e] == ExchangeSteps(coin, exs[e], debug)
  {
    var s := CoinSteps(coin, exs, last, debug);
    var body := ExchangesSteps(coin, exs, debug);
    ExchangesLength(coin, exs, debug);
    var head := [SetupTables(coin), Load(PriceJob(coin, debug))];
    var tail: seq<Step> := if coin != last then [Sleep(CoinPause)] else [];
    assert s == head + body + tail;
    forall e | 0 <= e < |exs|
      ensures s[2 + 7 * e .. 9 + 7 * e] == ExchangeSteps(coin, exs[e], debug)
    {
      ExchangeBlockAt(coin, exs, debug, e);
      SliceOfMiddle(head, body, tail, 2 + 7 * e, 9 + 7 * e);
    }
  }

  /** A coin's steps end in the 15 s pause exactly when the coin is not the last one. */
  lemma CoinEndsWithPause(coin: string, exs: seq<Exchange>, last: string, debug: bool)
    ensures var s := CoinSteps(coin, exs, last, debug);
            s[|s| - 1] == Sleep(CoinPause) <==> coin != last
  {
    var body := ExchangesSteps(coin, exs, debug);
    if coin == last && exs != [] {
      ExchangeBlockAt(coin, exs, debug, |exs| - 1);
      assert body[|body| - 1] == ExchangeSteps(coin, exs[|exs| - 1], debug)[6];
    }
  }

  lemma CoinFacts(coin: string, exs: seq<Exchange>, last: string, debug: bool)
    ensures var s := CoinSteps(coin, exs, last, debug);
            && Loads(s) == 1 + 3 * |exs|
            && PauseSeconds(s) == 11 * |exs| + (if coin != last then 15 else 0)
            && Preceded(s) && AllConform(s, debug)
  {
    var head := [SetupTables(coin), Load(PriceJob(coin, debug))];
    var body := ExchangesSteps(coin, exs, debug);
    var tail: seq<Step> := if coin != last then [Sleep(CoinPause)] else [];
    assert head[..1][..0] == [];
    assert tail != [] ==> tail[..0] == [];
    TableNameRoundTrip(Price, coin, "");
    ExchangesFacts(coin, exs, debug);
    TallyConcat(head, body);
    TallyConcat(head + body, tail);
    ConcatKeeps(head, body, debug);
    ConcatKeeps(head + body, tail, debug);
  }

  /** The block of coin `i` sits in the plan right after the blocks of the coins before it. */
  lemma CoinBlockAt(coins: seq<string>, exchangesOf: string -> seq<Exchange>, last: string, debug: bool, i: nat)
    requires i < |coins|
    ensures var start := |PlanSteps(coins[..i], exchangesOf, last, debug)|;
            var block := CoinSteps(coins[i], exchangesOf(coins[i]), last, debug);
            var plan := PlanSteps(coins, exchangesOf, last, debug);
            && start + |block| <= |plan|
            && plan[start .. start + |block|] == block
  {
    var f := c => CoinSteps(c, exchangesOf(c), last, debug);
    CoinsAreBlocks(coins, exchangesOf, last, debug, f);
    CoinsAreBlocks(coins[..i], exchangesOf, last, debug, f);
    FlattenBlockAt(coins, f, i);
  }

  /** The total number of exchanges over all coins. */
  function ExchangeCount(coins: seq<string>, exchangesOf: string -> seq<Exchange>): nat {
    if coins == [] then 0
    else ExchangeCount(coins[..|coins| - 1], exchangesOf) + |exchangesOf(coins[|coins| - 1])|
  }

  /** How many listed coins differ from `last`, i.e. get a coin pause. */
  function NotLast(coins: seq<string>, last: string): nat {
    if coins == [] then 0
    else NotLast(coins[..|coins| - 1], last) + (if coins[|coins| - 1] != last then 1 else 0)
  }

  lemma {:induction false} PlanStepsFacts(coins: seq<string>, exchangesOf: string -> seq<Exchange>, last: string, debug: bool)
    ensures var s := PlanSteps(coins, exchangesOf, last, debug);
            && Loads(s) == |coins| + 3 * ExchangeCount(coins, exchangesOf)
            && PauseSeconds(s) == 11 * ExchangeCount(coins, exchangesOf) + 15 * NotLast(coins, last)
            && Preceded(s) && AllConform(s, debug)
  {
    if coins != [] {
      var init := coins[..|coins| - 1];
      var coin := coins[|coins| - 1];
      PlanStepsFacts(init, exchangesOf, last, debug);
      CoinFacts(coin, exchangesOf(coin), last, debug);
      TallyConcat(PlanSteps(init, exchangesOf, last, debug), CoinSteps(coin, exchangesOf(coin), last, debug));
      ConcatKeeps(PlanSteps(init, exchangesOf, last, debug), CoinSteps(coin, exchangesOf(coin), last, debug), debug);
    }
  }

  ghost predicate Distinct(coins: seq<string>) {
    forall i, j :: 0 <= i < j < |coins| ==> coins[i] != coins[j]
  }

  lemma {:induction false} NotLastAbsent(coins: seq<string>, last: string)
    requires last !in coins
    ensures NotLast(coins, last) == |coins|
  {
    if coins != [] {
      NotLastAbsent(coins[..|coins| - 1], last);
    }
  }

  /** With distinct coins, every coin but the last one differs from the last one. */
  lemma NotLastOfDistinct(coins: seq<string>)
    requires Distinct(coins)
    requires coins != []
    ensures NotLast(coins, LastCoin(coins)) == |coins| - 1
  {
    var init := coins[..|coins| - 1];
    var last := LastCoin(coins);
    forall k | 0 <= k < |init|
      ensures init[k] != last
    {
      assert init[k] == coins[k];
    }
    NotLastAbsent(init, last);
  }

  /**
   * With distinct coins the run makes one price load per coin and three
   * loads per exchange, and sleeps 11 s per exchange plus 15 s between
   * consecutive coins; every load is preceded by its pause or setup and shares the run's settings.
   */
  lemma PlanTotals(coins: seq<string>, exchangesOf: string -> seq<Exchange>, debug: bool)
    requires Distinct(coins)
    ensures var plan := Plan(coins, exchangesOf, debug);
            && Loads(plan) == |coins| + 3 * ExchangeCount(coins, exchangesOf)
            && PauseSeconds(plan) == 11 * ExchangeCount(coins, exchangesOf) + (if coins == [] then 0 else 15 * (|coins| - 1))
            && Preceded(plan)
            && AllConform(plan, debug)
  {
    PlanStepsFacts(coins, exchangesOf, LastCoin(coins), debug);
    if coins != [] {
      NotLastOfDistinct(coins);
    }
  }

  /** With distinct coins, the block of coin `i` ends in the 15 s pause exactly when `i` is not the last coin. */
  lemma CoinPauseUnlessLast(coins: seq<string>, exchangesOf: string -> seq<Exchange>, debug: bool, i: nat)
    requires Distinct(coins)
    requires i < |coins|
    ensures var block := CoinSteps(coins[i], exchangesOf(coins[i]), LastCoin(coins), debug);
            block[|block| - 1] == Sleep(CoinPause) <==> i < |coins| - 1
  {
    CoinEndsWithPause(coins[i], exchangesOf(coins[i]), LastCoin(coins), debug);
  }

  /** The plan never ends on a coin pause. */
  lemma NoPauseAtEnd(coins: seq<string>, exchangesOf: string -> seq<Exchange>, debug: bool)
    requires coins != []
    ensures var plan := Plan(coins, exchangesOf, debug);
            |plan| > 0 && plan[|plan| - 1] != Sleep(CoinPause)
  {
    var last := LastCoin(coins);
    CoinEndsWithPause(last, exchangesOf(last), last, debug);
  }

  /**
   * The last-coin test compares names: an earlier occurrence of the last
   * coin's name is not followed by the coin pause either.
   */
  lemma RepeatedLastCoinSkipsPause(coins: seq<string>, exchangesOf: string -> seq<Exchange>, debug: bool, i: nat)
    requires i < |coins| - 1
    requires coins[i] == coins[|coins| - 1]
    ensures var block := CoinSteps(coins[i], exchangesOf(coins[i]), LastCoin(coins), debug);
            block[|block| - 1] != Sleep(CoinPause)
  {
    CoinEndsWithPause(coins[i], exchangesOf(coins[i]), LastCoin(coins), debug);
  }

  /**
   * The script as configured (the four target coins, debug off): one price
   * load per coin and three loads per exchange, 11 s of pacing per exchange
   * plus 45 s between coins, and every load saves all its rows.
   */
  lemma ScriptPlanTotals(exchangesOf: string -> seq<Exchange>)
    ensures var plan := Plan(TargetCoins, exchangesOf, DebugMode);
            && Loads(plan) == 4 + 3 * ExchangeCount(TargetCoins, exchangesOf)
            && PauseSeconds(plan) == 11 * ExchangeCount(TargetCoins, exchangesOf) + 45
            && forall i :: 0 <= i < |plan| && plan[i].Load? ==> plan[i].job.rowLimit == None
  {
    TargetCoinsDistinct();
    PlanTotals(TargetCoins, exchangesOf, DebugMode);
  }

  /** The configured coin list has no repeats, so the pacing lemmas apply to it. */
  lemma TargetCoinsDistinct()
    ensures Distinct(TargetCoins)
  {
  }
}
