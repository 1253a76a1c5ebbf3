# Coinalyze → BigQuery ETL: retry policy and work plan

This project models the two parts of `run_etl.py` whose logic is fully written
out in that script:

- **`fetch_api_data`**: a GET request repeated while the market-data API answers
  HTTP 429. Each retry waits `backoff_factor * 2^attempt + jitter` seconds. Any
  other HTTP error, a transport failure, or a 429 on the last attempt ends the
  call with `[]`. Module `Fetcher` (`fetcher.dfy`) models it as the method
  `FetchApiData`, a `while` loop over attempts. The network is an oracle
  `network: nat -> Response<T>` that gives the response to each attempt. The
  jitter is an oracle `jitter: nat -> real`. Instead of sleeping, the method
  records a trace of `Request(attempt)` and `Wait(seconds)` events. Its
  contract equates the result and the trace with `Expected`. `Expected` is a
  reference run defined through `Terminal`, the first attempt that is not
  retried. The lemmas beside it state the policy's promises: how many calls are
  made, early exit, no wait after the last call, and how the waits grow.
- **the work plan of `main`**: for each coin, table setup and the price load.
  Then, for each exchange, the open-interest, long/short-ratio and funding-rate
  loads, each preceded by a 2 s pause, then a 5 s pause. Then a 15 s pause unless
  the coin is the last one. Module `Orchestrator` (`orchestrator.dfy`) builds
  this as a list of steps `SetupTables(coin) | Load(job) | Sleep(seconds)`. It
  has a method with the source's nested loops (`RunMain`, `RunCoin`,
  `RunExchanges`) and the function `Plan` that the methods are proved equal to.
  A `Job` holds the metric (which fixes the endpoint and the processing
  function), the query parameters, the destination table and the debug row
  limit. The lemmas fix:
  - the table names and that they can be read back;
  - the `symbols` parameter;
  - the ten-day request window;
  - the OI-only `convert_to_usd` flag;
  - the price-series extraction and the debug truncation;
  - the pacing, the step counts and the total pacing sleep.

Module `Text` (`text.dfy`) holds `str.lower()` on ASCII letters, `','.join` and
its inverse `Split`. `Split` is used only to state what the join preserves.
Module `Wrappers` holds `Option`.

## Model

| member | source | states |
|---|---|---|
| `Fetcher.Terminal` | run_etl.py:59-74 | the attempt at which the call stops: every earlier attempt got a 429 and was not the last, and this one is not a retried 429 |
| `Fetcher.FetchApiData` | run_etl.py:55-83 | the loop returns exactly the reference run. The result is the body of the terminal response if it succeeded, else `[]`. The trace is request, backoff wait, … up to the terminal request, and is empty when `retries <= 0` |
| `Fetcher.ExpectedShape` | run_etl.py:59-74 | a call that makes requests makes `k+1` of them (k = terminal attempt), takes `k` waits, wait `i` being the backoff of attempt `i`, and ends on a request |
| `Fetcher.RequestsBounded` | run_etl.py:59-83 | at most `retries` requests. With `retries <= 0`, no request and `[]`, so the final `return []` is reached only then |
| `Fetcher.FirstSuccessReturned` | run_etl.py:61-63 | the first response that passes is the result, and no request follows it |
| `Fetcher.RejectionEndsCall` | run_etl.py:64-74 | a non-429 HTTP error ends the call at that request with `[]`, no retry and no wait after it. At attempt 0 that is exactly one request |
| `Fetcher.TransportEndsCall` | run_etl.py:75-79 | a transport failure ends the call at once with `[]`, with no retry and no wait |
| `Fetcher.ExhaustionEndsCall` | run_etl.py:66-74 | when every attempt gets a 429, the call makes `retries` requests and `retries-1` waits, does not sleep after the last 429, and returns `[]` |
| `Fetcher.WaitsFollowRateLimits` | run_etl.py:66-70 | waits = requests − 1 < `retries`. Every wait follows a 429 on the same attempt and equals `backoff*2^i + jitter(i)` |
| `Fetcher.Backoff` | run_etl.py:67-68 | defines the deterministic part of the wait, `backoff_factor * 2**attempt`. Its doubling is stated by `Fetcher.BackoffGrows` |
| `Fetcher.WaitTime` | run_etl.py:68 | the wait after attempt `n` is its backoff plus that attempt's jitter, so with a jitter in [0,1] it lies between the backoff and one second more |
| `Fetcher.BackoffGrows` | run_etl.py:68 | the deterministic part at least doubles from one attempt to any later one |
| `Fetcher.WaitsBounded` | run_etl.py:68 | with jitter in [0,1], wait `i` lies between `backoff*2^i` and one second more |
| `Fetcher.WaitsNondecreasing` | run_etl.py:66-70 | with a positive backoff and jitter in [0,1], the waits never get shorter |
| `Fetcher.DefaultPolicy` | run_etl.py:55-70 | with the defaults (4 attempts, factor 15) there are 1 to 4 requests and at most 3 waits, in [15,16], [30,31] and [60,61] seconds |
| `Text.Lower` | run_etl.py:112 | the ASCII model of `lower()`: each 'A'..'Z' becomes its lower-case letter and every other character stays, one character for one |
| `Text.Join` | run_etl.py:124 | defines `sep.join(parts)`: the parts in order, one separator between neighbours, `""` for no parts. Its inverse is stated by `Text.SplitJoin` |
| `Text.SplitJoin` | run_etl.py:124 | splitting a comma-join gives back the parts when no part contains a comma |
| `Orchestrator.RunMain` | run_etl.py:107-160 | the outer loop over coins produces exactly `Plan(coins, …)` |
| `Orchestrator.RunCoin` | run_etl.py:108-160 | one outer iteration produces exactly that coin's steps |
| `Orchestrator.RunExchanges` | run_etl.py:121-156 | the loop over the exchange config produces exactly the per-exchange blocks in dict order |
| `Orchestrator.PriceHistory` | run_etl.py:115 | the price series is the `history` list of the first response object when it has one, and `[]` otherwise |
| `Orchestrator.PriceHistoryReadsFirstOnly` | run_etl.py:115 | objects after the first in the price response never change the extracted series |
| `Orchestrator.Head` | run_etl.py:117 | debug truncation keeps a prefix of the rows, of length min(limit, rows), and keeps every row when no limit is set |
| `Orchestrator.Window` | run_etl.py:113 | `to` is the second clock read. The window spans at least the lookback, and exactly the lookback when both reads fall in the same second |
| `Orchestrator.Endpoint` | run_etl.py:27-30 | defines the URL each metric is fetched from, as used at lines 114, 133, 141 and 149 |
| `Orchestrator.EndpointsDistinct` | run_etl.py:27-30 | the four metrics are fetched from four different URLs |
| `Orchestrator.TableName` | run_etl.py:112-148 | defines the four table-name f-strings: `{coin}` lower-cased, then `_{exchange}` lower-cased for the per-exchange tables, then the metric's suffix. Every name ends with its metric's suffix |
| `Orchestrator.Symbols` | run_etl.py:123-124 | defines the `symbols` value: each contract followed by the exchange code, comma-joined in contract order. Its inverse is stated by `Orchestrator.SymbolsRoundTrip` |
| `Orchestrator.PriceParams` | run_etl.py:113 | defines the price request's parameters: `{coin}USDT.6`, the 5-minute interval, the ten-day window, no `convert_to_usd` |
| `Orchestrator.CommonParams` | run_etl.py:124 | defines the per-exchange parameters: the exchange's `symbols`, the 5-minute interval, the ten-day window |
| `Orchestrator.PriceJob` | run_etl.py:112-118 | defines the price load: price parameters, the `{coin}_price_history` table, the debug row limit |
| `Orchestrator.ExchangeJob` | run_etl.py:124-152 | defines an exchange load: the common parameters, plus `convert_to_usd` for open interest only, the metric's table and the debug row limit |
| `Orchestrator.ExchangeJobConforms` | run_etl.py:124-151 | every exchange load uses the 5-minute interval and the ten-day window. It sets `convert_to_usd` exactly when it is the OI load, carries the debug row limit, and its table reads back as its metric |
| `Orchestrator.TableNameRoundTrip` | run_etl.py:112-148 | the metric can be read back from every table name built by the four f-strings |
| `Orchestrator.TableNamesSeparateMetrics` | run_etl.py:132-148 | tables of two different metrics never share a name, whatever the coin and exchange names |
| `Orchestrator.TableNameLowerCase` | run_etl.py:112-148 | every table name is free of upper-case ASCII letters |
| `Orchestrator.TableNameStartsWithCoin` | run_etl.py:112-148 | every table name starts with the lower-cased coin |
| `Orchestrator.SymbolsRoundTrip` | run_etl.py:123-124 | `symbols` lists `contract+code` for every contract, in contract order, one entry per contract |
| `Orchestrator.SymbolsWithoutContracts` | run_etl.py:123 | an exchange without contracts sends the empty `symbols` string |
| `Orchestrator.ExchangeStepsTally` | run_etl.py:130-156 | one exchange makes 3 loads and 11 s of pacing sleep |
| `Orchestrator.ExchangeStepsPaced` | run_etl.py:131-147 | inside an exchange block, each load comes right after a 2 s pause |
| `Orchestrator.ExchangeStepsConform` | run_etl.py:124-151 | each load of an exchange block uses the 5-minute interval and the 10-day window. Only OI sets `convert_to_usd`, the debug limit applies, and the table names its metric |
| `Orchestrator.ExchangeBlockAt` | run_etl.py:121-156 | exchange `e` occupies steps `7e .. 7e+7`: 2 s, OI, 2 s, LSR, 2 s, FR, 5 s |
| `Orchestrator.ExchangesFacts` | run_etl.py:121-156 | the exchanges of a coin make 3 loads and 11 s of pacing sleep each, and every load follows its 2 s pause and conforms |
| `Orchestrator.CoinExchangeBlocks` | run_etl.py:109-156 | a coin's steps start with table setup and the price load, followed by the seven-step block of each exchange |
| `Orchestrator.CoinEndsWithPause` | run_etl.py:158-160 | a coin's steps end with the 15 s pause exactly when the coin differs from the last coin |
| `Orchestrator.CoinFacts` | run_etl.py:107-160 | one coin makes `1 + 3n` loads for `n` exchanges and `11n` s of pacing sleep, plus 15 s unless it is the last coin |
| `Orchestrator.CoinBlockAt` | run_etl.py:107 | coin `i`'s steps sit in the plan right after the steps of the coins before it |
| `Orchestrator.PlanStepsFacts` | run_etl.py:107-160 | load count and total pacing sleep of any coin list, with one 15 s pause per coin that differs from the last |
| `Orchestrator.PlanTotals` | run_etl.py:107-160 | with distinct coins: `coins + 3·exchanges` loads and `11·exchanges + 15·(coins−1)` seconds of pacing sleep. The price load follows its table setup, every other load follows a 2 s pause, and all share the run's settings |
| `Orchestrator.CoinPauseUnlessLast` | run_etl.py:158-160 | with distinct coins, the 15 s pause follows every coin except the last |
| `Orchestrator.NoPauseAtEnd` | run_etl.py:158-160 | the plan never ends on the 15 s coin pause |
| `Orchestrator.RepeatedLastCoinSkipsPause` | run_etl.py:158 | the last-coin test compares names, so an earlier copy of the last coin's name gets no 15 s pause |
| `Orchestrator.ScriptPlanTotals` | run_etl.py:24-26 | for the configured four coins with debug off: `4 + 3·exchanges` loads and `11·exchanges + 45` seconds of pacing sleep, and no load truncates its rows |
| `Orchestrator.TargetCoinsDistinct` | run_etl.py:24 | the configured coin list has no repeats, so the pacing lemmas apply to it |

## Left out

- The bodies of `setup_all_tables`, `save_data_to_bigquery`, `get_exchange_config` and the four `process_*_data_for_bq` functions are not part of this model. Their bodies are elided in the script. Setup appears as a `SetupTables` step. Processing and saving are the contents of a `Load` step. `get_exchange_config` is the parameter `exchangesOf`. No aggregation or merge semantics are modelled.
- `create_table_if_not_exists`: BigQuery DDL, pure I/O.
- HTTP through `requests`, JSON decoding and the BigQuery client are foreign calls. They appear only as oracle outcomes. Which statuses make `raise_for_status()` raise belongs to `requests`. `Ok` stands for "passed and decoded", `Http(status)` for "raised HTTPError". `Transport` stands for every other `RequestException`, a body that does not decode included.
- URL, headers and params of `fetch_api_data`: they are the same on every attempt, so the trace records only the attempt number.
- `time.sleep`, `time.time()` and `random.uniform`: sleeps are trace events or `Sleep` steps. Clock readings are the arguments of `Window`, and jitter is the oracle `jitter`.
- Fetcher.FetchApiData: `backoff_factor` is a float in the script. Here it is a natural number of seconds and waits are exact reals, so float rounding and negative or fractional factors are not modelled.
- Text.Lower: folds only 'A'..'Z', one character for one. Python's `str.lower()` also folds non-ASCII letters and can change the length (`'İ'.lower()` is two code points).
- Orchestrator.PriceHistory: a JSON object is a map from keys to lists. Values of other types under other keys are not represented, since the extraction only asks whether the object is non-empty and reads "history".
- The 429 backoff waits of `fetch_api_data` happen inside a `Load` step. The plan's pacing tally (`PauseSeconds` and the totals built on it) counts only the `Sleep` steps of `main`, not these waits. At the defaults they add up to between 105 and 108 s for a load that gets 429 on all four attempts.
- The order in which `main` calls `get_exchange_config` (after the price load) is not visible in the plan, because the config is a pure parameter.
- Environment-variable checks, every `print`, and the catch-all at run_etl.py:163-164. An exception escaping any step ends the run there, so the work done is a prefix of `Plan`. Which step raises is outside the model.
