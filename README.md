# Crypto dashboard: verified model of the rolling windows and the calculator

The dashboard polls one price API for BTC and ETH quotes in USD and EUR and
shows them three ways. This project models the sequential logic inside the
three views and proves what they promise:

- **Rolling window** (`rolling_window.dfy`): `[...prev, x].slice(-N)`, the
  bounded history both history views keep. `AppendWindow` is one tick;
  `Pushed` is a run of ticks from empty, proved equal to the last N pushes.
- **Live price graph** (`live_price_graph.dfy`): the chart data (time labels
  and one BTC and one ETH line, fifteen points each), the pure updater given
  to the chart's state (`UpdateGraph`), and a `GraphState` class whose `Tick`
  takes the two fetch outcomes and an opaque time label. The chart after any
  run of successful ticks is proved to be the last fifteen samples.
- **Price table** (`price_table.dfy`): two windows of ten samples, the ETH
  sample carrying the ETH price in BTC. A `TableState` class has the tick.
  `RenderTable` gives the rows newest first.
- **Currency calculator** (`currency_calculator.dfy`, `amount_input.dfy`): the
  amount-field pattern `^\d*\.?\d*$` as a left-to-right scanner proved equal
  to a reference predicate; `parseFloat(v) || 0` on accepted values, as exact
  decimals; and a `Calculator` class with the four state fields, the rate
  snapshot, the two amount handlers, the two selection handlers and the
  conversion effect. Its invariant: once prices are loaded, the fiat amount
  is always the crypto amount times the selected rate.
- `price_service.dfy` holds the API's response shapes and the outcome of a
  fetch (a response or a failure); `wrappers.dfy` holds `Option`.

Amounts and prices are exact `real`s. Time stamps are opaque strings passed
to the tick methods. The rate snapshot uses the multi-price response shape
(`MultiQuote` of two `Quote`s) with a `Rate(crypto, fiat)` lookup.

A value the pattern rejects leaves the calculator unchanged, as the code
does; it is not read as zero. At rate 0 the code's inverse conversion
stores 0 when the typed amount reads as zero or as no number (`NaN || 0`)
and `Infinity` for any other amount; the model excludes rate 0 instead, by
requiring every rate of the snapshot to be positive.

## Model

| member | source | states |
|---|---|---|
| RollingWindow.LastN | src/components/LivePriceGraph/index.tsx:104 | `slice(-n)`: the result has min(n, len) elements and element i is element len - min(n, len) + i of the input |
| RollingWindow.AppendWindow | src/components/LivePriceGraph/index.tsx:104 | one tick keeps min(cap, n+1) elements, ends with the new one, keeps the older ones in order, drops nothing while not full and only the oldest when full |
| RollingWindow.AppendWindowNotFull | src/components/LivePriceGraph/index.tsx:104 | while fewer than cap elements are held, a tick only appends |
| RollingWindow.AppendWindowFull | src/components/PriceTable/index.tsx:36 | once cap elements are held, a tick drops exactly the oldest and appends the new one |
| RollingWindow.AppendToLastN | src/components/PriceTable/index.tsx:32-43 | a tick applied to the last cap elements of a run gives the last cap elements of the longer run |
| RollingWindow.PushedIsLastN | src/components/PriceTable/index.tsx:27-47 | after any run of ticks from empty the window is exactly the last min(cap, pushes) pushed elements, in push order |
| AmountInput.AcceptsAmount | src/components/CurrencyCalculator/index.tsx:63 | a value is accepted exactly when it holds only digits and points and no two points |
| AmountInput.AcceptsAmountCorrect | src/components/CurrencyCalculator/index.tsx:63 | the scanner accepts a value exactly when it is digits, or digits, one '.', digits (both directions) |
| AmountInput.ScanFractionCorrect | src/components/CurrencyCalculator/index.tsx:63 | the scan after the point accepts exactly the all-digit strings |
| AmountInput.AcceptsAmountExamples | src/components/CurrencyCalculator/index.tsx:70 | "", ".", "12.34", "12.", ".5" are accepted; "12.34.5", "abc", "-1" are rejected |
| AmountInput.AcceptedShape | src/components/CurrencyCalculator/index.tsx:63-64 | after the leading digits an accepted value has nothing, or a '.' and digits |
| AmountInput.ParseAmount | src/components/CurrencyCalculator/index.tsx:64 | an accepted value reads as no number exactly when it is "" or ".", otherwise as a non-negative decimal |
| AmountInput.AmountOrZero | src/components/CurrencyCalculator/index.tsx:64 | the fallback to 0 of `parseFloat(v) or 0`: "" and "." read as 0, any other accepted value as its decimal value |
| AmountInput.PointedValue | src/components/CurrencyCalculator/index.tsx:64 | digits, a point and digits, with at least one digit, is accepted and reads as its exact decimal value |
| AmountInput.SplitAtPoint | src/components/CurrencyCalculator/index.tsx:63-64 | digits '.' digits is accepted and splits into exactly those integer and fraction digits |
| AmountInput.TrailingPoint | src/components/CurrencyCalculator/index.tsx:64 | "d." reads as the whole number d |
| AmountInput.TrailingZero | src/components/CurrencyCalculator/index.tsx:64 | a zero appended after the point does not change the value |
| AmountInput.WholeAmountRoundTrip | src/components/CurrencyCalculator/index.tsx:64 | a whole number written in decimal is accepted and reads back as itself |
| AmountInput.ParseAmountExamples | src/components/CurrencyCalculator/index.tsx:64 | "12.34" reads as 12.34, ".5" as 0.5, "" and "." as 0 |
| CurrencyCalculator.Convert | src/components/CurrencyCalculator/index.tsx:55 | the fiat amount is the crypto amount priced at the rate: at any nonzero rate dividing it by the rate gives the crypto amount back |
| CurrencyCalculator.ConvertBack | src/components/CurrencyCalculator/index.tsx:72 | at a positive rate the crypto amount a fiat amount buys, priced forward at the same rate, is that fiat amount (the round trip of a fiat edit) |
| CurrencyCalculator.Calculator.CurrentRate | src/components/CurrencyCalculator/index.tsx:53 | the rate is the snapshot's entry for the selected crypto and fiat (`cryptoPrices[inputCurrency][outputCurrency]`), positive when every rate is |
| CurrencyCalculator.Calculator.constructor | src/components/CurrencyCalculator/index.tsx:24-31 | on mount: no prices, loading, no error, BTC to USD, both amounts 0 |
| CurrencyCalculator.Calculator.SyncConvertedAmount | src/components/CurrencyCalculator/index.tsx:51-59 | with prices loaded the fiat amount becomes amount times the selected rate; without them nothing changes |
| CurrencyCalculator.Calculator.PricesFetched | src/components/CurrencyCalculator/index.tsx:35-49 | on success the snapshot is stored and the fiat amount follows; on failure the error message is set and the amounts stay; loading ends either way |
| CurrencyCalculator.Calculator.HandleInputAmountChange | src/components/CurrencyCalculator/index.tsx:61-66 | a rejected value changes nothing; an accepted one sets the crypto amount to its reading (0 for "" and "."); selections and snapshot unchanged; the invariant holds |
| CurrencyCalculator.Calculator.HandleOutputAmountChange | src/components/CurrencyCalculator/index.tsx:68-74 | nothing changes without prices or for a rejected value; otherwise the crypto amount is fiat over rate and the fiat amount recomputed from it is the typed amount |
| CurrencyCalculator.Calculator.HandleCurrencyChange | src/components/CurrencyCalculator/index.tsx:76-78 | only the crypto selection changes; the crypto amount is kept and the fiat amount is recomputed at the new rate |
| CurrencyCalculator.Calculator.HandleOutputCurrencyChange | src/components/CurrencyCalculator/index.tsx:80-82 | only the fiat selection changes; the crypto amount is kept and the fiat amount is recomputed at the new rate |
| CurrencyCalculator.ConvertOneBitcoin | src/components/CurrencyCalculator/index.tsx:51-74 | with BTC at 65000 USD, typing "1" shows 65000 and typing "65000" in the fiat field shows 1 |
| LivePriceGraph.UpdateGraph | src/components/LivePriceGraph/index.tsx:103-119 | labels get the new time in a window of 15; the dataset list keeps order, length, names and colours; the BTC and ETH lines get their prices; any other line is unchanged |
| LivePriceGraph.InitialGraphData | src/components/LivePriceGraph/index.tsx:73-89 | the chart on mount is the chart of no samples: no labels, an empty BTC line first and an empty ETH line second |
| LivePriceGraph.UpdateDataset | src/components/LivePriceGraph/index.tsx:105-118 | label and colours are kept; the BTC line takes the BTC price and the ETH line the ETH price into a window of 15; any other line is returned unchanged |
| LivePriceGraph.UpdateBtcLine | src/components/LivePriceGraph/index.tsx:106-110 | the BTC line of the chart of a run, updated, is the BTC line of the chart of the longer run |
| LivePriceGraph.UpdateEthLine | src/components/LivePriceGraph/index.tsx:111-115 | the ETH line of the chart of a run, updated, is the ETH line of the chart of the longer run |
| LivePriceGraph.UpdateChartOf | src/components/LivePriceGraph/index.tsx:103-119 | one update turns the chart of a run of samples into the chart of that run plus the new sample |
| LivePriceGraph.GraphAfterShowsLastSamples | src/components/LivePriceGraph/index.tsx:73-119 | from the initial chart, any run of ticks gives labels, BTC line and ETH line equal to the last 15 times and prices, with the initial names and colours |
| LivePriceGraph.ChartAligned | src/components/LivePriceGraph/index.tsx:73-119 | from the initial chart the labels and both lines have equal length min(15, ticks) and end with the last tick's time and prices |
| LivePriceGraph.GraphState.constructor | src/components/LivePriceGraph/index.tsx:73-91 | on mount the chart is the initial one and both current prices are 0 |
| LivePriceGraph.GraphState.Tick | src/components/LivePriceGraph/index.tsx:94-123 | if either fetch fails nothing changes; otherwise the chart is updated and the current prices equal the values just appended |
| PriceTable.BtcSample | src/components/PriceTable/index.tsx:32-36 | the BTC sample carries the tick's time and the fetched USD and EUR prices, and no BTC price |
| PriceTable.EthSample | src/components/PriceTable/index.tsx:38-43 | the ETH sample carries the tick's time and the fetched USD and EUR prices, and a BTC price that times the BTC USD price is the ETH USD price |
| PriceTable.TickKeepsPaired | src/components/PriceTable/index.tsx:32-43 | a tick keeps both windows equally long (at most 10) and index-paired, BTC samples without a BTC price and each ETH sample's BTC price its USD price over the paired BTC USD price |
| PriceTable.NewestFirst | src/components/PriceTable/index.tsx:67 | the reversed copy has the same length and row i is element len-1-i |
| PriceTable.NewestFirstInvolutive | src/components/PriceTable/index.tsx:67 | reversing the reversed copy gives the stored order back |
| PriceTable.RowOf | src/components/PriceTable/index.tsx:68-75 | a row shows the sample's time, USD and EUR prices; no BTC cell when the column is hidden, otherwise a blank cell exactly when the sample has no BTC price and that price when it has one |
| PriceTable.RenderTable | src/components/PriceTable/index.tsx:67-74 | one row per stored sample, row i showing sample len-1-i, with a BTC cell only in the table that shows that column |
| PriceTable.FirstRowIsNewest | src/components/PriceTable/index.tsx:67 | after a tick the first row shows the sample just taken |
| PriceTable.TableState.constructor | src/components/PriceTable/index.tsx:24-25 | on mount both windows are empty |
| PriceTable.TableState.FetchLatestPrices | src/components/PriceTable/index.tsx:27-47 | if either fetch fails both windows are unchanged; otherwise each window takes its new sample and the two stay paired |
| PriceTable.TableState.BtcRows | src/components/PriceTable/index.tsx:93 | the BTC table has one row per sample, newest first (row i renders sample len-1-i), and no BTC column |
| PriceTable.TableState.EthRows | src/components/PriceTable/index.tsx:104 | the ETH table has one row per sample, newest first (row i renders sample len-1-i), each showing that sample's BTC price |

## Left out

- The HTTP client (`src/services/cryptoService.ts`): a fetch is only its outcome, a response or a failure, passed to the tick methods. The error message of the multi-price fetch is kept as a constant.
- `setInterval`, `clearInterval`, effect scheduling, mount and unmount: these are timers and framework lifecycle. This includes the table's extra fetch on mount. The code has no poller state beyond these `setInterval`/`clearInterval` calls.
- The order of the two awaited fetches: when the BTC fetch fails the ETH fetch never starts, and the model ignores the ETH outcome in that case.
- Dates: `new Date()`, `toLocaleTimeString` and `toISOString` are opaque strings passed to the ticks. The table's two samples get two separate time parameters, because the code calls `new Date()` twice.
- Floating point: `parseFloat` rounding and overflow to `Infinity`, `NaN`, and `toFixed(2)` / `toFixed(5)` display rounding. The crypto amount is never `NaN` in the model, so the `isNaN` guard of the conversion effect always passes.
- CurrencyCalculator.Calculator.HandleOutputAmountChange: requires positive rates (through `Valid`). At rate 0 the code stores `Infinity` for a nonzero fiat amount.
- PriceTable.TableState.FetchLatestPrices: requires a positive BTC USD price, because the ETH sample divides by it.
- RollingWindow.AppendWindow: requires a positive capacity. `slice(-0)` keeps the whole array, but the code only uses 15 and 10.
- Effect timing: the model runs the conversion effect right after each handler. React runs it only when a dependency changed, which gives the same state because the recomputation is idempotent.
- `setLoading(true)` before the mount fetch is not modelled, because `loading` is already true on mount.
- The selection handlers take a `Crypto` or `Fiat` value. The model trusts the `as CurrencyType` cast, since the menus offer only those values.
- Presentation: chart options and registration, MUI layout and JSX, the loading and error screens, row keys, and `src/App.tsx`. `src/types/index.tsx` holds type declarations only.
