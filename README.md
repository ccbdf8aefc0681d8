# Stock watchlist engine

A Dafny model of the watchlist engine in `streamlit_app.py`. This is the part of
the dashboard that has rules of its own:

- **Watchlist.** Each user's watchlist is an insertion-ordered dict from ticker to record.
  - `add_ticker` writes a fresh record under the ticker. It always overwrites and never merges.
  - `delete_ticker` deletes one key.
- **Quote lookup.** `fnYFinJSON` reads one field from an already-parsed quote response. It returns a sentinel string when the ticker is empty or the field is missing.
  - The company name falls back from `displayName` to `shortName`.
- **Highlight.** `targetHighlight` colours a table row: buy band first, then sell band, otherwise no style.
- **Alerts.** `checkAlerts` selects buy alerts (`Buy Target > Price`) and sell alerts (`Sell Target < Price`), in row order, and computes each alert's percentage.
- **Sheet reshaping.**
  - `insert` flattens a frame into a header row plus data rows.
  - `collect` reads the first row back as column labels.
  - `cleanDF` converts the five numeric columns.

Modules:

- `Common` (`common.dfy`): `Option`, `Result`, `Outcome`, and `Cell`. A `Cell` is a string, a number, or the missing value.
- `Quote` (`quote.dfy`): the field lookup and the name fallback.
- `Watchlist` (`watchlist.dfy`):
  - the dict as a value (`Book`: key order plus entries), with the functions `Put` and `Remove` that specify it;
  - the class `Watchlist`, whose methods `AddTicker` and `DeleteTicker` change the dict in place;
  - `TableRows`, the table built from the dict at line 384.
- `Highlight` (`highlight.dfy`): `targetHighlight`.
- `Alerts` (`alerts.dfy`): the alert selection and the loops that compute the percentages.
- `Sheet` (`sheet.dfy`): `insert`/`collect` reshaping and the `cleanDF` loop.

Behaviour of the code that the model keeps, including the cases a reader might not expect:

- Alerts compare strictly, with no tolerance band. The sell side does not check that a target is set. A row with `Sell Target = 0` and a positive price is therefore a sell alert, and its percentage divides by zero. The model shows this as `DivisionByZero` (`Alerts.ZeroSellTargetAlerts`). Only the highlight uses the tolerance and the `> 0` checks.
- An empty watchlist makes `checkAlerts` raise. Once the last ticker is deleted, the table built at line 384 has only the column `index`, so `df['Buy Target']` raises `KeyError` on every rerun. The save at lines 400-404 is then never reached. The model returns `Err(KeyError("Buy Target"))` (`Alerts.CheckAlerts`).
- Deleting a ticker that is not in the dict raises `KeyError`. The model returns `Fail(KeyError(t))` and leaves the dict unchanged.
- Buy and sell targets are only passed through `float()`. Negative targets are accepted. `AddTicker` fails only when the text is not a float.
- A missing company name is stored as the sentinel `"N/A"`. With an empty ticker it is `"enter a ticker"`. The record is still stored, under the key `""`.
- `collect` pads ragged rows with missing values, as `pd.DataFrame` does.

Inputs to the model:

- The quote response, the clock reading (`now`) and pandas' number parser (`parse`) are parameters.
- Prices are `real`s.

## Model

| member | source | states |
|---|---|---|
| Quote.FieldValue | streamlit_app.py:162-181 | an empty ticker gives "enter a ticker"; a missing result list, an empty one, or a first result without the field gives "N/A"; otherwise the field's value from the first result |
| Quote.FieldValueSource | streamlit_app.py:174-181 | every lookup is one of the two sentinels or a value taken from the first result |
| Quote.CompanyName | streamlit_app.py:232-234 | the name is the `displayName` lookup unless that lookup is "N/A", in which case it is the `shortName` lookup |
| Quote.EmptyTickerName | streamlit_app.py:162-164 | with an empty ticker the stored name is "enter a ticker" |
| Quote.CompanyNameCases | streamlit_app.py:232-234 | a display name other than "N/A" wins; otherwise a present short name is used; with neither, the name is "N/A" |
| Watchlist.NewRecord | streamlit_app.py:232-240 | the record has exactly the eight columns: the fallback name; the `regularMarketPrice`, `regularMarketChange`, `regularMarketChangePercent` and `currency` lookups as Price, Price Change, % Change and Currency; the submitted targets as numbers; and the clock reading |
| Watchlist.PutSpec | streamlit_app.py:240 | after the write the ticker maps to the new record, every other ticker keeps its record, a present ticker keeps its position, a new ticker goes last, and keys stay unique |
| Watchlist.AddOverwrites | streamlit_app.py:228-240 | the stored record keeps no field of the old one (its columns are exactly the eight) and holds the submitted buy and sell targets |
| Watchlist.RemoveSpec | streamlit_app.py:292-294 | delete removes exactly the ticker: it is gone, every other record is unchanged, the other keys keep their order, and there is one key fewer |
| Watchlist.PutRemoveRoundTrip | streamlit_app.py:292-294 | adding a new ticker and then deleting it gives back the same dict |
| Watchlist.RemovePutMovesLast | streamlit_app.py:240 | deleting and re-adding a ticker moves it to the end of the order with the new record |
| Watchlist.TableRows | streamlit_app.py:384 | the table has one row per key, in dict order, carrying that key's price and targets |
| Watchlist.PutNewRowLast | streamlit_app.py:384 | after adding a new ticker the table is the old table plus the new row at the end |
| Watchlist.PutExistingRowInPlace | streamlit_app.py:384 | re-adding a present ticker replaces its row at the same position and changes no other row |
| Watchlist.Watchlist.constructor | streamlit_app.py:362-367 | a watchlist starts as the loaded dict |
| Watchlist.Watchlist.AddTicker | streamlit_app.py:228-240 | an unparsable buy target, then an unparsable sell target, fails with nothing changed; otherwise the dict becomes `Put` of the new record and stays well formed |
| Watchlist.Watchlist.DeleteTicker | streamlit_app.py:292-294 | an absent ticker fails with KeyError and nothing changed; otherwise the dict becomes `Remove` of the ticker and stays well formed |
| Highlight.Classify | streamlit_app.py:248-253 | buy style iff buy target > 0 and price <= target*(1+buy%/100); sell style iff not buy and sell target > 0 and price >= target*(1-sell%/100); otherwise none |
| Highlight.TargetHighlight | streamlit_app.py:242-253 | the result has `numCols` entries, all the style of the row's class |
| Highlight.BuyPrecedence | streamlit_app.py:248-251 | a row in both bands gets the buy style in every cell |
| Highlight.NoBuyTargetNoBuyStyle | streamlit_app.py:248 | a row whose buy target is not positive never gets the buy style |
| Highlight.ZeroBuyTolerance | streamlit_app.py:248 | with 0% tolerance a row with a buy target is in the buy band iff its price is at most the target |
| Highlight.ZeroSellTolerance | streamlit_app.py:250 | with 0% tolerance a row with a sell target, outside the buy band, gets the sell style iff its price is at least the target |
| Highlight.BuyBandMonotone | streamlit_app.py:248 | widening the buy tolerance keeps every row already in the buy band |
| Highlight.SellBandMonotone | streamlit_app.py:250 | widening the sell tolerance keeps every row already in the sell band |
| Highlight.BuyAlertIsHighlighted | streamlit_app.py:248-259 | a buy alert with a positive target gets the buy style for any non-negative tolerance |
| Highlight.SellAlertIsHighlighted | streamlit_app.py:248-263 | a sell alert with a positive target gets a buy or sell style for any non-negative sell tolerance |
| Alerts.BuyAlertsMembers | streamlit_app.py:259 | a row is a buy alert iff it is in the table and its buy target is strictly above its price |
| Alerts.SellAlertsMembers | streamlit_app.py:263 | a row is a sell alert iff it is in the table and its sell target is strictly below its price |
| Alerts.BuyAlertsAppend | streamlit_app.py:259-260 | the buy selection distributes over concatenation, so it keeps row order |
| Alerts.SellAlertsAppend | streamlit_app.py:263-264 | the sell selection distributes over concatenation, so it keeps row order |
| Alerts.InBothLists | streamlit_app.py:259-263 | a row is in both lists iff its price lies strictly between its sell and buy targets |
| Alerts.SellPercentPositive | streamlit_app.py:279 | for a sell alert with a positive target, `price/sellTarget - 1` is a positive ratio |
| Alerts.BuyPercentPositive | streamlit_app.py:288 | for a buy alert with a positive target, `-(price/buyTarget - 1)` is a positive ratio |
| Alerts.BuyAlertOnPricedRow | streamlit_app.py:288 | a buy alert on a non-negative price cannot have a zero target, and its percentage is positive |
| Alerts.ZeroSellTargetAlerts | streamlit_app.py:263-279 | a row with sell target 0 and a positive price is a sell alert whose percentage divides by zero |
| Alerts.SellAlertLines | streamlit_app.py:276-280 | one alert per selected sell row, in order, each with ticker, price, sell target and `price/sellTarget - 1` |
| Alerts.BuyAlertLines | streamlit_app.py:285-289 | one alert per selected buy row, in order, each with ticker, price, buy target and `-(price/buyTarget - 1)` |
| Alerts.BuyLinesPositive | streamlit_app.py:285-289 | on a table of non-negative prices every buy alert line reports a positive percentage |
| Alerts.SellLinesPositive | streamlit_app.py:276-280 | on a table whose sell targets are all positive every sell alert line reports a positive percentage |
| Alerts.NewTickerAlertsLast | streamlit_app.py:384 | adding a new ticker leaves the earlier alerts as they were and puts the new ticker's alerts last |
| Alerts.CheckAlerts | streamlit_app.py:255-289 | an empty dict fails with `KeyError("Buy Target")`, and only an empty one; otherwise it gives one sell line per sell alert and one buy line per buy alert, in row order |
| Sheet.InsertBody | streamlit_app.py:65 | the body is the header row followed by the data rows, in order |
| Sheet.Width | streamlit_app.py:54 | the width pandas gives the frame is the length of the longest row |
| Sheet.Pad | streamlit_app.py:54 | a short row keeps its cells and is filled with missing values to the width |
| Sheet.Collect | streamlit_app.py:54-56 | an empty range fails; any other body gives a frame |
| Sheet.CollectShape | streamlit_app.py:54-56 | the frame read back is rectangular, has one row fewer than the body, and keeps every cell of the body in place |
| Sheet.InsertCollectRoundTrip | streamlit_app.py:54-65 | reading back the body `insert` writes gives the same column labels and the same rows in the same order |
| Sheet.CollectInsertRoundTrip | streamlit_app.py:54-65 | writing back a rectangular body that was read gives the same body |
| Sheet.ToNumeric | streamlit_app.py:203 | a converted cell is never text; numbers and missing values are unchanged; the empty string becomes the missing value; other text converts iff `parse` reads it, to that number |
| Sheet.ToNumericIdempotent | streamlit_app.py:203 | converting a converted cell again changes nothing |
| Sheet.ConvertColumn | streamlit_app.py:203 | the column converts iff every cell converts, and then only that column changes, cell by cell |
| Sheet.CleanDF | streamlit_app.py:199-204 | succeeds iff each of the five names is absent or is one column whose cells all convert; then only those columns change, and the labels and row count stay; otherwise it fails naming the first failing column, `DuplicateColumn` exactly when the label repeats |

## Left out

- Google Sheets I/O is not modelled: `connect`, the RPC calls in `collect`, `insert` and `clear`, `addTab` and `sheetNames`. These are foreign client calls; only the reshaping on either side is modelled.
- `grabSavedList` is not modelled: its tenant check, and the `set_index('index')` / `to_dict('index')` that turn a loaded frame into the dict. The `Watchlist` constructor takes the resulting dict.
- Building a DataFrame from the dict (line 384) is only partly modelled: the union of columns and NaN filling are left out. `TableRows` keeps only the ticker and the three compared columns.
  - `TableRows` requires that those column values are numbers. A record whose price is the text "N/A" makes the pandas comparison raise, and that failure is not modelled.
- The Yahoo network code is not modelled: `get_crumbs_and_cookies`, `fnYFinHist`, and the `urlopen`/`json.loads` and HTTP status handling in `fnYFinJSON` (a non-200 answer leaves `data` unbound). This is network I/O and HTML scraping. The lookup takes the parsed response as a parameter.
- Quote fetches: `add_ticker` fetches the quote once per field. The model reads all six fields from one response.
- `convert_to_unix` and the `pct_change` returns are not modelled; both depend on library date, timezone and float behaviour.
- Streamlit is not modelled: session state, widgets, `st.cache` memoization in `grabPricing`/`grabPricingAll`, `updateDate`, the alert markdown/HTML text, the Excel export, charts, the admin and compare views, and the `currencyMap` lookup. The clock reading that `add_ticker` stores is the parameter `now`.
- Numbers: floats are `real`s with no rounding, NaN or infinity.
  - `float()` on the target text is the `Option<real>` inputs of `AddTicker`; `None` stands for text that raises `ValueError`.
  - The parser `pd.to_numeric` uses for text cells is the parameter `parse`.
- Alerts.SellPercent: a zero target gives `DivisionByZero`. The model does not say whether Python gives infinity (numpy scalars) or `ZeroDivisionError`.
- Alerts.SellAlertLines: the loop looks each alert row up again by ticker (`.loc[ticker]`, lines 277-278). The model reads the selected row directly. Both give the same row because the dict keys are unique.
- Alerts.BuyAlertLines: the same simplification of the `.loc[ticker]` lookups at lines 286-287.
- Sheet.CleanDF: the source converts the frame in place. When a later column fails, the caller's frame keeps the conversions already made. The model returns a new frame on success and only an error on failure.
