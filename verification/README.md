# Stock screener: a Dafny model of its publishing rules

The stock screener keeps a list of NSE tickers and publishes one row per ticker
to a Google sheet. The row holds basic figures, eight price-change percentages,
and thirteen quarters of EPS, sales and net profit scraped from screener.in.
Underneath the GUI, the threads and the network calls are small sequential
rules, and this project models them as pure functions over immutable data:

- **Scheduler** (`scheduler.dfy`) covers several rules.
  - The market-hours tests.
  - The publish decision of `update_sheet`: live update, end-of-day snapshot, forced fallback, or skip, plus the end-of-day flag it leaves.
  - The service loop: a publish attempt every 300 s on the local clock, and a quarterly refresh at 13:30 IST at most once per day.
  - Clocks are inputs. An IST instant is a day ordinal plus a time of day with microseconds. The local clock is a count of microseconds.
- **Scraper** (`scraper.dfy`) reads the quarterly table of a company page.
  - Each page attempt arrives as a `Page`: failed, no section, no table, or a table of cell texts.
  - It models the label matching, the "last matching row wins" scan, the carry-over between the consolidated and standalone pages, and the early exit.
  - It also models truncation to 13 quarters, the zero defaults, and the header lookup.
- **Fundamentals** (`fundamentals.dfy`) is the quarterly refresh over all tickers.
  - The quarter labels are settled once and are never empty afterwards.
  - Each ticker's lists are written to the cache. A missing sales row leaves the entry untouched.
- **Prices** (`prices.dfy`) holds the eight price-change columns computed from a series of closes.
- **Publisher** (`publisher.dfy`) builds the rest of the sheet write.
  - The header row.
  - Division by 100 of row indices 8 to 19.
  - The A1 range of the block and the number-format ranges.
- **A1** (`a1.dfy`) covers column names in bijective base 26 and their inverse, and cell and range texts with their parser.
- **Normalize** (`normalize.dfy`) models `clean_to_float` and `sanitize`.
  - It includes a model of Python's `float()` on plain decimals and `round(x, 2)` on exact reals.
  - It introduces the `Cell` type for sheet values.
- **Tickers** (`tickers.dfy`) models adding and removing watch-list entries.
- **Text** and **Wrappers** hold the ASCII string helpers and `Option`.

Behaviours of the code worth knowing, each stated by the member named:

- The end-of-day flag and the date of the last quarterly refresh are fields of the application object. They are not reset when the service is stopped and started again (`Scheduler.RestartAfterSnapshot`).
- A published row is not guaranteed to have 12 + 8 + 3·13 cells.
  - Cached quarterly lists can be shorter than 13 or empty.
  - The error row of `get_financial_data` has 45 cells.
  - So the model keeps rows as plain sequences and states no row-length invariant.
- Row index 8 is the "52W Low" price. It is divided by 100 like the percentage columns (`Publisher.PercentColumnsNamed`, `Publisher.ScaleRowChanges`).
- With a single bar of history, the 5D, 1M, 3M, 6M and 1Y columns, and YTD when that bar falls in the current year, compare the bar with itself and so show 0 for a non-zero close rather than 'N/A'; 1D and 3Y are 'N/A' (`Prices.PriceChangeReferences`).
- A missing EPS or net-profit row is published as zeros, one per sales value up to 13, not as missing values (`Scraper.RowOrZeros`).
- The quarter labels of a refresh come from the first ticker's pages alone, or the fixed defaults when those offer none; later tickers are never asked (`Fundamentals.RefreshAll`).

## Model

| member | source | states |
|---|---|---|
| Scheduler.IsMarketOpen | stock_screener_stablev2.py:236-241 | the market is open exactly on weekdays from 09:15:00.000000 to 15:30:00.000000 inclusive, measured in microseconds since midnight |
| Scheduler.IsMarketClosedExactly | stock_screener_stablev2.py:243-246 | the closing test holds exactly on weekdays during the minute from 15:30:00.000000, the 60 000 000 microseconds before 15:31 |
| Scheduler.TimeLeIsMicros | stock_screener_stablev2.py:241 | Python's field-by-field ordering of times agrees with microseconds since midnight |
| Scheduler.Decide | stock_screener_stablev2.py:674-687 | the four branches of the decision in order and the flag each leaves; a snapshot happens only strictly after 15:30:00.000000 within the 15:30 minute of a weekday with the flag clear; weekends never change the flag; the decision is skip exactly when no branch applies |
| Scheduler.StepTick | stock_screener_stablev2.py:218-232 | `update_sheet` is called iff at least 300 s passed since the last call, and the timer is reset on every call, even one that skips; a call leaves the end-of-day flag its decision leaves and no call leaves it alone; the loop never publishes as a fallback; the refresh fires iff the IST time is 13:30 and the day is later than the last refresh day |
| Scheduler.RefreshDue | stock_screener_stablev2.py:225-230 | the refresh is due exactly in the IST minute from 13:30:00.000000, on a day later than the last refresh day or when there has been none |
| Scheduler.Start | stock_screener_stablev2.py:210-216 | start-up always refreshes and records that day, then publishes with force, which never skips and leaves the end-of-day flag as that forced update_sheet call sets it (:677-682), then starts the timer |
| Scheduler.RestartAfterSnapshot | stock_screener_stablev2.py:33-36 | the end-of-day flag outlives a stop and a start: a restart within the closing minute publishes only as a fallback and keeps the flag |
| Scheduler.Run | stock_screener_stablev2.py:218-234 | the loop's trace is the sequence of successive passes, each starting from the state the previous one left |
| Scheduler.TimerHeld | stock_screener_stablev2.py:221-223 | between two calls the timer holds the earlier call's local time |
| Scheduler.CallsSpaced | stock_screener_stablev2.py:221-223 | two successive `update_sheet` calls of the loop are at least 300 s apart on the local clock |
| Scheduler.RefreshDayKept | stock_screener_stablev2.py:225-228 | once recorded, the last refresh day never decreases or disappears |
| Scheduler.RefreshDaysIncrease | stock_screener_stablev2.py:225-232 | scheduled refreshes fall on strictly increasing IST days, so at most one per day, whatever the clock does |
| Scheduler.NoRefreshOnStartDay | stock_screener_stablev2.py:210-232 | after the start-up refresh, the loop refreshes only on a later day |
| Scheduler.EodFlagHeld | stock_screener_stablev2.py:679-684 | after a snapshot the flag stays set until a live update |
| Scheduler.LiveBetweenSnapshots | stock_screener_stablev2.py:679-684 | between two end-of-day snapshots there is a live update |
| Scheduler.OneSnapshotPerDay | stock_screener_stablev2.py:236-246 | with an IST clock that never runs backwards, two snapshots fall on different days |
| Scraper.LabelMatches | stock_screener_stablev2.py:345-355 | sales rows name "sales" or "revenue"; EPS rows name both "eps" and "in rs"; net-profit rows name both "net" and "profit"; the site's own labels are checked by LabelMatchesExamples |
| Scraper.LabelMatchesExamples | stock_screener_stablev2.py:343-355 | "Sales +", " EPS in Rs" and "Net Profit +" name their rows once stripped and lower-cased; a bare "EPS" names no EPS row |
| Scraper.ScanRow | stock_screener_stablev2.py:337-355 | a row with cells takes, for every kind its stripped lower-cased label names, the cells after the label; a row may match several kinds; other kinds keep their earlier row |
| Scraper.ScanRows | stock_screener_stablev2.py:337-355 | after all rows, each kind holds either what earlier pages found or the cells after the label of one of this table's rows naming it |
| Scraper.ScanLastMatch | stock_screener_stablev2.py:337-355 | the last matching row of a table wins, since the row loop has no break |
| Scraper.ScanNoMatch | stock_screener_stablev2.py:297-355 | a table without a matching row keeps the row found on an earlier page |
| Scraper.ScanRowsResult | stock_screener_stablev2.py:337-355 | the result for a kind is the last matching row when one exists and the carried-over row otherwise; any match implies a last match |
| Scraper.LastMatchExists | stock_screener_stablev2.py:337-355 | a table with a matching row has a last matching row |
| Scraper.ScanPages | stock_screener_stablev2.py:312-360 | pages that fail, lack a section or table, or have no rows change nothing |
| Scraper.SalesFromLastRow | stock_screener_stablev2.py:337-380 | the sales list is read from the consolidated table's last sales row |
| Scraper.RowsCarryAcrossPages | stock_screener_stablev2.py:297-358 | an EPS row found on the consolidated page is kept and used with the sales row of the standalone page when the first has no sales row and the second no EPS row |
| Scraper.FailedFirstPageFallsThrough | stock_screener_stablev2.py:312-335 | a consolidated page that fails, lacks the section or table, or has no rows leaves the result to the standalone page alone |
| Scraper.ParseCells | stock_screener_stablev2.py:375-381 | at most 13 values, each the cleaned parse of the stripped cell text, in order |
| Scraper.RowOrZeros | stock_screener_stablev2.py:367-400 | a missing or empty EPS or profit row becomes min(13, number of sales cells) zeros; otherwise the row is parsed |
| Scraper.Extract | stock_screener_stablev2.py:363-402 | missing sales gives the two-element result; otherwise sales has min(13, n) values, the other lists at most 13, and defaulted lists match the sales length |
| Scraper.GetQuarterlyData | stock_screener_stablev2.py:283-415 | an error escaping the page loop gives three empty lists; no sales or revenue row on either page gives the two-element result; a consolidated table whose sales row has values decides alone; three lists always hold 1 to 13 sales values |
| Scraper.HeaderCells | stock_screener_stablev2.py:458-468 | a page offers headers iff it has a table whose thead has more than one th, and then offers every th after the first, stripped |
| Scraper.FirstHeaders | stock_screener_stablev2.py:438-478 | the first page offering headers decides; the result is empty iff no page offers any |
| Scraper.GetQuarterlyHeaders | stock_screener_stablev2.py:417-482 | the standalone page first, then the consolidated one; an escaping error gives [] |
| Fundamentals.HeadersOrDefault | stock_screener_stablev2.py:636-643 | fetched labels are kept when non-empty and replaced by the fixed 13 labels otherwise; the result is never empty |
| Fundamentals.RefreshAll | stock_screener_stablev2.py:626-664 | after the first ticker the labels are never empty and are the first ticker's headers or the default; with no tickers they stay [] and the cache is untouched; the cache is the ordered store of every ticker's result |
| Fundamentals.LastStoreWins | stock_screener_stablev2.py:650-654 | a ticker's entry is what its last storing fetch produced |
| Fundamentals.UnstoredKept | stock_screener_stablev2.py:648-661 | a ticker with no storing fetch keeps its old entry or stays absent |
| Fundamentals.StoreAllKeys | stock_screener_stablev2.py:650-654 | the refresh only adds keys, and only keys of listed tickers |
| Prices.BackIndex | stock_screener_stablev2.py:524-554 | the reference bar k days back is always a real bar: n-1-k when the history is long enough, the oldest otherwise |
| Prices.PercentChange | stock_screener_stablev2.py:519-579 | a zero reference gives 'N/A'; otherwise the change is rounded to two decimals and is within 0.005 of the exact percentage |
| Prices.FirstOnOrAfter | stock_screener_stablev2.py:556-560 | the YTD reference is the first bar dated on or after 1 January, and none exists only when every bar is older |
| Prices.PriceChanges | stock_screener_stablev2.py:504-585 | eight cells on every path; an error or empty history gives eight 'N/A'; one bar gives 'N/A' for 1D and 3Y |
| Prices.PriceChangeReferences | stock_screener_stablev2.py:516-579 | each column is 'N/A' iff its reference close is 0, and otherwise the percentage change from it within 0.005; the reference is bar n-2 for 1D (n ≥ 2), bar n-1-k for k = 5, 21, 63, 126, 252 when n > k and bar 0 otherwise, the first bar dated in the year for YTD ('N/A' when none is), and bar 0 for 3Y when n > 5 |
| Prices.FlatHistory | stock_screener_stablev2.py:516-579 | constant non-zero closes give 0 or 'N/A' in every column |
| Prices.PercentChangeNonNegative | stock_screener_stablev2.py:519-521 | a reference no higher than the current close gives a non-negative change |
| Prices.NoLossAtPeak | stock_screener_stablev2.py:516-579 | positive closes with the latest the highest give no negative column |
| Publisher.CreateFullHeaders | stock_screener_stablev2.py:484-502 | 20 + 3·q headers: the basic and price-change headers, then each label with " EPS", " Sales" and " Profit" in label order |
| Publisher.QuarterLabelsRoundTrip | stock_screener_stablev2.py:484-502 | the quarter labels can be read back from the header row |
| Publisher.CreateFullHeadersInjective | stock_screener_stablev2.py:484-502 | different label lists give different header rows |
| Publisher.PercentColumnsNamed | stock_screener_stablev2.py:708-723 | the scaled indices 8..19 sit under "52W Low", "Dividend Yield", the two growth rates and the eight price changes |
| Publisher.ScaleCell | stock_screener_stablev2.py:725-733 | a number is divided by 100; 'N/A' and empty cells are kept; another string becomes its float() value over 100, or is kept when float() rejects it |
| Publisher.ScaleCellSeparated | stock_screener_stablev2.py:728-732 | "\x1c5" is kept, because float() raises on it, while " 5" becomes 0.05 |
| Publisher.ScaleRow | stock_screener_stablev2.py:725-734 | same length; indices 8..19 scaled, every other cell unchanged |
| Publisher.ScaleRowChanges | stock_screener_stablev2.py:725-734 | a cell changes iff it is in columns 8..19 and holds a non-zero number or a string float() reads |
| Publisher.ScaleRowInverse | stock_screener_stablev2.py:725-734 | multiplying a scaled number by 100 gives the original |
| Publisher.ScaleRows | stock_screener_stablev2.py:725-734 | one scaled row per input row, in order |
| Publisher.PublishQuarterHeaders | stock_screener_stablev2.py:690-704 | with at least one ticker the labels used are never empty: stored ones, else the first ticker's headers, else the default; with no tickers the stored labels are used as they are |
| Publisher.FormatColumnsInOrder | stock_screener_stablev2.py:751-770 | formats are set for header indices 2 through 19, once each, in order |
| Publisher.DataRange | stock_screener_stablev2.py:736-745 | the range text reads back as C2 through the column of the last header and the row of the last data row |
| Publisher.FormatRange | stock_screener_stablev2.py:773-780 | a format range reads back as rows 3 through the last data row of sheet column index + 2 |
| Publisher.PlanWrite | stock_screener_stablev2.py:706-782 | the write is the header row followed by the scaled rows, into the range that reads back as the block, with each PERCENT format over its column's data rows |
| Publisher.PlanFormats | stock_screener_stablev2.py:773-782 | one format call per pattern, in order, each setting number type PERCENT with its pattern on the data rows of its column |
| Publisher.BlockFitsValues | stock_screener_stablev2.py:736-749 | the range spans exactly one column per header and one row per written row |
| Publisher.FormatsInsideBlock | stock_screener_stablev2.py:751-780 | every format target is one column of the written block, under the header of the same index, and spans exactly the block's rows below the header row |
| A1.ColumnName | stock_screener_stablev2.py:739-742 | a column name is a non-empty string of capital letters |
| A1.ColumnIndexOfName | stock_screener_stablev2.py:739-742 | decoding the name of a column gives the column back |
| A1.ColumnNameOfIndex | stock_screener_stablev2.py:739-742 | every non-empty capital-letter string is the name of the column it decodes to |
| A1.ColumnNameInjective | stock_screener_stablev2.py:739-742 | different columns have different names |
| A1.ColumnNameSamples | stock_screener_stablev2.py:739-742 | 0 is A, 25 is Z, 26 is AA, 701 is ZZ and 702 is AAA |
| A1.ColumnLetters | stock_screener_stablev2.py:738-742 | the letter loop terminates and builds the column's name; a negative start gives "" |
| A1.ParseCellText | stock_screener_stablev2.py:745 | a rendered cell reads back as the same column and row |
| A1.ParseRangeText | stock_screener_stablev2.py:745 | a rendered range reads back as the same two cells |
| Text.NatToStringRoundTrip | stock_screener_stablev2.py:744-745 | the decimal text of a row number reads back as that number |
| Text.NatToStringNoLeadingZero | stock_screener_stablev2.py:744-745 | decimal text starts with 0 only for 0 |
| Text.StripFacts | stock_screener_stablev2.py:343 | stripping (of labels here, and of cells and headers at lines 378 and 468) leaves a slice of the input with no blank at either end, everything cut off being blank |
| Text.Strip | stock_screener_stablev2.py:343 | str.strip() leaves no blank at either end, blanks being the ASCII whitespace str.isspace accepts, 0x1C to 0x1F included |
| Text.Lower | stock_screener_stablev2.py:343 | str.lower() maps each character to its lower-case form, position by position |
| Normalize.CleanToFloat | stock_screener_stablev2.py:275-281 | None stays None, and a cell with no comma, typographic minus or parenthesis reads exactly as float() reads it |
| Normalize.CleanToFloatGroupedWhole | stock_screener_stablev2.py:275-281 | a whole figure with thousands separators, such as "1,23,456", reads as the number its digits form, and in parentheses or after the typographic minus as its negative |
| Normalize.CleanToFloatThousands | stock_screener_stablev2.py:279 | "1,234" reads as 1234 and "(1,234)" as -1234 |
| Normalize.CleanToFloatGrouped | stock_screener_stablev2.py:275-281 | a figure with thousands separators and a decimal part, such as "1,23,456.78", reads as that decimal, and in parentheses or after the typographic minus as its negative |
| Normalize.CleanToFloatAccounting | stock_screener_stablev2.py:279 | "(1,234.5)" reads as -1234.5 |
| Normalize.CleanText | stock_screener_stablev2.py:279 | the rewrite leaves no comma, parenthesis or typographic minus |
| Normalize.ParseFloat | stock_screener_stablev2.py:279 | float() raises on an empty string and on one made only of str.isspace blanks |
| Normalize.ParseFloatTrims | stock_screener_stablev2.py:279 | float() reads the text left after cutting off space, tab, line feed, vertical tab, form feed and carriage return at either end, and nothing else is cut off |
| Normalize.ParseFloatSeparators | stock_screener_stablev2.py:279 | " 1\n" reads as 1, while a separator 0x1C before or 0x1F after the digits makes float() raise |
| Normalize.CleanTextNormalForm | stock_screener_stablev2.py:279 | after the rewrite no comma, parenthesis or Unicode minus remains, and rewriting again changes nothing |
| Normalize.CleanTextDropsSeparators | stock_screener_stablev2.py:279 | thousands separators are dropped: the pieces around a comma are rewritten independently |
| Normalize.CleanToFloatNegatives | stock_screener_stablev2.py:279 | an accounting-style "(w.f)" and a Unicode-minus "−w.f" both read as the negative decimal |
| Normalize.CleanTextKeepsNumber | stock_screener_stablev2.py:279 | plain digits come through the rewrite unchanged |
| Normalize.ParseFloatOfNat | stock_screener_stablev2.py:279 | float() of the decimal text of n is n |
| Normalize.ParseFloatOfNegatedNat | stock_screener_stablev2.py:279 | float() of "-" and the decimal text of n is -n |
| Normalize.ParseFloatDecimal | stock_screener_stablev2.py:279 | float() reads "w.f" as w plus the fraction f, with an optional leading minus |
| Normalize.Round2 | stock_screener_stablev2.py:255 | round(x, 2) has at most two decimals and is within 0.005 of x |
| Normalize.Round2Properties | stock_screener_stablev2.py:255 | rounding keeps the sign and leaves two-decimal values alone |
| Normalize.Sanitize | stock_screener_stablev2.py:248-273 | None and non-finite floats give 'N/A'; floats are rounded within 0.005; ints pass unchanged; a string is returned unchanged iff, with commas dropped and blanks stripped, it does not read as a number with an optional B/M/K suffix, and otherwise becomes that number within 0.005 |
| Normalize.SanitizeSuffixed | stock_screener_stablev2.py:262-267 | a trailing B/M/K in either case scales the number by 10^9, 10^6 or 10^3 before rounding |
| Normalize.SuffixedValue | stock_screener_stablev2.py:262-269 | a blank string has no value, as `float()` raises on it; the B, M and K scaling itself is stated by SuffixedValueOf |
| Normalize.SanitizeKeepsSeparated | stock_screener_stablev2.py:259-272 | "1.5\x1cB" is returned unchanged: strip keeps the inner 0x1C, and float() then raises on "1.5\x1c" |
| Normalize.SuffixedValueOf | stock_screener_stablev2.py:262-267 | a number followed by a B/M/K suffix reads as the number times 10^9, 10^6 or 10^3 |
| Normalize.SanitizeExamples | stock_screener_stablev2.py:262-265 | "1.5B" gives 1500000000 and "250M" gives 250000000 |
| Tickers.AddTicker | stock_screener_stablev2.py:135-150 | the symbol is appended as typed iff the dialog returned a non-empty answer and the lookup has a price; cancellation, a missing or null price, and a failing lookup leave the list unchanged |
| Tickers.AddKeepsDuplicates | stock_screener_stablev2.py:139-147 | adding a symbol already listed adds a second copy |
| Tickers.RemoveFirst | stock_screener_stablev2.py:128 | list.remove drops exactly one copy of a present value and is a no-op otherwise |
| Tickers.RemoveFirstAt | stock_screener_stablev2.py:128 | the copy dropped is the first one, and the others keep their order |
| Tickers.RemoveTicker | stock_screener_stablev2.py:124-133 | without a valid selection nothing changes; with one, exactly one copy of the selected symbol is removed |
| Tickers.RemoveUndoesAdd | stock_screener_stablev2.py:124-147 | removing a freshly added new symbol restores the list |
| Tickers.RemoveDuplicateTakesFirst | stock_screener_stablev2.py:124-133 | selecting a later copy of a duplicated symbol removes its first copy |

## Left out

- The Tkinter window, list box, dialogs, status bar and log handler: user interface only. The list box is taken to show the ticker list in order, and the dialog's answer is an input.
- Threads, `start_service`/`stop_service` and the `running` flag: concurrency. A service session is modelled as a start followed by a finite sequence of loop passes.
- Network and foreign calls are inputs rather than models.
  - HTTP requests and BeautifulSoup parsing arrive as `Page` values.
  - yfinance `info` arrives as the price field of `Lookup`.
  - `history` arrives as a series of `Bar`s.
  - gspread authentication, `update` and `format` are the `SheetWrite` value.
- The clock reads of one `update_sheet` call are modelled as one instant, and so are those of one refresh. The refresh records the day of the check that started it, which is the same IST day at 13:30.
- `time.sleep` and `random` delays: timing only. The retry loop of `get_quarterly_data` is also left out. Request errors are caught per page, so the loop never retries and only sleeps.
- `get_financial_data` and its `info` fields: the rows to publish are inputs to `Publisher.PlanWrite`.
- `update_sheet`'s early return without a connected sheet: the service runs only after the sheet is connected.
- An exception from the sheet update ends the service thread; that failure is not modelled.
- An exception from one `sheet.format` call is caught once around the whole format loop, so the remaining formats are skipped. The model has every format call succeed.
- The JSON configuration file, the default ticker list and `save_config`: file I/O.
- The pytz timezone lookup: IST instants are inputs.
- Text handling is restricted.
  - Python's `lower` and `strip` are modelled on ASCII. `strip` removes the ASCII characters `str.isspace` accepts (space, tab, line feed, vertical tab, form feed, carriage return and 0x1C to 0x1F); non-ASCII whitespace such as U+00A0 is kept. `float()` skips a smaller set around a number: space, tab, line feed, vertical tab, form feed and carriage return, but not 0x1C to 0x1F. Non-ASCII whitespace, which `float()` also skips, is not modelled.
  - `float()` is modelled on an optional sign, digits and one optional point. Exponents, underscores, `inf` and `nan` are not modelled.
- IEEE floating point is replaced by exact reals.
  - NaN closes are not modelled.
  - A zero reference close, which numpy turns into an infinite or undefined value, gives 'N/A' directly.
  - numpy integer and boolean types are not modelled.
- Normalize.Round2: exact round-half-even on reals rather than `round` on binary doubles, which can differ at ties that doubles cannot represent.
- Prices.PriceChanges: the YTD filter compares bar dates with 1 January as day ordinals, not pandas timestamps with a date string.
