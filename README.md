# StockRTD: topic table, snapshot cache and polling service

This project models the two stateful pieces between the market-data provider
and the spreadsheet that displays NVDA prices, and proves properties of them
in Dafny.

- `stock_rtd_server.dfy` (module `StockRtd`) models the real-time-data (RTD)
  server `StockRtdServer`. It keeps a table from topic id to upper-cased topic
  name ("BID", "ASK", "LAST", "TIMESTAMP"). It also keeps a cached `NvdaData`
  snapshot, an active flag and the spreadsheet's callback. `ConnectData` and
  `DisconnectData` edit the table. `RefreshData` returns the 2-by-Count array
  of (topic id, value). `CheckForUpdates` takes over a new snapshot read from
  the shared file, and announces it through `UpdateNotify`, only when the
  server is active, has a callback, and the snapshot differs from the cached
  one. The class `StockRtdServer` has the source's methods and its fields
  `_topics`, `_lastData`, `_isActive` and `_callbackObject`. It leaves out
  `_timer` and `_dataFilePath` (see "Left out"), and it adds `notified`, the
  log of `UpdateNotify` calls. The
  update path is also given as pure functions over `UpdateState`
  (`AfterServerStart`, `AfterServerTerminate`, `AfterCheck`, `AfterChecks`).
  The methods are proved equal to these functions, and the lemmas about
  sequences of timer ticks are stated over them.
- `nvda_service.dfy` (module `NvdaService`) models the Python polling service.
  It covers the credential check in the constructor and the resolution of
  the poll interval from the command line. It models `fetch_nvda_data` as a
  pure function from the two provider answers to the five-field record. The
  object's `run` loop is a method over a finite sequence of abstract `Cycle`
  outcomes. A cycle says what the provider answered and how the write went.
  It also says where an exception or a KeyboardInterrupt arrived. `RunSpec`
  is the reference definition of the loop, and the lemmas are stated over it.
- `wrappers.dfy` holds `Option` (C# `null`, Python `None`) and `Result`.

The provider, the clock, the sleep and the shared file are not modelled as
code. The provider answers and the clock reading are fields of a `Cycle`,
and what a reader of the file would see is the field `PriceService.file`.
The file the server reads is the `Option<NvdaData>` argument of
`CheckForUpdates`.

Four behaviours of the code are worth stating plainly, because the model
follows them and a reader might expect otherwise:

- Publishing is not all-or-nothing. `save_data` opens the file for writing,
  which truncates it, and then writes the new contents in place. A failed or
  interrupted write can therefore leave a partial file, and the model has a
  `Partial` file state for this. No lemma claims the publish is atomic.
- Not every interrupt stops the loop cleanly, and not every exception is
  survived. Both handlers in `run` do work of their own, and nothing inside
  the loop catches what that work raises. The `except Exception` handler
  prints a message and sleeps. A KeyboardInterrupt there leaves `run` and
  `main` (which catches only `Exception`) with `running` still set. Any
  other exception there, such as an `OverflowError` from `time.sleep` on a
  huge interval or a broken console, leaves `run` too, and `main` prints it
  and ends the program. The `except KeyboardInterrupt` handler prints its
  shutdown message before clearing `running`, so a second interrupt or a
  console error during that print also leaves `run` with `running` still
  set (`InterruptStops`, `InterruptInRetrySleepEscapes`,
  `HandlerErrorEscapes`, `ShutdownErrorEscapes`, `EscapeKeepsRunning`).
- The interval conversion has a length limit. Python's `int()` (from 3.11,
  and in the security releases 3.7.14, 3.8.14, 3.9.14 and 3.10.7) rejects a
  decimal string of more than 4300 digits with a ValueError. `main` catches
  that error like any other conversion error, so such an argument gives the
  default interval of 5.
- A missing symbol is not a separate error. A missing key raises inside
  `fetch_nvda_data` and is caught there like any other exception, so the
  result is just `None`.

## Model

| member | source | states |
|---|---|---|
| `StockRtd.Upper` | StockRTD/StockRtdServer.cs:77 | The normalised name has the same length, each character is the upper-case form of the original one, and no lower-case ASCII letter is left. |
| `StockRtd.UpperIdempotent` | StockRTD/StockRtdServer.cs:77-78 | Upper-casing an upper-cased name changes nothing, so the name ConnectData stores keeps every stored name upper-cased (ConnectData re-establishes Valid() through it). |
| `StockRtd.TopicValue` | StockRTD/StockRtdServer.cs:81-93 | Only BID, ASK and LAST give a decimal value, no name gives an integer, and a name outside the known topics gives "Invalid Topic". |
| `StockRtd.TopicValueByField` | StockRTD/StockRtdServer.cs:130-147 | The switch agrees with the table of the four known topics and their fields: a known name shows its field (a price as a decimal, the timestamp or "N/A"), and any other name shows "Invalid Topic". |
| `StockRtd.KnownTopicsIgnoreCase` | StockRTD/StockRtdServer.cs:77-93 | Any spelling whose upper-cased form is BID, ASK or LAST selects BidPrice, AskPrice or LastPrice. TIMESTAMP selects Timestamp, or "N/A" when it is null. Every other name selects "Invalid Topic". |
| `StockRtd.HasDataChanged` | StockRTD/StockRtdServer.cs:192-198 | True exactly when the new snapshot differs from the cached one. The four compared fields are the whole snapshot. |
| `StockRtd.AfterCheck` | StockRTD/StockRtdServer.cs:163-182 | One update check. The flag and callback are unchanged. A notification is appended exactly when the cached snapshot changes; it goes to the current callback, and the new snapshot is the one read from the file. With nothing replaced the state is untouched. While active with a callback, the cached snapshot afterwards equals the file's snapshot. |
| `StockRtd.CheckRepeated` | StockRTD/StockRtdServer.cs:177-182 | Reading the same file contents a second time changes nothing, so each new snapshot is announced once. |
| `StockRtd.ChecksWhileDisabled` | StockRTD/StockRtdServer.cs:165-166 | While the server is inactive or has no callback, any sequence of ticks leaves the state unchanged. |
| `StockRtd.ChecksAfterTerminate` | StockRTD/StockRtdServer.cs:156-166 | After ServerTerminate, no later tick replaces the snapshot or notifies. |
| `StockRtd.ChecksProvenance` | StockRTD/StockRtdServer.cs:163-182 | Over any sequence of ticks: the cached snapshot is the initial one or one that was read from the file. Notifications are only appended, at most one per tick, all to the registered callback. With no notification the snapshot is unchanged. |
| `StockRtd.StockRtdServer.constructor` | StockRTD/StockRtdServer.cs:54-60 | The table starts empty, the snapshot is the default one (zero prices, null timestamp), the server is inactive and has no callback. |
| `StockRtd.StockRtdServer.ServerStart` | StockRTD/StockRtdServer.cs:62-71 | Stores the callback (possibly null), sets the active flag, leaves the table and the snapshot alone, and returns 1. |
| `StockRtd.StockRtdServer.ConnectData` | StockRTD/StockRtdServer.cs:73-98 | With at least one string: the id maps to the upper-cased first string, overwriting any earlier name, and no other entry changes. The result is `TopicValue` of that name on the cached snapshot, and GetNewValues is passed back unchanged. With no strings: the table is unchanged, GetNewValues is false and the result is "No Topic". Stored names stay upper-cased. |
| `StockRtd.StockRtdServer.DisconnectData` | StockRTD/StockRtdServer.cs:100-106 | Removes the id when present and does nothing otherwise. Every other entry keeps its name. |
| `StockRtd.StockRtdServer.Heartbeat` | StockRTD/StockRtdServer.cs:108-111 | Always reports the server alive (1) and changes no state. |
| `StockRtd.StockRtdServer.RefreshData` | StockRTD/StockRtdServer.cs:113-154 | On an empty table it returns null with count 0. Otherwise it returns a 2-by-Count array in which each topic id appears in exactly one column, in some order. Row 1 of that column holds the value ConnectData gives for the stored name. The switch here does not upper-case, but the class invariant `Valid()` (every stored name is upper-cased, established by the constructor and kept by ConnectData and DisconnectData) makes the value equal to that of the upper-cased name as well. The count equals the table size, and the table is not modified. |
| `StockRtd.StockRtdServer.ServerTerminate` | StockRTD/StockRtdServer.cs:156-161 | Clears the active flag and the callback. The snapshot and the table are unchanged. |
| `StockRtd.StockRtdServer.CheckForUpdates` | StockRTD/StockRtdServer.cs:163-190 | The new update state is `AfterCheck` of the old one and the file's snapshot: a no-op when inactive or without a callback; otherwise the snapshot is replaced and UpdateNotify is called exactly when the file gave a non-null, changed snapshot. |
| `NvdaService.ResolveInterval` | StockRTD/nvda_service.py:118-127 | Without an argument the interval is 5. An integer argument below 1 gives 1, and one of 1 or more is kept. A non-integer argument gives 5. The interval is always at least 1. |
| `NvdaService.ParseInt` | StockRTD/nvda_service.py:122 | The conversion succeeds exactly on an optional sign followed by 1 to 4300 ASCII digits. The result's magnitude is the value of the digits, and it is negative only with a minus sign. |
| `NvdaService.ParseIntString` | StockRTD/nvda_service.py:122 | Every integer of at most 4300 digits, written in decimal with an optional minus sign, converts back to itself. A longer one is rejected. |
| `NvdaService.LetterIsNotInteger` | StockRTD/nvda_service.py:121-127 | An argument containing a letter fails the integer conversion. |
| `NvdaService.IntervalOfInteger` | StockRTD/nvda_service.py:119-125 | The argument n written in decimal gives the interval max(n, 1), or 5 when n has more than 4300 digits. |
| `NvdaService.IntervalExamples` | StockRTD/nvda_service.py:119-127 | No argument gives 5, "0" gives 1, "-3" gives 1, "10" gives 10, and "abc" gives 5. |
| `NvdaService.CheckCredentials` | StockRTD/nvda_service.py:19-24 | Succeeds exactly when both variables are set and non-empty, and then carries their values. Otherwise it fails with the configuration message. |
| `NvdaService.FetchNvdaData` | StockRTD/nvda_service.py:40-72 | The result is `None` exactly when a call raised or a response lacks the NVDA key. Otherwise the record has exactly the keys BidPrice, AskPrice, LastPrice, Timestamp and UpdateTime. Bid, ask and Timestamp come from the quote, LastPrice from the trade and UpdateTime from the clock, with no bid-at-most-ask check. |
| `NvdaService.FetchRepeatable` | StockRTD/nvda_service.py:59-66 | Two fetches on identical provider answers both succeed or both fail, and their records differ only in UpdateTime. |
| `NvdaService.CycleFile` | StockRTD/nvda_service.py:91-102 | The file after one iteration. When the fetch fails, or an interrupt arrives during it, `save_data` is not reached and the file is unchanged. A fetched record that is written completely is what the file holds. In every case the file is unchanged, partial, or holds the record fetched in that iteration. |
| `NvdaService.EndOf` | StockRTD/nvda_service.py:88-112 | How one iteration ends: it loops again, `running` is cleared, or an exception leaves `run`. It clears `running` only when a KeyboardInterrupt reached the `except KeyboardInterrupt` handler. An escape by interrupt comes only from the shutdown print or the retry sleep in a handler. An escape by an ordinary exception comes only from the shutdown print or the `except Exception` handler's own print or sleep. |
| `NvdaService.FailuresContinue` | StockRTD/nvda_service.py:88-112 | An iteration continues the loop exactly when it recovers: the provider was reached without an interrupt, a save that was reached was not interrupted, and either the sleep went through or an unexpected exception was followed by a message and retry sleep that completed. So a failed fetch, a failed save and a handled exception continue; an interrupt anywhere, or an exception raised inside the handler, does not. |
| `NvdaService.InterruptStops` | StockRTD/nvda_service.py:88-109 | An iteration clears `running` exactly when a KeyboardInterrupt reaches the handler (in the fetch, in a save that is reached, or in the sleep) and the shutdown message is printed. When that print raises, the iteration leaves the loop with that exception. |
| `NvdaService.RunSpec` | StockRTD/nvda_service.py:88-112 | The `while self.running` loop over a finite sequence of iterations. With `running` already cleared it exits at once, keeping the file. When the iterations run out with `running` set, every one of them had looped again. An escape carries the kind (interrupt or not) of an escape from one of the iterations. |
| `NvdaService.RunStopsOnlyOnInterrupt` | StockRTD/nvda_service.py:88-112 | `running` ends false exactly when some iteration ends in the KeyboardInterrupt handler and all earlier ones continued. |
| `NvdaService.RunWithoutInterruptKeepsPolling` | StockRTD/nvda_service.py:88-112 | When every iteration recovers (no interrupt, and no exception out of the `except Exception` handler), `running` stays true and the loop runs through every iteration. |
| `NvdaService.FailedFetchesKeepFile` | StockRTD/nvda_service.py:91-102 | When every fetch fails, no save happens and the file is unchanged. |
| `NvdaService.PublishedProvenance` | StockRTD/nvda_service.py:74-102 | The file ends as it started, partial, or holding a record that one of the iterations fetched. |
| `NvdaService.PublishedRecordShape` | StockRTD/nvda_service.py:60-78 | A file that holds a complete record holds one with exactly the five keys, provided the initial one did. |
| `NvdaService.InterruptInRetrySleepEscapes` | StockRTD/nvda_service.py:110-112 | Take an iteration whose fetch fails, followed by an exception and then an interrupt in the retry sleep. It leaves the loop by a KeyboardInterrupt with `running` still true and the file unchanged. |
| `NvdaService.HandlerErrorEscapes` | StockRTD/nvda_service.py:110-112 | Take an iteration whose fetch fails, followed by an exception whose handler message or retry sleep raises again. It leaves the loop by an ordinary exception, not an interrupt, with `running` still true and the file unchanged. |
| `NvdaService.ShutdownErrorEscapes` | StockRTD/nvda_service.py:107-109 | Take an iteration interrupted in the fetch whose shutdown message raises an ordinary error. It leaves the loop by that exception, with `running` still true and the file unchanged. |
| `NvdaService.EscapeKeepsRunning` | StockRTD/nvda_service.py:88-112 | Leaving the loop by an exception, interrupt or not, never clears `running`. `running` is false at the end exactly when the loop ended through its condition. |
| `NvdaService.PriceService.constructor` | StockRTD/nvda_service.py:26-34 | A constructed service holds its credentials and starts with `running` set. |
| `NvdaService.PriceService.Create` | StockRTD/nvda_service.py:18-34 | Construction fails with the configuration message exactly when the credential check fails. Otherwise it yields a new service with `running` set and the file untouched. |
| `NvdaService.PriceService.SaveData` | StockRTD/nvda_service.py:74-82 | Returns true exactly when the write completes, and the file then holds the record. A failure before truncation leaves the file as it was. A failure after truncation leaves it partial. |
| `NvdaService.PriceService.Run` | StockRTD/nvda_service.py:84-112 | The final `running`, file and exit kind are those of `RunSpec` on the initial flag, the initial file and the iterations. |
| `NvdaService.Launch` | StockRTD/nvda_service.py:114-137 | A configuration error happens exactly when the credential check fails, and then no iteration runs. Otherwise the interval is `ResolveInterval(argv)`, at least 1, and the loop's result is `RunSpec` from `running` set and the initial file, including whether it escaped by an interrupt (a traceback) or by another exception (caught and printed by `main`). |

## Left out

- COM interop attributes, the `IRtdServer` and `IRTDUpdateEvent` interfaces and the empty `ComRegistration` functions: these are runtime glue with no logic. The callback object is a number, and `UpdateNotify` appends it to the `notified` log.
- The `System.Threading.Timer` (`_timer`) that calls `CheckForUpdates` every second on another thread: `CheckForUpdates` is a sequential method, and races with `RefreshData` are not modelled.
- The data file path `_dataFilePath`, the file existence check, `File.ReadAllText` and the JSON deserialisation in `CheckForUpdates`: these are I/O and library calls. Their combined result is the `Option<NvdaData>` argument. `None` covers a missing file, a null deserialisation and an exception before the comparison.
- An exception raised by the spreadsheet's `UpdateNotify`: the callback is taken to return normally. In the source the new snapshot would already be stored, and the exception would be caught and logged.
- `Dictionary` enumeration order in `RefreshData`: it is unspecified, so the method picks keys in an arbitrary order, and its contract fixes the columns only up to a permutation of the table.
- StockRtd.Upper: models `ToUpper` on ASCII letters only. Culture-specific and non-ASCII case mappings are not modelled. One such mapping turns a dotless "ı" into "I", so in the source "bıd" also selects BID.
- A null element in the topic `Strings` array, which makes `ToString()` throw in the source: the strings are a `seq<string>`.
- C# `decimal` range and precision (28-29 significant digits) and C# 32-bit `int` topic ids: prices are `real` and ids are `int`.
- The Alpaca client, the request objects and the `DataFeed` enum: each call is an opaque `Call` value, either a response keyed by symbol or a raised error.
- `float(...)` conversions, `str(...)` of the provider's timestamp, `datetime.now()`, `time.sleep`, and the text of the console output. Every print is taken to succeed except those inside `run`'s loop, whose failures the `Cycle` stages name (`TailRaised`, `RetryRaised`, `ShutdownRaised`). The prints taken to succeed are the three in `__init__` (nvda_service.py:36-38), the one at the start of `run` (nvda_service.py:86) and the two interval messages in `main` (nvda_service.py:125, 127). If one of these raised, construction or startup would end in `main`'s `except Exception` before any iteration. `PriceService.Create` and `Launch` assume they do not. Prices are `real`. The timestamp and the clock reading are strings carried in the `Cycle`, and the sleeps only mark where an interrupt may arrive.
- Python `open` and `json.dump`: a save is an abstract `SaveStage` outcome that says whether the file had already been truncated. The exact bytes of a partial file are not modelled.
- NvdaService.ParseInt: accepts an optional sign followed by ASCII digits. Python's `int()` also accepts surrounding whitespace, underscores between digits and non-ASCII digits. The digit limit is fixed at its default of 4300. A limit changed through `sys.set_int_max_str_digits` or `PYTHONINTMAXSTRDIGITS`, and Python versions without the limit, are not modelled.
- The `run` loop runs forever. The model runs it over a finite sequence of iterations and reports `CyclesExhausted` when they run out with `running` still set.
- `get_nvda_boats_price.py`: a script that only prints API results. Its premium-feed code is dead, inside a string literal.
