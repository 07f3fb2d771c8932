# Stock Selector: SEC EDGAR acquisition pipeline, metric extraction control flow, ticker mapping and configuration

This project is a Dafny model of the data-acquisition core of the Stock Selector
repository. It covers five pieces:

- **The quarterly index synchroniser.** This is `download_master_files` in the
  `SECFilingDownloader` class and its free-function twin
  `download_sec_master_files`. It walks a year × quarter grid and builds one
  URL and one local path per cell. It fetches a `master.idx` file only when the
  file is absent and writes it only on HTTP status 200. A pause follows every
  request that was made.
- **The filing list builder.** This is `generate_filings_list` and the first
  half of `generate_and_download_filings`. It drops the 11-line preamble of
  every index file and keeps the `10-K` rows. The URL is the base URL
  concatenated with the fifth field.
- **The filing corpus downloader.** This is `download_filings` and the second
  half of `generate_and_download_filings`. It derives
  `{dir}/{cik}/{date[:4]}/{form}_{date}.txt` per row. It skips a file that is
  there and not empty, otherwise it makes one request and one pause. It counts
  rows downloaded, skipped and failed.
- **The financial extractor's logic.** This covers the cache path and the
  cache enable flag, and the cache-first control flow of
  `extract_from_filing`. It also covers the JSON span cut out of a model
  reply, `extract_from_xbrl` over an abstract parsed document, and the
  left-biased union of `validate_and_combine`.
- **The stock utilities and the configuration manager.** The stock utilities
  part covers CIK zero-padding, the JSON-primary/TXT-fallback ticker merge, the
  ticker filter of `update_ipo_dates`, and the price-download selection with
  its batch flushing. The configuration part covers `Config.get`'s dotted
  lookup, the section getters and the `FileNotFoundError` on load.

## How the world is modelled

- **Filesystem.** A `map<string, string>` from path to content. Size is the
  content's length, and "exists" is membership.
- **Remote service.** A total function from URL to
  `Reply(status, body) | Transport`. `Transport` stands for an exception
  raised by `requests.get`. One function is used per run, so a rerun against
  an unchanged service can be compared with the first run.
- **Requests and pauses.** Each one is an `Effect` (`Get(url)`,
  `Sleep(delay)`) in a trace that the methods return.
- **Libraries.** The language model, the HTML/XBRL parser, `json.loads`,
  `float()`, the YAML loader and yfinance are function parameters (oracles).
- **Python exceptions.** They become `Result.Raised(name)`.

Both variants of the pipeline are one parameterised model:
- `IndexSync.Settings` holds the index URL prefix, the project folder and the
  pause.
- `DownloaderSettings` builds the class variant from the configuration.
- `ProcessorSettings` builds the free-function variant, with its hard-coded
  URL and 0.1 s pause.
- The filing list takes its first year as a parameter: 2010 for the class,
  1994 for the processor.

All proofs are against a few specification functions:
- `Fetching.RunFiles`, `Outcomes` and `Requested` fold the generic "skip if
  there, otherwise fetch once, write on 200, pause" step over a task list.
- Every loop of the pipeline is a method whose `ensures` ties its results to
  those functions.
- The properties the code promises are lemmas about those functions.

Where the code's behaviour is surprising, the model follows the code:
- A single-year range fetches all four quarters, because the `year ==
  start_year` branch is tested first.
- The progress total differs from the number of cells visited.

## Model

| member | source | states |
|---|---|---|
| IndexSync.DownloaderSettings | src/data_acquisition/sec_downloader.py:19-25 | The class variant fetches from `base_url + "edgar/full-index/"`, stores under the configured project folder and pauses for the configured delay |
| IndexSync.ProcessorSettings | sec_data_processor.py:23-34 | The free-function variant fetches from the hard-coded SEC full-index URL and pauses 0.1 s |
| IndexSync.SameSynchroniser | sec_data_processor.py:9-87 | With the SEC archive URL and a 0.1 s delay, the class variant and the free-function variant are the same synchroniser |
| IndexSync.QuartersFor | src/data_acquisition/sec_downloader.py:58-64 | The start year gets all four quarters; otherwise the end year gets QTR1 only; every other year gets all four |
| IndexSync.GridSize | src/data_acquisition/sec_downloader.py:54-66 | The number of cells visited up to a given year, by cases on where that year lies |
| IndexSync.ScheduleSize | src/data_acquisition/sec_downloader.py:54-66 | The schedule has 0 cells when start > end, 4 when start == end, and 4*(end-start)+1 otherwise |
| IndexSync.GridContents | sec_data_processor.py:48-60 | A cell is visited iff its year is in range and its quarter is one the quarter rule selects for that year |
| IndexSync.GridOrdered | src/data_acquisition/sec_downloader.py:54-66 | Cells are visited in non-decreasing year order, every year within the range |
| IndexSync.GridDistinct | src/data_acquisition/sec_downloader.py:54-66 | No cell is visited twice |
| IndexSync.CellPathShape | src/data_acquisition/sec_downloader.py:55-72 | A cell's local file is `{project}/{year}/{qtr}/master.idx`, as `os.path.join` builds it |
| IndexSync.CellPathPlain | sec_data_processor.py:49-66 | For a project folder without a trailing slash, the path is the folder, "/", year, "/", quarter, "/master.idx" |
| IndexSync.CellPathInjective | src/data_acquisition/sec_downloader.py:67-72 | Two cells with the same local path are the same cell |
| IndexSync.CellUrlInjective | src/data_acquisition/sec_downloader.py:70-71 | Two cells with the same URL are the same cell |
| IndexSync.ScheduleDistinctPaths | src/data_acquisition/sec_downloader.py:54-72 | No two cells of the schedule share a local file |
| IndexSync.SyncRequestsMissing | src/data_acquisition/sec_downloader.py:74-92 | A run requests exactly the URLs of the cells whose file was absent at the start, in schedule order |
| IndexSync.SyncCellFile | src/data_acquisition/sec_downloader.py:75-90 | After a run, a cell's file is the one that was there; else the body of a status-200 reply; else it is still absent |
| IndexSync.RerunRequestsMissing | sec_data_processor.py:68-82 | A second run changes no file and requests exactly the cells the first run left absent; it requests nothing iff every file is there |
| IndexSync.ProgressTotalUndercounts | src/data_acquisition/sec_downloader.py:43-50 | The progress total equals the cell count only for an empty range; otherwise it is three less than the cells visited |
| IndexSync.ProgressTotal | src/data_acquisition/sec_downloader.py:43-50 | The loop computes the progress total of the specification function that the lemma above relates to the cell count |
| IndexSync.SyncQuarters | src/data_acquisition/sec_downloader.py:66-95 | The quarter loop leaves the files and trace of the run extended by that year's cells |
| IndexSync.DownloadMasterFiles | src/data_acquisition/sec_downloader.py:30-97 | The files afterwards are the run over the schedule, and the trace is one GET and one pause per requested URL, in order |
| Fetching.PairsShape | src/data_acquisition/sec_downloader.py:74-92 | The trace has two effects per request: the GET at position 2k and the pause right after it |
| Fetching.OutcomeCounts | src/data_acquisition/sec_downloader.py:181-207 | Every task has exactly one outcome among downloaded, skipped and failed; the requests are exactly the tasks not skipped |
| Fetching.OutcomeAt | src/data_acquisition/sec_downloader.py:174-207 | Task i's outcome is decided by the filesystem as the earlier tasks left it |
| Fetching.RunAppend | src/data_acquisition/sec_downloader.py:174-207 | A run over a + b is the run over b started from what the run over a left |
| Fetching.AtRun | src/data_acquisition/sec_downloader.py:174-207 | What a run leaves at a path depends only on what was there and on the tasks naming that path |
| Fetching.RunIdempotent | sec_data_processor.py:154-175 | Running the same tasks again against the same remote service changes no file |
| Fetching.Resumable | src/data_acquisition/sec_downloader.py:181-187 | A run interrupted after any number of tasks and restarted over the whole list leaves the same files as an uninterrupted run |
| Fetching.RunChanges | src/data_acquisition/sec_downloader.py:181-194 | A file that is there is never changed; a path no task names is never touched; a changed file holds the body of a status-200 reply for a task naming it |
| Fetching.RunSettles | src/data_acquisition/sec_downloader.py:189-206 | After a run, every task's file is there, unless the reply for it would not make it so |
| Fetching.SettledRun | src/data_acquisition/sec_downloader.py:74-92 | Over files that settle every task, a run writes nothing and requests exactly the missing files |
| Fetching.SecondRunRequests | src/data_acquisition/sec_downloader.py:74-92 | A second run requests exactly the files the first left missing, and makes no request iff all are there |
| Fetching.MissingEmpty | src/data_acquisition/sec_downloader.py:74-75 | No file is missing iff every task's file is there |
| Fetching.DistinctRequested | src/data_acquisition/sec_downloader.py:74-92 | When no two tasks share a file, exactly the tasks whose file was not there at the start make a request |
| Fetching.DistinctAt | src/data_acquisition/sec_downloader.py:74-90 | When no two tasks share a file, each file ends as its own task alone leaves it |
| Fetching.LaterSameFileSkipped | src/data_acquisition/sec_downloader.py:181-187 | Once a reply has made a file count as there, every later task naming it is skipped |
| Fetching.Ensure | src/data_acquisition/sec_downloader.py:181-207 | One task: the outcome and files of the specification step; no effect when skipped, otherwise one GET then one pause |
| FilingList.UniversalPlain | src/data_acquisition/sec_downloader.py:130-131 | Universal-newline translation leaves text without carriage returns unchanged |
| FilingList.ReadLines | src/data_acquisition/sec_downloader.py:130-131 | `readlines` yields lines that contain no newline inside them |
| FilingList.ReadLinesRoundTrip | src/data_acquisition/sec_downloader.py:130-131 | Reading back newline-joined lines, each with its newline, gives those lines |
| FilingList.ParseLine | src/data_acquisition/sec_downloader.py:132-141 | A kept line is a 10-K whose URL starts with the base URL and whose first fields hold no separator |
| FilingList.ParseIndexLine | src/data_acquisition/sec_downloader.py:133-141 | A well-formed index line is kept iff its form is exactly "10-K", and then it maps fields 0-3 by position with URL = base + field 4 |
| FilingList.ParseLinesMembers | src/data_acquisition/sec_downloader.py:132-141 | A record is in the parsed list iff some line parses to it |
| FilingList.ParseLinesSound | sec_data_processor.py:124-133 | Every parsed record is a 10-K whose URL starts with the base URL |
| FilingList.Drop | src/data_acquisition/sec_downloader.py:131 | Dropping the preamble leaves all lines but the first 11, or none |
| FilingList.HeaderIgnored | sec_data_processor.py:123 | The 11 preamble lines never contribute a record |
| FilingList.BuilderReadsSynchronisedFile | src/data_acquisition/sec_downloader.py:128 | The builder reads exactly the file the synchroniser wrote for the same cell |
| FilingList.QuarterPathsAt | src/data_acquisition/sec_downloader.py:127-128 | The q-th path of a year is that year's q-th quarter file |
| FilingList.ListPathsLength | src/data_acquisition/sec_downloader.py:118-128 | Four paths per year from the first year to 2025 |
| FilingList.ListPathsAt | sec_data_processor.py:110-120 | The paths run year by year, QTR1 to QTR4 within a year |
| FilingList.FilingsFromMembers | src/data_acquisition/sec_downloader.py:126-141 | A record is listed iff some existing index file on the path list yields it; absent files contribute nothing |
| FilingList.FilingsFromIgnoresOthers | src/data_acquisition/sec_downloader.py:129 | Files that are not on the path list do not affect the list |
| FilingList.FilingsListSound | sec_data_processor.py:118-136 | Every listed record is a 10-K with a URL under the base URL |
| FilingList.AppendRecords | src/data_acquisition/sec_downloader.py:132-141 | The line loop appends exactly the parsed records of the lines, in order |
| FilingList.AppendYear | sec_data_processor.py:119-135 | The quarter loop appends the records of that year's existing files, QTR1 to QTR4 |
| FilingList.BuildFilingsList | src/data_acquisition/sec_downloader.py:99-147 | The nested loops build exactly the specification filing list |
| Corpus.SameFilingSamePath | src/data_acquisition/sec_downloader.py:175-179 | Rows with the same CIK, form and date share one local file |
| Corpus.DuplicateRowSkipped | src/data_acquisition/sec_downloader.py:181-187 | A later row for the same file is skipped once an earlier reply wrote it non-empty |
| Corpus.CorpusSettles | src/data_acquisition/sec_downloader.py:189-195 | After a run, every row whose reply is a status 200 with a non-empty body has its file there and non-empty |
| Corpus.CorpusRerunIdempotent | sec_data_processor.py:146-175 | Rerunning the download over the same list changes no file |
| Corpus.CorpusKeepsExisting | sec_data_processor.py:154-160 | A file that is there and not empty is never overwritten |
| Corpus.Tally | src/data_acquisition/sec_downloader.py:183-203 | Exactly one counter grows by one per row, the one for that row's outcome |
| Corpus.DownloadFilings | src/data_acquisition/sec_downloader.py:149-212 | The files and trace are those of the specification run; the counters count each outcome, sum to the row count, and the trace has two effects per unskipped row |
| Corpus.GenerateAndDownloadFilings | sec_data_processor.py:91-177 | The list is built completely from the 1994-2025 files before any download, then downloaded in list order with 0.1 s pauses |
| Financial.CacheDisabled | src/llm_processing/financial_extractor.py:62-63 | With caching off, a load finds nothing and a save changes nothing |
| Financial.SaveThenLoad | src/llm_processing/financial_extractor.py:74-91 | With caching on, a load after a save returns the saved metrics |
| Financial.FirstUnderscore | src/llm_processing/financial_extractor.py:49 | For a numeric CIK, the first underscore of the cache file name ends the CIK |
| Financial.CacheNameInjective | src/llm_processing/financial_extractor.py:49 | For numeric CIKs, distinct (CIK, year) pairs get distinct cache file names |
| Financial.PathJoinInjective | src/llm_processing/financial_extractor.py:49 | Joining the cache directory with two relative names gives equal paths only for equal names |
| Financial.SaveKeepsOthers | src/llm_processing/financial_extractor.py:74-91 | Saving one (CIK, year) leaves every other pair's cache entry as it was |
| Financial.JsonSpanMeaning | src/llm_processing/financial_extractor.py:146-153 | A span exists iff some '{' precedes some '}'; it then runs from the first '{' to the last '}' |
| Financial.LlmMetrics | src/llm_processing/financial_extractor.py:93-157 | No API key gives {}; with a key, an answer whose JSON span decodes gives exactly the decoded metrics; non-empty metrics come only from such an answer |
| Financial.LlmSeesPrefixOnly | src/llm_processing/financial_extractor.py:126 | Two filings with the same first 4000 characters get the same metrics |
| Financial.ExtractFromFiling | src/llm_processing/financial_extractor.py:159-193 | A cache hit returns the cached map with no read and no model call; an unreadable filing gives {} and caches nothing; otherwise the computed metrics are saved then returned, {} without a key |
| Financial.PeriodYearPriority | src/llm_processing/financial_extractor.py:233-242 | The year of a period is its startDate's if that parses, else its endDate's, else its instant's: a later tag overwrites an earlier one |
| Financial.ContextYearsMeaning | src/llm_processing/financial_extractor.py:226-242 | A context id is mapped iff some context with that id has a usable year, and it maps to the year of the last such context |
| Financial.AddContext | src/llm_processing/financial_extractor.py:228-242 | One context added to the year map, as the specification step does it |
| Financial.ContextYears | src/llm_processing/financial_extractor.py:226-242 | The loop builds exactly the specification year map |
| Financial.FactsOfInteger | src/llm_processing/financial_extractor.py:248-257 | With an integer year, fact selection never raises and is the last-write-wins map of the selected facts |
| Financial.FactsMeaning | src/llm_processing/financial_extractor.py:249-257 | A lowercased tag is a key iff some numeric us-gaap fact with a context of that year has it; its value is the last such fact's |
| Financial.FactsRaise | src/llm_processing/financial_extractor.py:255 | With a non-integer year, ValueError is raised iff some numeric fact's context is in the year map; otherwise the result is {} |
| Financial.FactsRaisedStays | src/llm_processing/financial_extractor.py:248-257 | Once a prefix of the facts has raised, the whole loop raises the same way |
| Financial.CollectFacts | src/llm_processing/financial_extractor.py:248-259 | The fact loop computes exactly the specification result, exception included |
| Financial.ExtractFromXbrl | src/llm_processing/financial_extractor.py:195-259 | An unreadable filing or one without "<context" gives {}; no contexts or no dated context gives {}; otherwise the fact selection |
| Financial.ValidateAndCombine | src/llm_processing/financial_extractor.py:261-284 | Keys are the union of both inputs; XBRL values win; LLM-only keys keep the LLM value |
| Stocks.FolderCik | stock_utils.py:28-31 | A folder name that is not an integer raises ValueError; otherwise its CIK is at least 10 characters and parses back to the same number |
| Stocks.FolderCiks | stock_utils.py:30-31 | The list raises ValueError iff some folder name is not an integer; otherwise it pads every folder, in order |
| Stocks.CikAgreement | stock_utils.py:31-49 | For a number, the folder form, the JSON integer form, the JSON string form and the TXT form give one CIK, which parses back to the number |
| Stocks.Unique | stock_utils.py:60-61 | `unique` keeps exactly the same values, without repeats |
| Stocks.LeftRowsMembers | stock_utils.py:55 | A left-join row for a CIK is one of its JSON rows, or a ticker-less row when JSON has none |
| Stocks.MergedWithoutTicker | stock_utils.py:55-61 | A joined row without ticker exists for a CIK iff the CIK is local and JSON has no ticker row for it |
| Stocks.FoundRowsMembers | stock_utils.py:70 | The found rows are exactly the joined rows with a ticker |
| Stocks.NotFoundMembers | stock_utils.py:60-61 | A CIK is sent to the fallback iff some joined row for it lacks a ticker |
| Stocks.TxtRowsMembers | stock_utils.py:62-65 | A fallback row carries a TXT ticker with no name and exchange, or "Not Found" when TXT has no row for the CIK |
| Stocks.JsonRowsKept | stock_utils.py:55-73 | Every local CIK with a JSON ticker appears with the JSON ticker, name and exchange |
| Stocks.FallbackKept | stock_utils.py:59-72 | A CIK without a JSON ticker gets every TXT ticker, or "Not Found" when TXT has none, with no name or exchange |
| Stocks.MappingSound | stock_utils.py:69-73 | All JSON-found rows come first and each is backed by JSON; every later row is a fallback row |
| Stocks.EveryCikMapped | stock_utils.py:55-72 | Every local CIK appears in the mapping |
| Stocks.GenerateMapping | stock_utils.py:27-73 | The mapping succeeds iff the folders parse, both files exist and the JSON data list is non-empty; a missing or empty data list raises ValueError |
| Stocks.MappingNeverProduced | stock_utils.py:33-35 | As written, no input produces a mapping, and every input on which the corrected mapping succeeds raises NameError |
| Stocks.NameErrorOnOneFolder | stock_utils.py:33-35 | Such inputs exist: one folder named by any integer, with both files present and a non-empty "data" list |
| Stocks.IpoTickersMembers | stock_utils.py:102-106 | A ticker is processed iff some row carries it, it is not "Not Found", and its IPO date is missing or "Not Found" |
| Stocks.WithIpo | stock_utils.py:126-127 | Every row carrying the ticker gets the date; every other row is unchanged |
| Stocks.UpdateIpoDates | stock_utils.py:82-131 | One lookup per processed ticker; tickers unchanged; a processed ticker's rows get its looked-up date, the other rows keep theirs |
| Stocks.PendingsMembers | stock_utils.py:155-177 | A row is kept, with its index label, iff it has an IPO date, its ticker is not "Not Found", and no existing CSV file has the ticker before its first "." |
| Stocks.SaveBatch | stock_utils.py:197-201 | A flush writes one `{ticker}.csv` per batch entry, a later entry for a ticker replacing an earlier one |
| Stocks.FinalBatchLost | stock_utils.py:196-201 | As written, the final partial batch can be lost: for the rows ("Not Found", date) and ("AAPL", date) no AAPL file is written, while the corrected loop writes it |
| Stocks.PartialBatchLost | stock_utils.py:169-201 | As written, whenever fewer rows are kept than a batch holds and no kept row's label is the kept count minus one, no price file is written at all |
| Stocks.DownloadDailyStockPrices | stock_utils.py:134-205 | One request per kept row whose IPO date is not "Not Found", in row order; the directory afterwards holds every download that returned data, a later one for a ticker replacing an earlier one |
| Stocks.PricesSaved | stock_utils.py:175-201 | An eligible row whose history is non-empty ends with its CSV file in the output directory |
| Stocks.SavedTickerNotKept | stock_utils.py:160-163 | A ticker that already has a CSV file is not downloaded again |
| Configuration.Load | src/utils/config.py:22-33 | A missing path raises FileNotFoundError before the loader runs; text the loader rejects raises the loader's error; otherwise the document is the loader's result for the file |
| Configuration.WalkFindsOrDefaults | src/utils/config.py:46-54 | The lookup gives the value at the end of a reached path, and the default exactly when some level is missing or not a mapping |
| Configuration.PresentNullIsNotDefault | src/utils/config.py:49-54 | A key that is present with a null value gives null, not the default |
| Configuration.WalkAppend | src/utils/config.py:50-51 | Walking a longer path is walking its first part and then the rest from there |
| Configuration.NestedLookup | src/utils/config.py:46-52 | "a.b" looks up b in the value a gives |
| Configuration.Section | src/utils/config.py:56-108 | A mapping document gives its named section or {}; any other document raises AttributeError |
| Configuration.SectionAgreesWithGet | src/utils/config.py:63-108 | For a mapping document, a present section's getter agrees with the dotted lookup of its name; an absent one gives {} where the lookup gives the default |

## Left out

- HTTP, file reads and writes, `os.makedirs` and `time.sleep` are not performed. Requests and pauses are effects in a returned trace. The filesystem is a path-to-content map, so directory creation is not modelled.
- The User-Agent header and the configuration reads in `SECFilingDownloader.__init__` (src/data_acquisition/sec_downloader.py:19-28) are not modelled. The settings are parameters.
- tqdm progress bars, `print`, logging and the `skipped % 1000` log cadence are not modelled. `src/utils/logger.py` is not part of this model.
- The progress total is modelled only to show how it differs from the cell count. Progress bars have no effect on the files.
- pandas CSV writing and reading of the filing list are left out. The filing list is an in-memory sequence of string records, so the CIK column is never coerced to an integer. No CSV round trip is claimed.
- Text decoding is not modelled. Latin-1 in the class and the platform default in the processor are both taken as the identity on characters. Universal-newline translation is modelled.
- The OpenAI call, BeautifulSoup/lxml parsing, `json.loads`/`json.dump`, `float()` and the YAML loader are opaque function parameters. Metric values are `real`s.
- The extractor's model name and the constructor defaults (model, cache directory, configuration path, download directory) are not modelled. The model name only selects the remote model, which is part of the model-call parameter.
- A cache file that decodes to JSON `null` is taken to be unreadable. Such a file would make `_load_from_cache` return `None` as well.
- A failing cache write is not modelled. Only its logged warning is lost.
- Financial.IsGaap: the source matches tag names with `re.I`. The model lowercases ASCII letters only, so Unicode case folding is not modelled.
- Financial.ExtractFromXbrl: the parsed document is abstracted. It is a list of contexts, each with an optional id and an optional map from period tag to text, and a list of elements with a name, a text and an optional `contextref`.
- yfinance (`get_ipo_date`, `stock.history`) and the date formatting of price histories are oracles. A history is a string or nothing.
- Stocks.UpdateIpoDates: the IPO column is `Option<string>`. pandas NA is `None`. A `NaN` ticker is not modelled.
- Stocks.DownloadDailyStockPrices: the rows are `(ticker, ipo)` pairs with a default integer index 0..n-1, as `read_csv` gives. Any other index is not modelled.
- Stocks.GenerateMapping: the JSON `"data"` entries are taken as already parsed into `(cik, ticker, name, exchange)` by position. Entries of another shape are not modelled.
- Stocks.GenerateMapping: `os.listdir` order and the `isdir` test are abstracted. The folder names are given as a sequence of directory names.
- Writing the mapping CSV is not modelled.
- `main.py` (argument dispatch, mostly stubs) is not part of this model.
- Concurrency is left out. The pipeline runs in one process.

## Findings

| source | as written | input that shows it | evidently intended | confidence | as-written member | corrected member |
|---|---|---|---|---|---|---|
| stock_utils.py:35 | `json.load` is called, but `json` is never imported (imports at lines 1-6), so `generate_cik_ticker_mapping` raises NameError once the folder names parse and the JSON file opens | one folder named "320193", any existing JSON file with a non-empty `data` list | load the JSON file and build the mapping | high, not executed | Stocks.MappingNeverProduced | Stocks.GenerateMapping |
| stock_utils.py:197 | the flush test compares the DataFrame index label with `len(tickers_to_process) - 1`; after filtering, labels are not loop positions, so a final partial batch may never be written | rows `[("Not Found", "1980-12-12"), ("AAPL", "1980-12-12")]`, batch size 100, empty output directory: AAPL has label 1 while the count minus one is 0 | flush the remaining batch after the loop | high, not executed | Stocks.FinalBatchLost | Stocks.DownloadDailyStockPrices |
