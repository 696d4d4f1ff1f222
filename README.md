# RideInsight data summaries, modelled in Dafny

RideInsight turns a chauffeur company's bookings spreadsheet (a CSV file)
into a plain-text report that a chatbot later reads. The report is built by
two variants of a `DataSummarizer` class. One belongs to the web
application (`chat_app/data_processor.py`). The other is the stand-alone
chatbot's (`only-bot/data_processor.py`). A third piece of code,
`load_data_from_txt` in `Finalbot.py`, turns a text file into the records
that are handed to the vector index.

This project models those three pieces:

- **The table** (`table.dfy`). The CSV is a header plus rows of cells. A
  cell is missing, a string or a number. A column is an *object* column
  when it holds a string, or when the table has no rows. This is how
  `read_csv` types an empty or textual column.
- **The report** (`table.dfy`). The report is a list of lines. A line is
  a list of pieces: literal text, a number with its format (money,
  one-decimal percentage or plain), a cell shown as pandas prints it, or
  the text of an exception. Numbers are exact reals. A division by zero
  gives `NaN` or an infinity, as it does in pandas.
- **An escaping exception** (`Outcome`). It is modelled as the lines
  written so far plus a `raised` flag.
- **Each analysis step** is a specification function in its own module:
  - `MissingValues` for `check_missing_values`;
  - `PriceStats` for `generate_basic_stats`, i.e. `describe()` and the
    share of rows above the mean;
  - `ChaufferEarnings` for `analyze_chauffer_earnings`, i.e. group-by,
    ranking, company totals and the top-three share;
  - `Categories` for `analyze_categories`, i.e. `value_counts` and
    `head(6)`;
  - `NotesDetail` for `analyze_notes`.
- **The loops.** Each step's loop is a method proved equal to that
  function (`CollectMissing`, `CollectEarnings`, `CollectDistributions`,
  `CollectRide`, `CollectNotes`).
- **The classes.** Both `DataSummarizer` classes are Dafny classes. They
  have the source's `df` and `summary` fields, and every method states the
  new `summary` as the old one plus the step's lines.
- **The whole run.** `generate_summary` is proved equal to a `Report`
  function. Lemmas about `Report` state when a run raises and what its
  lines hold.
- **The column labels** (`HeaderParse`). The labels answered by the
  language model are parsed by `parse_llm_response`, which is modelled
  exactly. It is proved to invert the list rendering that the prompt asks
  for.
- **`load_data_from_txt`** is `TextLoader`.

Some behaviours of the code that a reader might not expect:

- `item.strip().strip('"\'')` removes every leading and trailing quote
  character, not just one pair. Whitespace inside the quotes stays:
  `' A '` becomes ` A ` (`HeaderParse.QuotedSpacesKept`).
- The "... and N more unique values" line is written when there are more
  than **five** distinct values. A column with exactly six therefore
  reports "... and 0 more unique values" (`Categories.SixDistinct`).
- The "Ride Details (n)" label is the row's position in the whole table
  plus one, not its rank among the rows that have notes.
- No step guards against a table without rows:
  - the Price step raises (the empty column is not numeric);
  - the Notes step raises after two lines (a division by zero).
- A label list of the wrong length cannot be assigned to `df.columns`. The
  assignment raises inside the inner `try`, so the original labels stay.

## Model

| member | source | states |
|---|---|---|
| Text.StripBlank | chat_app/data_processor.py:100 | `str.strip()` leaves nothing exactly when the text is all whitespace |
| Text.Split | chat_app/data_processor.py:115 | `str.split(',')` yields at least one part, no part holds a comma, and joining the parts with commas gives the text back |
| Text.WordsBlank | chat_app/data_processor.py:103 | `str.split()` yields no words exactly when the text is blank |
| Text.CollapseBlank | chat_app/data_processor.py:103 | joining the words with single spaces gives the empty text exactly when the text is blank |
| Text.DecimalInjective | Finalbot.py:30 | two different numbers never print the same decimal digits |
| Tables.IndexOf | chat_app/data_processor.py:141 | a label is found exactly when it is in the header, and at its first position |
| Tables.Distinct | chat_app/data_processor.py:185 | the distinct non-missing values of a column: pairwise different, and each is in the column |
| Tables.Divide | chat_app/data_processor.py:200 | a float division: finite exactly when the divisor is non-zero; NaN exactly for 0/0 |
| Tables.DivideProduct | chat_app/data_processor.py:200 | a finite quotient times the divisor gives the dividend back |
| Tables.Percent | chat_app/data_processor.py:163 | `(a / b) * 100`: finite exactly when b is non-zero; NaN exactly for 0/0 |
| Tables.PercentProduct | chat_app/data_processor.py:163 | a finite percentage times b gives 100·a |
| Tables.PercentBounds | chat_app/data_processor.py:260 | a part of a positive whole is between 0 and 100 percent: positive when the part is, below 100 when the part is smaller |
| Sorting.SortDesc | chat_app/data_processor.py:193 | `sort_values(ascending=False)`: the result is non-increasing in its key and a permutation of the input |
| Sorting.SortDescKeySum | chat_app/data_processor.py:199 | sorting does not change the sum of the keys |
| Sorting.SortDescFirstIsMax | chat_app/data_processor.py:216 | the first entry after sorting has the largest key |
| Sorting.Take | chat_app/data_processor.py:222 | `head(n)`: the first n entries, or all when there are fewer |
| Sorting.TakeKeepsLargest | chat_app/data_processor.py:243 | `head(n)` of a non-increasing list keeps entries at least as large as any entry after them |
| MissingValues.MissingCount | chat_app/data_processor.py:256 | `isnull().sum()` of a column is at most the row count |
| MissingValues.MissingCountZero | chat_app/data_processor.py:256 | the count is zero exactly when no cell of the column is missing |
| MissingValues.MissingColumnsSpec | chat_app/data_processor.py:259 | `missing[missing > 0]`: exactly the columns with a missing cell, in header order |
| MissingValues.MissingSectionSilent | chat_app/data_processor.py:257 | the step writes nothing exactly when no cell of the table is missing |
| MissingValues.MissingSectionLines | chat_app/data_processor.py:257-261 | otherwise a title, then one line per column with missing cells, in header order |
| MissingValues.MissingPercentBounds | chat_app/data_processor.py:260 | each column's missing share times the row count is 100 times its count, and lies in (0, 100] |
| MissingValues.CollectMissing | chat_app/data_processor.py:256-261 | the loop writes exactly the section's lines |
| HeaderParse.CleanLabelUnquoted | chat_app/data_processor.py:114 | a cleaned item has no quote character at either end |
| HeaderParse.LabelsKeepAll | chat_app/data_processor.py:113-117 | every item is kept exactly when no item is blank |
| HeaderParse.LabelsNone | chat_app/data_processor.py:113-117 | no item is kept exactly when every item is blank |
| HeaderParse.ParseLlmResponse | chat_app/data_processor.py:98-126 | a successful parse gives at least one label |
| HeaderParse.ParseUnquoted | chat_app/data_processor.py:113-123 | no parsed label has a quote character at either end |
| HeaderParse.NotAListIff | chat_app/data_processor.py:106-107 | the response is refused as not a list exactly unless its first visible character is `[` and its last is `]` |
| HeaderParse.NoColumnNamesIff | chat_app/data_processor.py:120-121 | the "no column names" failure happens exactly for a bracketed response whose comma-separated items are all blank |
| HeaderParse.ParseRenderList | chat_app/data_processor.py:98-123 | a list of plain labels, rendered the way the prompt asks (`["A", "B"]`), parses back to the same labels |
| HeaderParse.Standardize | chat_app/data_processor.py:64-80 | new labels are used only when the response parses and has one label per column; then they are exactly the parsed ones |
| HeaderParse.StandardizeFourColumns | chat_app/data_processor.py:64-75 | a well-formed answer for four columns relabels them |
| HeaderParse.ChatterFallsBack | chat_app/data_processor.py:77-80 | an answer with text before the list is refused and the original labels stay |
| HeaderParse.QuotedSpacesKept | chat_app/data_processor.py:114 | `' A '` cleans to ` A `: the quotes go, the spaces inside them stay |
| HeaderParse.FailedCallFallsBack | chat_app/data_processor.py:64-80 | a failed model call's `"Error: ..."` answer is refused as not a list and leaves the labels as no answer does |
| HeaderParse.EmptyQuotedLabel | chat_app/data_processor.py:114-116 | `[""]` parses to one empty label: the blank check runs before the quotes are removed |
| PriceStats.Numbers | chat_app/data_processor.py:147 | a number is among those `describe()` sees exactly when it is a numeric cell of the column |
| PriceStats.NumbersCount | chat_app/data_processor.py:147-157 | each number is seen as often as it occurs in the column, so duplicates weigh in the statistics |
| PriceStats.Mean | chat_app/data_processor.py:153 | the mean is defined exactly for a non-empty list |
| PriceStats.MeanProduct | chat_app/data_processor.py:153 | a defined mean times the count is the sum |
| PriceStats.Smallest | chat_app/data_processor.py:154 | the minimum is in the list and at most every entry |
| PriceStats.Largest | chat_app/data_processor.py:155 | the maximum is in the list and at least every entry |
| PriceStats.MeanWithinRange | chat_app/data_processor.py:153-155 | the mean lies between the minimum and the maximum |
| PriceStats.ExtremesOrdered | chat_app/data_processor.py:153-155 | mean, minimum and maximum are defined together, and then minimum ≤ mean ≤ maximum |
| PriceStats.NotAllAboveMean | chat_app/data_processor.py:162 | not every price is strictly above the mean |
| PriceStats.PriceSection | chat_app/data_processor.py:139-165 | without a Price column, one error line; a textual Price column writes the title, then raises; otherwise eight lines |
| PriceStats.PriceShare | chat_app/data_processor.py:162-165 | the last line's share is `above / rows × 100`, in [0, 100) |
| PriceStats.PriceExtremes | chat_app/data_processor.py:153-155 | the written minimum ≤ mean ≤ maximum |
| ChaufferEarnings.Trips | chat_app/data_processor.py:185 | one (driver, price) pair per row |
| ChaufferEarnings.Drivers | chat_app/data_processor.py:185 | the group keys: each non-missing driver once, and nothing else |
| ChaufferEarnings.GroupsOf | chat_app/data_processor.py:185-190 | one group per driver, with that driver's count, sum and mean |
| ChaufferEarnings.RankingSpec | chat_app/data_processor.py:185-193 | the ranking is non-increasing in total earnings and holds exactly one group per driver |
| ChaufferEarnings.TopEarner | chat_app/data_processor.py:216-217 | the top earner's total is at least every driver's total |
| ChaufferEarnings.CompanyTotal | chat_app/data_processor.py:199 | the company total is the sum of every price on a row that names a driver |
| ChaufferEarnings.TopThreeShare | chat_app/data_processor.py:222-224 | with non-negative prices and a positive total, the top-three share is within [0, 100] |
| ChaufferEarnings.TopThreeAll | chat_app/data_processor.py:222-224 | with at most three drivers and a non-zero total, the top three hold 100% |
| ChaufferEarnings.TopThreeNoTotal | chat_app/data_processor.py:222-224 | with at most three drivers and a zero total (every price 0 or missing), the share is `0 / 0`, NaN |
| ChaufferEarnings.EarningsSection | chat_app/data_processor.py:178-227 | without the Chauffer or Price column, exactly one error line |
| ChaufferEarnings.EarningsTotals | chat_app/data_processor.py:199-204 | the total line shows the company total; the average line shows it divided by the number of drivers |
| ChaufferEarnings.EarningsOpening | chat_app/data_processor.py:196-207 | the section opens with its five fixed lines |
| ChaufferEarnings.EarningsBlocks | chat_app/data_processor.py:208-213 | then comes one four-line block per driver, in ranking order |
| ChaufferEarnings.EarningsClosing | chat_app/data_processor.py:216-227 | with no driver, the `index[0]` failure is caught as one line; otherwise the insights name the top earner and their total, and give the top three's totals as a percentage of the prices on rows that name a driver |
| ChaufferEarnings.Example | chat_app/data_processor.py:185-224 | rows (A,100), (B,50), (A,200) rank A (2 bookings, 300, mean 150) above B; the total is 350 and the top-three share is 100% |
| ChaufferEarnings.CollectEarnings | chat_app/data_processor.py:178-227 | the loop writes exactly the section's lines |
| Categories.ValueCountsSpec | chat_app/data_processor.py:239 | `value_counts()`: non-increasing counts, one entry per distinct non-missing value, each with its number of occurrences |
| Categories.ValueCountsIndex | chat_app/data_processor.py:239 | every non-missing value of the column has an entry |
| Categories.ShownAreMostFrequent | chat_app/data_processor.py:243 | a value left out of `head(6)` is no more frequent than any value shown |
| Categories.ObjectColumnsUpTo | chat_app/data_processor.py:236 | `select_dtypes(['object'])`: exactly the object columns, in header order |
| Categories.DistributionShape | chat_app/data_processor.py:238-248 | a title, one count line for each of the first six entries of `value_counts()`, and the "more" line exactly when there are more than five distinct values |
| Categories.ValueCountsLength | chat_app/data_processor.py:239 | `value_counts()` has one entry per distinct non-missing value |
| Categories.SixDistinct | chat_app/data_processor.py:247-248 | with exactly six distinct values the step reports "0 more unique values" |
| Categories.ValueShareBounds | chat_app/data_processor.py:244 | each value's share of the rows is in (0, 100] |
| Categories.CollectDistributions | chat_app/data_processor.py:236-248 | the nested loops write exactly the section's lines |
| NotesDetail.HasNoteIff | chat_app/data_processor.py:275-278 | a row has a note exactly when its Notes cell is a string that is not blank |
| NotesDetail.ShowsIff | chat_app/data_processor.py:290 | a cell is listed exactly when it is a number or a non-blank string |
| NotesDetail.NotedRowsSpec | chat_app/data_processor.py:275-278 | exactly the rows whose note is a non-blank string, in table order |
| NotesDetail.NotesSection | chat_app/data_processor.py:269-294 | without a Notes column, one error line; a non-text Notes column raises with no line; a table without rows raises |
| NotesDetail.NotesSectionShape | chat_app/data_processor.py:281-294 | title, count and share lines, then one block per noted row in table order |
| NotesDetail.NotesShareBounds | chat_app/data_processor.py:283 | the share of rows with notes is in [0, 100] |
| NotesDetail.RideBlockShape | chat_app/data_processor.py:286-294 | a ride block is a title with the original row number plus one, the shown cells in column order, and the separator |
| NotesDetail.RideTitleInjective | chat_app/data_processor.py:287 | different rows get different ride titles |
| NotesDetail.EmptyNotesRaise | chat_app/data_processor.py:275-278 | a Notes column with every cell missing is not textual, so `.str` raises |
| NotesDetail.CollectRide | chat_app/data_processor.py:289-294 | the inner loop writes exactly one ride block |
| NotesDetail.CollectNotes | chat_app/data_processor.py:269-294 | the step writes exactly the section's lines and raises exactly when the section does |
| WebSummarizer.Standardized | chat_app/data_processor.py:64-80 | relabelling keeps the rows and the number of columns; a refused answer keeps the table |
| WebSummarizer.DataSummarizer.constructor | chat_app/data_processor.py:9-19 | no table and an empty summary |
| WebSummarizer.DataSummarizer.LoadData | chat_app/data_processor.py:25-83 | an unreadable file adds one error line and raises; otherwise the table is kept (relabelled when the answer fits) and three lines or the fallback line are added |
| WebSummarizer.DataSummarizer.CheckMissingValues | chat_app/data_processor.py:250-261 | the summary grows by the warning before loading, else by the missing-values section |
| WebSummarizer.DataSummarizer.GenerateBasicStats | chat_app/data_processor.py:128-165 | the summary grows by the warning, else by the price section, raising exactly when it does |
| WebSummarizer.DataSummarizer.AnalyzeChaufferEarnings | chat_app/data_processor.py:167-227 | the summary grows by the warning, else by the earnings section |
| WebSummarizer.DataSummarizer.AnalyzeCategories | chat_app/data_processor.py:229-248 | the summary grows by the warning, else by the distributions |
| WebSummarizer.DataSummarizer.AnalyzeNotes | chat_app/data_processor.py:262-294 | the summary grows by the warning, else by the notes section, raising exactly when it does |
| WebSummarizer.DataSummarizer.GenerateSummary | chat_app/data_processor.py:297-318 | the summary is rebuilt as the report: heading, then each step until one raises; afterwards `df` holds the table read, relabelled when the answer fits, or is unchanged when the file cannot be read |
| WebSummarizer.ReportHeading | chat_app/data_processor.py:306-310 | every report opens with its title and the time it was generated |
| WebSummarizer.ReportUnreadable | chat_app/data_processor.py:81-83 | an unreadable file gives the heading and one error line, and the run raises |
| WebSummarizer.ReportFallback | chat_app/data_processor.py:77-80 | a refused answer makes the third line the fallback notice |
| WebSummarizer.ReportRaises | chat_app/data_processor.py:313-331 | a run raises exactly when the file is unreadable, the Price column is textual, or a Notes column is not textual or has no rows |
| WebSummarizer.EmptyFileRaises | chat_app/data_processor.py:163 | a file without rows but with a Price or Notes column never completes |
| WebSummarizer.ReportWithoutColumns | chat_app/data_processor.py:141-143 | without Price, Chauffer and Notes, each step writes its error line and the run completes |
| BotSummarizer.DataSummarizer.constructor | only-bot/data_processor.py:8-18 | no table and an empty summary |
| BotSummarizer.DataSummarizer.LoadData | only-bot/data_processor.py:24-39 | an unreadable file adds one error line and raises; otherwise the table and its three lines are added |
| BotSummarizer.DataSummarizer.CheckMissingValues | only-bot/data_processor.py:148-155 | before loading it raises and adds nothing; else it adds the missing-values section |
| BotSummarizer.DataSummarizer.GenerateBasicStats | only-bot/data_processor.py:41-73 | before loading it raises; else it adds the price section and raises exactly when that does |
| BotSummarizer.DataSummarizer.AnalyzeChaufferEarnings | only-bot/data_processor.py:75-130 | before loading the failure is caught as one line; else it adds the earnings section |
| BotSummarizer.DataSummarizer.AnalyzeCategories | only-bot/data_processor.py:132-146 | before loading it raises; else it adds the distributions |
| BotSummarizer.DataSummarizer.GenerateSummary | only-bot/data_processor.py:157-177 | the summary is rebuilt as the report: heading, then each step until one raises; afterwards `df` holds the table read, or is unchanged when the file cannot be read |
| BotSummarizer.ReportOpening | only-bot/data_processor.py:166-173 | a loaded run opens with the heading, the path, the row count and the labels as read |
| BotSummarizer.ReportRaises | only-bot/data_processor.py:172-190 | a run raises exactly when the file is unreadable or the Price column is textual |
| BotSummarizer.ReportWithoutPrice | only-bot/data_processor.py:49-51 | without a Price column both Price steps write their error line and the run completes |
| TextLoader.KeptLines | Finalbot.py:27-28 | positions of lines of the file, in file order |
| TextLoader.KeptLinesMembers | Finalbot.py:27-28 | exactly the non-blank lines are kept |
| TextLoader.LoadDataFromTxt | Finalbot.py:24-33 | the loop builds exactly the records, each with non-empty text |
| TextLoader.RecordsSpec | Finalbot.py:27-32 | record k comes from the k-th non-blank line: its id is `vec` with the line number counted from 1, and its text is the stripped line |
| TextLoader.RecordCount | Finalbot.py:27-28 | at most one record per line, and none exactly when every line is blank |
| TextLoader.IdsDistinct | Finalbot.py:30 | no two records share an id |

## Left out

- **The language-model call.** `Chatbot()` and `generate_response` are
  replaced by a parameter: the answer text, or nothing. A failed call
  answers `"Error: ..."` (chat_app/Chatbot.py:71-72), and that text is
  refused as not a list like any other chatter. It therefore leaves the
  labels as nothing does, and nothing stands for it
  (`HeaderParse.FailedCallFallsBack`). A failure to construct `Chatbot()` (line 37, outside the inner
  `try`) is not modelled. It would make `load_data` raise.
- **File-system and process I/O.** This covers `os.path.abspath`,
  `os.path.exists`, `pd.read_csv`, `os.makedirs`, writing the file and
  `print`.
  - Reading is a parameter: the parsed table, or nothing when the file is
    missing or unreadable.
  - The path is a constant of the object.
  - The report file is the final `summary`: the lines are not joined with
    newlines and not written.
- **The clock.** `datetime.now()` is a timestamp parameter.
- **Number formatting** (`:,.2f`, `:.1f`) and `.round(2)`. The pieces
  keep exact real values and their format tag.
- **Standard deviation and median.** They are defined but not proved
  against anything beyond their definition.
- **Ties.** For equal totals or counts, the model orders by first
  appearance (a stable sort). pandas' own tie order is not modelled.
- **Duplicate column labels** are not distinguished.
- **Cell types.** Dates and booleans are not modelled. A table is
  well-formed: no column mixes strings and numbers.
- **The text of exception messages.** It is reduced to the kind of
  failure.
- **Finalbot.py beyond lines 13-33.** The vector index, the embedding
  model and the RAG chatbot are not part of this model.
- **Django and the other front ends.** The views, models, signals, and
  `only-bot/main.py` and `Non-rag.py` are not part of this model.
