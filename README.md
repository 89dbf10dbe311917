# log-sorter, modelled in Dafny

log-sorter reads JSON Lines log files. When a `--date` is given, it keeps only
the records that fall on that calendar date. It groups the records by request
URL: each URL gets a request count and a mean response time. It prints the
result as a ranked table. When `--createfile` is given, it also writes the
report to a file whose name does not clash with an existing one.
This project models the core of `main.py` in Dafny and proves properties of
that model. There is one module per stage:

- `ReportName`: `get_unique_filename`.
  - A `while` loop tries `base + ext`, then `base_1 + ext`, `base_2 + ext`, and so on.
  - The existing files are a finite set of names, so the model proves the loop terminates.
- `LogParser`: `parse_log_files`.
  - The file system is a map from path to `Missing`, `NotFile`, `OpenFails` or
    `Readable(lines, readFails)`.
  - `json.loads` is an abstract decoder parameter.
  - Warnings are tagged values, not the printed messages.
  - `ParseLogFiles` is the loop over the paths. It calls `ReadLines` for the inner
    loop over the lines of one file, which is a separate method in the model only.
- `DateFilter`: `filter_log_entries_by_date`.
  - `datetime.fromisoformat` is an abstract parser parameter.
  - `strptime(..., '%Y-%m-%d')` is modelled concretely by `ParseYmd`: four digits of
    year, one or two digits of month and of day, and a date that exists.
- `UrlMetrics`: `analyze_url_metrics`.
  - Python's insertion-ordered dict is a `Dict(keys, entries)` pair.
  - Both passes are loops.
- `MetricsTable`: the sort, truncation and row-building part of
  `print_url_metrics_table`. Python's stable `sorted(..., reverse=True)` by `total`
  is the insertion sort `SortByTotal`.
- `Json`, `Seqs`, `Digits`: shared helpers.
  - `Json`: decoded JSON values, Python truthiness and `isinstance(v, (int, float))`.
  - `Seqs`: concatenating a map over a list.
  - `Digits`: `str(n)` and `int(s)` for decimal digit strings.

Most methods are proved equal to a specification function of their inputs,
and the lemmas state what the program promises about those functions.
`ReportName.UniqueFilename` is different: its contract says directly that the
result is the first candidate name not in the set of existing names.

Two behaviours of `main.py` that are easy to miss are modelled as the code
has them:

- A JSON `true`/`false` `response_time` is counted, as 1 and 0. Python's `bool`
  passes `isinstance(..., (int, float))`.
- A non-string timestamp is dropped silently. Its `TypeError` is caught by the
  outer `except Exception`.

## Model

| member | source | states |
|---|---|---|
| Json.Get | main.py:54-79 | `entry.get(key)`: the value under key, or `None` (JSON null) when the key is absent. Used at lines 54, 78 and 79. |
| Json.Truthy | main.py:55-81 | Python truthiness: `None`, `False`, zero, the empty string and empty containers are false. Used at lines 55 and 81. |
| Json.IsNumber | main.py:81 | `isinstance(v, (int, float))`: JSON integers, non-integral numbers and also `true`/`false`, since `bool` is a subclass of `int`. |
| Json.NumberValue | main.py:89 | The number added to the sum: the value itself, with `true` as 1 and `false` as 0. |
| ReportName.UniqueFilename | main.py:10-16 | The result is not an existing name. It is candidate k, for some k no larger than the number of existing names, and every earlier candidate exists. |
| ReportName.UniqueFilenameCases | main.py:10-16 | The result is `base + ext` exactly when that name is free. Otherwise it is `base + "_" + str(k) + ext` for the least free k >= 1. |
| ReportName.CandidateInjective | main.py:11-15 | Different counters give different names, so the search never revisits a name. |
| ReportName.CandidatesBelowShape | main.py:13-15 | The first n candidates are n distinct names, and no later candidate is among them. This bounds the loop. |
| ReportName.Candidate | main.py:11-15 | Candidate 0 is `base + ext` and candidate k is `base_k + ext`. |
| Digits.Decimal | main.py:15 | `str(counter)` is a non-empty digit string with no leading zero. |
| Digits.DecimalRoundTrip | main.py:15 | Reading back the decimal form of n gives n. |
| Digits.DecimalInjective | main.py:15 | Distinct counters have distinct decimal forms. |
| LogParser.ParseLogFiles | main.py:19-45 | The records and warnings are exactly those of the paths taken in order, file by file and line by line within a file. An empty path list gives neither. |
| LogParser.ReadLines | main.py:31-41 | For one opened file: the records of its non-blank stripped lines that decode, and one warning per line that does not, in line order. |
| LogParser.ParseAppend | main.py:21-45 | Parsing two path lists in sequence gives the records and warnings of the first list followed by those of the second. |
| LogParser.SkippedPath | main.py:22-44 | A path that is missing, is not a file, or fails to open adds no record. It adds exactly one warning, which names that path, and the later paths are unaffected. |
| LogParser.LineInContext | main.py:31-41 | A line contributes its own records and warnings between those of the lines before and after it. |
| LogParser.MalformedLineSkipped | main.py:35-41 | A non-blank line that fails to decode adds no record. It adds one warning with the path and the stripped line, and the lines after it are still read. |
| LogParser.DecodedLineKept | main.py:35-37 | A line that decodes to r adds exactly r in its place, and no warning. |
| LogParser.BlankLineSkipped | main.py:32-34 | An all-whitespace line adds nothing. |
| LogParser.StripShape | main.py:32-33 | `str.strip()` gives the slice of the line between its leading and trailing whitespace. That slice neither starts nor ends with whitespace, and it is empty exactly when the line is all whitespace. |
| LogParser.LeadingSpaceShape | main.py:32 | The leading run counted is all whitespace and is followed by a non-whitespace character or by the end. |
| LogParser.TrailingSpaceShape | main.py:32 | The same holds for the trailing run. |
| LogParser.ParsedRecordsCount | main.py:21-45 | The whole output has as many records as there are non-blank decodable lines, summed over the readable files. |
| LogParser.TotalDecodable | main.py:21-37 | The number of non-blank lines that decode, over all readable files. A skipped path has none. |
| LogParser.DecodableCount | main.py:31-37 | The number of non-blank lines of one file that decode. |
| LogParser.IsSpace | main.py:32 | The characters `str.strip()` removes, which are those for which `str.isspace()` holds. |
| LogParser.Strip | main.py:32 | `line.strip()`: the line without its leading and trailing whitespace. |
| LogParser.LineRecords | main.py:32-37 | One line gives its decoded record when its stripped form is non-blank and decodes, and nothing otherwise. |
| LogParser.LineWarnings | main.py:35-41 | One line gives one warning with the path and the stripped line when that line is non-blank and fails to decode. |
| LogParser.FileRecords | main.py:22-44 | A missing, non-file or unopenable path gives no records. A readable file gives the records of its lines. |
| LogParser.FileWarnings | main.py:22-44 | A missing, non-file or unopenable path gives its one warning. A readable file gives its line warnings, then one read warning if reading fails part way. |
| LogParser.ParsedRecords | main.py:19-45 | The records of all paths, file by file in path order. |
| LogParser.ParseWarnings | main.py:19-45 | The warnings of all paths, in the order they are written. |
| LogParser.LinesRecords | main.py:31-37 | The records of the lines of one file, line by line in order. |
| LogParser.LinesWarnings | main.py:31-41 | The malformed-line warnings of the lines of one file, in line order. |
| LogParser.StateOf | main.py:22-30 | A path the file-system map does not hold counts as `Missing`, which is `os.path.exists` returning false. |
| LogParser.LinesRecordsCount | main.py:31-37 | A file contributes as many records as it has non-blank lines that decode. |
| DateFilter.TimestampDate | main.py:54-65 | The date of a record's timestamp value. A falsy or non-string value has none. Otherwise `fromisoformat` is tried first, and the `YYYY-MM-DD` prefix before the first space second. |
| DateFilter.Keeps | main.py:54-68 | A record is kept exactly when its timestamp date is the target date. |
| DateFilter.Matching | main.py:52-71 | The kept records, in input order. |
| DateFilter.ValidDate | main.py:63 | The dates `datetime.date` can hold: years 1 to 9999, months 1 to 12, and days within the month. |
| DateFilter.DaysInMonth | main.py:63 | Month lengths, with 29 days in February of a leap year. |
| DateFilter.IsLeapYear | main.py:63 | A year is a leap year when divisible by 4, except centuries not divisible by 400. |
| DateFilter.FilterByDate | main.py:48-71 | With no date the input comes back unchanged. With a date the result is exactly the records whose timestamp gives that date. The timestamp field defaults to `@timestamp`. |
| DateFilter.DefaultTimestampField | main.py:48 | The field read when no other is named: `@timestamp`. |
| DateFilter.MatchingIsSubsequence | main.py:52-71 | The kept records are an order-preserving subsequence of the input. |
| DateFilter.MatchingExactly | main.py:53-68 | A record whose truthy string timestamp parses to the target date is kept as often as it occurs. Every other record, including one with a missing, non-string or unparseable timestamp, is not kept. |
| DateFilter.BeforeFirstSpace | main.py:63 | `split(' ')[0]` is the prefix up to the first space, or the whole string when it has no space. |
| DateFilter.BeforeFirstSpaceAt | main.py:63 | A prefix that ends at the first space, or at the end of the string, is `split(' ')[0]`. |
| DateFilter.ParseYmd | main.py:63-65 | An accepted string always names an existing date with a year from 1 to 9999. |
| DateFilter.YmdFields | main.py:63 | The year, month and day fields are accepted only when they form an existing date. |
| DateFilter.FormatYmd | main.py:63 | A `YYYY-MM-DD` date is written in ten characters. |
| DateFilter.Pad2Value | main.py:63 | A zero-padded two-digit field reads back as its number. |
| DateFilter.Pad4Value | main.py:63 | A zero-padded four-digit year reads back as its number. |
| DateFilter.ParseFormatRoundTrip | main.py:63 | Every valid date written as `YYYY-MM-DD` is parsed back to itself. |
| DateFilter.PlainDateExample | main.py:63 | When the fallback is reached for "2023-01-01 10:00:00", it reads the part before the space, "2023-01-01", as 1 January 2023. (`fromisoformat` itself accepts this stamp, so at run time the fallback is not reached for it.) |
| DateFilter.PlainDateRejections | main.py:63-65 | "invalid-date-format" and "2023-02-29" are rejected. |
| DateFilter.FilterExample | main.py:52-71 | Of two records stamped on 1 and 2 January 2023, filtering for 1 January keeps exactly the first. |
| UrlMetrics.Qualifies | main.py:78-81 | A record counts when its `url` is a truthy string and its `response_time` passes `isinstance(..., (int, float))`. |
| UrlMetrics.Url | main.py:78 | The `url` of a qualifying record. |
| UrlMetrics.ResponseTime | main.py:79-89 | The numeric `response_time` of a qualifying record, read at line 79 and added at line 89. |
| UrlMetrics.Count | main.py:81-88 | The number of qualifying records for a URL. |
| UrlMetrics.Sum | main.py:81-89 | The sum of the response times of the qualifying records for a URL. |
| UrlMetrics.FirstSeen | main.py:82-86 | The URLs of qualifying records, each once, in order of first appearance, which is the dict's insertion order. |
| UrlMetrics.QualifyingUrls | main.py:81 | The set of URLs of qualifying records. |
| UrlMetrics.Tally | main.py:77-89 | The first pass as a function: each qualifying record creates its URL's bucket if it is new, then adds 1 to the count and its response time to the sum. |
| UrlMetrics.ValidDict | main.py:75-91 | A dict lists each key once, and lists exactly the keys it holds, for the dicts built at lines 75 and 91. |
| UrlMetrics.AnalyzeUrlMetrics | main.py:74-103 | The keys are the URLs of qualifying records, each once, in order of first appearance. Each key has its count, which is at least 1, and the sum of its response times divided by that count. Empty input gives an empty dict. |
| UrlMetrics.TallyMeaning | main.py:77-89 | After the first pass the buckets hold exactly the URLs that `FirstSeen` lists, each with its count (at least 1) and sum. A URL without a bucket has count 0 and sum 0. |
| UrlMetrics.CountPositiveIffSeen | main.py:81-89 | A URL has a positive count exactly when a qualifying record names it. The first-appearance order lists exactly those URLs, without repeats. |
| UrlMetrics.CountSumAppend | main.py:77-89 | Counts and sums add up over concatenated record lists. |
| UrlMetrics.CountSumAbsent | main.py:81 | A URL with no qualifying record has count 0 and sum 0. |
| UrlMetrics.SingleSighting | main.py:93-96 | A URL named by exactly one qualifying record has count 1, and its mean is that record's response time. |
| UrlMetrics.AverageExample | main.py:93-96 | Two requests for "/a" taking 100 and 150 give a count of 2 and a mean of 125. |
| MetricsTable.PrepareTable | main.py:106-125 | An empty dict, which is one listing no keys, gives the no-data outcome. Any other dict gives the rows of its items ranked by `SortByTotal`. |
| MetricsTable.TableRows | main.py:111-125 | There is one row per URL of the dict, numbered from 0, with that URL's count and mean. Each handler is at most 30 characters. Totals do not increase down the table, and URLs sharing a total stay in insertion order. |
| MetricsTable.EmptyDict | main.py:107-109 | A dict is empty exactly when it lists no keys. |
| MetricsTable.RowsOf | main.py:116-125 | The rows of the ranked items: the position as index, the display URL, the total and the mean. |
| MetricsTable.WithTotal | main.py:114 | The items with a given total, in order. Used to state stability. |
| MetricsTable.Descending | main.py:114 | Totals do not increase along the sequence. |
| MetricsTable.DisplayUrl | main.py:116-119 | A URL of up to 30 characters is shown unchanged. A longer URL is shown as its first 27 characters followed by "...", 30 characters in all. |
| MetricsTable.Items | main.py:114 | `items()` lists each key once, in insertion order, with its value. |
| MetricsTable.Insert | main.py:114 | Inserting adds exactly one item. |
| MetricsTable.SortByTotal | main.py:114 | Sorting keeps the number of items. |
| MetricsTable.SortPermutes | main.py:114 | The sorted items are a permutation of the input. |
| MetricsTable.SortDescending | main.py:114 | The sorted items are ordered by total, largest first. |
| MetricsTable.SortStable | main.py:114 | The sort is stable: items with equal totals keep their input order. |
| MetricsTable.SortDistinct | main.py:114 | Sorting keeps the URLs distinct. |
| MetricsTable.InsertPermutes | main.py:114 | One insertion step adds its item to the multiset. |
| MetricsTable.InsertDescending | main.py:114 | One insertion step keeps the items ordered by total. |
| MetricsTable.InsertStable | main.py:114 | The inserted item goes before the items with its own total, and nothing else is reordered. |
| MetricsTable.InsertDistinct | main.py:114 | One insertion step keeps the URLs distinct. |
| MetricsTable.RankedItems | main.py:114 | The ranked items are one per URL of the dict, each with its value, ordered by total. |
| MetricsTable.RankingExample | main.py:114 | Totals 1, 5, 3 rank as 5, 3, 1. |
| MetricsTable.TruncationExample | main.py:117-119 | The 53-character URL "/api/this/is/a/very/long/url/that/should/be/truncated" is shown as "/api/this/is/a/very/long/ur...". |

## Left out

- `main()` (main.py:139-238) is not modelled. It does argument parsing, validation of `--date`, exit codes, capture of standard output into a buffer, printing the report and writing it to a file; all of this is command-line and I/O plumbing.
- File-system access (`os.path.exists`, `os.path.isfile`, `open`, reading lines) is replaced by the abstract `FileSystem` map for parsing and by a finite set of existing names for the report file name.
- `ReportName.UniqueFilename` takes the extension as a parameter and does not model its `".txt"` default.
- `json.loads` is an abstract decoder returning a record or a decode error. A line holding valid JSON that is not an object (`42`, `[1]`) would make the later `entry.get` calls raise. The model's decoder yields only objects.
- A `UnicodeDecodeError` while reading a file is not caught by `parse_log_files`, so the program stops on it. The model reads already-decoded lines and does not model this crash.
- An `IOError` after some lines have been read is modelled as `Readable(lines, true)`: the records of the lines already read are kept and one read warning follows.
- `datetime.fromisoformat` is an abstract parser parameter. Its format rules, and whether it accepts a trailing `Z` (this depends on the Python version), are library behaviour.
- `DateFilter.ParseYmd` accepts ASCII digits only. `strptime` matches the year with `\d\d\d\d` and the second digit of a day with `[12]\d`, and `\d` accepts any Unicode decimal digit. So the code keeps a stamp such as "２０２３-01-01" (full-width year digits), and the model rejects it. `strptime` also accepts a space-padded day, but after `split(' ')` that form cannot reach it.
- `UrlMetrics.Qualifies` counts only string URLs. A truthy non-string `url` (a number, a list or an object) makes the Python code raise later: `len()` fails on a number in the table, and an unhashable list or object fails as a dict key. The model treats such records as not qualifying.
- Response times and averages are exact reals. The model has no binary floating point, so no rounding in the sum or the division, and no `:.3f` formatting.
- The `if total > 0 else 0` guard is modelled, but it never fires because every bucket has a count of at least 1.
- The `tabulate` layout (headers, column alignment, padding) and the "no data" message text are left out. The table is the `NoData` outcome or a sequence of rows.
- The warning messages are tagged values (`FileNotFound`, `NotAFile`, `ReadFailed`, `MalformedLine`) instead of their Russian text. The text of the I/O error inside the read-failure message is not modelled.
