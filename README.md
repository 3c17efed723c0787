# Web access-log parsers, modelled in Dafny

Two Python 2 scripts read web-server access logs and print three reports per
date:
- the number of requests;
- the three most common user agents;
- the GET/POST ratio for each operating-system label.

`log_parser.py` extracts `(date, method, agent)` with a configured regular
expression. It labels an agent with the longest `;`-field of its first
parenthesised comment that holds one of the configured OS tokens.

`logparser.py` extracts the fields with a fixed pattern and then validates each
request: the day must be in 1..31, the month one of the twelve English
abbreviations, and the method one of seven HTTP methods. It labels an agent with
the comment field at a fixed position, or `misc` for bots and agents without a
comment. It keeps the accepted requests in a module-level list.

The model has these modules:

- `Text`: Python 2 string primitives the scripts rely on.
  - `lower`, `strip`, `split` with a separator, `in` on strings.
  - The search `\((.*?)\)` with its group 1, written out by hand.
- `LexOrder`: Python's string ordering, and `sorted` over distinct keys.
- `Records`: the request and entry types, and line extraction.
  - The configured pattern is an opaque `Matcher` from a line to its optional
    capture groups.
- `LongestField`: `map_agent_to_os`.
  - A method with the loop of the source, proved against the specification
    function `AgentOs`.
- `Validation`: `validate_record`.
- `BotField`: the per-line step of `logparser.py`.
  - The module-level `records` list is the class `RecordLog`, whose methods
    append to it.
- `Aggregate`: the three reports.
  - A `Counter` is a multiset.
  - A ratio is the exact pair `Quotient(gets, posts)` or `Infinity`.
- `Pipeline`: both scripts end to end, from lines or matched requests to the
  reports.

## Model

| member | source | states |
|---|---|---|
| Text.Lower | log_parser.py:64 | `field.lower()` keeps the length; it changes only ASCII capitals, and no capital is left |
| Text.Strip | log_parser.py:65 | `s.strip()`, specified by `StripSpec` |
| Text.StripSpec | log_parser.py:65 | `strip()` leaves the contiguous middle block of the text: only whitespace is dropped around it, and it neither starts nor ends with whitespace |
| Text.StripLeftSpec | logparser.py:91 | stripping the left end leaves a suffix whose dropped prefix is all whitespace and which does not start with whitespace |
| Text.StripRightSpec | logparser.py:91 | stripping the right end leaves a prefix whose dropped suffix is all whitespace and which does not end with whitespace |
| Text.StripUnpadded | log_parser.py:65 | text that neither starts nor ends with whitespace is its own strip |
| Text.Contains | log_parser.py:64 | Python's `t in s` on strings, specified by `ContainsIff` |
| Text.ContainsIff | log_parser.py:64 | the recursive substring test `t in s` holds exactly when `t` occurs at some index of `s` |
| Text.CapitalTokenNeverInLower | log_parser.py:64 | a token holding an ASCII capital never matches, because only the field is lowercased and the tokens are not |
| Text.Split | log_parser.py:56 | `s.split(sep)` keeping empty pieces, with at least one piece; specified by `JoinSplit`, `SplitCount` and `SplitJoin` |
| Text.JoinSplit | log_parser.py:56 | no piece of `split(';')` holds the separator, and joining the pieces with it gives back the text |
| Text.SplitCount | logparser.py:90 | `split` gives exactly one more piece than there are separators, so there is always at least one piece |
| Text.SplitAtFirst | logparser.py:26 | splitting text whose first separator follows `a` gives `a` followed by the pieces of the rest |
| Text.SplitJoin | logparser.py:26 | splitting undoes joining when no part holds the separator |
| Text.CloseFrom | log_parser.py:54 | the lazy group closes at the first `)` before any newline, or cannot close at all |
| Text.SearchFromSpec | log_parser.py:54 | the search from a position finds nothing exactly when no `(...)` group starts there or later; otherwise it returns the group of the leftmost `(` that has one |
| Text.FirstParen | log_parser.py:54 | group 1 of `re.search('\((.*?)\)', s)`, specified by `FirstParenSpec` |
| Text.FirstParenSpec | log_parser.py:54 | `re.search('\((.*?)\)', s)` fails exactly when no `(` is followed by a `)` with no `)` or newline between; otherwise group 1 is the text between the leftmost such `(` and the first `)` after it |
| Text.GroupUnique | log_parser.py:54 | a group opened at one `(` can close at one `)` only |
| Text.FirstParenOf | logparser.py:88 | a comment preceded by text without `(` and holding no `)` or newline is exactly the group found |
| LexOrder.Less | log_parser.py:131 | Python's `<` on strings, character by character, a shorter prefix first; a strict total order by `LessIrreflexive`, `LessTransitive` and `LessTotal` |
| LexOrder.LessIrreflexive | log_parser.py:131 | no date sorts before itself |
| LexOrder.LessTransitive | log_parser.py:131 | string order is transitive |
| LexOrder.LessTotal | log_parser.py:131 | any two different dates are ordered one way or the other |
| LexOrder.SortUnique | log_parser.py:131 | `sorted(counter.keys())` is strictly ascending and holds exactly the values it was given |
| LexOrder.Insert | log_parser.py:131 | inserting into an ascending list keeps it ascending and adds exactly the new value |
| Records.ParseRecord | log_parser.py:24-39 | the match's groups unchanged, or `None` without a match; what each outcome contributes is stated by `DropsFailedLine`, `DropsEmptyMatch` and `KeepsMatchedLine` |
| Records.ExtractRecords | log_parser.py:123-125 | every record kept is the non-empty group tuple of some line the pattern matched, since `filter(None, …)` drops both `None` and `()`; there are at most as many records as lines |
| Records.ExtractAppend | log_parser.py:123-125 | extraction works line by line: the records of two blocks of lines are those of the first followed by those of the second |
| Records.DropsFailedLine | log_parser.py:32-39 | a line the pattern does not match, for which `parse_record` returns `None`, contributes no record |
| Records.DropsEmptyMatch | log_parser.py:125 | a match with no capture group gives `()`, which is false and contributes no record |
| Records.KeepsMatchedLine | log_parser.py:32-39 | a line matched with at least one group contributes exactly its capture groups, unchanged, in its place |
| LongestField.Longest | log_parser.py:63-65 | the label the loop holds after a prefix of the fields, specified by `LongestIsMaximal` and `LongestIsFirstOfLongest` |
| LongestField.AgentOs | log_parser.py:53-66 | the label of an agent, specified by `AgentOsSpec` |
| LongestField.MapAgentToOs | log_parser.py:53-66 | the loop computes the label `AgentOs` of the agent |
| LongestField.LongestIsMaximal | log_parser.py:63-65 | no matching field is longer, once stripped, than the label |
| LongestField.LongestIsFirstOfLongest | log_parser.py:65 | a non-empty label is the stripped text of a matching field, the first of that length, since `max` keeps the earlier of equals |
| LongestField.AgentOsSpec | log_parser.py:53-66 | the label is `''` without a comment or without a matching field; otherwise it is the longest stripped matching field of the first comment, the earliest among equally long ones |
| LongestField.AgentOsOfComment | log_parser.py:54-56 | the label depends only on the fields of the first comment, not on the text around it |
| LongestField.WindowsFieldLabel | log_parser.py:63-65 | with the token `windows`, the fields `Windows NT 10.0`, ` Win64`, ` x64` give `Windows NT 10.0` |
| LongestField.WindowsExample | log_parser.py:53-66 | `Mozilla/5.0 (Windows NT 10.0; Win64; x64)` with the token `windows` is labelled `Windows NT 10.0` |
| Validation.IntValue | logparser.py:27 | `int(day)` on an optionally signed run of digits with surrounding whitespace; the values used are fixed by `DayValue15`, `DayValue32` and `DayValue0` |
| Validation.ValidateRecord | logparser.py:24-32 | a request is accepted exactly when `1 <= int(day) <= 31`, the month is one of Jan..Dec and the method one of GET, PUT, POST, HEAD, DELETE, CONNECT, OPTIONS |
| Validation.YearIgnored | logparser.py:26-29 | the year part of the date never changes the verdict |
| Validation.SplitDate | logparser.py:26 | `day/month/year` with no `/` inside a part unpacks into exactly those three parts |
| Validation.DateFromParts | logparser.py:26-28 | such a date can be read, with the day and month the parts give |
| Validation.RejectsDayOutOfRange | logparser.py:27-29 | `32/Jan/2020` and `0/Jan/2020` are refused |
| Validation.RejectsUnknownMonth | logparser.py:28-29 | `15/Xyz/2020` is refused |
| Validation.RejectsUnknownMethod | logparser.py:30-31 | PATCH is refused |
| Validation.AcceptsWellFormed | logparser.py:24-32 | `15/Jan/2020` with GET is accepted |
| BotField.Position | logparser.py:91 | the candidate field is `attributes[2]` when there are more than two fields, else the last |
| BotField.BotAwareOs | logparser.py:88-95 | the label of one agent, specified by `BotAwareOsSpec` |
| BotField.BotAwareOsSpec | logparser.py:88-95 | `misc` without a comment; otherwise the stripped candidate field, replaced by `misc` exactly when a bot token is a case-sensitive substring of it |
| BotField.StoredAll | logparser.py:84-96 | what the loop appends for a sequence of matched requests, at most one entry per request; specified by `StoredAllSpec` and `StoredAllAppend` |
| BotField.StoredAllSpec | logparser.py:84-96 | only accepted requests are stored, each with its label; every accepted request is stored |
| BotField.StoredAllAppend | logparser.py:84-96 | storing works line by line in line order: two blocks of lines store the first block's entries followed by the second's, so a request on two lines is stored twice |
| BotField.StoredEntry | logparser.py:86-96 | any stored entry is an accepted request of the input together with its label |
| BotField.RecordLog.constructor | logparser.py:22 | the list starts empty |
| BotField.RecordLog.Ingest | logparser.py:86-96 | one line appends its labelled request exactly when it validates, growing the list by at most one and keeping every entry labelled |
| BotField.RecordLog.IngestAll | logparser.py:84-96 | the loop over the lines appends what `StoredAll` describes, in line order, keeping every entry labelled |
| Aggregate.DateCountIsRecordsOn | log_parser.py:129 | `Counter(dates)[d]` is the number of records of date `d` |
| Aggregate.TotalOfAll | log_parser.py:129 | counts over distinct keys that cover every value add up to the number of values |
| Aggregate.SortedDates | log_parser.py:131 | `sorted(total_req_by_date.keys())`, specified by `SortedDatesSpec` |
| Aggregate.SortedDatesSpec | log_parser.py:131 | the dates visited are the dates of the records, each once, in ascending order |
| Aggregate.TotalsByDate | log_parser.py:129-132 | the totals report, specified by `TotalsByDateSpec` |
| Aggregate.TotalsByDateSpec | log_parser.py:129-132 | each date of the records is listed exactly once in ascending order; each count is its number of records and is positive; the counts sum to the number of records |
| Aggregate.TotalsCover | log_parser.py:131 | every record's date is listed, in ascending order |
| Aggregate.TotalsCount | log_parser.py:132 | each listed count is the number of records of that date |
| Aggregate.TotalsSum | log_parser.py:129 | the listed counts add up to the number of records |
| Aggregate.Dedup | log_parser.py:137 | the keys of a `Counter` are distinct and are exactly the values counted |
| Aggregate.InsertByCountSpec | log_parser.py:137 | placing one entry in a ranking adds exactly that entry and keeps counts non-increasing |
| Aggregate.RankByCountSpec | log_parser.py:137 | ranking by count is a permutation with non-increasing counts |
| Aggregate.PermutationKeepsDistinctAgents | log_parser.py:137 | reordering entries keeps their agents distinct |
| Aggregate.RankedTallySpec | log_parser.py:137 | the ranked counter lists every agent once with its number of occurrences, most frequent first |
| Aggregate.MostCommon | log_parser.py:137 | `Counter(xs).most_common(n)`, specified by `MostCommonSpec` |
| Aggregate.MostCommonSpec | logparser.py:109 | `most_common(n)` lists at most `n` distinct agents with non-increasing counts, each its number of occurrences; an agent left out occurs no more often than the last listed, and agents are left out only when `n` are listed |
| Aggregate.AgentsOnCount | log_parser.py:137 | the count of an agent in the date's agent list is its number of records on that date |
| Aggregate.TopAgents | log_parser.py:136-139 | the top agents of one date, specified by `TopAgentsSpec` |
| Aggregate.TopAgentsSpec | log_parser.py:136-139 | the top agents of a date, stated over that date's records: at most `n`, distinct, counts non-increasing and each the agent's number of records that day; no agent left out beats the last one listed |
| Aggregate.LabelsCount | log_parser.py:144-147 | the `Counter` of labels of a date's GET (or POST) records counts exactly the records of that date, method and label |
| Aggregate.CountWhereWitness | log_parser.py:149 | a label has a positive count exactly when some record of that date and method carries it |
| Aggregate.RatioByOs | log_parser.py:143-153 | the ratio rows of one date, specified by `RatioByOsSpec` |
| Aggregate.RatioByOsSpec | log_parser.py:143-153 | rows are exactly the labels seen with GET or POST that day; a row is `infinity` exactly when the POST count is 0, otherwise GET count over a positive POST count; a POST-only label gives 0 |
| Aggregate.RatioExamples | log_parser.py:149-153 | 4 GET and 2 POST requests give 2.0; 3 GET and no POST give `infinity` |
| Aggregate.Summarize | logparser.py:98-122 | the three reports list the same dates in the same order |
| Pipeline.ClassifyAll | log_parser.py:144-147 | entry `i` holds `rec[0]`, `rec[1]`, `rec[2]` of record `i` as date, method and agent, and is labelled by `map_agent_to_os` of that agent |
| Pipeline.LogParserEntries | log_parser.py:123-147 | one entry per extracted record, each with at least three groups; entry `i` holds the date, method and agent of the `i`-th extracted record and the label `map_agent_to_os` gives its agent |
| Pipeline.LogParserReport | log_parser.py:129-153 | the three reports over the extracted records; `Summarize`, `UnmatchedLineIgnored` and `TotalsCountMatchedLines` state what they hold |
| Pipeline.UnmatchedLineIgnored | log_parser.py:123-125 | a line the pattern does not match, or matches with no group, leaves all three reports unchanged |
| Pipeline.TotalsCountMatchedLines | log_parser.py:129-132 | the request totals add up to the number of extracted records |
| Pipeline.LogparserRatioLabels | logparser.py:115-118 | a date's ratio rows are exactly the labels of its accepted GET or POST requests |
| Pipeline.LogparserTotals | logparser.py:98-104 | the totals add up to the number of stored requests, and each listed date is the date of an accepted request |

## Left out

- Command-line parsing, logging setup and YAML configuration loading (log_parser.py:68-112, logparser.py:34-73) are not modelled. The OS tokens and bot tokens are parameters.
- A configuration that fails to load makes both scripts go on with an undefined configuration. The model always has tokens.
- File reading and the per-file loop (log_parser.py:114-125, logparser.py:75-83) are I/O and are not modelled. So are two defects of that loop:
  - `records` is reassigned for each file, so only the last file is aggregated;
  - an unreadable file reuses the previous file's `lines`.
  - The model aggregates one given sequence of lines or requests.
- Python's regular-expression engine is not modelled.
  - The configured pattern and the fixed `pat` of logparser.py are an opaque `Matcher`.
  - The search `\((.*?)\)` is modelled by hand.
- logparser.py:85 calls `.groups()` on the result of `re.match`. A non-matching line therefore raises `AttributeError`.
  - `RecordLog.Ingest` and `IngestAll` take the matched `(date, method, agent)` requests, so a non-matching line is outside their domain.
  - It is not modelled as skipped.
- Validation.DateReadable: `validate_record` raises unless the date unpacks into three `/`-parts and the day is an integer literal. The model makes that a precondition.
- Validation.IsIntLiteral: Python 2 `int()` also accepts a few forms the model does not.
  - It allows whitespace between the sign and the digits.
  - It accepts non-ASCII digits in unicode strings.
  - The model accepts surrounding whitespace, one optional sign and ASCII digits.
- Pipeline.ThreeGroups: the reports index `rec[0]`, `rec[1]` and `rec[2]`. A match with one or two groups would raise `IndexError`, so the model requires at least three groups of every match that has any. A match with no group gives `()` and is dropped during extraction, as in the source.
- Records.Matcher: a group that takes no part in the match is `None` inside `groups()`. The matcher's groups are strings, so such a group is not modelled.
- Text.IsSpace: `strip()` is modelled for the six ASCII whitespace characters of Python 2 byte strings. Unicode strings are not modelled.
- True division and the printed number format (log_parser.py:151, logparser.py:120) are not modelled.
  - A ratio is the exact pair `Quotient(gets, posts)`.
  - `Aggregate.Value` gives its real value.
- The fixed-width `print`/`format` output, the report headers and `parse_record`'s log messages are output only and are not modelled.
  - log_parser.py prints ` infinity` with a leading space; logparser.py prints `infinity`.
  - Both are the `Infinity` case.
- Aggregate.MostCommonSpec does not state the order of equally frequent agents, which Python 2's dict iteration decides.
  - `RankByCount` keeps them in first-seen order.
  - No contract depends on that order.
- Aggregate.RatioByOs is a map, so the order in which ratio rows are printed (Python set iteration) is not modelled.
