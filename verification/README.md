# Data-Quality-Agent decision engine, in Dafny

This project models the decision core of the Data-Quality-Agent. The agent
works in three stages:

- a **profiler** turns a CSV table into a profile of facts: basic stats,
  column types, missing values, descriptive stats, IQR outliers and
  negative values;
- a **quality agent** applies the data-quality rules to such a profile:
  - DQ-02 empty dataset;
  - DQ-01 missing values;
  - DQ-05 outliers;
  - DQ-04 impossible negative values.

  From the issues it raises it derives the global decision (ACCEPT,
  WARNING or REJECT), a one-line summary and a report that can be
  rendered as a dictionary;
- a **rules loader** parses the rule catalogue, which is markdown with
  `## DQ-xx – Title` headers, each file of the rules directory on its own.
  It extracts each rule's WARNING/REJECT
  conditions and answers lookups by id, by keyword and as a summary list.

Everything is a pure function, so the analysis is deterministic: the same
profile always gives the same report. The agent's mutable `issues` list is
modelled as the concatenation of what each check returns, in the order the
checks run.

Modules, one per file:

| module | file | role |
|---|---|---|
| `Wrappers` | wrappers.dfy | `Option` and `Result` |
| `Seqs` | seqs.dfy | counting, filtering, subsequences, distinctness, flattening |
| `Text` | text.dfy | `str.isspace`, `strip`, slicing, ASCII `lower`, `str(int)`, `f"{n:,}"`, float text |
| `Numeric` | numeric.dfy | `round(x, 2)` (round half to even), float rendering of 2-decimal values |
| `Stats` | stats.dfy | sorting, linear-interpolation quantile, median, min, max, mean |
| `DataProfile` | data_profile.dfy | the profile record shared by the profiler and the agent |
| `Profiler` | profiler.dfy | the profiler's metrics and `generate_profile` |
| `Json` | json.dfy | the JSON value a report is converted to |
| `QualityAgent` | quality_agent.dfy | the checks, the decision, the summary, `analyze`, `to_dict` |
| `RulesLoader` | rules_loader.dfy | dash normalisation, header scanning, severity snippets, loading a rules directory, lookups |
| `Pipeline` | pipeline.dfy | profiler output fed to the agent; the agent's own test scenarios |

Profile sections that are dictionaries keyed by column are modelled as
sequences of `(column, stats)` pairs, because the checks walk them in
insertion order. Sections the agent reads with `.get(key, {})` are
`Option`s, and `None` behaves like `{}`. The `missing_values` section is
read with `[]`, so a profile without it makes `analyze` fail with
`MissingKey("missing_values")` when the dataset has rows. With 0 rows the
section is never read.

The profiler emits a `missing_values` entry for every column, even when
the table has 0 rows (each entry then has percentage 0.0). The model
follows the code here: it does not leave that section empty for an empty
table.

## Model

| member | source | states |
|---|---|---|
| Profiler.GetBasicStats | profiling/profiler.py:68-72 | the row count is the table's, and the column count and column names follow the table's columns in order |
| Profiler.SemanticTypeOf | profiling/profiler.py:92-105 | integer storage is `integer`, float `numeric`, bool `boolean`, datetime `datetime`; an object column is `date_string` exactly when its lower-cased name contains `date`, otherwise `string` |
| Profiler.DateSuffixSubsumed | profiling/profiler.py:102 | a name ending in `_date` always contains `date` after lower-casing, so the `endswith` test adds nothing to the `in` test |
| DataProfile.SemanticNamesDistinct | profiling/profiler.py:92-105 | different semantic types are reported under different names, so the enum loses nothing against the strings the profile holds |
| Profiler.GetColumnTypes | profiling/profiler.py:87-110 | one entry per column, in column order, carrying that column's storage type and the semantic type its storage and name give |
| Profiler.NullCount | profiling/profiler.py:129 | the null count is the number of `None` cells (their multiplicity) |
| Profiler.NonNull | profiling/profiler.py:156 | `dropna` keeps exactly the present values; kept plus nulls equals the column length |
| Profiler.NonNullMultiplicity | profiling/profiler.py:156 | `dropna` keeps every present value exactly as many times as it occurs in the column |
| Profiler.Percentage | profiling/profiler.py:132 | 0.0 for an empty table; otherwise within 0.005 of count/rows*100, and between 0 and 100 when count ≤ rows |
| Profiler.MissingStatOf | profiling/profiler.py:128-133 | the missing count is the column's null count, and the percentage is that count rounded against the row count (0.0 with no rows) |
| Profiler.GetMissingValues | profiling/profiler.py:125-140 | one entry per column in column order, each the column's null count with that count as a rounded percentage of the rows (0.0 with no rows) |
| Profiler.Present | profiling/profiler.py:155-164 | the section's keys are an in-order subsequence of the columns, so no column appears twice or out of order |
| Profiler.PresentSound | profiling/profiler.py:155-164 | every entry pairs a column with the value that column produced |
| Profiler.PresentComplete | profiling/profiler.py:155-164 | every column that produced a value appears in the section with that value |
| Profiler.PresentKeys | profiling/profiler.py:155-164 | with distinct names, a column is a key of the section iff it produced a value |
| Profiler.DescribeColumn | profiling/profiler.py:155-164 | stats exist iff the column is numeric with a present value; min and max are the smallest and largest present values, the median is the median of the sorted present values, and the mean is their mean rounded to 2 decimals, within rounding of [min, max] |
| Profiler.GetDescriptiveStats | profiling/profiler.py:152-167 | keys are an in-order subsequence of the columns; a column appears iff it is numeric with a present value, and its entry is that column's own stats |
| Profiler.FenceOf | profiling/profiler.py:190-195 | q1 and q3 are the 0.25 and 0.75 interpolated quantiles of the sorted values, the fence is q1 − 1.5·IQR and q3 + 1.5·IQR, and lower ≤ q1 ≤ q3 ≤ upper within [min, max] for the quartiles |
| Profiler.OutlierCount | profiling/profiler.py:197 | the count is the number of values strictly below the lower or strictly above the upper unrounded bound; it is 0 exactly when every value lies inside the fence |
| Profiler.ConstantColumnHasNoOutliers | profiling/profiler.py:190-198 | a column whose values are all equal has no outliers |
| Profiler.InterquartileValuesAreInliers | profiling/profiler.py:194-197 | a value between q1 and q3 is never an outlier |
| Profiler.ColumnOutliers | profiling/profiler.py:186-207 | a stat exists iff the column is numeric with a present value; its count is the outlier count of the present values against the unrounded fence, its percentage that count over the rows rounded, and its bounds and quartiles the fence's rounded to 2 decimals; outliers plus nulls never exceed the row count |
| Profiler.DetectOutliersIqr | profiling/profiler.py:181-214 | keys are an in-order subsequence of the columns, exactly the numeric ones with a present value, and each entry is that column's own outlier stat |
| Profiler.ColumnNegatives | profiling/profiler.py:230-238 | an entry exists iff the column is numeric and some present value is negative; its count is the number of present values below zero and its percentage that count over the rows rounded |
| Profiler.NegativesOfCells | profiling/profiler.py:231-234 | the count of negatives among the present values is positive iff some cell holds a negative value |
| Profiler.DetectNegativeValues | profiling/profiler.py:226-243 | keys are an in-order subsequence of the columns, exactly the numeric ones with a negative value, and each entry is that column's own negative count and percentage |
| Profiler.GenerateProfile | profiling/profiler.py:245-277 | a missing file fails with `FileNotFound` (raised by `load_data`); otherwise every section is the corresponding metric of the one loaded table, and the profile is consistent: distinct columns, one missing entry per column, other sections keyed by a subsequence of the columns, valid counts and percentages |
| Numeric.Round2 | profiling/profiler.py:132 | `round(x, 2)` is within 0.005 of x and is x·100 rounded half to even, over 100 |
| Numeric.Round2Monotone | profiling/profiler.py:161 | rounding to 2 decimals preserves order |
| Numeric.Round2Idempotent | profiling/profiler.py:161 | rounding an already rounded value changes nothing |
| Numeric.Round2WithinPercent | profiling/profiler.py:132 | a rounded percentage in [0, 100] stays in [0, 100] |
| Stats.Sort | profiling/profiler.py:190-191 | the sorted values are ordered and a permutation of the input |
| Stats.Quantile | profiling/profiler.py:190-191 | the interpolated quantile lies between the smallest and largest value |
| Stats.QuantileMonotone | profiling/profiler.py:190-192 | a higher probability never gives a lower quantile, so q1 ≤ q3 and the IQR is non-negative |
| Stats.MedianIsQuantile | profiling/profiler.py:162 | the median is the 0.5 quantile |
| Stats.MeanBounds | profiling/profiler.py:161 | the mean lies between the minimum and maximum |
| QualityAgent.CheckEmptyDataset | agent/quality_agent.py:160-172 | raises something iff the row count is 0, and what it raises is a critical DQ-02 issue |
| QualityAgent.MissingSeverity | agent/quality_agent.py:188-214 | no issue below 20%; high or critical iff at least 40%; medium or critical iff the column is critical |
| QualityAgent.MissingSeverityMonotone | agent/quality_agent.py:191-204 | a larger missing percentage never gives a lower severity |
| QualityAgent.CriticalRaisesOneRank | agent/quality_agent.py:192-204 | a critical column gets an issue iff an ordinary one does, one severity rank higher |
| QualityAgent.MissingIssueFor | agent/quality_agent.py:194-214 | an issue names its column, is a "Missing values" DQ-01 issue, and has the severity the thresholds dictate |
| QualityAgent.CheckMissingValues | agent/quality_agent.py:186-214 | every issue comes from an entry, every entry over threshold gives its issue, and issue columns follow the section's order |
| QualityAgent.OutlierIssueFor | agent/quality_agent.py:230-243 | an issue iff the outlier percentage is at least 5%; it is a medium DQ-05 issue naming its column |
| QualityAgent.CheckOutliers | agent/quality_agent.py:228-243 | every issue comes from an entry at or over 5%, every such entry raises one, and order follows the section; a missing section raises nothing |
| QualityAgent.NegativeIssueFor | agent/quality_agent.py:259-270 | an issue iff the column is one where negatives are impossible; it is a medium DQ-04 issue naming its column |
| QualityAgent.CheckNegativeValues | agent/quality_agent.py:257-270 | every issue comes from a listed column where negatives are impossible, every such column raises one, and order follows the section |
| QualityAgent.ColumnChecksOnePerColumn | agent/quality_agent.py:188-270 | with distinct keys in each section, no check raises two issues for the same column |
| QualityAgent.DetermineDecision | agent/quality_agent.py:284-301 | ACCEPT iff there is no issue; REJECT iff some issue is critical or high; WARNING iff there are issues and all are low or medium |
| QualityAgent.DecisionMonotone | agent/quality_agent.py:284-301 | adding issues never lowers the decision |
| QualityAgent.BlockingTallyCount | agent/quality_agent.py:325 | counting the issues that are critical or high gives the number of critical severities plus the number of high ones |
| QualityAgent.BlockingCount | agent/quality_agent.py:325 | the issues kept by the critical-or-high filter number exactly the critical plus the high severities |
| QualityAgent.GenerateSummary | agent/quality_agent.py:303-326 | every summary starts with the row count (with thousands separators) and the column count; ACCEPT says all checks passed and WARNING cites the number of issues |
| QualityAgent.SummaryNamesDecision | agent/quality_agent.py:317-326 | two summaries of the same dataset are equal only for the same decision, so the summary alone tells ACCEPT, WARNING and REJECT apart |
| QualityAgent.Analyze | agent/quality_agent.py:347-379 | 0 rows gives REJECT with only the DQ-02 issue, whatever the other sections hold; with rows, a missing `missing_values` is a KeyError, and otherwise the issues are the three checks in order; the decision, summary and stats follow from the issues |
| QualityAgent.AnalyzeIssueOrder | agent/quality_agent.py:356-361 | the report lists missing-value issues first, then outlier issues, then negative-value issues |
| QualityAgent.MissingRaises | agent/quality_agent.py:186-214 | DQ-01 raises an issue with a given severity for a column iff its entry's percentage maps to that severity |
| QualityAgent.OutliersRaise | agent/quality_agent.py:228-243 | DQ-05 raises an issue for a column iff its entry has at least 5% outliers |
| QualityAgent.NegativesRaise | agent/quality_agent.py:257-270 | DQ-04 raises an issue for a column iff it is listed with negatives and negatives are impossible there |
| QualityAgent.AnalyzeMissingIssues | agent/quality_agent.py:186-214 | the report holds a DQ-01 issue of a given severity for a column iff the missing-value thresholds assign it that severity |
| QualityAgent.AnalyzeOutlierIssues | agent/quality_agent.py:228-243 | the report holds a DQ-05 issue for a column iff that column has at least 5% outliers |
| QualityAgent.AnalyzeNegativeIssues | agent/quality_agent.py:257-270 | the report holds a DQ-04 issue for a column iff it has negatives and is one where negatives are impossible |
| QualityAgent.AnalyzeAcceptsExactly | agent/quality_agent.py:356-364 | a non-empty dataset is accepted iff all missing percentages are under 20%, all outlier percentages under 5%, and no column with negatives is one where they are impossible |
| QualityAgent.RejectSummaryCites | agent/quality_agent.py:324-326 | when some issue is critical or high, the REJECT summary is the counts prefix followed by the number of critical-or-high issues, and that number is at least one |
| QualityAgent.RejectSummaryCount | agent/quality_agent.py:314-326 | a REJECT summary reports the row count with thousands separators, the column count, and a positive number of critical-or-high issues |
| QualityAgent.ToDictRoundTrip | agent/quality_agent.py:70-77 | the dictionary form of a report decodes back to the same report: nothing is lost |
| QualityAgent.IssueRoundTrip | agent/quality_agent.py:75 | one issue's dictionary decodes back to the same issue, severity included |
| QualityAgent.StatsRoundTrip | agent/quality_agent.py:76 | the stats dictionary decodes back to the same row, column and issue counts |
| QualityAgent.IssuesRoundTrip | agent/quality_agent.py:75 | the list of issue dictionaries decodes back to the same issues, in order |
| Text.GroupThousandsRoundTrip | agent/quality_agent.py:318 | the row count rendered with `,` separators reads back as the same number once the separators are dropped |
| Text.NatToStringRoundTrip | agent/quality_agent.py:318 | the column count's decimal rendering reads back as the same number |
| Text.Strip | rag/rules_loader.py:109-114 | `strip()` removes exactly the leading and trailing whitespace and keeps the slice in between |
| Text.Take | rag/rules_loader.py:124-126 | `[:200]` keeps at most 200 characters, as a prefix |
| RulesLoader.NormalizeDashes | rag/rules_loader.py:99-101 | same length; every en dash, em dash, non-breaking hyphen and minus becomes `-` and nothing else changes; no such dash remains |
| RulesLoader.MatchHeaderSound | rag/rules_loader.py:104 | a match found at a position starts there and has the header's shape: `##`, whitespace, `DQ-` and digits, whitespace, `-`, whitespace, then the shortest title that ends right before a newline |
| RulesLoader.MatchHeaderComplete | rag/rules_loader.py:104 | any header-shaped text is found when matching starts at its first `#` |
| RulesLoader.FindHeaders | rag/rules_loader.py:105 | matches lie in the text, in order, and none overlaps the next |
| RulesLoader.FindHeadersMatch | rag/rules_loader.py:105 | every match found by the scan is the header match at its own start |
| RulesLoader.FindHeadersGap | rag/rules_loader.py:105-113 | no header shape starts between one match's end and the next match's start, so a rule body never skips a header |
| RulesLoader.SeveritySnippet | rag/rules_loader.py:120-126 | a snippet exists iff the keyword, case-insensitively, is followed by separators and a lazily matched run up to the stop word or the end; it then has at most 200 characters |
| RulesLoader.ParseRules | rag/rules_loader.py:104-135 | one rule per header found, in textual order; rule k carries header k's `DQ-` digits id, its title stripped, the stripped text up to the next header, and the WARNING and REJECT snippets of that text, each at most 200 characters |
| RulesLoader.BodyHasNoHeader | rag/rules_loader.py:112-114 | a rule's content contains no rule header |
| RulesLoader.ParseFilesMembers | rag/rules_loader.py:73-79 | a rule is loaded from a list of files iff it is parsed from one of the files on its own |
| RulesLoader.ParseFilesAppend | rag/rules_loader.py:73-79 | parsing is per file: the rules of two lists of files are the rules of the first followed by those of the second, so no rule body runs into the next file |
| RulesLoader.LoadRules | rag/rules_loader.py:54-84 | a missing directory fails with `RulesDirNotFound` naming it; otherwise the loader keeps the rules it held and appends exactly the rules parsed from the individual files; the call returns the whole list, or an empty list when there is no rule file |
| RulesLoader.LoadTwiceDuplicates | rag/rules_loader.py:49-84 | the loader never clears its list, so loading the same files twice holds every parsed rule twice |
| RulesLoader.GetRuleById | rag/rules_loader.py:148-151 | `None` iff no rule has the id; otherwise the first rule with that id |
| RulesLoader.SearchRules | rag/rules_loader.py:181-189 | the result keeps the input order and holds exactly the rules whose lower-cased content or title contains the lower-cased keyword |
| RulesLoader.GetRulesSummary | rag/rules_loader.py:169 | one (id, title) pair per rule, in rule order |
| RulesLoader.SummaryIdsResolve | rag/rules_loader.py:148-169 | every id in the summary resolves by lookup, and with distinct ids it resolves to that same rule |
| Pipeline.ProfileThenAnalyze | agent/quality_agent.py:347-379 | a profile built from a table is always analysed without error, reports the table's counts, and raises at most one issue per column in each check |
| Pipeline.CleanDatasetAccepted | tests/test_quality_agent.py:113-119 | the clean test profile is accepted with no issues |
| Pipeline.CriticalColumnWarning | tests/test_quality_agent.py:121-128 | 25% missing in `age` gives WARNING with a medium DQ-01 issue |
| Pipeline.CriticalColumnReject | tests/test_quality_agent.py:130-136 | 50% missing in `user_id` gives REJECT with a critical DQ-01 issue |
| Pipeline.AllowedNegativesAccepted | agent/quality_agent.py:259-260 | negatives in a column where they are allowed leave the dataset accepted |
| Pipeline.EmptyDatasetRejected | tests/test_quality_agent.py:138-144 | a 0-row profile is rejected with just the DQ-02 issue, even when its other sections hold entries |

## Left out

- Reading files is not modelled. The CSV read (`load_data`, `pd.read_csv`) becomes an optional `Table` parameter of `GenerateProfile`. For the rules, `load_rules` reads each `*.md` and then each `*.txt` file of the directory in glob order; the model takes that list of file texts (`None` when the directory is missing) and parses each text on its own with `ParseRules`, as the source does.
- `get_all_rules_text` is not modelled: it only returns the text that `load_rules` concatenated.
- Logging and the agent's `reasoning_log` are not modelled. They carry only narration and do not influence any result.
- The standard deviation (`std`) in the descriptive stats is not modelled. Its only stated promise is that it is rounded, and square roots are not exact in the reals.
- Floating point is not modelled. Cells and statistics are exact reals, so binary rounding error, NaN and infinities do not occur. `round` rounds the exact value half to even.
- Numeric.FormatFloat: renders a value as `str()` renders the float only when the value has at most two decimals and magnitude below 10^16. Every percentage, threshold and rounded bound the agent formats has at most two decimals, but an outlier bound is not bounded in size, and from 10^16 on Python switches to exponent notation (`1e+16`), which the model does not produce.
- Profiler.GenerateProfile: `file_path` is `str(Path(filepath))`, which normalises the path (`./data.csv` becomes `data.csv`, `a//b.csv` becomes `a/b.csv`, an empty path becomes `.`). Paths are not modelled, so the model stores the given string unchanged and assumes it is already in that normal form. No result of the agent reads this field.
- Profiler.SemanticTypeOf: pandas dtypes are collapsed to integer, float, boolean, datetime and object storage. The `pandas_dtype` string is left out.
- Issue severity is modelled as the `Severity` enum rather than a free string. Every issue the agent creates uses one of the four enum values.
- The report's `stats` is modelled as a `ReportStats` record rather than a free dictionary.
- Basic stats always carry their keys in the model. A profile missing `basic_stats` or `row_count` (a KeyError in the source) cannot be expressed.
- RulesLoader.SeveritySnippet: `re.IGNORECASE` is modelled for ASCII letters only. Python would also match `İ` (U+0130) and `ı` (U+0131) against `i`, and the model does not.
- RulesLoader.SearchRules: `str.lower()` is modelled for ASCII letters only (`Text.ToLower`). Python lowers every cased Unicode letter, so a keyword such as `É` matches content holding `é` in the source but not in the model.
- RulesLoader.MatchHeaderSound: `\d` matches only ASCII digits in the model. Python's Unicode `\d` also accepts other decimal digits.
- The vector store, the tool wrappers, the web app, the CLI entry point and the report exporter are outside this core.
