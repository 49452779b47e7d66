# Programmer salary statistics, modelled in Dafny

The program asks two job boards (HeadHunter, "HH", and SuperJob, "SJ")
for the vacancies matching each of a list of programming languages. For
each vacancy it estimates one monthly salary from the lower and upper
bounds the vacancy advertises. It averages the usable estimates per
language and prints a table of vacancies found, vacancies processed and
average salary per language.

This project models the computation and leaves out the plumbing around it:

- `salary.dfy` (module `Salary`): the salary estimator. It has a
  three-way case rule and each board's "no estimate" filter: a currency
  other than `RUR` for HH, both payments zero for SJ.
- `vacancies.dfy` (module `Vacancies`): the vacancy and page records of
  both boards and the server's replies (`HttpError` or a page). It also
  holds the per-page loop that keeps every truthy estimate, skipping HH
  vacancies without a salary block.
- `stats.dfy` (module `Stats`): the per-language statistics, and the
  integer average `int(sum / processed)` or 0. It also holds `jobs_stats`:
  a dict kept as its list of items in insertion order, with Python's
  assignment `d[key] = value`.
- `hh_fetch.dfy` (module `HhFetch`): the HH page loop
  `while page < pages_number`, which retries the same page after an HTTP
  error. It is specified by the function `Drive` and implemented by the
  method `FetchLanguage`. The module also holds the per-language loop
  `FindStatistics`.
- `sj_fetch.dfy` (module `SjFetch`): the same for the SJ loop,
  `while True` with a `break` once a page has `more` false.
- `report.dfy` (module `Report`): the rows of the report table, which
  are a header row and then one row per `jobs_stats` entry.
- `wrappers.dfy`: the `Option` type.

The server is one finite sequence of replies, consumed in order by every
request of every language. A loop that uses up the sequence before it
ends gives a run marked incomplete. The real program would still be
waiting for replies at that point.

## Model

| member | source | states |
|---|---|---|
| Salary.CalculateAvgSalary | main.py:9-15 | A falsy upper bound gives `from * 1.2`, and this case wins when both bounds are falsy. Otherwise a falsy lower bound gives `to * 0.8`. Otherwise the result is the midpoint: equally far from both bounds and between them when `from <= to`. Non-negative bounds give a non-negative estimate. |
| Salary.PredictRubSalaryHh | main.py:18-24 | No estimate exactly when the currency is not `RUR`; otherwise the case rule on the two bounds. |
| Salary.PredictRubSalarySj | main.py:27-33 | No estimate exactly when both payments are 0; otherwise the case rule with `payment_from` as the lower bound and `payment_to` as the upper one. |
| Salary.Scenarios | main.py:9-33 | Worked values: 100000 with a falsy upper bound gives 120000, 100000 with a falsy lower bound gives 80000, 80000 to 120000 gives 100000, `USD` gives no estimate, and both SJ payments 0 give no estimate. |
| Vacancies.CollectHhEstimates | main.py:61-67 | The page loop's list is exactly `Kept` of the page's estimates, where a vacancy without a salary block has no estimate. |
| Vacancies.CollectSjEstimates | main.py:114-118 | The page loop's list is exactly `Kept` of the page's estimates. |
| Vacancies.KeptMultiset | main.py:63-67 | Each non-zero value is in the list exactly as often as it occurs as an estimate, and no zero or missing estimate is kept. |
| Vacancies.KeptCount | main.py:70 | The list's length is the number of usable (present, non-zero) estimates. |
| Vacancies.KeptSum | main.py:69 | The list's sum is the sum of the usable estimates. |
| Vacancies.KeptAppend | main.py:62-67 | Filtering two runs of estimates one after the other gives the two filtered lists concatenated. |
| Vacancies.KeptSumNonNegative | main.py:69 | Non-negative estimates give a non-negative page sum. |
| Vacancies.SumUsableNonNegative | main.py:69 | Non-negative estimates give a non-negative sum of usable estimates. |
| Stats.Truncate | main.py:73 | `int()` of a number truncates toward zero: the result is within 1 of the number, on the side of zero. |
| Stats.AverageSalary | main.py:73 | With nothing processed the average is 0 and no division happens. With a non-negative sum it is non-negative. |
| Stats.AverageIsIntegerMean | main.py:128 | With something processed and a non-negative sum, the average `a` satisfies `a * processed <= sum < (a + 1) * processed`. |
| Stats.PutKeys | main.py:75 | Assigning an existing key keeps the key order; a new key is appended at the end. |
| Stats.PutEntries | main.py:75 | After `d[key] = value` the dict holds `(key, value)`, and every entry for another key is unchanged and in its place. |
| Stats.PutDistinct | main.py:130 | Assignment keeps the keys distinct, and the one entry for the key holds the new value. |
| Stats.FromPairsKeys | main.py:75-79 | Putting a list of pairs into an empty dict gives distinct keys, and they are exactly the keys of the list. |
| Stats.FromDistinctPairs | main.py:130-134 | Pairs whose keys are distinct come back unchanged and in order. |
| Stats.FilledFromPut | main.py:75-79 | The dict after `i + 1` languages is the dict after `i` with one more assignment. |
| Stats.FilledKeys | main.py:40-79 | The filled `jobs_stats` has one entry per distinct input language and no other keys. |
| Stats.FilledInInputOrder | main.py:91-134 | With distinct language names, the `k`-th entry of `jobs_stats` is the `k`-th language with its statistics. |
| HhFetch.StepEffect | main.py:52-71 | An HTTP error leaves page, page count, sum, count and found unchanged. A page advances `page` by exactly 1, takes `pages_number` and `found` from the page, and adds exactly the page's usable estimates to the sum and the count. |
| HhFetch.Drive | main.py:43-59 | The loop ends exactly when `page >= pages_number`. It never makes more requests than there are replies, and an unfinished loop has used them all. |
| HhFetch.RequestPattern | main.py:44-59 | The first request asks for the starting page. After an error the next request asks for the same page again; after a success it asks for the next page. |
| HhFetch.Accounting | main.py:56-71 | The final state is the start advanced by exactly the consumed replies: `page` by the number of successes, the count and sum by those pages' usable estimates (errors count nothing), and `found` taken from the last success. |
| HhFetch.ConstantPages | main.py:43-59 | Against a server that always answers `pages = n` (with `n >= 1`) and never fails, the loop ends after exactly `n` requests, for pages 0 to `n - 1`. |
| HhFetch.ConstantPagesFrom | main.py:43-59 | The same from any page up to `n`: the requests are that page through `n - 1`. |
| HhFetch.ErrorOnSecondPage | main.py:44-71 | With three pages and an error on the request for page 1, the requests are 0, 1, 1, 2. The run finishes, adds each page's usable estimates once to both the count and the sum, and takes `found` from the last page. |
| HhFetch.SalaryNonNegative | main.py:69 | With non-negative salary bounds in every reply, the running sum stays non-negative. |
| HhFetch.AverageNonNegative | main.py:73 | With non-negative salary bounds in every reply, the language's average is a non-negative integer. |
| HhFetch.FetchLanguage | main.py:41-71 | The loop over a reply sequence computes exactly `Drive` from the fresh starting values. |
| HhFetch.Collect | main.py:40-79 | At most one set of statistics per language, and one per language when every loop finished. |
| HhFetch.FreshPerLanguage | main.py:40-43 | Accumulators are reset per language: each language's statistics are those of a loop started afresh where its requests began. The first language begins at the first reply, and each later one where the previous language's loop stopped. |
| HhFetch.FreshAt | main.py:40-43 | The same for the `i`-th language of a collection. |
| HhFetch.NextStart | main.py:40-44 | The language after the `i`-th begins at the reply right after the `i`-th language's last request. |
| HhFetch.FindStatistics | main.py:36-81 | `jobs_stats` is filled by putting each language's statistics in turn, one fresh loop per language. When a loop cannot finish, the run is reported incomplete and the languages before it are kept. |
| SjFetch.StepEffect | main.py:112-124 | A page advances `page` by exactly 1, takes `found` from `total`, and adds exactly the page's usable estimates to the sum and the count. |
| SjFetch.Drive | main.py:97-126 | The loop never makes more requests than there are replies; an unfinished loop has used them all, and a finished one made at least one request. |
| SjFetch.RequestPattern | main.py:97-126 | The first request asks for the starting page. After an error the next request asks for the same page again; after a success it asks for the next page. |
| SjFetch.Accounting | main.py:109-124 | The final state is the start advanced by exactly the consumed replies: `page` by the successes, the count and sum by their usable estimates (an error accumulates nothing), and `found` from the last success's `total`. |
| SjFetch.Ending | main.py:122-126 | A finished loop ended on a successful page with `more` false, and `found` is that page's `total`. Every earlier successful page had `more` true. |
| SjFetch.SinglePage | main.py:97-126 | When the first successful page has `more` false, the loop finishes after exactly one successful request, having asked for the starting page through any errors before it. |
| SjFetch.SalaryNonNegative | main.py:120 | With non-negative payments in every reply, the running sum stays non-negative. |
| SjFetch.AverageNonNegative | main.py:128 | With non-negative payments in every reply, the language's average is a non-negative integer. |
| SjFetch.FetchLanguage | main.py:92-126 | The loop over a reply sequence computes exactly `Drive` from the fresh starting values. |
| SjFetch.Collect | main.py:91-134 | At most one set of statistics per language, and one per language when every loop finished. |
| SjFetch.FreshPerLanguage | main.py:91-92 | The sum and the count are reset per language (for `found` see the `SjFetch.FetchLanguage` line under Left out): each language's statistics are those of a loop started afresh where its requests began. The first language begins at the first reply, and each later one where the previous language's loop stopped. |
| SjFetch.FreshAt | main.py:91-92 | The same for the `i`-th language of a collection. |
| SjFetch.NextStart | main.py:91-98 | The language after the `i`-th begins at the reply right after the `i`-th language's last request. |
| SjFetch.FindStatistics | main.py:84-136 | `jobs_stats` is filled by putting each language's statistics in turn, one fresh loop per language. When a loop cannot finish, the run is reported incomplete and the languages before it are kept. |
| Report.CreateJobsTable | main.py:139-144 | The table is the header row and then exactly one row `[language, found, processed, average]` per `jobs_stats` entry, in the dict's order. |
| Report.TableInInputOrder | main.py:140-144 | For a `jobs_stats` filled from distinct languages, table row `k + 1` is the `k`-th input language with its statistics. |

## Left out

- HTTP requests, `raise_for_status`, JSON decoding, `time.sleep`,
  `load_dotenv`, `os.environ`, the date arithmetic and `print`. These are
  I/O. The server's replies are a parameter: a finite sequence of
  `HttpError` or decoded pages.
- The query parameters (search text, town, date, page size, catalogue).
  Replies do not depend on them in the model, and each request records
  only the `page` it sends.
- An endpoint that fails forever. The loops retry indefinitely, but a
  finite reply sequence cannot express that. A run that uses up the
  replies is reported as incomplete.
- Rendering the table with `SingleTable(...)` (main.py:145-146). The
  library's output format is not part of this model; only `table_data`
  is.
- Floating point. Estimates and sums are exact `real`s where Python rounds
  `* 1.2`, `* 0.8` and `/` to doubles.
- Exceptions other than the retried HTTP error: connection errors, and
  missing keys (`pages`, `items`, `found`, `objects`, `total`, `more`,
  `from`, `to`, `currency`). These crash the program. The records always
  carry every field.
- Salary.CalculateAvgSalary: the `TypeError` raised by `None * 1.2` (a
  falsy upper bound with a missing lower one) is excluded by the
  precondition `Computable`. The fetch methods require it of every HH
  vacancy in local currency.
- A salary block that is present but empty (`{}`), which
  `vacancy.get('salary')` treats as absent. The model has only present or
  missing blocks.
- SJ payments that are `None`. The model takes them as integers, as the
  code compares them with 0 and passes them on unchanged.
- SjFetch.FetchLanguage: main.py:92 does not reset `vacancies_found`. It
  is unbound for the first language, and later languages start with the
  previous language's total until their first successful page. The model
  starts every language at 0, and no finished run shows the difference
  (`SjFetch.Ending`).
- Both boards' per-language statistics are the triple
  `(vacancies_found, vacancies_processed, average_salary)` in the order the
  dict literal lists them. The dict-valued inner record is not modelled
  separately.
- The SJ bounds are not swapped. The code passes `payment_from` as the
  lower bound and `payment_to` as the upper one (main.py:116, main.py:31),
  and the model follows the code.
