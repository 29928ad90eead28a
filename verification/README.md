# Search keyword performance job, modelled in Dafny

The job in `com/sailendra/data/Analytics.py` is a PySpark ETL run over a hit-data feed.
It reads the tab-separated hit rows of an online shop. For every hit that came from an
external search engine and led to a purchase, it works out the search engine's domain,
the search keyword and the revenue. It then reports the revenue per
(domain, keyword), largest first.

This project models that transformation as pure functions over finite sequences of rows.
It proves what each stage promises and what the whole job promises.

- `Hit` is the projection of a feed row to `product_list`, `ip`, `referrer` and
  `event_list` (Analytics.py:56). The nullable columns are `Option`s.
- `PathFormat.Format` escapes the special characters of the input file name.
- `Referrals.FetchExternalSources` keeps the hits whose referrer host does not end with
  `esshopzilla.com`. Segment 2 of `split(referrer, '/')` is the host.
- `Revenue.CalculateTotalRevenue` selects purchase hits (`event_list` exactly `1`). It
  splits each product list into `,`-separated entries and each entry into `;`-separated
  fields. Field 3 is read as an exact decimal (`Decimals`), and only positive totals
  are kept. Every Python exception is a `RevenueError`, and any one of them aborts
  the run:
  - `TypeError` on a null product list;
  - `IndexError` on too few fields;
  - `InvalidOperation` on a malformed number;
  - `KeyError` from the loop's second `del`.
- `Keywords.FindKeyword` extracts the keyword, as follows.
  - It takes the text after the first `q=` and the text after the first `p=`.
  - Each text is cut at `&`, at the next marker, or at the end, and a missing marker
    becomes `-`.
  - The two parts are concatenated, every `-` is deleted and the result is lower-cased.
- `Joins.JoinTheDfs` is the inner join on `ip`, with fan-out and no deduplication.
- `Aggregate.SortByRevenue` groups by (domain, keyword), sums each group, and sorts
  by descending sum.
- `Analytics.Pipeline` chains the stages as the job's main block does.
  - `Analytics.PipelineIntended` is the same chain with the revenue loop corrected.
  - Both are `Analytics.RunPipeline` applied to a `RevenueMode`.

The Spark and Python primitives the job relies on are written out in `Strings`:
- literal-delimiter `split`, which keeps empty segments;
- array indexing that yields null out of range;
- `substring_index(s, c, 1)`;
- `rfind`;
- `LIKE '%suffix'`;
- ASCII `lower`;
- `regexp_replace(s, '-', '')`.

Three properties of the code shape the model:
- `split(referrer, '/')[2]` is the whole host segment, so the domain of
  `https://www.google.com/...` is `www.google.com`.
- `sort(desc('Revenue'))` fixes no order among groups with equal revenue. The model
  proves sortedness and that the rows are a permutation, not stability.
- The revenue loop as written cannot get past a purchase that lists two products.
  See Findings.

## Model

| member | source | states |
|---|---|---|
| PathFormat.Format | com/sailendra/data/Analytics.py:28-34 | An empty file name (empty location, or a location ending in `/`) gives `""`. Otherwise the folder part up to the last `/` is copied unchanged and is followed by exactly the escaped file name, which unescapes to the original name and is longer by one backslash per special character. |
| PathFormat.UnescapeEscape | com/sailendra/data/Analytics.py:32 | Removing the inserted backslashes recovers the file name, including backslashes that were in it. |
| PathFormat.Escape | com/sailendra/data/Analytics.py:32 | The escaped name is longer than the name by exactly the number of special characters in it. |
| PathFormat.EscapeAt | com/sailendra/data/Analytics.py:32 | The `i`-th character of the name lands at position `i` plus the number of special characters before it. A special character is preceded there by exactly one backslash, and any other character is copied unchanged. |
| PathFormat.EscapeAppend | com/sailendra/data/Analytics.py:32 | `translate` works character by character: escaping a concatenation is the concatenation of the escaped parts. |
| PathFormat.FolderEnd | com/sailendra/data/Analytics.py:31 | The folder part ends just after a `/`, and no `/` follows it. |
| Strings.LastSegmentAfterRFind | com/sailendra/data/Analytics.py:29-31 | `split('/')[-1]` is the text after `rfind('/') + 1`, so the name whose emptiness decides the result and the name that is escaped are the same text. |
| Strings.Split | com/sailendra/data/Analytics.py:69 | Splitting yields at least one segment, the segments joined by the delimiter give back the input, and no segment contains the delimiter. |
| Strings.At | com/sailendra/data/Analytics.py:111-113 | An array index yields a value exactly when it is in range, and then yields that element. |
| Strings.SubstringIndex1 | com/sailendra/data/Analytics.py:115-118 | `substring_index(s, '&', 1)` is a prefix of `s` without `&`, followed in `s` by `&` or by nothing. |
| Strings.RemoveAll | com/sailendra/data/Analytics.py:125-127 | Deleting `-` leaves no `-` and keeps every other character's count. |
| Strings.Lower | com/sailendra/data/Analytics.py:124 | Lower-casing keeps the length, maps each character on its own, and leaves no upper-case ASCII letter. |
| Referrals.Domain | com/sailendra/data/Analytics.py:62 | The host is present exactly when the referrer is non-null and has at least three `/`-segments. It never contains `/`. |
| Referrals.FetchExternalSources | com/sailendra/data/Analytics.py:62 | Every row carries the `ip` and `referrer` of an input hit unchanged and that hit's host as domain. No domain ends with `esshopzilla.com`. There are never more rows than hits. Each row occurs exactly as many times as there are hits that pass the filter and select it, so nothing is deduplicated. |
| Referrals.ExternalSourcesComplete | com/sailendra/data/Analytics.py:62 | Every hit that passes the filter yields its row. |
| Referrals.NoHostNoRow | com/sailendra/data/Analytics.py:62 | Every row's referrer has at least three `/`-segments and its domain is segment 2, so null referrers and host-less referrers are absent. |
| Decimals.Parse | com/sailendra/data/Analytics.py:83 | Whatever `Parse` accepts is a well-formed literal that prints back to exactly `text`. |
| Decimals.ParseRender | com/sailendra/data/Analytics.py:83 | Every well-formed literal is read back from its own text. |
| Decimals.ParseAcceptsExactlyLiterals | com/sailendra/data/Analytics.py:83 | The parser accepts a text exactly when it is the text of a well-formed literal. |
| Decimals.ValueBounds | com/sailendra/data/Analytics.py:83 | A literal's value lies between its integer part and the next integer, on the side its sign gives. |
| Revenue.EntryRevenue | com/sailendra/data/Analytics.py:82-83 | An entry yields a value exactly when it has a fourth `;`-field that is a decimal literal, and then the value of that literal. Fewer than four fields raise `IndexError`, and an unreadable fourth field raises `InvalidOperation`. |
| Revenue.AsWrittenLoop | com/sailendra/data/Analytics.py:79-86 | From entry `i` on, the loop as written succeeds exactly when no entry is left, or when one readable entry is left and the key is still present. It then appends one row carrying the running total. An unreadable entry raises its own error, and a readable entry after the key was deleted raises `KeyError`. |
| Revenue.AllValues | com/sailendra/data/Analytics.py:81-83 | The entry loop gives every entry's value when all are readable. Otherwise it fails with the error of the first unreadable entry, and all entries before it are readable. |
| Revenue.RunningTotalIsSum | com/sailendra/data/Analytics.py:80-83 | The running-total fold adds exactly the sum of the entries' revenues to its start value, or fails with their first error. |
| Revenue.RunningTotalAfter | com/sailendra/data/Analytics.py:80-84 | Whenever the first `k` entries are readable, whatever follows them, the running total after those `k` entries is the exact decimal sum of their field 3. |
| Revenue.AsWrittenRow | com/sailendra/data/Analytics.py:78-86 | As written, a product list succeeds exactly when it has one entry and that entry is readable, and it then yields that one row. An unreadable first entry raises its own error, and two readable entries raise `KeyError`. |
| Revenue.AsWrittenAgreesWhenItSucceeds | com/sailendra/data/Analytics.py:78-86 | Wherever the code as written succeeds, it yields the same row as the corrected code. |
| Revenue.TwoReadableEntries | com/sailendra/data/Analytics.py:81-86 | With two readable entries, the code as written raises `KeyError` while the corrected row carries the sum of both revenues. |
| Revenue.TwoEntriesAbortAsWritten | com/sailendra/data/Analytics.py:83-85 | A purchase hit with the product list `first,second` of two readable entries aborts the job as written. Corrected, it yields one row carrying the sum of both revenues. |
| Revenue.IntendedRowIsSum | com/sailendra/data/Analytics.py:80-86 | The corrected row is one row per purchase carrying the exact sum of all entries, or the first entry's error. |
| Revenue.Positive | com/sailendra/data/Analytics.py:97 | The kept rows are exactly the input rows with revenue above 0, each as many times as it occurs in the input. |
| Revenue.CollectCount | com/sailendra/data/Analytics.py:78-86 | Collecting the purchase rows keeps each row as many times as the hits yield it. |
| Revenue.CalculateTotalRevenue | com/sailendra/data/Analytics.py:65-99 | It succeeds exactly when no purchase hit raises; otherwise it returns no rows at all, only the error of the first purchase hit that raises. On success every row has revenue above 0 and comes from a purchase hit. Each positive row occurs exactly as many times as the purchase hits yield it, so two purchases with the same `ip` and revenue give two rows. |
| Revenue.AsWrittenNeedsSingleEntries | com/sailendra/data/Analytics.py:78-86 | As written, a successful run implies that every purchase hit has a non-null product list with exactly one entry. |
| Revenue.AsWrittenRowSucceeds | com/sailendra/data/Analytics.py:78-86 | As written, a purchase hit yields its rows exactly when its product list is present and is one readable entry. |
| Revenue.IntendedRowSucceeds | com/sailendra/data/Analytics.py:78-86 | Corrected, a purchase hit yields its row exactly when its product list is present and every entry is readable. |
| Keywords.MarkerPart | com/sailendra/data/Analytics.py:109-118 | The part is null exactly when the referrer does not contain the marker. A non-null part contains no `&`. |
| Keywords.MarkerPartFollowsFirstMarker | com/sailendra/data/Analytics.py:109-118 | The part is the text after the first occurrence of the marker, up to the first `&`, the next marker or the end, and it contains no marker. |
| Keywords.Keyword | com/sailendra/data/Analytics.py:109-129 | A keyword never contains `-`, `&` or an upper-case ASCII letter. Its value in each marker case is given by `Keywords.KeywordSingleConvention`. |
| Keywords.KeywordSingleConvention | com/sailendra/data/Analytics.py:109-129 | When only one marker occurs, the keyword is that marker's part, de-hyphenated and lower-cased. When both occur, it is the cleaned `q=` part followed by the cleaned `p=` part, with no separator, so `q=ab&p=c` and `q=a&p=bc` give the same keyword. When neither occurs, the keyword is empty. |
| Keywords.FindKeyword | com/sailendra/data/Analytics.py:103-131 | There is exactly one keyword row per external-source row, in order, with the same `ip`, carrying the keyword of its referrer. |
| Joins.JoinTheDfs | com/sailendra/data/Analytics.py:135-136 | A `(revenue, domain, keyword)` row is in the result exactly when some external-source row carries that domain for an `ip` that has that revenue and that keyword. Its rows are the rows of `JoinOnIp` one for one with `ip` dropped, so the multiplicity and count lemmas below describe the result. |
| Joins.JoinMultiplicity | com/sailendra/data/Analytics.py:136 | A joined row `(ip, revenue, domain, keyword)` occurs the product of the multiplicities of `(ip, revenue)`, `(ip, domain)` and `(ip, keyword)` in the three inputs. |
| Joins.JoinMembership | com/sailendra/data/Analytics.py:136 | A joined row exists exactly when its `ip` pairs its revenue, its domain and its keyword in all three inputs. |
| Joins.JoinIpCount | com/sailendra/data/Analytics.py:136 | The number of joined rows for an `ip` is the product of its row counts in the three inputs. |
| Aggregate.GroupBy | com/sailendra/data/Analytics.py:141 | There is one row per distinct (domain, keyword), with exactly the keys of the joined rows. Each key's revenue is the sum over its joined rows, and the total is kept. |
| Aggregate.SortDesc | com/sailendra/data/Analytics.py:141 | The result is sorted by non-increasing revenue and is a permutation of its input. |
| Aggregate.SortKeeps | com/sailendra/data/Analytics.py:141 | Sorting keeps the keys, their distinctness, each key's revenue and the total. |
| Aggregate.SortByRevenue | com/sailendra/data/Analytics.py:140-141 | The report has one row per distinct (domain, keyword) of the joined rows, sorted by non-increasing revenue, with per-key sums and the grand total equal to the joined rows'. |
| Aggregate.ReportRowIsGroupSum | com/sailendra/data/Analytics.py:141 | Every report row carries exactly the summed revenue of its group, and its key occurs among the joined rows. |
| Aggregate.ReportPositive | com/sailendra/data/Analytics.py:141 | When all joined revenues are positive, every reported group's revenue is positive. |
| Analytics.RunPipeline | com/sailendra/data/Analytics.py:160-184 | The job succeeds exactly when no purchase hit raises, and otherwise fails with a purchase hit's error. A report has distinct keys and is sorted by non-increasing revenue. |
| Analytics.Pipeline | com/sailendra/data/Analytics.py:160-184 | The job as written produces a report exactly when every purchase hit has a product list that is one readable entry. The report has distinct keys and is sorted by non-increasing revenue. |
| Analytics.PipelineIntended | com/sailendra/data/Analytics.py:160-184 | With the loop corrected, the job produces a report exactly when every purchase hit has a product list whose entries are all readable. The report has distinct keys and is sorted by non-increasing revenue. |
| Analytics.JoinedRowOrigin | com/sailendra/data/Analytics.py:172-181 | Every joined row has positive revenue, a domain from an external-source row of its `ip`, and the keyword of such a row. |
| Analytics.ReportRowShape | com/sailendra/data/Analytics.py:160-184 | Every report row has positive revenue, a domain that does not end with `esshopzilla.com`, and a keyword without `-` or `&`. |
| Analytics.ReportSummarisesJoin | com/sailendra/data/Analytics.py:181-184 | The report's keys, per-key sums and grand total are those of the joined rows. |
| Analytics.JobJoinFanOut | com/sailendra/data/Analytics.py:172-181 | Keyword rows are derived one per external-source row, so an `ip` with `m` revenue rows and `n` external-source rows yields `m * n * n` joined rows. |

## Left out

- Spark session creation and the TSV read with its schema, `cache` and temporary view
  (Analytics.py:25, 37-59). The model starts from the projected rows, and the
  `nullable=False` declarations are not enforced. `ip` is never null in the model, so
  `fillna('-')` touches only the two keyword parts.
- `save_to_s3` (Analytics.py:144-156): the S3 write, the current date in the file
  name, and the read-back.
- The deployment scripts (`serverless-deployment-script.py`, `Hit_Data_Lambda.py`).
  They only call the EMR and S3 APIs with fixed cluster settings.
- Decimals.Parse: accepts only `[+-]?digits(.digits)?`. Python's `Decimal` also accepts
  surrounding whitespace, `1.`, `.5`, exponents, `NaN` and `Infinity`; here those are
  `InvalidDecimal` errors.
- Revenue.CalculateTotalRevenue: revenue stays exact. The model leaves out Python's
  28-digit decimal context and Spark's coercion into `DecimalType()` (precision 10,
  scale 0, Analytics.py:91), which can round a fractional total and change whether it
  passes `Revenue > 0`. Spark's precision rules for `sum` are left out for the same
  reason.
- Strings.Lower: maps ASCII letters only. Spark's `lower` uses full Unicode case
  mapping.
- Aggregate.SortByRevenue: builds one particular order of groups and of equal sums.
  Spark fixes neither, so the contracts speak only of keys, sums, sortedness and
  permutation, and say nothing about stability.
- Joins.JoinTheDfs: the order of joined rows is one particular order. Spark's is not
  fixed, and the contracts speak of membership, multiplicities and counts only.
- Partitioning, laziness and caching: the model evaluates the stages in the order of
  the main block. In the job, the revenue loop runs eagerly at `collect()`, so its
  errors abort the run before any report exists.

## Findings

| source | as written | input that shows it | evidently intended | confidence | as-written member | corrected member |
|---|---|---|---|---|---|---|
| com/sailendra/data/Analytics.py:85 | `del temp['split_product_list']` runs on every pass of the entry loop over one purchase row. The second pass deletes a key that is already gone and raises `KeyError`, which aborts the whole job. | a purchase hit (`event_list` = `1`) whose `product_list` is `a;b;c;12.00,d;e;f;8.00` | one revenue row for the hit carrying the sum over all its entries (20.00) | high; not executed | Revenue.TwoEntriesAbortAsWritten | Revenue.IntendedRowIsSum |

`Revenue.AsWrittenRow` characterises the code as written: a purchase succeeds only with
exactly one readable product entry. `Analytics.PipelineIntended` runs the whole job
with the corrected loop. The job as written is `Analytics.Pipeline`. The join, the
aggregation and every lemma about `Analytics.RunPipeline` are stated for both revenue
modes, so they hold of the corrected job as well as of the job as written.
