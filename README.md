# morgagestats in Dafny

`morgagestats.py` is a batch script. It fetches a feed of Norwegian mortgage
offers. For each offer it computes an effective annual rate from the nominal
rate and two fees, on a fixed notional principal of 2,000,000. It groups the
offers by fixed-rate commitment period into the buckets 0 (variable or
unknown), 3, 5 and 10 years, and averages the nominal and effective rates per
bucket and over all loans. It then publishes nine fields (eight means and a
"last updated" date in Norwegian) to a CMS record.

This project models the computational middle of the script.

- `effective_rate.dfy` (module `Rates`): the effective-rate formula over exact reals, with its algebra.
- `statistics.dfy` (module `Statistics`): sum and arithmetic mean, with bounds and monotonicity.
- `buckets.dfy` (module `Buckets`): the entry loop that fills the `rates` dictionary.
  - `CollectRates` is a method with a loop, proved equal to the fold `RatesOf`.
  - `RatesOf` is tied to an independent description. Each bucket holds the parsed offers whose period files under it, filtered from the feed in order.
  - This module also holds the flattened all-loans lists.
- `dates.dfy` (module `Dates`): the month-name table and the "last updated" text. A parser for the text serves as its inverse.
- `publish.dfy` (module `Publish`): the reported means, where an empty bucket ends the run. It also holds the nine-field record and the run as a whole, `Run`.
- `wrappers.dfy` (module `Wrappers`): `Option` and `Result`.

An entry of the feed is a `RawEntry` with four fields. Each field is `None`
when the script's lookup-and-convert fails, and `Some(x)` when it succeeds.
The script reads all four fields before it appends anything. So an entry with
any field missing leaves the table untouched, and the model proves this.

Facts of the code that the model pins down:

- The date text starts with `Sist oppdatert: ` (line 79).
- Two three-year offers at 5 % and 6 %, each with a term fee of 100, have effective rates 5.06 and 6.06. The script averages them, so the three-year means are 5.5 % nominal and 5.56 % effective. `Publish.ThreeYearMeansExample` proves both.
- A failed fetch or a failed publish only prints a message (lines 113-117). The script sets no exit status there, and those paths are not modelled.
- An empty bucket raises an uncaught `StatisticsError` at lines 71-74. That ends the run before anything is published. `Report` models this as `Failure(EmptyBucket(k))`, where `k` is the first empty bucket in the order 0, 3, 5, 10.
  - Bucket 0 must be non-empty too, although its means are never published.

## Model

| member | source | states |
|---|---|---|
| `Rates.EffectiveRateOn` | morgagestats.py:21-25 | On any non-zero principal L, the formula equals nominal + (12·termFee + setupFee)·100/L. |
| `Rates.EffectiveRate` | morgagestats.py:21-25 | On the default principal 2,000,000 it equals nominal + (12·termFee + setupFee)/20000. It equals the nominal rate when both fees are zero, and is at least the nominal rate when both fees are non-negative. |
| `Rates.EffectiveRateMonotone` | morgagestats.py:22-24 | A larger term fee or origination fee never gives a smaller effective rate. |
| `Rates.EffectiveRateExample` | morgagestats.py:21-25 | 5 % with a term fee of 100 gives 5.06 %, and 6 % with the same fee gives 6.06 %. |
| `Statistics.Mean` | morgagestats.py:71-75 | Defined only on non-empty lists. The mean times the length is the sum. |
| `Statistics.MeanBounds` | morgagestats.py:71-75 | If every element lies in [lo, hi], so does the mean. |
| `Statistics.MeanMonotone` | morgagestats.py:71-75 | Of two equally long lists, the one that is smaller at every position has the smaller mean. |
| `Buckets.Parse` | morgagestats.py:50-54 | An entry is usable exactly when all four of its fields parsed, and the offer carries those four values. |
| `Buckets.BucketKey` | morgagestats.py:58-59 | Periods 3, 5 and 10 keep their bucket. Every other period, 0 and 99 included, goes to bucket 0. The result is always one of the four keys. |
| `Buckets.InitialTable` | morgagestats.py:44-47 | The table starts with the keys 0, 3, 5 and 10, and every list empty. |
| `Buckets.Absorb` | morgagestats.py:50-62 | One iteration of the loop. A failed parse leaves the table unchanged. Otherwise only the bucket the period files under grows, by the offer's nominal rate and its computed effective rate. The keys and the equal-length invariant are kept. |
| `Buckets.RatesOf` | morgagestats.py:44-65 | After any sequence of entries, the table has exactly the four keys, and each bucket's two lists have equal length. |
| `Buckets.CollectRates` | morgagestats.py:44-65 | The script's loop: parse the four fields, compute the effective rate, fold an unknown key into 0, and append to both lists. Its result is `RatesOf(entries)`. |
| `Buckets.ExpectedStep` | morgagestats.py:56-62 | One step of the loop keeps a bucket equal to its reference description, the filtered parsed offers. |
| `Buckets.RatesOfContents` | morgagestats.py:49-65 | Bucket k holds exactly the nominal rates and the effective rates of the parsed offers whose period files under k, in feed order. |
| `Buckets.SkippedEntryLeavesTable` | morgagestats.py:50-65 | An entry with any unreadable field leaves the whole table unchanged. |
| `Buckets.ParsedEntryGrowsOneBucket` | morgagestats.py:56-62 | A parsed entry appends its own nominal rate and effective rate to its bucket. Every other bucket stays as it was. |
| `Buckets.InBucketMembers` | morgagestats.py:58-62 | An offer is in bucket k's reference list exactly when it was parsed and its period files under k. |
| `Buckets.AllNominal` | morgagestats.py:68 | The all-loans nominal list is buckets 0, 3, 5 and 10 laid end to end. Its length is the sum of the four bucket sizes. |
| `Buckets.AllEffective` | morgagestats.py:69 | The all-loans effective list has the same layout and the same length as the nominal one. |
| `Buckets.Flatten` | morgagestats.py:68-69 | A value is in the flattened list exactly when it is in one of the parts. |
| `Buckets.AllLoansAligned` | morgagestats.py:68-69 | Both all-loans lists follow the parsed offers bucket by bucket, in feed order inside each bucket, so position i of each list is a rate of the same offer. |
| `Buckets.PartitionValues` | morgagestats.py:58-69 | Filing offers into the four buckets and laying the buckets end to end keeps every value exactly once (as a multiset), and keeps the sum. |
| `Buckets.FlattenGrow` | morgagestats.py:61-69 | Appending v to one bucket adds exactly v to the flattened list, as a multiset and to its sum. |
| `Buckets.AllLoansCoverEveryOffer` | morgagestats.py:68-69 | The all-loans lists contain every parsed offer's rates exactly once. Their length is the number of parsed entries, and their sums are the sums over all parsed offers. |
| `Buckets.BucketNonEmptyIff` | morgagestats.py:58-62 | Bucket k is non-empty exactly when some parsed offer files under k. |
| `Buckets.ThreeYearExample` | morgagestats.py:56-62 | Two three-year offers (5 % and 6 %, term fee 100) both land in bucket 3 with effective rates 5.06 and 6.06. The other buckets stay empty. |
| `Buckets.UnknownPeriodExample` | morgagestats.py:58-62 | An offer with period 99 is filed under bucket 0 and not dropped. |
| `Dates.NatToDecimal` | morgagestats.py:79 | Printing a day or a year gives decimal digits only, with no leading zero. |
| `Dates.DecimalRoundTrip` | morgagestats.py:79 | Reading the printed digits back returns the number. |
| `Dates.MonthName` | morgagestats.py:33-36 | Month m (1 to 12) names an entry of the twelve-name table. |
| `Dates.MonthNumber` | morgagestats.py:33-36 | A name maps back to a month m exactly when it is in the table, and then `MonthName(m)` is that name. |
| `Dates.MonthNamesDistinct` | morgagestats.py:33-36 | The twelve month names are pairwise distinct. |
| `Dates.MonthRoundTrip` | morgagestats.py:33-36 | Looking up the name of month m gives back m, so the lookup `norwegian_months[month - 1]` is one-to-one on 1..12. |
| `Dates.LastUpdated` | morgagestats.py:79 | The date text starts with the fixed lead-in `Sist oppdatert: `. |
| `Dates.LastUpdatedRoundTrip` | morgagestats.py:79 | The date text determines the day, month and year it was built from. |
| `Publish.Report` | morgagestats.py:71-75 | The means fail exactly when some bucket is empty, and the error names the first empty bucket in the order 0, 3, 5, 10. On success, each bucket's means and the all-loans means are the means of the corresponding lists. |
| `Publish.Payload` | morgagestats.py:82-94 | The record's field data has exactly the field table's names, nine of them, and none of them publishes a mean of bucket 0. |
| `Publish.FieldLookup` | morgagestats.py:83-93 | The field table holds the nine listed names, each mapped to its listed source. |
| `Publish.FieldCount` | morgagestats.py:83-93 | The record has exactly nine distinct field names. |
| `Publish.FieldsPublish` | morgagestats.py:84-92 | The fields publish exactly these statistics: both means of buckets 3, 5 and 10, both all-loans means, and the date. |
| `Publish.FieldsOneToOne` | morgagestats.py:84-92 | No statistic is published under two names. |
| `Publish.FieldsOmitBucketZero` | morgagestats.py:84-91 | No field publishes a mean of bucket 0. |
| `Publish.PayloadNamedFields` | morgagestats.py:88-92 | `gjsnitt-nominell-rente` and `gjsnitt-effektiv-rente` hold the all-loans means, and `sist-oppdatert` holds the date text. |
| `Publish.Run` | morgagestats.py:44-94 | The run publishes exactly when every bucket is non-empty. A failed run names a bucket that is empty. A published record has exactly the nine field names. |
| `Publish.RunSucceedsIff` | morgagestats.py:44-94 | The run reaches the publish step exactly when each of the four buckets received at least one parsed offer. |
| `Publish.RunPublishedFields` | morgagestats.py:68-92 | A published record has the nine fields. Its all-loans fields are the means over every parsed offer, whatever its bucket, and its date field is the date text. |
| `Publish.RunBucketFields` | morgagestats.py:84-91 | Each per-bucket field is the mean of that field's rate over the parsed offers filed under its bucket, and that set of offers is non-empty. |
| `Publish.EffectiveMeanAtLeastNominal` | morgagestats.py:71-74 | If no parsed offer has a negative fee, each bucket's effective mean is at least its nominal mean. |
| `Publish.ThreeYearMeansExample` | morgagestats.py:56-72 | The two three-year offers above average 5.5 % nominal and 5.56 % effective. |

## Left out

- HTTP fetch of the feed and its status check (lines 38, 40, 116-117): network I/O. The model starts from the entries of a fetched feed.
- HTTP PATCH of the record and its status branching (lines 100-114): network I/O. `Run` ends with the field data that would be sent.
- XML parsing with BeautifulSoup (lines 41-42, and the `find(...).text` lookups at 51-54): a foreign library. Each field arrives already looked up as an `Option`.
- `float()` and `int()` string conversion (lines 51-54): library parsing. It is abstracted as a field that either parsed (`Some`) or raised `ValueError` or `AttributeError` (`None`).
- IEEE double arithmetic: rates, fees and means are exact `real`s. `Rates.EffectiveRate` therefore does not model floating-point rounding of the formula.
- The `:.2f` formatting of the means (lines 29-30, 84-91): `Publish.Payload` holds the exact mean as a `Number`, not the two-decimal string the script sends.
- `print_averages` and every `print` (lines 27-30, 65, 71-75 output, 96-98, 110-117): console output. The means computed at 71-75 are modelled in `Report`; printing them is not.
- The locale setup (lines 9-13) and credential imports (lines 3, 5): environment glue with no effect on any computed value.
- `datetime.now()` (line 78): the clock. Day, month and year are inputs. The month is required to lie in 1..12, as the clock guarantees, so Python's negative indexing for month 0 is never reached.
- Process exit status: the script never sets one explicitly, beyond the uncaught `StatisticsError`, which `Report` models as `Failure`.
