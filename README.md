# Incremental-load watermark of the COVID-19 data loader

The data loader downloads two CSV feeds, merges them and writes the new rows
to the DynamoDB table `covidData`. Before writing, it scans the table and
derives two values from the scan response:

- `tableIsEmpty`: the response's `Count` is zero;
- `getLatestRecordDate`: the latest `date` already stored. On a non-empty
  table it sorts the response's `Items` list in place, newest first by
  `date`, and returns the head's `date`. On an empty table it returns
  `None` and leaves `Items` alone.

`main` passes both values to the load step as `latestDate` and `intialLoad`.

This project models those three pieces:

- `date_order.dfy`, module `DateOrder`. Python's `<=` on strings is defined
  as lexicographic order by code point. It is proved to be a total order.
  It is also proved to be chronological order on `YYYY-MM-DD` strings.
- `watermark.dfy`, module `Watermark`.
  - A scan response is the value `ScanResponse(count, items)`.
  - `LatestRecordDate` and `LoadParametersOf` are the pure specifications.
  - The in-place sort is `SortByDateDescending`, an insertion sort on an
    `array`. `GetLatestRecordDate` and `DeriveLoadParameters` are the
    imperative versions. They mutate the `Items` array and are proved
    equal to the specifications.

A response with `Count != 0` and an empty `Items` makes the source read
`items[0]` of an empty list and raise `IndexError`. `main`'s bare `except`
catches it, so the load step never runs. The model returns
`Err(IndexError)` in that case. It does not exclude the case by a
precondition.

## Model

| member | source | states |
|---|---|---|
| `Watermark.TableIsEmpty` | 2020-09/app/dataloader/covid-data-etl.py:41-42 | holds exactly when `Count` is 0; relied on by `LatestRecordDate` (the result is `None` exactly when `TableIsEmpty` holds) and by `LoadParametersOf` (`intialLoad` holds exactly when `Count` is 0) |
| `Watermark.LatestRecordDate` | 2020-09/app/dataloader/covid-data-etl.py:41-51 | the result is `None` exactly when `Count` is 0; it is `IndexError` exactly when `Count` is non-zero and `Items` is empty; otherwise it is the date of some item, and no item is dated later |
| `Watermark.LatestRecordDateIsTheLatest` | 2020-09/app/dataloader/covid-data-etl.py:45-49 | on a non-empty table, every date that belongs to an item and is not older than any item is the returned date: the result is exactly the maximum |
| `Watermark.LatestIsUnique` | 2020-09/app/dataloader/covid-data-etl.py:47-49 | two dates that are each the latest date of the same items are equal |
| `Watermark.MaxDate` | 2020-09/app/dataloader/covid-data-etl.py:47-49 | on non-empty items, the result is the date of some item and no item's date is greater |
| `Watermark.HeadOfDescendingIsLatest` | 2020-09/app/dataloader/covid-data-etl.py:47-49 | the head of a list sorted newest first carries the latest date of the list |
| `Watermark.PermutationKeepsLatest` | 2020-09/app/dataloader/covid-data-etl.py:46-47 | reordering the items keeps the same latest date, so sorting in place cannot change the answer |
| `Watermark.SortByDateDescending` | 2020-09/app/dataloader/covid-data-etl.py:47 | afterwards the array is ordered newest first by `date` and holds the same records as before |
| `Watermark.GetLatestRecordDate` | 2020-09/app/dataloader/covid-data-etl.py:44-51 | returns what `LatestRecordDate` gives for the response as it was before the call; on an empty table `Items` is unchanged; otherwise `Items` is left as a newest-first permutation of itself |
| `Watermark.LoadParametersOf` | 2020-09/app/dataloader/covid-data-etl.py:72-74 | the derivation fails exactly when `getLatestRecordDate` raises; otherwise `intialLoad` holds exactly when `latestDate` is `None`, and exactly when `Count` is 0, and a present `latestDate` is the latest date of the items |
| `Watermark.DeriveLoadParameters` | 2020-09/app/dataloader/covid-data-etl.py:71-73 | calling `getLatestRecordDate` and then `tableIsEmpty` on the live response gives `LoadParametersOf` of the response as it was before, with `Items` sorted as `GetLatestRecordDate` leaves it |
| `DateOrder.DateLeReflexive` | 2020-09/app/dataloader/covid-data-etl.py:47 | every date string is `<=` itself |
| `DateOrder.DateLeAntisymmetric` | 2020-09/app/dataloader/covid-data-etl.py:47 | two strings each `<=` the other are equal |
| `DateOrder.DateLeTransitive` | 2020-09/app/dataloader/covid-data-etl.py:47 | `<=` on strings is transitive |
| `DateOrder.DateLeTotal` | 2020-09/app/dataloader/covid-data-etl.py:47 | any two strings are comparable |
| `DateOrder.DateLtIsStrict` | 2020-09/app/dataloader/covid-data-etl.py:47 | `a < b` holds exactly when `a <= b` and `a != b` |
| `DateOrder.IsoDateOrderIsChronological` | 2020-09/app/dataloader/covid-data-etl.py:47 | on `YYYY-MM-DD` strings, string order is order by year, then month, then day, so the greatest string is the latest day |

## Left out

- `getRemoteFile`, `cleanupFiles`, `setupLogger` and every logging call: HTTP download, filesystem and logging I/O.
- `getTableScanResponse` and the `boto3` resource: the DynamoDB scan is a parameter of the model. The source reads only the first page of the scan and does not follow pagination. So the watermark is the latest date of that page only, and the model computes exactly that.
- `transform.mergeCsvFiles` and `load.load_data`: `transform` and `load` are not part of this model. So the merge on (date, region), the selection of rows newer than `latestDate` and the upsert are not modelled.
- `main`'s `try`/`except`/`finally` and `event_handler`: control flow and environment variables. The one error the model keeps, `IndexError`, is the `Err` result of `LatestRecordDate`; the sort's `KeyError` and `TypeError` are left out below.
- Watermark.SortByDateDescending: does not state that the sort is stable. Python's sort keeps records with equal dates in their original order. No caller reads past the head's `date`, so only the newest-first order and the permutation are stated.
- An item without a `date` attribute, which makes the sort's key function raise `KeyError`: the model takes every stored record to carry a `date` attribute.
- `date` values that are not strings, which make the sort raise `TypeError` when compared with a string: the model takes `date` to be a string, as the table stores it.
