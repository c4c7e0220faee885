# Customer ids to barcodes — a Dafny model

`customer_ids_to_barcodes.py` reads two tables. The barcodes table holds one
row per ticket barcode, each with an optional `order_id`. The orders table
maps each `order_id` to a `customer_id`. The script writes one row per
`(customer_id, order_id)` listing the barcodes of that order. Along the way
it repairs and reports two kinds of bad data:

- a barcode value that occurs in several records is reduced to one record,
  chosen by the `keep_barcodes_with_order_ids` flag;
- an order that no barcode is assigned to is dropped.

It also logs how many barcodes are unused (no order id) and which customers
bought the most tickets.

This project models that pipeline as pure Dafny functions. Each stage takes
its input as a sequence of records and returns the cleaned data together
with what it reports:

| file | module | stage |
|---|---|---|
| `records.dfy` | `Records` | the records: `BarcodeRecord(barcode, orderId: Option<int>)`, `OrderRecord(orderId, customerId)` and the `(customer_id, order_id)` key |
| `deduplication.dfy` | `Deduplication` | `_remove_duplicate_barcodes`: sort on `order_id` (missing ids last or first, by the flag), keep the first record per barcode, report the rest |
| `unused_barcodes.dfy` | `UnusedBarcodes` | `_log_the_amount_of_unused_barcodes`: `Found(records)` or `NotFound` |
| `join.dfy` | `Join` | `orders_df.join(validated_barcodes_df)` and `_remove_orders_without_barcodes` |
| `grouping.dfy` | `Grouping` | `groupby(["customer_id", "order_id"])` collecting each group's barcodes |
| `ranking.dfy` | `Ranking` | `_log_customers_that_bought_most_tickets`: tickets per customer, ranked, and the head reported |
| `customers_to_barcodes.dfy` | `CustomersToBarcodes` | `_make_customers_to_barcodes_series` and `create_customer_to_tickets_csv` end to end |

pandas' `sort_values` uses an unstable quicksort. The model sorts by
insertion, and its contracts state only what every admissible sort gives:
the result is sorted and is a permutation of the input.
`Deduplication.TieOrderIrrelevant` shows that the arrangement of equal keys
cannot change which records survive deduplication.

Notes on the code:

- **Duplicate report.** The code logs one line per record beyond the first
  of each barcode value (`duplicated(subset=["barcode"])`, lines 68-80).
  A value occurring three times is therefore reported twice.
  `Deduplication.DuplicateBarcodes` models this report.
- **Sorting without duplicates.** The code sorts the barcodes table on
  `order_id` whether or not a barcode repeats (lines 85-86 follow the
  `if` block of lines 70-80). `Deduplication.DistinctInputUnchanged` shows
  that without duplicates the validated table still holds exactly the input
  records. Their order can change: the join lists an order's barcodes in the
  order of the validated table, and grouping keeps that order inside each
  list. Every property proved about the later stages concerns list contents
  (multisets and membership), and these do not depend on that order. The
  order inside a list is not stated.
- **Ranking value.** The code sums the `no_of_tickets` column per customer.
  Under pandas 1.x `groupby(...).sum()` drops the list-valued `barcode`
  column, so the value logged is the ticket count. The model logs that
  count.

## Model

| member | source | states |
|---|---|---|
| Records.DistinctIffCardinality | customer_ids_to_barcodes.py:68-70 | a table has no duplicated barcode exactly when it has as many distinct barcode values as records; otherwise it has fewer |
| Deduplication.OrderIdLe | customer_ids_to_barcodes.py:85-86 | reference definition of the `na_position` order: reflexive; with the flag set a missing id sorts before no present one (missing last), with it cleared no present id sorts before a missing one (missing first) |
| Deduplication.InsertByOrderId | customer_ids_to_barcodes.py:85-86 | inserting a record into a table sorted on order_id keeps it sorted and adds exactly that record |
| Deduplication.SortByOrderId | customer_ids_to_barcodes.py:85-86 | the result is sorted on order_id, with missing ids last when records with ids are preferred and first otherwise, and is a permutation of the input |
| Deduplication.KeepFirstPerBarcode | customer_ids_to_barcodes.py:87-89 | drop_duplicates(keep="first") leaves distinct barcodes, loses no barcode value, and keeps only input records; which records it keeps, and in what order, is stated by KeepFirstSelectsFirstOccurrences |
| Deduplication.FirstOccurrences | customer_ids_to_barcodes.py:87-89 | reference definition: the positions, ascending, of exactly the records whose barcode no earlier record carries |
| Deduplication.KeepFirstSelectsFirstOccurrences | customer_ids_to_barcodes.py:87-89 | drop_duplicates(keep="first") keeps exactly the first record of each barcode value, in table order |
| Deduplication.FirstIsMinimal | customer_ids_to_barcodes.py:82-89 | in a sorted table, each kept record's order id sorts no later than that of any record with the same barcode |
| Deduplication.DistinctKeepsAll | customer_ids_to_barcodes.py:87-89 | without duplicates, drop_duplicates keeps every record in place |
| Deduplication.DuplicateBarcodes | customer_ids_to_barcodes.py:68-80 | the reported values together with one copy of each distinct value are exactly the input's barcodes, as a multiset |
| Deduplication.DuplicateCount | customer_ids_to_barcodes.py:72-73 | the number of reported duplicates is the number of records minus the number of distinct barcode values |
| Deduplication.SurvivorsSortFirst | customer_ids_to_barcodes.py:82-89 | the survivors of sort-then-keep-first are input records covering every barcode value, each sorting first among the records of its barcode |
| Deduplication.DistinctInputUnchanged | customer_ids_to_barcodes.py:85-89 | with no duplicates, the validated table holds exactly the input records |
| Deduplication.RemoveDuplicateBarcodes | customer_ids_to_barcodes.py:64-91 | one record per barcode value, every value kept, only input records; the reported values plus one copy of each distinct value are exactly the input's barcodes as a multiset, so the report has one entry per removed record and is empty exactly when the input is duplicate-free; with the flag set the survivor carries the least order id present, with it cleared the survivor has none if any record of its barcode has none |
| Deduplication.DeduplicationCounts | customer_ids_to_barcodes.py:68-73 | as many survivors as barcode values; as many reported duplicates as removed records; none reported exactly when the input is duplicate-free |
| Deduplication.SurvivorOrderIds | customer_ids_to_barcodes.py:82-85 | sorting first means: least present order id when records with ids are preferred; a missing id when they are not and one exists |
| Deduplication.TieOrderIrrelevant | customer_ids_to_barcodes.py:86-89 | any two sorted arrangements of the same records keep the same records, so the unstable sort's tie order does not matter |
| UnusedBarcodes.Unassigned | customer_ids_to_barcodes.py:98 | selects exactly the records whose order id is missing |
| UnusedBarcodes.Assigned | customer_ids_to_barcodes.py:98 | selects exactly the records that have an order id |
| UnusedBarcodes.UnassignedAssignedPartition | customer_ids_to_barcodes.py:98-99 | unused and assigned records together are the table, as a multiset |
| UnusedBarcodes.AmountOfUnusedBarcodes | customer_ids_to_barcodes.py:94-103 | NotFound exactly when every record has an order id; otherwise Found with the non-empty list of exactly the records without one, whose count plus the assigned count is the table size |
| Join.MatchingBarcodes | customer_ids_to_barcodes.py:109 | the barcodes joined to an order are those of the validated records carrying its id, with multiplicity; empty exactly when none does |
| Join.JoinOrder | customer_ids_to_barcodes.py:109 | an order's joined rows carry its key; one row per assigned barcode, or a single row without barcode exactly when no barcode is assigned |
| Join.LeftJoin | customer_ids_to_barcodes.py:109-110 | every row comes from an order; every row barcode is assigned to that order; a row without barcode means the order has none; every order without barcode and every (order, assigned barcode) pair has its row |
| Join.RemoveOrdersWithoutBarcodes | customer_ids_to_barcodes.py:119-128 | partitions the rows: kept are exactly the rows with a barcode, each as often as in the input, reported are exactly the keys of rows without; sizes add up; nothing reported exactly when nothing is missing, and then the rows are unchanged; no barcode is lost |
| Join.MissingCountsRowsWithoutBarcode | customer_ids_to_barcodes.py:121-126 | each key is logged as many times as the joined rows carry it without a barcode |
| Join.NoneRowOncePerKey | customer_ids_to_barcodes.py:109 | with order_id a key of the orders table, the join has at most one row without barcode per (customer_id, order_id) |
| Join.AssignedBarcodes | customer_ids_to_barcodes.py:109 | reference definition: the validated barcodes whose order id is among the given ids |
| Join.JoinConservesBarcodes | customer_ids_to_barcodes.py:109 | with order_id a key of the orders table, the join carries, as a multiset, exactly the validated barcodes assigned to some order |
| Grouping.GroupKeys | customer_ids_to_barcodes.py:114 | the group keys are exactly the keys of the rows, strictly ascending by customer_id then order_id |
| Grouping.GroupBarcodes | customer_ids_to_barcodes.py:114-116 | a group lists each barcode as often as the rows with that key carry it |
| Grouping.GroupByKey | customer_ids_to_barcodes.py:114-116 | one entry per key, keys strictly ascending, every list non-empty, every list holding exactly its key's barcodes with multiplicity |
| Grouping.GroupConservesBarcodes | customer_ids_to_barcodes.py:114-116 | grouping neither loses nor duplicates a barcode |
| Ranking.TicketsOf | customer_ids_to_barcodes.py:137-140 | reference definition: a customer's summed list lengths; zero for a customer absent from the output, and never more than the number of listed barcodes |
| Ranking.CustomerIds | customer_ids_to_barcodes.py:140 | the groups of groupby(["customer_id"]): the output's customers, strictly ascending |
| Ranking.TicketTable | customer_ids_to_barcodes.py:140 | reference definition of `groupby(["customer_id"]).sum()`: a row is in the table exactly when its customer occurs in the output and it carries that customer's ticket count |
| Ranking.DistinctTable | customer_ids_to_barcodes.py:140 | the per-customer table repeats no row |
| Ranking.InsertByTickets | customer_ids_to_barcodes.py:141-143 | insertion keeps the table ordered by descending count and adds exactly that row |
| Ranking.SortByTicketsDescending | customer_ids_to_barcodes.py:141-143 | the result is ordered by descending count and is a permutation of the table |
| Ranking.RankedRows | customer_ids_to_barcodes.py:137-143 | any permutation of the per-customer table has one row per customer of the output, each with that customer's ticket count |
| Ranking.CustomersThatBoughtMostTickets | customer_ids_to_barcodes.py:131-153 | the ranked table is a permutation of the per-customer counts with one row per customer, in descending order; the reported head has the length of Python's `[:n]`, for negative n too, and no unreported customer has more tickets than a reported one |
| Ranking.SliceEnd | customer_ids_to_barcodes.py:146 | reference definition of Python's `[:n]` end index: never past the end; exactly n when n is below the length and the whole length otherwise, for n >= 0; for n < 0 it drops the last -n rows, or all of them |
| Ranking.LeadingRows | customer_ids_to_barcodes.py:146 | the slice `[:n]` of the ranked table is a prefix of Python's length, for negative n too, that no later row outranks |
| Ranking.TicketTableSize | customer_ids_to_barcodes.py:140 | the per-customer table has as many rows as the output has customers |
| Ranking.TicketTableCountsEveryTicket | customer_ids_to_barcodes.py:137-140 | the per-customer counts add up to the number of barcodes in the output |
| CustomersToBarcodes.MakeCustomersToBarcodes | customer_ids_to_barcodes.py:106-128 | keys ascend strictly and lists are non-empty; every key is an order of the orders table; every listed barcode is a validated barcode of that order; every order with a barcode has an entry; the reported orders are exactly those without a barcode, and with order_id a key each is reported once |
| CustomersToBarcodes.EntriesComeFromOrders | customer_ids_to_barcodes.py:109-110 | every output key names an order, with the customer_id the orders table gives it |
| CustomersToBarcodes.ListedBarcodesAreAssigned | customer_ids_to_barcodes.py:109-116 | every listed barcode is a validated barcode assigned to the entry's order |
| CustomersToBarcodes.OrdersWithBarcodesHaveEntries | customer_ids_to_barcodes.py:109-128 | every order that a validated barcode is assigned to survives into the output |
| CustomersToBarcodes.MissingOrdersReported | customer_ids_to_barcodes.py:119-128 | the orders reported as lacking barcodes are exactly the orders no validated barcode is assigned to |
| CustomersToBarcodes.OutputConservesBarcodes | customer_ids_to_barcodes.py:106-116 | with order_id a key, the output lists, as a multiset, exactly the validated barcodes assigned to an order of the orders table |
| CustomersToBarcodes.UnusedBarcodesNotInOutput | customer_ids_to_barcodes.py:94-116 | after deduplication, an unused barcode appears in no output list |
| CustomersToBarcodes.AssignedAtMostOnce | customer_ids_to_barcodes.py:109 | from a duplicate-free table, each barcode is assigned at most once |
| CustomersToBarcodes.NoTicketListedTwice | customer_ids_to_barcodes.py:106-116 | with deduplicated barcodes and order_id a key, no barcode is listed twice in the output |
| CustomersToBarcodes.CreateCustomerToTickets | customer_ids_to_barcodes.py:13-54 | the duplicate report plus one copy of each distinct value is the input's barcodes as a multiset; the unused report is NotFound exactly when every validated record has an order id, else exactly those without one; output keys ascend strictly with non-empty lists, every key is an order, every listed barcode is a validated (hence input) record of that order, and every order with a validated barcode has an entry; with order_id a key the output lists exactly the assigned validated barcodes as a multiset; the reported orders are exactly those without a validated barcode, each once when order_id is a key; the top customers are distinct customers of the output with their ticket counts, in descending order, none outranked by a customer left out, as many as Python's `[:n]` takes for every n |
| CustomersToBarcodes.TopCustomersRanked | customer_ids_to_barcodes.py:140-151 | the logged top customers are distinct customers of the output, each with its ticket count, in descending order, and no customer left out has more tickets than one reported |
| CustomersToBarcodes.PipelineListsEachTicketOnce | customer_ids_to_barcodes.py:31-48 | with order_id a key of the orders table, the pipeline lists no ticket twice, for either setting of the flag |

## Left out

- Reading the CSV files (lines 57-61) and writing the output (lines 156-158): the model takes the tables as sequences and returns the output mapping; the CSV text formats are not modelled.
- The command-line interface, logging configuration and log formatting (lines 161-195): the log lines are returned as data (duplicate values, unused records, dropped keys, top customers) instead of being written.
- `order_id` read as a float column with `NaN` for missing values: the model uses `Option<int>`; float precision is not modelled.
- UnusedBarcodes.AmountOfUnusedBarcodes: the `TypeError` raised when the `order_id` index cannot hold a missing value is merged with the `KeyError` case into `NotFound`, since both return the exception and the model's `Option<int>` ids always admit a missing value.
- UnusedBarcodes.AmountOfUnusedBarcodes: when exactly one record lacks an id, `.loc[np.nan]` returns that record as a Series and the code wraps it into a one-column table; the logged count, 1, agrees with the model, but the model returns the record itself rather than that table.
- Deduplication.SortByOrderId: the exact arrangement of equal keys chosen by pandas' quicksort is not modelled; contracts state only sortedness and permutation, and `Deduplication.TieOrderIrrelevant` shows the survivors do not depend on it.
- Ranking.SortByTicketsDescending: the order among customers with equal ticket counts is not modelled; the contracts state descending order and permutation only.
- Grouping.GroupByKey: contracts state each list's contents as a multiset; that a group keeps the joined rows' relative order, which follows the sorted validated table, is not stated.
- Barcode precision: when some order has no barcode, the join (line 109) holds `barcode` as a float64 column, and `int(barcode)` (line 115) then rounds any barcode above 2^53 to a nearby multiple of a power of two. The model keeps barcodes as exact integers.
- Default arguments: `keep_barcodes_with_order_ids=True` (line 65) and `no_of_top_customers=5` (line 132) are not modelled, because the only call sites (lines 34 and 50) pass both arguments explicitly.
- CustomersToBarcodes.OutputConservesBarcodes and CustomersToBarcodes.NoTicketListedTwice: they assume that `order_id` is a key of the orders table (the script indexes by it); with a repeated order id the join repeats the barcodes, which the model computes but these lemmas do not cover.
- The test module under `tests/` calls a function name the core does not define and asserts nothing about the output, so it adds no property to model.
