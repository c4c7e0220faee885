/** The mapping from (customer_id, order_id) to the order's barcodes, and the
    whole pipeline from the two loaded tables to the output and its
    diagnostics. */
module CustomersToBarcodes {
  import opened Records
  import opened Deduplication
  import opened UnusedBarcodes
  import opened Join
  import opened Grouping
  import opened Ranking

  /** The output mapping and the keys of the orders dropped for lacking a
      barcode. */
  datatype Mapping = Mapping(entries: seq<Entry>, ordersWithoutBarcodes: seq<OrderKey>)

  /** What the pipeline logs besides writing the output. */
  datatype Diagnostics = Diagnostics(
    duplicateBarcodes: seq<int>,
    unusedBarcodes: Unused,
    ordersWithoutBarcodes: seq<OrderKey>,
    topCustomers: seq<CustomerTickets>)

  datatype Run = Run(output: seq<Entry>, diagnostics: Diagnostics)

  /** _make_customers_to_barcodes_series: join, drop and report the orders
      without barcodes, group. */
  function MakeCustomersToBarcodes(validated: seq<BarcodeRecord>, orders: seq<OrderRecord>): (r: Mapping)
    ensures AscendingNonEmptyGroups(r.entries)
    ensures KeysAreOrders(r.entries, orders)
    ensures ListsOnlyAssigned(r.entries, validated)
    ensures CoversOrdersWithBarcodes(r.entries, validated, orders)
    ensures ReportsOrdersWithoutBarcodes(r.ordersWithoutBarcodes, validated, orders)
    ensures UniqueOrderIds(orders) ==> NoKeyRepeated(r.ordersWithoutBarcodes)
  {
    var cleaned := RemoveOrdersWithoutBarcodes(LeftJoin(orders, validated));
    MappingProperties(validated, orders);
    Mapping(GroupByKey(cleaned.kept), cleaned.missing)
  }

  /** The keys ascend strictly, as groupby sorts them, and no list is
      empty. */
  ghost predicate AscendingNonEmptyGroups(entries: seq<Entry>)
  {
    && (forall i, j :: 0 <= i < j < |entries| ==> KeyLess(entries[i].key, entries[j].key))
    && (forall i :: 0 <= i < |entries| ==> |entries[i].barcodes| > 0)
  }

  /** Every key names an order of the orders table: its customer_id is the
      one the orders table gives the order. */
  ghost predicate KeysAreOrders(entries: seq<Entry>, orders: seq<OrderRecord>)
  {
    forall i :: 0 <= i < |entries| ==>
      OrderRecord(entries[i].key.orderId, entries[i].key.customerId) in orders
  }

  /** Every barcode listed for an order is a validated barcode assigned to
      that order. */
  ghost predicate ListsOnlyAssigned(entries: seq<Entry>, validated: seq<BarcodeRecord>)
  {
    forall i, b :: 0 <= i < |entries| && b in entries[i].barcodes ==>
      BarcodeRecord(b, Some(entries[i].key.orderId)) in validated
  }

  /** Every order that some validated barcode is assigned to has an entry. */
  ghost predicate CoversOrdersWithBarcodes(entries: seq<Entry>, validated: seq<BarcodeRecord>, orders: seq<OrderRecord>)
  {
    forall o :: o in orders && HasBarcode(validated, o.orderId) ==>
      exists i :: 0 <= i < |entries| && entries[i].key == KeyOf(o)
  }

  /** The report names exactly the orders no validated barcode is assigned
      to. */
  ghost predicate ReportsOrdersWithoutBarcodes(missing: seq<OrderKey>, validated: seq<BarcodeRecord>, orders: seq<OrderRecord>)
  {
    forall k :: k in missing <==>
      OrderRecord(k.orderId, k.customerId) in orders && !HasBarcode(validated, k.orderId)
  }

  /** No order is reported twice. */
  ghost predicate NoKeyRepeated(missing: seq<OrderKey>)
  {
    forall k :: multiset(missing)[k] <= 1
  }

  lemma MappingProperties(validated: seq<BarcodeRecord>, orders: seq<OrderRecord>)
    ensures var cleaned := RemoveOrdersWithoutBarcodes(LeftJoin(orders, validated));
      && AscendingNonEmptyGroups(GroupByKey(cleaned.kept))
      && KeysAreOrders(GroupByKey(cleaned.kept), orders)
      && ListsOnlyAssigned(GroupByKey(cleaned.kept), validated)
      && CoversOrdersWithBarcodes(GroupByKey(cleaned.kept), validated, orders)
      && ReportsOrdersWithoutBarcodes(cleaned.missing, validated, orders)
      && (UniqueOrderIds(orders) ==> NoKeyRepeated(cleaned.missing))
  {
    GroupsAscend(validated, orders);
    EntriesComeFromOrders(validated, orders);
    ListedBarcodesAreAssigned(validated, orders);
    OrdersWithBarcodesHaveEntries(validated, orders);
    MissingOrdersReported(validated, orders);
    if UniqueOrderIds(orders) {
      NoneRowOncePerKey(orders, validated);
      MissingCountsRowsWithoutBarcode(LeftJoin(orders, validated));
    }
  }

  lemma GroupsAscend(validated: seq<BarcodeRecord>, orders: seq<OrderRecord>)
    ensures AscendingNonEmptyGroups(GroupByKey(RemoveOrdersWithoutBarcodes(LeftJoin(orders, validated)).kept))
  {
  }

  lemma MissingOrdersReported(validated: seq<BarcodeRecord>, orders: seq<OrderRecord>)
    ensures ReportsOrdersWithoutBarcodes(RemoveOrdersWithoutBarcodes(LeftJoin(orders, validated)).missing, validated, orders)
  {
    var joined := LeftJoin(orders, validated);
    var missing := RemoveOrdersWithoutBarcodes(joined).missing;
    forall k ensures k in missing <==> OrderRecord(k.orderId, k.customerId) in orders && !HasBarcode(validated, k.orderId) {
      if OrderRecord(k.orderId, k.customerId) in orders && !HasBarcode(validated, k.orderId) {
        assert KeyOf(OrderRecord(k.orderId, k.customerId)) == k;
      }
    }
  }

  lemma ListedBarcodesAreAssigned(validated: seq<BarcodeRecord>, orders: seq<OrderRecord>)
    ensures ListsOnlyAssigned(GroupByKey(RemoveOrdersWithoutBarcodes(LeftJoin(orders, validated)).kept), validated)
  {
    var kept := RemoveOrdersWithoutBarcodes(LeftJoin(orders, validated)).kept;
    var entries := GroupByKey(kept);
    forall i, b | 0 <= i < |entries| && b in entries[i].barcodes
      ensures BarcodeRecord(b, Some(entries[i].key.orderId)) in validated
    {
      assert b in multiset(entries[i].barcodes);
      assert JoinedRow(entries[i].key, Some(b)) in multiset(kept);
    }
  }

  lemma EntriesComeFromOrders(validated: seq<BarcodeRecord>, orders: seq<OrderRecord>)
    ensures KeysAreOrders(GroupByKey(RemoveOrdersWithoutBarcodes(LeftJoin(orders, validated)).kept), orders)
  {
    var kept := RemoveOrdersWithoutBarcodes(LeftJoin(orders, validated)).kept;
    var entries := GroupByKey(kept);
    forall i | 0 <= i < |entries|
      ensures OrderRecord(entries[i].key.orderId, entries[i].key.customerId) in orders
    {
      assert entries[i].key in KeySet(kept);
    }
  }

  lemma OrdersWithBarcodesHaveEntries(validated: seq<BarcodeRecord>, orders: seq<OrderRecord>)
    ensures CoversOrdersWithBarcodes(GroupByKey(RemoveOrdersWithoutBarcodes(LeftJoin(orders, validated)).kept), validated, orders)
  {
    var kept := RemoveOrdersWithoutBarcodes(LeftJoin(orders, validated)).kept;
    forall o | o in orders && HasBarcode(validated, o.orderId)
      ensures KeyOf(o) in KeySet(kept)
    {
      KeptKey(validated, orders, o);
    }
  }

  lemma KeptKey(validated: seq<BarcodeRecord>, orders: seq<OrderRecord>, o: OrderRecord)
    requires o in orders && HasBarcode(validated, o.orderId)
    ensures KeyOf(o) in KeySet(RemoveOrdersWithoutBarcodes(LeftJoin(orders, validated)).kept)
  {
    var x :| x in validated && x.orderId == Some(o.orderId);
    var row := JoinedRow(KeyOf(o), Some(x.barcode));
    assert x == BarcodeRecord(x.barcode, Some(o.orderId));
    assert row in LeftJoin(orders, validated);
    assert row in RemoveOrdersWithoutBarcodes(LeftJoin(orders, validated)).kept;
  }

  /** Every barcode listed in the output lies in one of the output's lists. */
  lemma {:induction false} InFlatten(entries: seq<Entry>, b: int)
    requires b in Flatten(entries)
    ensures exists i :: 0 <= i < |entries| && b in entries[i].barcodes
  {
    if b !in entries[0].barcodes {
      InFlatten(entries[1..], b);
      var i :| 0 <= i < |entries[1..]| && b in entries[1..][i].barcodes;
      assert entries[i + 1] == entries[1..][i];
    }
  }

  /** The output lists exactly the validated barcodes assigned to an order of
      the orders table, each as often as it occurs there. */
  lemma OutputConservesBarcodes(validated: seq<BarcodeRecord>, orders: seq<OrderRecord>)
    requires UniqueOrderIds(orders)
    ensures multiset(Flatten(MakeCustomersToBarcodes(validated, orders).entries))
            == multiset(AssignedBarcodes(validated, OrderIds(orders)))
  {
    var joined := LeftJoin(orders, validated);
    var kept := RemoveOrdersWithoutBarcodes(joined).kept;
    GroupConservesBarcodes(kept);
    JoinConservesBarcodes(orders, validated);
  }

  /** In a table without duplicate barcodes, an unused barcode is in no
      output list. */
  lemma UnusedBarcodesNotInOutput(validated: seq<BarcodeRecord>, orders: seq<OrderRecord>)
    requires DistinctBarcodes(validated)
    ensures forall x :: x in validated && x.orderId.None? ==>
              x.barcode !in Flatten(MakeCustomersToBarcodes(validated, orders).entries)
  {
    var entries := MakeCustomersToBarcodes(validated, orders).entries;
    forall x | x in validated && x.orderId.None?
      ensures x.barcode !in Flatten(entries)
    {
      forall i, b | 0 <= i < |entries| && b in entries[i].barcodes
        ensures b != x.barcode
      {
        var y := BarcodeRecord(b, Some(entries[i].key.orderId));
        assert y in validated;
        var j :| 0 <= j < |validated| && validated[j] == x;
        var k :| 0 <= k < |validated| && validated[k] == y;
        assert j != k;
        assert validated[j].barcode != validated[k].barcode;
      }
      if x.barcode in Flatten(entries) {
        InFlatten(entries, x.barcode);
      }
    }
  }

  lemma {:induction false} AssignedAtMostOnce(validated: seq<BarcodeRecord>, ids: set<int>)
    requires DistinctBarcodes(validated)
    ensures forall b :: multiset(AssignedBarcodes(validated, ids))[b] <= 1
  {
    if |validated| > 0 {
      var x := validated[0];
      var tail := validated[1..];
      assert DistinctBarcodes(tail) by {
        forall i, j | 0 <= i < j < |tail| ensures tail[i].barcode != tail[j].barcode {
          assert tail[i] == validated[i + 1] && tail[j] == validated[j + 1];
        }
      }
      AssignedAtMostOnce(tail, ids);
      assert x.barcode !in AssignedBarcodes(tail, ids) by {
        forall id, k | 0 <= k < |tail| && tail[k].orderId == Some(id)
          ensures tail[k].barcode != x.barcode
        {
          assert tail[k] == validated[k + 1];
        }
      }
    }
  }

  /** With barcodes deduplicated and order_id a key, no ticket is listed
      twice in the output. */
  lemma NoTicketListedTwice(validated: seq<BarcodeRecord>, orders: seq<OrderRecord>)
    requires DistinctBarcodes(validated)
    requires UniqueOrderIds(orders)
    ensures forall b :: multiset(Flatten(MakeCustomersToBarcodes(validated, orders).entries))[b] <= 1
  {
    OutputConservesBarcodes(validated, orders);
    AssignedAtMostOnce(validated, OrderIds(orders));
  }

  /** The validated barcodes table the pipeline works on after deduplication. */
  function Validated(barcodes: seq<BarcodeRecord>, keepBarcodesWithOrderIds: bool): seq<BarcodeRecord>
  {
    RemoveDuplicateBarcodes(barcodes, keepBarcodesWithOrderIds).records
  }

  /** create_customer_to_tickets_csv, from the loaded tables to the output
      table and the diagnostics it logs. */
  function CreateCustomerToTickets(
    barcodes: seq<BarcodeRecord>,
    orders: seq<OrderRecord>,
    keepBarcodesWithOrderIds: bool,
    noOfTopCustomers: int): (r: Run)
    ensures |r.diagnostics.duplicateBarcodes| == |barcodes| - |BarcodeSet(barcodes)|
    ensures multiset(r.diagnostics.duplicateBarcodes) + multiset(BarcodeSet(barcodes)) == multiset(Barcodes(barcodes))
    ensures ReportsUnused(r.diagnostics.unusedBarcodes, Validated(barcodes, keepBarcodesWithOrderIds))
    ensures AscendingNonEmptyGroups(r.output)
    ensures ListsOnlyAssigned(r.output, Validated(barcodes, keepBarcodesWithOrderIds))
    ensures ListsOnlyAssigned(r.output, barcodes)
    ensures KeysAreOrders(r.output, orders)
    ensures CoversOrdersWithBarcodes(r.output, Validated(barcodes, keepBarcodesWithOrderIds), orders)
    ensures UniqueOrderIds(orders) ==>
              multiset(Flatten(r.output))
              == multiset(AssignedBarcodes(Validated(barcodes, keepBarcodesWithOrderIds), OrderIds(orders)))
    ensures ReportsOrdersWithoutBarcodes(r.diagnostics.ordersWithoutBarcodes,
              Validated(barcodes, keepBarcodesWithOrderIds), orders)
    ensures UniqueOrderIds(orders) ==> NoKeyRepeated(r.diagnostics.ordersWithoutBarcodes)
    ensures TopCustomersOf(r.diagnostics.topCustomers, r.output)
    ensures |r.diagnostics.topCustomers| == SliceEnd(noOfTopCustomers, |CustomerSet(r.output)|)
  {
    var deduplicated := RemoveDuplicateBarcodes(barcodes, keepBarcodesWithOrderIds);
    var validated := deduplicated.records;
    var unused := AmountOfUnusedBarcodes(validated);
    var mapping := MakeCustomersToBarcodes(validated, orders);
    var ranking := CustomersThatBoughtMostTickets(mapping.entries, noOfTopCustomers);
    AssignedInInput(mapping.entries, validated, barcodes);
    TopCustomersRanked(mapping.entries, noOfTopCustomers);
    ConservedWhenKeyed(validated, orders);
    Run(mapping.entries, Diagnostics(deduplicated.duplicates, unused, mapping.ordersWithoutBarcodes, ranking.top))
  }

  /** The unused-barcode report: NotFound exactly when every validated record
      has an order id, otherwise the non-empty list of exactly the records
      without one. */
  ghost predicate ReportsUnused(u: Unused, validated: seq<BarcodeRecord>)
  {
    && (u.NotFound? <==> forall x :: x in validated ==> x.orderId.Some?)
    && (u.Found? ==> |u.records| > 0 && forall x :: x in u.records <==> x in validated && x.orderId.None?)
  }

  lemma ConservedWhenKeyed(validated: seq<BarcodeRecord>, orders: seq<OrderRecord>)
    ensures UniqueOrderIds(orders) ==>
              multiset(Flatten(MakeCustomersToBarcodes(validated, orders).entries))
              == multiset(AssignedBarcodes(validated, OrderIds(orders)))
  {
    if UniqueOrderIds(orders) {
      OutputConservesBarcodes(validated, orders);
    }
  }

  /** The customers reported as top: distinct customers of the output, each
      with its ticket count, by count descending, none outranked by a
      customer left out. */
  ghost predicate TopCustomersOf(top: seq<CustomerTickets>, entries: seq<Entry>)
  {
    && (forall i :: 0 <= i < |top| ==>
          top[i].customerId in CustomerSet(entries) && top[i].tickets == TicketsOf(entries, top[i].customerId))
    && (forall i, j :: 0 <= i < j < |top| ==> top[i].customerId != top[j].customerId)
    && NonIncreasing(top)
    && (forall i, c :: 0 <= i < |top| && c in CustomerSet(entries) && c !in TopIds(top) ==>
          TicketsOf(entries, c) <= top[i].tickets)
  }

  function TopIds(top: seq<CustomerTickets>): set<int>
  {
    set x | x in top :: x.customerId
  }

  lemma TopCustomersRanked(entries: seq<Entry>, noOfTopCustomers: int)
    ensures TopCustomersOf(CustomersThatBoughtMostTickets(entries, noOfTopCustomers).top, entries)
  {
    var ranking := CustomersThatBoughtMostTickets(entries, noOfTopCustomers);
    TopOfRankedTable(entries, ranking.table, ranking.top);
  }

  lemma TopOfRankedTable(entries: seq<Entry>, table: seq<CustomerTickets>, top: seq<CustomerTickets>)
    requires forall i :: 0 <= i < |table| ==> table[i].tickets == TicketsOf(entries, table[i].customerId)
    requires forall c :: c in CustomerSet(entries) <==> exists i :: 0 <= i < |table| && table[i].customerId == c
    requires forall i, j :: 0 <= i < j < |table| ==> table[i].customerId != table[j].customerId
    requires NonIncreasing(table)
    requires |top| <= |table| && top == table[..|top|]
    requires forall i, j :: 0 <= i < |top| <= j < |table| ==> table[j].tickets <= top[i].tickets
    ensures TopCustomersOf(top, entries)
  {
    TopRowsAreCustomers(entries, table, top);
    TopIsRanked(table, top);
    TopOutranksTheRest(entries, table, top);
  }

  lemma TopRowsAreCustomers(entries: seq<Entry>, table: seq<CustomerTickets>, top: seq<CustomerTickets>)
    requires forall i :: 0 <= i < |table| ==> table[i].tickets == TicketsOf(entries, table[i].customerId)
    requires forall i :: 0 <= i < |table| ==> table[i].customerId in CustomerSet(entries)
    requires |top| <= |table| && top == table[..|top|]
    ensures forall i :: 0 <= i < |top| ==>
              top[i].customerId in CustomerSet(entries) && top[i].tickets == TicketsOf(entries, top[i].customerId)
  {
    assert forall i :: 0 <= i < |top| ==> top[i] == table[i];
  }

  lemma TopIsRanked(table: seq<CustomerTickets>, top: seq<CustomerTickets>)
    requires forall i, j :: 0 <= i < j < |table| ==> table[i].customerId != table[j].customerId
    requires NonIncreasing(table)
    requires |top| <= |table| && top == table[..|top|]
    ensures forall i, j :: 0 <= i < j < |top| ==> top[i].customerId != top[j].customerId
    ensures NonIncreasing(top)
  {
    assert forall i :: 0 <= i < |top| ==> top[i] == table[i];
  }

  lemma TopOutranksTheRest(entries: seq<Entry>, table: seq<CustomerTickets>, top: seq<CustomerTickets>)
    requires forall i :: 0 <= i < |table| ==> table[i].tickets == TicketsOf(entries, table[i].customerId)
    requires forall c :: c in CustomerSet(entries) ==> exists i :: 0 <= i < |table| && table[i].customerId == c
    requires |top| <= |table| && top == table[..|top|]
    requires forall i, j :: 0 <= i < |top| <= j < |table| ==> table[j].tickets <= top[i].tickets
    ensures forall i, c :: 0 <= i < |top| && c in CustomerSet(entries) && c !in TopIds(top) ==>
              TicketsOf(entries, c) <= top[i].tickets
  {
    forall m | 0 <= m < |top| ensures table[m].customerId in TopIds(top) {
      assert top[m] == table[m];
    }
    forall i, c | 0 <= i < |top| && c in CustomerSet(entries) && c !in TopIds(top)
      ensures TicketsOf(entries, c) <= top[i].tickets
    {
      var m :| 0 <= m < |table| && table[m].customerId == c;
    }
  }

  lemma AssignedInInput(entries: seq<Entry>, validated: seq<BarcodeRecord>, barcodes: seq<BarcodeRecord>)
    requires ListsOnlyAssigned(entries, validated)
    requires forall x :: x in validated ==> x in barcodes
    ensures ListsOnlyAssigned(entries, barcodes)
  {
  }

  /** With order_id a key of the orders table, the pipeline lists no ticket
      twice, whichever records deduplication keeps. */
  lemma PipelineListsEachTicketOnce(
    barcodes: seq<BarcodeRecord>,
    orders: seq<OrderRecord>,
    keepBarcodesWithOrderIds: bool,
    noOfTopCustomers: int)
    requires UniqueOrderIds(orders)
    ensures forall b ::
      multiset(Flatten(CreateCustomerToTickets(barcodes, orders, keepBarcodesWithOrderIds, noOfTopCustomers).output))[b] <= 1
  {
    NoTicketListedTwice(RemoveDuplicateBarcodes(barcodes, keepBarcodesWithOrderIds).records, orders);
  }
}
