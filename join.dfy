/** The left join of the orders table with the validated barcodes on
    order_id, and the removal of the joined rows that got no barcode. */
module Join {
  import opened Records

  /** A row of the joined table, indexed by (customer_id, order_id). The
      barcode is missing when no validated record carries the order id. */
  datatype JoinedRow = JoinedRow(key: OrderKey, barcode: Option<int>)

  /** The joined table split into the rows kept and the keys reported as
      orders without barcodes. */
  datatype Cleaned = Cleaned(kept: seq<JoinedRow>, missing: seq<OrderKey>)

  function KeyOf(o: OrderRecord): OrderKey
  {
    OrderKey(o.customerId, o.orderId)
  }

  /** The barcodes of the validated records assigned to an order, in table
      order. */
  function MatchingBarcodes(orderId: int, validated: seq<BarcodeRecord>): (r: seq<int>)
    ensures forall b :: multiset(r)[b] == multiset(validated)[BarcodeRecord(b, Some(orderId))]
    ensures |r| == 0 <==> !HasBarcode(validated, orderId)
  {
    if |validated| == 0 then []
    else
      var x := validated[0];
      var rest := MatchingBarcodes(orderId, validated[1..]);
      assert validated == [x] + validated[1..];
      assert HasBarcode(validated, orderId) <==> x.orderId == Some(orderId) || HasBarcode(validated[1..], orderId);
      if x.orderId == Some(orderId) then
        assert x == BarcodeRecord(x.barcode, Some(orderId));
        [x.barcode] + rest
      else rest
  }

  /** One joined row per barcode of the order. */
  function RowsWithBarcodes(key: OrderKey, barcodes: seq<int>): (r: seq<JoinedRow>)
    ensures |r| == |barcodes|
    ensures forall i :: 0 <= i < |r| ==> r[i] == JoinedRow(key, Some(barcodes[i]))
  {
    if |barcodes| == 0 then []
    else [JoinedRow(key, Some(barcodes[0]))] + RowsWithBarcodes(key, barcodes[1..])
  }

  /** The barcodes of the rows that have one, in row order. */
  function JoinedBarcodes(rows: seq<JoinedRow>): (r: seq<int>)
    ensures |r| <= |rows|
  {
    if |rows| == 0 then []
    else
      (if rows[0].barcode.Some? then [rows[0].barcode.value] else []) + JoinedBarcodes(rows[1..])
  }

  lemma {:induction false} JoinedBarcodesAppend(a: seq<JoinedRow>, b: seq<JoinedRow>)
    ensures JoinedBarcodes(a + b) == JoinedBarcodes(a) + JoinedBarcodes(b)
  {
    if |a| > 0 {
      assert (a + b)[0] == a[0];
      assert (a + b)[1..] == a[1..] + b;
      JoinedBarcodesAppend(a[1..], b);
    } else {
      assert a + b == b;
    }
  }

  lemma {:induction false} JoinedBarcodesOfRows(key: OrderKey, barcodes: seq<int>)
    ensures JoinedBarcodes(RowsWithBarcodes(key, barcodes)) == barcodes
  {
    if |barcodes| > 0 {
      JoinedBarcodesOfRows(key, barcodes[1..]);
    }
  }

  /** The joined rows of one order: one per assigned barcode, or a single
      row without a barcode. */
  function JoinOrder(o: OrderRecord, validated: seq<BarcodeRecord>): (r: seq<JoinedRow>)
    ensures forall row :: row in r ==> row.key == KeyOf(o)
    ensures forall b :: JoinedRow(KeyOf(o), Some(b)) in r <==> BarcodeRecord(b, Some(o.orderId)) in validated
    ensures JoinedRow(KeyOf(o), None) in r <==> !HasBarcode(validated, o.orderId)
    ensures !HasBarcode(validated, o.orderId) ==> r == [JoinedRow(KeyOf(o), None)]
    ensures HasBarcode(validated, o.orderId) ==> forall row :: row in r ==> row.barcode.Some?
    ensures JoinedBarcodes(r) == MatchingBarcodes(o.orderId, validated)
  {
    var m := MatchingBarcodes(o.orderId, validated);
    MatchingMembership(o.orderId, validated);
    if |m| == 0 then
      [JoinedRow(KeyOf(o), None)]
    else
      JoinedBarcodesOfRows(KeyOf(o), m);
      RowsMembership(KeyOf(o), m);
      RowsWithBarcodes(KeyOf(o), m)
  }

  lemma MatchingMembership(orderId: int, validated: seq<BarcodeRecord>)
    ensures forall b :: b in MatchingBarcodes(orderId, validated) <==> BarcodeRecord(b, Some(orderId)) in validated
  {
    var m := MatchingBarcodes(orderId, validated);
    forall b ensures b in m <==> BarcodeRecord(b, Some(orderId)) in validated {
      assert b in m <==> b in multiset(m);
      assert BarcodeRecord(b, Some(orderId)) in validated
             <==> BarcodeRecord(b, Some(orderId)) in multiset(validated);
    }
  }

  lemma RowsMembership(key: OrderKey, barcodes: seq<int>)
    ensures forall row :: row in RowsWithBarcodes(key, barcodes) ==> row.key == key && row.barcode.Some?
    ensures forall b :: JoinedRow(key, Some(b)) in RowsWithBarcodes(key, barcodes) <==> b in barcodes
  {
    var rows := RowsWithBarcodes(key, barcodes);
    forall b ensures JoinedRow(key, Some(b)) in rows <==> b in barcodes {
      if b in barcodes {
        var i :| 0 <= i < |barcodes| && barcodes[i] == b;
        assert rows[i] == JoinedRow(key, Some(b));
      }
    }
  }

  /** orders.join(validated): every order in table order, each with its
      joined rows. */
  function LeftJoin(orders: seq<OrderRecord>, validated: seq<BarcodeRecord>): (r: seq<JoinedRow>)
    ensures forall row :: row in r ==> OrderRecord(row.key.orderId, row.key.customerId) in orders
    ensures forall row :: row in r && row.barcode.Some? ==>
              BarcodeRecord(row.barcode.value, Some(row.key.orderId)) in validated
    ensures forall row :: row in r && row.barcode.None? ==> !HasBarcode(validated, row.key.orderId)
    ensures forall o :: o in orders && !HasBarcode(validated, o.orderId) ==> JoinedRow(KeyOf(o), None) in r
    ensures forall o, b :: o in orders && BarcodeRecord(b, Some(o.orderId)) in validated ==>
              JoinedRow(KeyOf(o), Some(b)) in r
  {
    if |orders| == 0 then []
    else
      var first := JoinOrder(orders[0], validated);
      var rest := LeftJoin(orders[1..], validated);
      assert orders == [orders[0]] + orders[1..];
      assert forall row :: row in first ==> row.key == KeyOf(orders[0]);
      first + rest
  }

  /** With order_id a key of the orders table, the left join has at most one
      row without a barcode per order key. */
  lemma {:induction false} NoneRowOncePerKey(orders: seq<OrderRecord>, validated: seq<BarcodeRecord>)
    requires UniqueOrderIds(orders)
    ensures forall k :: multiset(LeftJoin(orders, validated))[JoinedRow(k, None)] <= 1
  {
    if |orders| > 0 {
      var o := orders[0];
      var first := JoinOrder(o, validated);
      var rest := LeftJoin(orders[1..], validated);
      OrderIdsOfTail(orders);
      NoneRowOncePerKey(orders[1..], validated);
      assert LeftJoin(orders, validated) == first + rest;
      forall k ensures multiset(first + rest)[JoinedRow(k, None)] <= 1 {
        if k == KeyOf(o) {
          forall row | row in rest ensures row.key.orderId in OrderIds(orders[1..]) {
            var p := OrderRecord(row.key.orderId, row.key.customerId);
            assert p in orders[1..];
          }
          assert JoinedRow(k, None) !in rest;
          assert multiset(first)[JoinedRow(k, None)] <= 1 by {
            if HasBarcode(validated, o.orderId) {
              assert JoinedRow(k, None) !in first;
            }
          }
        } else {
          assert JoinedRow(k, None) !in first;
        }
      }
    }
  }

  /** _remove_orders_without_barcodes: the rows without a barcode are
      reported by key and dropped. */
  function RemoveOrdersWithoutBarcodes(rows: seq<JoinedRow>): (r: Cleaned)
    ensures forall row :: row in r.kept <==> row in rows && row.barcode.Some?
    ensures forall row :: multiset(r.kept)[row] == if row.barcode.Some? then multiset(rows)[row] else 0
    ensures forall k :: k in r.missing <==> JoinedRow(k, None) in rows
    ensures |r.kept| + |r.missing| == |rows|
    ensures r.missing == [] <==> forall row :: row in rows ==> row.barcode.Some?
    ensures r.missing == [] ==> r.kept == rows
    ensures JoinedBarcodes(r.kept) == JoinedBarcodes(rows)
  {
    if |rows| == 0 then Cleaned([], [])
    else
      var row := rows[0];
      var rest := RemoveOrdersWithoutBarcodes(rows[1..]);
      assert rows == [row] + rows[1..];
      var kept := if row.barcode.Some? then [row] + rest.kept else rest.kept;
      KeptCountStep(rows, rest.kept, kept);
      if row.barcode.Some? then
        Cleaned(kept, rest.missing)
      else
        Cleaned(kept, [row.key] + rest.missing)
  }

  /** The first row's share of the kept rows' multiplicities. */
  lemma KeptCountStep(rows: seq<JoinedRow>, restKept: seq<JoinedRow>, kept: seq<JoinedRow>)
    requires |rows| > 0
    requires forall row :: multiset(restKept)[row] == if row.barcode.Some? then multiset(rows[1..])[row] else 0
    requires rows[0].barcode.Some? ==> kept == [rows[0]] + restKept
    requires rows[0].barcode.None? ==> kept == restKept
    ensures forall row :: multiset(kept)[row] == if row.barcode.Some? then multiset(rows)[row] else 0
  {
    assert rows == [rows[0]] + rows[1..];
    assert multiset(rows) == multiset{rows[0]} + multiset(rows[1..]);
  }

  /** Each key is reported as often as the rows carry it without a barcode. */
  lemma {:induction false} MissingCountsRowsWithoutBarcode(rows: seq<JoinedRow>)
    ensures forall k :: multiset(RemoveOrdersWithoutBarcodes(rows).missing)[k] == multiset(rows)[JoinedRow(k, None)]
  {
    if |rows| > 0 {
      MissingCountsRowsWithoutBarcode(rows[1..]);
      RemoveStep(rows);
      MissingStep(rows, RemoveOrdersWithoutBarcodes(rows[1..]).missing, RemoveOrdersWithoutBarcodes(rows).missing);
    }
  }

  lemma RemoveStep(rows: seq<JoinedRow>)
    requires |rows| > 0
    ensures rows[0].barcode.Some? ==>
              RemoveOrdersWithoutBarcodes(rows).missing == RemoveOrdersWithoutBarcodes(rows[1..]).missing
    ensures rows[0].barcode.None? ==>
              RemoveOrdersWithoutBarcodes(rows).missing == [rows[0].key] + RemoveOrdersWithoutBarcodes(rows[1..]).missing
  {
  }

  lemma MissingStep(rows: seq<JoinedRow>, restMissing: seq<OrderKey>, missing: seq<OrderKey>)
    requires |rows| > 0
    requires forall k :: multiset(restMissing)[k] == multiset(rows[1..])[JoinedRow(k, None)]
    requires rows[0].barcode.Some? ==> missing == restMissing
    requires rows[0].barcode.None? ==> missing == [rows[0].key] + restMissing
    ensures forall k :: multiset(missing)[k] == multiset(rows)[JoinedRow(k, None)]
  {
    assert rows == [rows[0]] + rows[1..];
    forall k ensures multiset(missing)[k] == multiset(rows)[JoinedRow(k, None)] {
      assert multiset(rows) == multiset{rows[0]} + multiset(rows[1..]);
    }
  }

  /** The barcodes of the validated records assigned to one of the given
      order ids, in table order. */
  function AssignedBarcodes(validated: seq<BarcodeRecord>, ids: set<int>): (r: seq<int>)
    ensures forall b :: b in r <==> exists id :: id in ids && BarcodeRecord(b, Some(id)) in validated
  {
    if |validated| == 0 then []
    else
      var x := validated[0];
      var rest := AssignedBarcodes(validated[1..], ids);
      var head := if x.orderId.Some? && x.orderId.value in ids then [x.barcode] else [];
      assert validated == [x] + validated[1..];
      assert forall b :: b in head + rest <==> exists id :: id in ids && BarcodeRecord(b, Some(id)) in validated by {
        forall b ensures b in head + rest <==> exists id :: id in ids && BarcodeRecord(b, Some(id)) in validated {
          if b in head {
            assert x == BarcodeRecord(b, Some(x.orderId.value));
          }
          if exists id :: id in ids && BarcodeRecord(b, Some(id)) in validated {
            var id :| id in ids && BarcodeRecord(b, Some(id)) in validated;
            if BarcodeRecord(b, Some(id)) != x {
              assert BarcodeRecord(b, Some(id)) in validated[1..];
            }
          }
        }
      }
      head + rest
  }

  lemma {:induction false} SplitOrderIds(validated: seq<BarcodeRecord>, ids: set<int>, id: int)
    requires id !in ids
    ensures multiset(AssignedBarcodes(validated, ids + {id}))
            == multiset(AssignedBarcodes(validated, ids)) + multiset(MatchingBarcodes(id, validated))
  {
    if |validated| > 0 {
      SplitOrderIds(validated[1..], ids, id);
    }
  }

  /** With order_id a key of the orders table, the left join carries every
      validated barcode assigned to an order exactly once, and no other. */
  lemma {:induction false} JoinConservesBarcodes(orders: seq<OrderRecord>, validated: seq<BarcodeRecord>)
    requires UniqueOrderIds(orders)
    ensures multiset(JoinedBarcodes(LeftJoin(orders, validated)))
            == multiset(AssignedBarcodes(validated, OrderIds(orders)))
  {
    if |orders| == 0 {
      assert OrderIds(orders) == {};
      AssignedToNone(validated);
    } else {
      var o := orders[0];
      var tail := orders[1..];
      OrderIdsOfTail(orders);
      JoinConservesBarcodes(tail, validated);
      var first := JoinOrder(o, validated);
      var rest := LeftJoin(tail, validated);
      assert LeftJoin(orders, validated) == first + rest;
      JoinedBarcodesAppend(first, rest);
      SplitOrderIds(validated, OrderIds(tail), o.orderId);
    }
  }

  lemma OrderIdsOfTail(orders: seq<OrderRecord>)
    requires UniqueOrderIds(orders) && |orders| > 0
    ensures UniqueOrderIds(orders[1..])
    ensures OrderIds(orders) == OrderIds(orders[1..]) + {orders[0].orderId}
    ensures orders[0].orderId !in OrderIds(orders[1..])
  {
    var o := orders[0];
    var tail := orders[1..];
    assert orders == [o] + tail;
    assert UniqueOrderIds(tail) by {
      forall i, j | 0 <= i < j < |tail| ensures tail[i].orderId != tail[j].orderId {
        assert tail[i] == orders[i + 1] && tail[j] == orders[j + 1];
      }
    }
    forall p | p in tail ensures p.orderId != o.orderId {
      var j :| 0 <= j < |tail| && tail[j] == p;
      assert orders[j + 1] == p;
    }
  }

  lemma {:induction false} AssignedToNone(validated: seq<BarcodeRecord>)
    ensures AssignedBarcodes(validated, {}) == []
  {
    if |validated| > 0 {
      AssignedToNone(validated[1..]);
    }
  }
}
