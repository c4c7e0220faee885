/** The rows of the two input tables and the keys derived from them. */
module Records {

  datatype Option<+T> = None | Some(value: T)

  /** One row of the barcodes table. A barcode whose order id is missing is
      an unused ticket. */
  datatype BarcodeRecord = BarcodeRecord(barcode: int, orderId: Option<int>)

  /** One row of the orders table. */
  datatype OrderRecord = OrderRecord(orderId: int, customerId: int)

  /** The composite key (customer_id, order_id) of the joined table. */
  datatype OrderKey = OrderKey(customerId: int, orderId: int)

  /** The barcode values occurring in a table of barcode records. */
  function BarcodeSet(s: seq<BarcodeRecord>): set<int>
  {
    set x | x in s :: x.barcode
  }

  ghost predicate DistinctBarcodes(s: seq<BarcodeRecord>)
  {
    forall i, j :: 0 <= i < j < |s| ==> s[i].barcode != s[j].barcode
  }

  /** The order ids occurring in the orders table. */
  function OrderIds(orders: seq<OrderRecord>): set<int>
  {
    set o | o in orders :: o.orderId
  }

  /** order_id is the key of the orders table. */
  ghost predicate UniqueOrderIds(orders: seq<OrderRecord>)
  {
    forall i, j :: 0 <= i < j < |orders| ==> orders[i].orderId != orders[j].orderId
  }

  /** Some validated barcode is assigned to the order. */
  ghost predicate HasBarcode(validated: seq<BarcodeRecord>, orderId: int)
  {
    exists x :: x in validated && x.orderId == Some(orderId)
  }

  /** A table has distinct barcodes exactly when it has as many barcode
      values as records. */
  lemma {:induction false} DistinctIffCardinality(s: seq<BarcodeRecord>)
    ensures |BarcodeSet(s)| <= |s|
    ensures DistinctBarcodes(s) <==> |BarcodeSet(s)| == |s|
  {
    if |s| > 0 {
      var p := s[..|s| - 1];
      var x := s[|s| - 1];
      assert s == p + [x];
      assert BarcodeSet(s) == BarcodeSet(p) + {x.barcode};
      DistinctIffCardinality(p);
      DistinctAppend(p, x);
    }
  }

  /** Appending a record keeps the barcodes distinct exactly when its barcode
      is new. */
  lemma DistinctAppend(p: seq<BarcodeRecord>, x: BarcodeRecord)
    ensures DistinctBarcodes(p + [x]) <==> DistinctBarcodes(p) && x.barcode !in BarcodeSet(p)
  {
    var s := p + [x];
    if x.barcode in BarcodeSet(p) {
      var y :| y in p && y.barcode == x.barcode;
      var j :| 0 <= j < |p| && p[j] == y;
      assert s[j].barcode == s[|s| - 1].barcode;
    } else if DistinctBarcodes(p) {
      forall i, j | 0 <= i < j < |s| ensures s[i].barcode != s[j].barcode {
        if j == |s| - 1 {
          assert p[i] in p;
        } else {
          assert s[i] == p[i] && s[j] == p[j];
        }
      }
    } else {
      var i, j :| 0 <= i < j < |p| && p[i].barcode == p[j].barcode;
      assert s[i] == p[i] && s[j] == p[j];
    }
  }
}
