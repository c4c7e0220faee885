/** The report on barcodes that no order uses: the validated records whose
    order id is missing. */
module UnusedBarcodes {
  import opened Records

  /** Found: the records without an order id (their number is what is
      logged). NotFound: the lookup of the missing id failed, because the
      table holds no such record. */
  datatype Unused = Found(records: seq<BarcodeRecord>) | NotFound

  /** The records without an order id, in table order. */
  function Unassigned(s: seq<BarcodeRecord>): (r: seq<BarcodeRecord>)
    ensures forall x :: x in r <==> x in s && x.orderId.None?
    ensures |r| <= |s|
  {
    if |s| == 0 then []
    else (if s[0].orderId.None? then [s[0]] else []) + Unassigned(s[1..])
  }

  /** The records with an order id, in table order. */
  function Assigned(s: seq<BarcodeRecord>): (r: seq<BarcodeRecord>)
    ensures forall x :: x in r <==> x in s && x.orderId.Some?
    ensures |r| <= |s|
  {
    if |s| == 0 then []
    else (if s[0].orderId.Some? then [s[0]] else []) + Assigned(s[1..])
  }

  /** Every record is either unused or assigned to an order, never both. */
  lemma {:induction false} UnassignedAssignedPartition(s: seq<BarcodeRecord>)
    ensures multiset(Unassigned(s)) + multiset(Assigned(s)) == multiset(s)
  {
    if |s| > 0 {
      var x := s[0];
      var tail := s[1..];
      assert s == [x] + tail;
      UnassignedAssignedPartition(tail);
      if x.orderId.None? {
        assert multiset(Unassigned(s)) == multiset{x} + multiset(Unassigned(tail));
        assert multiset(Assigned(s)) == multiset(Assigned(tail));
      } else {
        assert multiset(Unassigned(s)) == multiset(Unassigned(tail));
        assert multiset(Assigned(s)) == multiset{x} + multiset(Assigned(tail));
      }
    }
  }

  /** _log_the_amount_of_unused_barcodes. */
  function AmountOfUnusedBarcodes(validated: seq<BarcodeRecord>): (r: Unused)
    ensures r.NotFound? <==> forall x :: x in validated ==> x.orderId.Some?
    ensures r.Found? ==> |r.records| > 0
    ensures r.Found? ==> forall x :: x in r.records <==> x in validated && x.orderId.None?
    ensures r.Found? ==> |r.records| + |Assigned(validated)| == |validated|
  {
    var unused := Unassigned(validated);
    UnassignedAssignedPartition(validated);
    assert |multiset(unused) + multiset(Assigned(validated))| == |validated|;
    if |unused| == 0 then NotFound
    else
      assert unused[0] in unused;
      Found(unused)
  }
}
