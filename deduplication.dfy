/** Removal of duplicate barcode records: sort by order id with the missing
    ids last (or first), then keep the first record of every barcode value. */
module Deduplication {
  import opened Records

  /** The order in which the barcode table is sorted on order_id. Present ids
      ascend; a missing id sorts after every present one when records with an
      order id are preferred, and before every present one otherwise. */
  predicate OrderIdLe(keepBarcodesWithOrderIds: bool, a: Option<int>, b: Option<int>)
    ensures a == b ==> OrderIdLe(keepBarcodesWithOrderIds, a, b)
    ensures keepBarcodesWithOrderIds && a.None? && OrderIdLe(keepBarcodesWithOrderIds, a, b) ==> b.None?
    ensures !keepBarcodesWithOrderIds && b.None? && OrderIdLe(keepBarcodesWithOrderIds, a, b) ==> a.None?
  {
    match (a, b)
    case (Some(x), Some(y)) => x <= y
    case (Some(_), None) => keepBarcodesWithOrderIds
    case (None, Some(_)) => !keepBarcodesWithOrderIds
    case (None, None) => true
  }

  ghost predicate SortedByOrderId(keep: bool, s: seq<BarcodeRecord>)
  {
    forall i, j :: 0 <= i < j < |s| ==> OrderIdLe(keep, s[i].orderId, s[j].orderId)
  }

  lemma OrderIdLeTotal(keep: bool, a: Option<int>, b: Option<int>)
    ensures OrderIdLe(keep, a, b) || OrderIdLe(keep, b, a)
    ensures OrderIdLe(keep, a, b) && OrderIdLe(keep, b, a) ==> a == b
  {
  }

  lemma OrderIdLeTransitive(keep: bool, a: Option<int>, b: Option<int>, c: Option<int>)
    requires OrderIdLe(keep, a, b) && OrderIdLe(keep, b, c)
    ensures OrderIdLe(keep, a, c)
  {
  }

  function InsertByOrderId(keep: bool, x: BarcodeRecord, s: seq<BarcodeRecord>): (r: seq<BarcodeRecord>)
    requires SortedByOrderId(keep, s)
    ensures SortedByOrderId(keep, r)
    ensures multiset(r) == multiset(s) + multiset{x}
  {
    if |s| == 0 then [x]
    else if OrderIdLe(keep, x.orderId, s[0].orderId) then
      PrependSorted(keep, x, s);
      [x] + s
    else
      TailSorted(keep, s);
      var rest := InsertByOrderId(keep, x, s[1..]);
      OrderIdLeTotal(keep, x.orderId, s[0].orderId);
      HeadStaysFirst(keep, s, x, rest);
      PrependSorted(keep, s[0], rest);
      assert s == [s[0]] + s[1..];
      [s[0]] + rest
  }

  lemma TailSorted(keep: bool, s: seq<BarcodeRecord>)
    requires SortedByOrderId(keep, s) && |s| > 0
    ensures SortedByOrderId(keep, s[1..])
  {
    var tail := s[1..];
    forall i, j | 0 <= i < j < |tail| ensures OrderIdLe(keep, tail[i].orderId, tail[j].orderId) {
      assert tail[i] == s[i + 1] && tail[j] == s[j + 1];
    }
  }

  lemma PrependSorted(keep: bool, y: BarcodeRecord, t: seq<BarcodeRecord>)
    requires SortedByOrderId(keep, t)
    requires |t| > 0 ==> OrderIdLe(keep, y.orderId, t[0].orderId)
    ensures SortedByOrderId(keep, [y] + t)
  {
    var r := [y] + t;
    forall i, j | 0 <= i < j < |r| ensures OrderIdLe(keep, r[i].orderId, r[j].orderId) {
      assert r[j] == t[j - 1];
      if i > 0 {
        assert r[i] == t[i - 1];
      } else if j > 1 {
        OrderIdLeTransitive(keep, y.orderId, t[0].orderId, t[j - 1].orderId);
      }
    }
  }

  lemma HeadStaysFirst(keep: bool, s: seq<BarcodeRecord>, x: BarcodeRecord, rest: seq<BarcodeRecord>)
    requires SortedByOrderId(keep, s) && |s| > 0 && OrderIdLe(keep, s[0].orderId, x.orderId)
    requires multiset(rest) == multiset(s[1..]) + multiset{x}
    ensures |rest| > 0 ==> OrderIdLe(keep, s[0].orderId, rest[0].orderId)
  {
    if |rest| > 0 && rest[0] != x {
      assert rest[0] in multiset(rest);
      assert rest[0] in multiset(s[1..]);
      var k :| 0 <= k < |s[1..]| && s[1..][k] == rest[0];
      assert s[k + 1] == rest[0];
    }
  }

  /** The table sorted on order_id. pandas sorts with an unstable quicksort;
      this is one admissible outcome, and nothing proved below depends on
      how records with equal order ids are arranged. */
  function SortByOrderId(keep: bool, s: seq<BarcodeRecord>): (r: seq<BarcodeRecord>)
    ensures SortedByOrderId(keep, r)
    ensures multiset(r) == multiset(s)
  {
    if |s| == 0 then []
    else
      assert s == [s[0]] + s[1..];
      InsertByOrderId(keep, s[0], SortByOrderId(keep, s[1..]))
  }

  /** drop_duplicates(keep="first", subset=["barcode"]). */
  function KeepFirstPerBarcode(s: seq<BarcodeRecord>): (r: seq<BarcodeRecord>)
    ensures DistinctBarcodes(r)
    ensures BarcodeSet(r) == BarcodeSet(s)
    ensures forall z :: z in r ==> z in s
  {
    if |s| == 0 then []
    else
      var p := s[..|s| - 1];
      var x := s[|s| - 1];
      var kept := KeepFirstPerBarcode(p);
      assert s == p + [x];
      assert BarcodeSet(s) == BarcodeSet(p) + {x.barcode};
      if x.barcode in BarcodeSet(p) then kept
      else
        assert forall k :: 0 <= k < |kept| ==> kept[k].barcode != x.barcode by {
          forall k | 0 <= k < |kept| ensures kept[k].barcode != x.barcode {
            assert kept[k] in kept;
          }
        }
        kept + [x]
  }

  /** No record before position i carries the barcode of the record at i. */
  ghost predicate FirstOfBarcode(s: seq<BarcodeRecord>, i: int)
    requires 0 <= i < |s|
  {
    forall j :: 0 <= j < i ==> s[j].barcode != s[i].barcode
  }

  /** idx lists, ascending, exactly the positions of s whose barcode no
      earlier record carries. */
  ghost predicate FirstPositions(s: seq<BarcodeRecord>, idx: seq<int>)
  {
    && (forall k :: 0 <= k < |idx| ==> 0 <= idx[k] < |s| && FirstOfBarcode(s, idx[k]))
    && (forall k, l :: 0 <= k < l < |idx| ==> idx[k] < idx[l])
    && (forall i :: 0 <= i < |s| && FirstOfBarcode(s, i) ==> i in idx)
  }

  /** The positions of the first record of each barcode value. */
  function FirstOccurrences(s: seq<BarcodeRecord>): (idx: seq<int>)
    ensures FirstPositions(s, idx)
  {
    if |s| == 0 then []
    else
      var p := s[..|s| - 1];
      var rest := FirstOccurrences(p);
      FirstPositionsExtend(s, p, rest);
      if s[|s| - 1].barcode in BarcodeSet(p) then rest else rest + [|s| - 1]
  }

  lemma FirstPositionsExtend(s: seq<BarcodeRecord>, p: seq<BarcodeRecord>, idx: seq<int>)
    requires |s| > 0 && p == s[..|s| - 1]
    requires FirstPositions(p, idx)
    ensures s[|s| - 1].barcode in BarcodeSet(p) ==> FirstPositions(s, idx)
    ensures s[|s| - 1].barcode !in BarcodeSet(p) ==> FirstPositions(s, idx + [|s| - 1])
  {
    var n := |s| - 1;
    assert forall i :: 0 <= i < n ==> s[i] == p[i];
    assert forall i :: 0 <= i < n ==> (FirstOfBarcode(s, i) <==> FirstOfBarcode(p, i));
    assert FirstOfBarcode(s, n) <==> s[n].barcode !in BarcodeSet(p) by {
      if !FirstOfBarcode(s, n) {
        var j :| 0 <= j < n && s[j].barcode == s[n].barcode;
        assert p[j] in p;
      }
    }
  }

  /** Keeping the first record of each barcode picks exactly the records at
      the first-occurrence positions, in table order. */
  lemma {:induction false} KeepFirstSelectsFirstOccurrences(s: seq<BarcodeRecord>)
    ensures |KeepFirstPerBarcode(s)| == |FirstOccurrences(s)|
    ensures forall k :: 0 <= k < |FirstOccurrences(s)| ==>
              KeepFirstPerBarcode(s)[k] == s[FirstOccurrences(s)[k]]
  {
    if |s| > 0 {
      var n := |s| - 1;
      var p := s[..n];
      KeepFirstSelectsFirstOccurrences(p);
      SelectedStep(s, KeepFirstPerBarcode(p), FirstOccurrences(p), KeepFirstPerBarcode(s), FirstOccurrences(s));
    }
  }

  lemma SelectedStep(s: seq<BarcodeRecord>, kept: seq<BarcodeRecord>, idx: seq<int>, r: seq<BarcodeRecord>, ridx: seq<int>)
    requires |s| > 0
    requires |kept| == |idx|
    requires forall k :: 0 <= k < |idx| ==> 0 <= idx[k] < |s| - 1 && kept[k] == s[idx[k]]
    requires (r == kept && ridx == idx) || (r == kept + [s[|s| - 1]] && ridx == idx + [|s| - 1])
    ensures |r| == |ridx|
    ensures forall k :: 0 <= k < |ridx| ==> r[k] == s[ridx[k]]
  {
  }

  /** The barcode of every record that repeats an earlier record's barcode,
      in table order: what the loop over duplicated(subset=["barcode"])
      reports. */
  function DuplicateBarcodes(s: seq<BarcodeRecord>): (r: seq<int>)
    ensures multiset(r) + multiset(BarcodeSet(s)) == multiset(Barcodes(s))
  {
    if |s| == 0 then []
    else
      var p := s[..|s| - 1];
      var x := s[|s| - 1];
      assert s == p + [x];
      assert Barcodes(s) == Barcodes(p) + [x.barcode];
      assert BarcodeSet(s) == BarcodeSet(p) + {x.barcode};
      if x.barcode in BarcodeSet(p) then DuplicateBarcodes(p) + [x.barcode]
      else
        assert multiset(BarcodeSet(s)) == multiset(BarcodeSet(p)) + multiset{x.barcode};
        DuplicateBarcodes(p)
  }

  /** The barcode column. */
  function Barcodes(s: seq<BarcodeRecord>): (r: seq<int>)
    ensures |r| == |s|
    ensures forall i :: 0 <= i < |s| ==> r[i] == s[i].barcode
  {
    seq(|s|, i requires 0 <= i < |s| => s[i].barcode)
  }

  /** The validated table and the duplicate-barcode report. */
  datatype Deduplicated = Deduplicated(records: seq<BarcodeRecord>, duplicates: seq<int>)

  /** Keeping the first record of each barcode in a table sorted on order_id
      keeps, for every barcode, a record whose order id sorts first. */
  lemma {:induction false} FirstIsMinimal(keep: bool, s: seq<BarcodeRecord>)
    requires SortedByOrderId(keep, s)
    ensures forall z, y :: z in KeepFirstPerBarcode(s) && y in s && y.barcode == z.barcode ==>
              OrderIdLe(keep, z.orderId, y.orderId)
  {
    if |s| > 0 {
      var p := s[..|s| - 1];
      var x := s[|s| - 1];
      assert s == p + [x];
      FirstIsMinimal(keep, p);
      MinimalStep(keep, s, p, x, KeepFirstPerBarcode(p), KeepFirstPerBarcode(s));
    }
  }

  /** The last record's share of FirstIsMinimal. */
  lemma MinimalStep(keep: bool, s: seq<BarcodeRecord>, p: seq<BarcodeRecord>, x: BarcodeRecord,
                    kept: seq<BarcodeRecord>, r: seq<BarcodeRecord>)
    requires s == p + [x] && SortedByOrderId(keep, s)
    requires forall z :: z in kept ==> z in p
    requires forall z, y :: z in kept && y in p && y.barcode == z.barcode ==> OrderIdLe(keep, z.orderId, y.orderId)
    requires x.barcode in BarcodeSet(p) ==> r == kept
    requires x.barcode !in BarcodeSet(p) ==> r == kept + [x]
    ensures forall z, y :: z in r && y in s && y.barcode == z.barcode ==> OrderIdLe(keep, z.orderId, y.orderId)
  {
    forall z, y | z in r && y in s && y.barcode == z.barcode
      ensures OrderIdLe(keep, z.orderId, y.orderId)
    {
      OrderIdLeTotal(keep, z.orderId, y.orderId);
      if z in kept {
        if y == x {
          var i :| 0 <= i < |p| && p[i] == z;
          assert s[i] == z;
        } else {
          assert y in p;
        }
      } else {
        assert z == x && x.barcode !in BarcodeSet(p);
      }
    }
  }

  /** On a table without duplicates, drop_duplicates keeps every record. */
  lemma {:induction false} DistinctKeepsAll(s: seq<BarcodeRecord>)
    requires DistinctBarcodes(s)
    ensures KeepFirstPerBarcode(s) == s
  {
    if |s| > 0 {
      var p := s[..|s| - 1];
      var x := s[|s| - 1];
      assert s == p + [x];
      DistinctKeepsAll(p);
      assert x.barcode !in BarcodeSet(p) by {
        forall y | y in p ensures y.barcode != x.barcode {
          var j :| 0 <= j < |p| && p[j] == y;
          assert s[j] == y;
        }
      }
    }
  }

  /** The survivors are input records, one per barcode value, and each one's
      order id sorts first among the records of its barcode. */
  lemma SurvivorsSortFirst(keep: bool, barcodes: seq<BarcodeRecord>)
    ensures var records := KeepFirstPerBarcode(SortByOrderId(keep, barcodes));
      && BarcodeSet(records) == BarcodeSet(barcodes)
      && (forall x :: x in records ==> x in barcodes)
      && (forall x, y :: x in records && y in barcodes && y.barcode == x.barcode ==>
            OrderIdLe(keep, x.orderId, y.orderId))
  {
    var sorted := SortByOrderId(keep, barcodes);
    assert forall x :: x in sorted <==> x in barcodes by {
      forall x ensures x in sorted <==> x in barcodes {
        assert x in sorted <==> x in multiset(sorted);
      }
    }
    assert BarcodeSet(sorted) == BarcodeSet(barcodes);
    FirstIsMinimal(keep, sorted);
  }

  /** Without duplicates, deduplication only reorders the table. */
  lemma DistinctInputUnchanged(keep: bool, barcodes: seq<BarcodeRecord>)
    ensures DistinctBarcodes(barcodes) ==>
              multiset(KeepFirstPerBarcode(SortByOrderId(keep, barcodes))) == multiset(barcodes)
  {
    if DistinctBarcodes(barcodes) {
      var sorted := SortByOrderId(keep, barcodes);
      assert BarcodeSet(sorted) == BarcodeSet(barcodes) by {
        forall x ensures x in sorted <==> x in barcodes {
          assert x in sorted <==> x in multiset(sorted);
        }
      }
      assert |sorted| == |barcodes| by {
        assert |multiset(sorted)| == |multiset(barcodes)|;
      }
      DistinctIffCardinality(barcodes);
      DistinctIffCardinality(sorted);
      DistinctKeepsAll(sorted);
    }
  }

  lemma {:induction false} DuplicateCount(s: seq<BarcodeRecord>)
    ensures |DuplicateBarcodes(s)| == |s| - |BarcodeSet(s)|
  {
    if |s| > 0 {
      var p := s[..|s| - 1];
      var x := s[|s| - 1];
      assert s == p + [x];
      assert BarcodeSet(s) == BarcodeSet(p) + {x.barcode};
      DuplicateCount(p);
    }
  }

  /** _remove_duplicate_barcodes. */
  function RemoveDuplicateBarcodes(barcodes: seq<BarcodeRecord>, keepBarcodesWithOrderIds: bool): (r: Deduplicated)
    ensures DistinctBarcodes(r.records)
    ensures BarcodeSet(r.records) == BarcodeSet(barcodes)
    ensures |r.records| == |BarcodeSet(barcodes)|
    ensures forall x :: x in r.records ==> x in barcodes
    ensures |r.duplicates| == |barcodes| - |r.records|
    ensures multiset(r.duplicates) + multiset(BarcodeSet(barcodes)) == multiset(Barcodes(barcodes))
    ensures r.duplicates == [] <==> DistinctBarcodes(barcodes)
    ensures DistinctBarcodes(barcodes) ==> multiset(r.records) == multiset(barcodes)
    ensures forall x, y :: x in r.records && y in barcodes && y.barcode == x.barcode ==>
              OrderIdLe(keepBarcodesWithOrderIds, x.orderId, y.orderId)
    ensures keepBarcodesWithOrderIds ==>
              forall x, y :: x in r.records && y in barcodes && y.barcode == x.barcode && y.orderId.Some? ==>
                x.orderId.Some? && x.orderId.value <= y.orderId.value
    ensures !keepBarcodesWithOrderIds ==>
              forall x, y :: x in r.records && y in barcodes && y.barcode == x.barcode && y.orderId.None? ==>
                x.orderId.None?
  {
    var sorted := SortByOrderId(keepBarcodesWithOrderIds, barcodes);
    var records := KeepFirstPerBarcode(sorted);
    var duplicates := DuplicateBarcodes(barcodes);
    SurvivorsSortFirst(keepBarcodesWithOrderIds, barcodes);
    SurvivorOrderIds(keepBarcodesWithOrderIds, records, barcodes);
    DistinctInputUnchanged(keepBarcodesWithOrderIds, barcodes);
    DeduplicationCounts(barcodes, records, duplicates);
    Deduplicated(records, duplicates)
  }

  /** The counts of the report: one entry per record beyond the first of
      each barcode value. */
  lemma DeduplicationCounts(barcodes: seq<BarcodeRecord>, records: seq<BarcodeRecord>, duplicates: seq<int>)
    requires DistinctBarcodes(records)
    requires BarcodeSet(records) == BarcodeSet(barcodes)
    requires duplicates == DuplicateBarcodes(barcodes)
    ensures |records| == |BarcodeSet(barcodes)|
    ensures |duplicates| == |barcodes| - |records|
    ensures duplicates == [] <==> DistinctBarcodes(barcodes)
  {
    DuplicateCount(barcodes);
    DistinctIffCardinality(barcodes);
    DistinctIffCardinality(records);
  }

  /** What sorting first means for each value of the flag. */
  lemma SurvivorOrderIds(keep: bool, records: seq<BarcodeRecord>, barcodes: seq<BarcodeRecord>)
    requires forall x, y :: x in records && y in barcodes && y.barcode == x.barcode ==>
               OrderIdLe(keep, x.orderId, y.orderId)
    ensures keep ==>
              forall x, y :: x in records && y in barcodes && y.barcode == x.barcode && y.orderId.Some? ==>
                x.orderId.Some? && x.orderId.value <= y.orderId.value
    ensures !keep ==>
              forall x, y :: x in records && y in barcodes && y.barcode == x.barcode && y.orderId.None? ==>
                x.orderId.None?
  {
  }

  /** pandas' quicksort leaves the arrangement of records with equal order
      ids open. Whatever arrangement it picks, the surviving records are the
      same: two records with the same barcode and the same order id are the
      same record. */
  lemma TieOrderIrrelevant(keep: bool, s1: seq<BarcodeRecord>, s2: seq<BarcodeRecord>)
    requires multiset(s1) == multiset(s2)
    requires SortedByOrderId(keep, s1) && SortedByOrderId(keep, s2)
    ensures forall x :: x in KeepFirstPerBarcode(s1) <==> x in KeepFirstPerBarcode(s2)
  {
    var a := KeepFirstPerBarcode(s1);
    var b := KeepFirstPerBarcode(s2);
    assert forall x :: x in s1 <==> x in s2 by {
      forall x ensures x in s1 <==> x in s2 {
        assert x in s1 <==> x in multiset(s1);
        assert x in s2 <==> x in multiset(s2);
      }
    }
    FirstIsMinimal(keep, s1);
    FirstIsMinimal(keep, s2);
    MinimalOverSameRecords(keep, a, s1, s2);
    assert BarcodeSet(s1) == BarcodeSet(s2);
    SurvivorsAgree(keep, a, b, s2);
    SurvivorsAgree(keep, b, a, s2);
  }

  lemma MinimalOverSameRecords(keep: bool, a: seq<BarcodeRecord>, s1: seq<BarcodeRecord>, s2: seq<BarcodeRecord>)
    requires multiset(s1) == multiset(s2)
    requires forall z, y :: z in a && y in s1 && y.barcode == z.barcode ==> OrderIdLe(keep, z.orderId, y.orderId)
    ensures forall z, y :: z in a && y in s2 && y.barcode == z.barcode ==> OrderIdLe(keep, z.orderId, y.orderId)
  {
    forall z, y | z in a && y in s2 && y.barcode == z.barcode ensures OrderIdLe(keep, z.orderId, y.orderId) {
      assert y in multiset(s2);
    }
  }

  /** Two selections of records from the same table, each holding one
      record of least order id per barcode value, hold the same records. */
  lemma SurvivorsAgree(keep: bool, a: seq<BarcodeRecord>, b: seq<BarcodeRecord>, pool: seq<BarcodeRecord>)
    requires forall x :: x in a ==> x in pool
    requires forall x :: x in b ==> x in pool
    requires BarcodeSet(a) == BarcodeSet(b)
    requires forall z, y :: z in a && y in pool && y.barcode == z.barcode ==> OrderIdLe(keep, z.orderId, y.orderId)
    requires forall z, y :: z in b && y in pool && y.barcode == z.barcode ==> OrderIdLe(keep, z.orderId, y.orderId)
    ensures forall x :: x in a ==> x in b
  {
    forall x | x in a ensures x in b {
      assert x.barcode in BarcodeSet(b);
      var y :| y in b && y.barcode == x.barcode;
      OrderIdLeTotal(keep, x.orderId, y.orderId);
      assert x == BarcodeRecord(y.barcode, y.orderId);
    }
  }
}
