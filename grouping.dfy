/** groupby(["customer_id", "order_id"]) over the joined rows, collecting
    each group's barcodes into a list of integers. */
module Grouping {
  import opened Records
  import opened Join

  /** One row of the output: a key and the barcodes of its group. */
  datatype Entry = Entry(key: OrderKey, barcodes: seq<int>)

  /** groupby sorts its keys: by customer_id, then by order_id. */
  predicate KeyLess(a: OrderKey, b: OrderKey)
  {
    a.customerId < b.customerId || (a.customerId == b.customerId && a.orderId < b.orderId)
  }

  ghost predicate StrictlyAscending(ks: seq<OrderKey>)
  {
    forall i, j :: 0 <= i < j < |ks| ==> KeyLess(ks[i], ks[j])
  }

  /** The keys occurring in the joined rows. */
  function KeySet(rows: seq<JoinedRow>): set<OrderKey>
  {
    set row | row in rows :: row.key
  }

  function InsertKey(k: OrderKey, ks: seq<OrderKey>): (r: seq<OrderKey>)
    requires StrictlyAscending(ks)
    ensures StrictlyAscending(r)
    ensures forall x :: x in r <==> x in ks || x == k
  {
    if |ks| == 0 then [k]
    else if k == ks[0] then ks
    else if KeyLess(k, ks[0]) then [k] + ks
    else
      var rest := InsertKey(k, ks[1..]);
      assert forall x :: x in rest ==> KeyLess(ks[0], x) by {
        forall x | x in rest ensures KeyLess(ks[0], x) {
          if x != k {
            var j :| 0 <= j < |ks[1..]| && ks[1..][j] == x;
            assert ks[j + 1] == x;
          }
        }
      }
      [ks[0]] + rest
  }

  /** The distinct keys of the joined rows, ascending. */
  function GroupKeys(rows: seq<JoinedRow>): (r: seq<OrderKey>)
    ensures StrictlyAscending(r)
    ensures forall k :: k in r <==> k in KeySet(rows)
  {
    if |rows| == 0 then []
    else
      assert rows == [rows[0]] + rows[1..];
      assert KeySet(rows) == KeySet(rows[1..]) + {rows[0].key};
      InsertKey(rows[0].key, GroupKeys(rows[1..]))
  }

  /** The barcodes of one group, in row order. */
  function GroupBarcodes(rows: seq<JoinedRow>, k: OrderKey): (r: seq<int>)
    ensures forall b :: multiset(r)[b] == multiset(rows)[JoinedRow(k, Some(b))]
  {
    if |rows| == 0 then []
    else
      var row := rows[0];
      assert rows == [row] + rows[1..];
      if row.key == k && row.barcode.Some? then
        assert row == JoinedRow(k, Some(row.barcode.value));
        [row.barcode.value] + GroupBarcodes(rows[1..], k)
      else GroupBarcodes(rows[1..], k)
  }

  /** One entry per key, in the order of the keys. */
  function Groups(rows: seq<JoinedRow>, ks: seq<OrderKey>): (r: seq<Entry>)
    ensures |r| == |ks|
    ensures forall i :: 0 <= i < |ks| ==> r[i] == Entry(ks[i], GroupBarcodes(rows, ks[i]))
  {
    if |ks| == 0 then []
    else [Entry(ks[0], GroupBarcodes(rows, ks[0]))] + Groups(rows, ks[1..])
  }

  /** The groupby-and-collect of _make_customers_to_barcodes_series. The
      conversion int(barcode) fails on a missing barcode, so every row must
      have one. */
  function GroupByKey(rows: seq<JoinedRow>): (r: seq<Entry>)
    requires forall row :: row in rows ==> row.barcode.Some?
    ensures forall i, j :: 0 <= i < j < |r| ==> KeyLess(r[i].key, r[j].key)
    ensures forall k :: k in KeySet(rows) <==> exists i :: 0 <= i < |r| && r[i].key == k
    ensures forall i :: 0 <= i < |r| ==> |r[i].barcodes| > 0
    ensures forall i, b :: 0 <= i < |r| ==>
              multiset(r[i].barcodes)[b] == multiset(rows)[JoinedRow(r[i].key, Some(b))]
  {
    var ks := GroupKeys(rows);
    var r := Groups(rows, ks);
    GroupsCoverKeys(rows, ks, r);
    GroupsNonEmpty(rows, ks, r);
    r
  }

  lemma GroupsCoverKeys(rows: seq<JoinedRow>, ks: seq<OrderKey>, r: seq<Entry>)
    requires forall k :: k in ks <==> k in KeySet(rows)
    requires |r| == |ks| && forall i :: 0 <= i < |ks| ==> r[i].key == ks[i]
    ensures forall k :: k in KeySet(rows) <==> exists i :: 0 <= i < |r| && r[i].key == k
  {
    forall k ensures k in KeySet(rows) <==> exists i :: 0 <= i < |r| && r[i].key == k {
      if k in KeySet(rows) {
        var i :| 0 <= i < |ks| && ks[i] == k;
        assert r[i].key == k;
      }
    }
  }

  lemma GroupsNonEmpty(rows: seq<JoinedRow>, ks: seq<OrderKey>, r: seq<Entry>)
    requires forall row :: row in rows ==> row.barcode.Some?
    requires forall k :: k in ks ==> k in KeySet(rows)
    requires |r| == |ks| && forall i :: 0 <= i < |ks| ==> r[i] == Entry(ks[i], GroupBarcodes(rows, ks[i]))
    ensures forall i :: 0 <= i < |r| ==> |r[i].barcodes| > 0
  {
    forall i | 0 <= i < |r| ensures |r[i].barcodes| > 0 {
      assert ks[i] in ks;
      var row :| row in rows && row.key == ks[i];
      assert row == JoinedRow(ks[i], Some(row.barcode.value));
      assert multiset(r[i].barcodes)[row.barcode.value] > 0;
    }
  }

  /** All barcodes of the output, entry after entry. */
  function Flatten(entries: seq<Entry>): seq<int>
  {
    if |entries| == 0 then [] else entries[0].barcodes + Flatten(entries[1..])
  }

  /** The barcodes of the rows whose key is one of the given keys. */
  function BarcodesWithKeyIn(rows: seq<JoinedRow>, keys: set<OrderKey>): seq<int>
  {
    if |rows| == 0 then []
    else
      (if rows[0].key in keys && rows[0].barcode.Some? then [rows[0].barcode.value] else [])
        + BarcodesWithKeyIn(rows[1..], keys)
  }

  lemma {:induction false} SplitKeys(rows: seq<JoinedRow>, keys: set<OrderKey>, k: OrderKey)
    requires k !in keys
    ensures multiset(BarcodesWithKeyIn(rows, keys + {k}))
            == multiset(BarcodesWithKeyIn(rows, keys)) + multiset(GroupBarcodes(rows, k))
  {
    if |rows| > 0 {
      var row, rest := rows[0], rows[1..];
      SplitKeys(rest, keys, k);
      SplitRow(row, keys, k,
        BarcodesWithKeyIn(rows, keys + {k}), BarcodesWithKeyIn(rows, keys), GroupBarcodes(rows, k),
        BarcodesWithKeyIn(rest, keys + {k}), BarcodesWithKeyIn(rest, keys), GroupBarcodes(rest, k));
    }
  }

  /** One row's share of the split in SplitKeys. */
  lemma SplitRow(row: JoinedRow, keys: set<OrderKey>, k: OrderKey,
                 all: seq<int>, some: seq<int>, group: seq<int>,
                 restAll: seq<int>, restSome: seq<int>, restGroup: seq<int>)
    requires k !in keys
    requires multiset(restAll) == multiset(restSome) + multiset(restGroup)
    requires all == (if row.key in keys + {k} && row.barcode.Some? then [row.barcode.value] else []) + restAll
    requires some == (if row.key in keys && row.barcode.Some? then [row.barcode.value] else []) + restSome
    requires group == (if row.key == k && row.barcode.Some? then [row.barcode.value] else []) + restGroup
    ensures multiset(all) == multiset(some) + multiset(group)
  {
  }

  lemma {:induction false} FlattenGroups(rows: seq<JoinedRow>, ks: seq<OrderKey>)
    requires StrictlyAscending(ks)
    ensures multiset(Flatten(Groups(rows, ks))) == multiset(BarcodesWithKeyIn(rows, set k | k in ks))
  {
    if |ks| == 0 {
      assert (set k | k in ks) == {};
      NoKeys(rows);
    } else {
      var tail := ks[1..];
      AscendingTail(ks);
      FlattenGroups(rows, tail);
      var group := GroupBarcodes(rows, ks[0]);
      var others := Groups(rows, tail);
      assert Groups(rows, ks) == [Entry(ks[0], group)] + others;
      assert Flatten(Groups(rows, ks)) == group + Flatten(others);
      SplitKeys(rows, (set k | k in tail), ks[0]);
    }
  }

  lemma AscendingTail(ks: seq<OrderKey>)
    requires StrictlyAscending(ks) && |ks| > 0
    ensures StrictlyAscending(ks[1..])
    ensures (set k | k in ks) == (set k | k in ks[1..]) + {ks[0]}
    ensures ks[0] !in (set k | k in ks[1..])
  {
    var tail := ks[1..];
    forall i, j | 0 <= i < j < |tail| ensures KeyLess(tail[i], tail[j]) {
      assert tail[i] == ks[i + 1] && tail[j] == ks[j + 1];
    }
    assert ks == [ks[0]] + tail;
    forall j | 0 <= j < |tail| ensures tail[j] != ks[0] {
      assert KeyLess(ks[0], ks[j + 1]);
    }
  }

  lemma {:induction false} NoKeys(rows: seq<JoinedRow>)
    ensures BarcodesWithKeyIn(rows, {}) == []
  {
    if |rows| > 0 {
      NoKeys(rows[1..]);
    }
  }

  lemma {:induction false} AllKeys(rows: seq<JoinedRow>, keys: set<OrderKey>)
    requires forall row :: row in rows ==> row.key in keys
    ensures BarcodesWithKeyIn(rows, keys) == JoinedBarcodes(rows)
  {
    if |rows| > 0 {
      assert rows[0] in rows;
      assert forall row :: row in rows[1..] ==> row in rows;
      AllKeys(rows[1..], keys);
    }
  }

  /** Grouping neither loses nor duplicates a barcode. */
  lemma GroupConservesBarcodes(rows: seq<JoinedRow>)
    requires forall row :: row in rows ==> row.barcode.Some?
    ensures multiset(Flatten(GroupByKey(rows))) == multiset(JoinedBarcodes(rows))
  {
    var ks := GroupKeys(rows);
    FlattenGroups(rows, ks);
    assert forall row :: row in rows ==> row.key in (set k | k in ks);
    AllKeys(rows, (set k | k in ks));
  }
}
