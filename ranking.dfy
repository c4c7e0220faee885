/** The top-customer diagnostic: tickets per customer, ranked by count. */
module Ranking {
  import opened Grouping

  /** One row of groupby(["customer_id"]).sum(): a customer and the number of
      tickets over all of their orders. */
  datatype CustomerTickets = CustomerTickets(customerId: int, tickets: nat)

  /** The ranked table, and the customers reported from its head. */
  datatype Ranking = Ranking(table: seq<CustomerTickets>, top: seq<CustomerTickets>)

  /** The sum of the barcode-list lengths over a customer's orders. */
  function TicketsOf(entries: seq<Entry>, customerId: int): (r: nat)
    ensures customerId !in CustomerSet(entries) ==> r == 0
    ensures r <= |Flatten(entries)|
  {
    if |entries| == 0 then 0
    else
      assert CustomerSet(entries) == CustomerSet(entries[1..]) + {entries[0].key.customerId} by {
        assert entries == [entries[0]] + entries[1..];
      }
      (if entries[0].key.customerId == customerId then |entries[0].barcodes| else 0)
        + TicketsOf(entries[1..], customerId)
  }

  /** The customers occurring in the output. */
  function CustomerSet(entries: seq<Entry>): set<int>
  {
    set e | e in entries :: e.key.customerId
  }

  ghost predicate StrictlyIncreasing(s: seq<int>)
  {
    forall i, j :: 0 <= i < j < |s| ==> s[i] < s[j]
  }

  function InsertId(c: int, cs: seq<int>): (r: seq<int>)
    requires StrictlyIncreasing(cs)
    ensures StrictlyIncreasing(r)
    ensures forall x :: x in r <==> x in cs || x == c
  {
    if |cs| == 0 then [c]
    else if c == cs[0] then cs
    else if c < cs[0] then [c] + cs
    else
      var rest := InsertId(c, cs[1..]);
      RestAboveHead(c, cs, rest);
      PrependIncreasing(cs[0], rest);
      [cs[0]] + rest
  }

  lemma RestAboveHead(c: int, cs: seq<int>, rest: seq<int>)
    requires StrictlyIncreasing(cs) && |cs| > 0 && cs[0] < c
    requires forall x :: x in rest <==> x in cs[1..] || x == c
    ensures forall x :: x in rest ==> cs[0] < x
  {
    forall x | x in rest ensures cs[0] < x {
      if x != c {
        var j :| 0 <= j < |cs[1..]| && cs[1..][j] == x;
        assert cs[j + 1] == x;
      }
    }
  }

  lemma PrependIncreasing(h: int, rest: seq<int>)
    requires StrictlyIncreasing(rest)
    requires forall x :: x in rest ==> h < x
    ensures StrictlyIncreasing([h] + rest)
  {
    var r := [h] + rest;
    forall i, j | 0 <= i < j < |r| ensures r[i] < r[j] {
      assert r[j] == rest[j - 1] && r[j] in rest;
      if i > 0 {
        assert r[i] == rest[i - 1];
      }
    }
  }

  /** The distinct customers of the output, ascending: the groups of
      groupby(["customer_id"]). */
  function CustomerIds(entries: seq<Entry>): (r: seq<int>)
    ensures StrictlyIncreasing(r)
    ensures forall c :: c in r <==> c in CustomerSet(entries)
  {
    if |entries| == 0 then []
    else
      assert entries == [entries[0]] + entries[1..];
      assert CustomerSet(entries) == CustomerSet(entries[1..]) + {entries[0].key.customerId};
      InsertId(entries[0].key.customerId, CustomerIds(entries[1..]))
  }

  /** One row per customer, in the order of the given customers. */
  function Table(entries: seq<Entry>, cs: seq<int>): (r: seq<CustomerTickets>)
    ensures |r| == |cs|
    ensures forall i :: 0 <= i < |cs| ==> r[i] == CustomerTickets(cs[i], TicketsOf(entries, cs[i]))
  {
    if |cs| == 0 then []
    else [CustomerTickets(cs[0], TicketsOf(entries, cs[0]))] + Table(entries, cs[1..])
  }

  /** groupby(["customer_id"]).sum() of the per-order ticket counts. */
  function TicketTable(entries: seq<Entry>): (r: seq<CustomerTickets>)
    ensures forall x :: x in r <==> x.customerId in CustomerSet(entries) && x.tickets == TicketsOf(entries, x.customerId)
  {
    var cs := CustomerIds(entries);
    TableMembership(entries, cs);
    Table(entries, cs)
  }

  lemma TableMembership(entries: seq<Entry>, cs: seq<int>)
    ensures forall x :: x in Table(entries, cs) <==> x.customerId in cs && x.tickets == TicketsOf(entries, x.customerId)
  {
    var t := Table(entries, cs);
    forall x ensures x in t <==> x.customerId in cs && x.tickets == TicketsOf(entries, x.customerId) {
      if x.customerId in cs && x.tickets == TicketsOf(entries, x.customerId) {
        var i :| 0 <= i < |cs| && cs[i] == x.customerId;
        assert t[i] == x;
      }
    }
  }

  ghost predicate NonIncreasing(s: seq<CustomerTickets>)
  {
    forall i, j :: 0 <= i < j < |s| ==> s[i].tickets >= s[j].tickets
  }

  function InsertByTickets(x: CustomerTickets, s: seq<CustomerTickets>): (r: seq<CustomerTickets>)
    requires NonIncreasing(s)
    ensures NonIncreasing(r)
    ensures multiset(r) == multiset(s) + multiset{x}
  {
    if |s| == 0 then [x]
    else if x.tickets >= s[0].tickets then
      PrependNonIncreasing(x, s);
      [x] + s
    else
      TailNonIncreasing(s);
      var rest := InsertByTickets(x, s[1..]);
      HeadStaysFirst(s, x, rest);
      PrependNonIncreasing(s[0], rest);
      assert s == [s[0]] + s[1..];
      [s[0]] + rest
  }

  lemma TailNonIncreasing(s: seq<CustomerTickets>)
    requires NonIncreasing(s) && |s| > 0
    ensures NonIncreasing(s[1..])
  {
    var tail := s[1..];
    forall i, j | 0 <= i < j < |tail| ensures tail[i].tickets >= tail[j].tickets {
      assert tail[i] == s[i + 1] && tail[j] == s[j + 1];
    }
  }

  lemma PrependNonIncreasing(y: CustomerTickets, t: seq<CustomerTickets>)
    requires NonIncreasing(t)
    requires |t| > 0 ==> y.tickets >= t[0].tickets
    ensures NonIncreasing([y] + t)
  {
    var r := [y] + t;
    forall i, j | 0 <= i < j < |r| ensures r[i].tickets >= r[j].tickets {
      assert r[j] == t[j - 1];
      if i > 0 { assert r[i] == t[i - 1]; }
    }
  }

  lemma HeadStaysFirst(s: seq<CustomerTickets>, x: CustomerTickets, rest: seq<CustomerTickets>)
    requires NonIncreasing(s) && |s| > 0 && x.tickets < s[0].tickets
    requires multiset(rest) == multiset(s[1..]) + multiset{x}
    ensures |rest| > 0 ==> s[0].tickets >= rest[0].tickets
  {
    if |rest| > 0 && rest[0] != x {
      assert rest[0] in multiset(rest);
      assert rest[0] in multiset(s[1..]);
      var k :| 0 <= k < |s[1..]| && s[1..][k] == rest[0];
      assert s[k + 1] == rest[0];
    }
  }

  /** sort_values(by="no_of_tickets", ascending=False). pandas sorts with an
      unstable quicksort; this is one admissible outcome. */
  function SortByTicketsDescending(s: seq<CustomerTickets>): (r: seq<CustomerTickets>)
    ensures NonIncreasing(r)
    ensures multiset(r) == multiset(s)
  {
    if |s| == 0 then []
    else
      assert s == [s[0]] + s[1..];
      InsertByTickets(s[0], SortByTicketsDescending(s[1..]))
  }

  /** The end index of Python's slice s[:n] on a sequence of length len. */
  function SliceEnd(n: int, len: nat): (r: nat)
    ensures r <= len
    ensures n >= 0 ==> r == if n < len then n else len
    ensures n < 0 ==> len - r == if -n < len then -n else len
  {
    if n >= 0 then (if n < len then n else len)
    else if len + n > 0 then len + n
    else 0
  }

  /** No row of the per-customer table occurs twice. */
  lemma {:induction false} DistinctTable(entries: seq<Entry>, cs: seq<int>)
    requires StrictlyIncreasing(cs)
    ensures forall x :: multiset(Table(entries, cs))[x] <= 1
  {
    if |cs| > 0 {
      var tail := cs[1..];
      assert StrictlyIncreasing(tail) by {
        forall i, j | 0 <= i < j < |tail| ensures tail[i] < tail[j] {
          assert tail[i] == cs[i + 1] && tail[j] == cs[j + 1];
        }
      }
      DistinctTable(entries, tail);
      var head := CustomerTickets(cs[0], TicketsOf(entries, cs[0]));
      var rest := Table(entries, tail);
      assert Table(entries, cs) == [head] + rest;
      assert head !in rest by {
        forall k | 0 <= k < |rest| ensures rest[k] != head {
          assert rest[k].customerId == cs[k + 1];
        }
      }
    }
  }

  lemma RepeatedElement(s: seq<CustomerTickets>)
    ensures forall i, j :: 0 <= i < j < |s| && s[i] == s[j] ==> multiset(s)[s[i]] >= 2
  {
    forall i, j | 0 <= i < j < |s| && s[i] == s[j] ensures multiset(s)[s[i]] >= 2 {
      assert s == s[..j] + [s[j]] + s[j + 1..];
      assert s[i] in s[..j];
    }
  }

  /** In a table where no row repeats and each count is the customer's own,
      no customer appears twice. */
  lemma DistinctCustomers(s: seq<CustomerTickets>, entries: seq<Entry>)
    requires forall x :: multiset(s)[x] <= 1
    requires forall i :: 0 <= i < |s| ==> s[i].tickets == TicketsOf(entries, s[i].customerId)
    ensures forall i, j :: 0 <= i < j < |s| ==> s[i].customerId != s[j].customerId
  {
    RepeatedElement(s);
  }

  /** One row per customer of the output, with that customer's ticket count. */
  ghost predicate OneRowPerCustomer(table: seq<CustomerTickets>, entries: seq<Entry>)
  {
    && (forall i :: 0 <= i < |table| ==> table[i].tickets == TicketsOf(entries, table[i].customerId))
    && (forall c :: c in CustomerSet(entries) <==> exists i :: 0 <= i < |table| && table[i].customerId == c)
    && (forall i, j :: 0 <= i < j < |table| ==> table[i].customerId != table[j].customerId)
  }

  /** top is what the slice [:n] takes from the head of table: n rows (or
      all of them), or all but the last -n rows for a negative n; no later
      row outranks one of them. */
  ghost predicate LeadingSlice(top: seq<CustomerTickets>, table: seq<CustomerTickets>, n: int)
  {
    && |top| <= |table| && top == table[..|top|]
    && |top| == SliceEnd(n, |table|)
    && (forall i, j :: 0 <= i < |top| <= j < |table| ==> table[j].tickets <= top[i].tickets)
  }

  /** Any permutation of the per-customer table holds exactly one row per
      customer of the output, with that customer's count. */
  lemma RankedRows(entries: seq<Entry>, table: seq<CustomerTickets>)
    requires multiset(table) == multiset(TicketTable(entries))
    ensures OneRowPerCustomer(table, entries)
  {
    var cs := CustomerIds(entries);
    var perCustomer := TicketTable(entries);
    assert forall x :: x in table <==> x in perCustomer by {
      forall x ensures x in table <==> x in perCustomer {
        assert x in table <==> x in multiset(table);
      }
    }
    forall i | 0 <= i < |table| ensures table[i].tickets == TicketsOf(entries, table[i].customerId) {
      assert table[i] in perCustomer;
    }
    forall c ensures c in CustomerSet(entries) <==> exists i :: 0 <= i < |table| && table[i].customerId == c {
      if c in CustomerSet(entries) {
        var k :| 0 <= k < |cs| && cs[k] == c;
        assert perCustomer[k] in table;
        var i :| 0 <= i < |table| && table[i] == perCustomer[k];
      }
      if exists i :: 0 <= i < |table| && table[i].customerId == c {
        var i :| 0 <= i < |table| && table[i].customerId == c;
        assert table[i] in perCustomer;
        var k :| 0 <= k < |perCustomer| && perCustomer[k] == table[i];
        assert cs[k] in cs;
      }
    }
    DistinctTable(entries, cs);
    DistinctCustomers(table, entries);
  }

  /** _log_customers_that_bought_most_tickets: the ranked table and the head
      of it that is reported. */
  function CustomersThatBoughtMostTickets(entries: seq<Entry>, noOfTopCustomers: int): (r: Ranking)
    ensures multiset(r.table) == multiset(TicketTable(entries))
    ensures OneRowPerCustomer(r.table, entries)
    ensures NonIncreasing(r.table)
    ensures LeadingSlice(r.top, r.table, noOfTopCustomers)
    ensures |r.table| == |CustomerSet(entries)|
  {
    var table := SortByTicketsDescending(TicketTable(entries));
    RankedRows(entries, table);
    SortedTableSize(entries, table);
    var top := table[..SliceEnd(noOfTopCustomers, |table|)];
    LeadingRows(table, noOfTopCustomers, top);
    Ranking(table, top)
  }

  /** The slice [:n] of a table sorted by tickets descending is a prefix
      that no later row outranks. */
  lemma LeadingRows(table: seq<CustomerTickets>, n: int, top: seq<CustomerTickets>)
    requires NonIncreasing(table)
    requires top == table[..SliceEnd(n, |table|)]
    ensures LeadingSlice(top, table, n)
  {
    assert forall i :: 0 <= i < |top| ==> top[i] == table[i];
  }

  /** The tickets of the output, summed over its rows. */
  function SumTickets(table: seq<CustomerTickets>): nat
  {
    if |table| == 0 then 0 else table[0].tickets + SumTickets(table[1..])
  }

  /** The tickets of the entries whose customer is one of the given ones. */
  function TicketsWithCustomerIn(entries: seq<Entry>, cs: set<int>): nat
  {
    if |entries| == 0 then 0
    else
      (if entries[0].key.customerId in cs then |entries[0].barcodes| else 0)
        + TicketsWithCustomerIn(entries[1..], cs)
  }

  lemma {:induction false} SplitCustomers(entries: seq<Entry>, cs: set<int>, c: int)
    requires c !in cs
    ensures TicketsWithCustomerIn(entries, cs + {c}) == TicketsWithCustomerIn(entries, cs) + TicketsOf(entries, c)
  {
    if |entries| > 0 {
      SplitCustomers(entries[1..], cs, c);
    }
  }

  lemma {:induction false} NoCustomers(entries: seq<Entry>)
    ensures TicketsWithCustomerIn(entries, {}) == 0
  {
    if |entries| > 0 {
      NoCustomers(entries[1..]);
    }
  }

  lemma {:induction false} AllCustomers(entries: seq<Entry>, cs: set<int>)
    requires forall e :: e in entries ==> e.key.customerId in cs
    ensures TicketsWithCustomerIn(entries, cs) == |Flatten(entries)|
  {
    if |entries| > 0 {
      assert entries[0] in entries;
      assert forall e :: e in entries[1..] ==> e in entries;
      AllCustomers(entries[1..], cs);
    }
  }

  lemma {:induction false} SumTable(entries: seq<Entry>, cs: seq<int>)
    requires StrictlyIncreasing(cs)
    ensures SumTickets(Table(entries, cs)) == TicketsWithCustomerIn(entries, set c | c in cs)
  {
    if |cs| == 0 {
      assert (set c | c in cs) == {};
      NoCustomers(entries);
    } else {
      var tail := cs[1..];
      IncreasingTail(cs);
      SumTable(entries, tail);
      var t := Table(entries, cs);
      assert t[1..] == Table(entries, tail);
      assert SumTickets(t) == TicketsOf(entries, cs[0]) + SumTickets(t[1..]);
      SplitCustomers(entries, (set c | c in tail), cs[0]);
    }
  }

  /** The ticket table has one row per customer of the output. */
  lemma SortedTableSize(entries: seq<Entry>, table: seq<CustomerTickets>)
    requires multiset(table) == multiset(TicketTable(entries))
    ensures |table| == |CustomerSet(entries)|
  {
    TicketTableSize(entries);
    assert |table| == |multiset(table)|;
  }

  lemma TicketTableSize(entries: seq<Entry>)
    ensures |TicketTable(entries)| == |CustomerSet(entries)|
  {
    var cs := CustomerIds(entries);
    IncreasingCardinality(cs);
    assert (set c | c in cs) == CustomerSet(entries);
  }

  lemma {:induction false} IncreasingCardinality(cs: seq<int>)
    requires StrictlyIncreasing(cs)
    ensures |(set c | c in cs)| == |cs|
  {
    if |cs| == 0 {
      assert (set c | c in cs) == {};
    } else {
      IncreasingTail(cs);
      IncreasingCardinality(cs[1..]);
    }
  }

  lemma IncreasingTail(cs: seq<int>)
    requires StrictlyIncreasing(cs) && |cs| > 0
    ensures StrictlyIncreasing(cs[1..])
    ensures (set c | c in cs) == (set c | c in cs[1..]) + {cs[0]}
    ensures cs[0] !in (set c | c in cs[1..])
  {
    var tail := cs[1..];
    forall i, j | 0 <= i < j < |tail| ensures tail[i] < tail[j] {
      assert tail[i] == cs[i + 1] && tail[j] == cs[j + 1];
    }
    assert cs == [cs[0]] + tail;
    forall j | 0 <= j < |tail| ensures tail[j] != cs[0] {
      assert cs[0] < cs[j + 1];
    }
  }

  /** The per-customer counts account for every ticket of the output. */
  lemma TicketTableCountsEveryTicket(entries: seq<Entry>)
    ensures SumTickets(TicketTable(entries)) == |Flatten(entries)|
  {
    var cs := CustomerIds(entries);
    SumTable(entries, cs);
    assert forall e :: e in entries ==> e.key.customerId in (set c | c in cs);
    AllCustomers(entries, (set c | c in cs));
  }
}
