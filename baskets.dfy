/**
 * Basket construction: the cleaned rows grouped by invoice number, one list of
 * item descriptions per invoice, the groups in ascending order of invoice
 * number as a sorting group-by yields them.
 */
module Baskets {
  import opened Filtering
  import opened Invoices

  /** Python's order on strings: code point by code point, a proper prefix first. */
  predicate LexLess(a: string, b: string)
    decreases |a|
  {
    if a == [] then b != []
    else if b == [] then false
    else if a[0] != b[0] then a[0] < b[0]
    else LexLess(a[1..], b[1..])
  }

  lemma {:induction false} LexIrreflexive(a: string)
    ensures !LexLess(a, a)
    decreases |a|
  {
    if a != [] {
      LexIrreflexive(a[1..]);
    }
  }

  lemma {:induction false} LexTransitive(a: string, b: string, c: string)
    requires LexLess(a, b) && LexLess(b, c)
    ensures LexLess(a, c)
    decreases |a|
  {
    if a != [] && b != [] && c != [] && a[0] == b[0] == c[0] {
      LexTransitive(a[1..], b[1..], c[1..]);
    }
  }

  lemma {:induction false} LexTotal(a: string, b: string)
    requires a != b
    ensures LexLess(a, b) || LexLess(b, a)
    decreases |a|
  {
    if a != [] && b != [] && a[0] == b[0] {
      assert a == [a[0]] + a[1..] && b == [b[0]] + b[1..];
      LexTotal(a[1..], b[1..]);
    }
  }

  predicate StrictlyAscending(ks: seq<string>)
  {
    forall i, j :: 0 <= i < j < |ks| ==> LexLess(ks[i], ks[j])
  }

  predicate Distinct(ks: seq<string>)
  {
    forall i, j :: 0 <= i < j < |ks| ==> ks[i] != ks[j]
  }

  lemma AscendingIsDistinct(ks: seq<string>)
    requires StrictlyAscending(ks)
    ensures Distinct(ks)
  {
    forall i, j | 0 <= i < j < |ks|
      ensures ks[i] != ks[j]
    {
      LexIrreflexive(ks[i]);
    }
  }

  /** A sequence without repeats has as many elements as the set of its elements. */
  lemma {:induction false} DistinctCardinality(ks: seq<string>)
    requires Distinct(ks)
    ensures |set k | k in ks| == |ks|
    decreases |ks|
  {
    if ks != [] {
      DistinctCardinality(ks[1..]);
      assert (set k | k in ks) == {ks[0]} + (set k | k in ks[1..]);
      assert ks[0] !in (set k | k in ks[1..]);
    }
  }

  /** Adds `k` to an ascending key list unless it is already there. */
  function InsertKey(k: string, ks: seq<string>): (r: seq<string>)
    requires StrictlyAscending(ks)
    ensures StrictlyAscending(r)
    ensures forall x :: x in r <==> x == k || x in ks
    decreases |ks|
  {
    if ks == [] then [k]
    else if k == ks[0] then ks
    else if LexLess(k, ks[0]) then
      LexAboveAll(k, ks);
      [k] + ks
    else
      LexTotal(k, ks[0]);
      var rest := InsertKey(k, ks[1..]);
      assert forall j :: 0 <= j < |ks[1..]| ==> LexLess(ks[0], ks[1..][j]);
      assert forall y :: y in rest ==> LexLess(ks[0], y);
      [ks[0]] + rest
  }

  /** An element below the head of an ascending list is below all of it. */
  lemma LexAboveAll(k: string, ks: seq<string>)
    requires StrictlyAscending(ks) && ks != [] && LexLess(k, ks[0])
    ensures forall i :: 0 <= i < |ks| ==> LexLess(k, ks[i])
  {
    forall i | 0 < i < |ks|
      ensures LexLess(k, ks[i])
    {
      LexTransitive(k, ks[0], ks[i]);
    }
  }

  /** The distinct invoice numbers of the rows, in ascending order: the group keys. */
  function SortedInvoiceNos(rows: seq<Row>): (ks: seq<string>)
    ensures StrictlyAscending(ks)
    ensures forall x :: x in ks <==> x in InvoiceNos(rows)
    decreases |rows|
  {
    if rows == [] then []
    else
      assert forall r :: r in rows ==> r == rows[0] || r in rows[1..];
      InsertKey(rows[0].invoiceNo, SortedInvoiceNos(rows[1..]))
  }

  /** The `Description` column of the rows, in order. */
  function Descriptions(rows: seq<Row>): (ds: seq<string>)
    ensures |ds| == |rows|
  {
    seq(|rows|, i requires 0 <= i < |rows| => rows[i].description)
  }

  /**
   * The item list of invoice x: the descriptions of its rows in row order,
   * duplicates kept. It is empty exactly when x does not occur.
   */
  function ItemsOf(rows: seq<Row>, x: string): (items: seq<string>)
    ensures forall d :: d in items <==> exists r :: r in rows && r.invoiceNo == x && r.description == d
    ensures items == [] <==> x !in InvoiceNos(rows)
  {
    var own := Filter((r: Row) => r.invoiceNo == x, rows);
    DescriptionsOfOwnRows(rows, x, own);
    Descriptions(own)
  }

  lemma DescriptionsOfOwnRows(rows: seq<Row>, x: string, own: seq<Row>)
    requires own == Filter((r: Row) => r.invoiceNo == x, rows)
    ensures forall d :: d in Descriptions(own) <==> exists r :: r in rows && r.invoiceNo == x && r.description == d
    ensures Descriptions(own) == [] <==> x !in InvoiceNos(rows)
  {
    forall d | d in Descriptions(own)
      ensures exists r :: r in rows && r.invoiceNo == x && r.description == d
    {
      var i :| 0 <= i < |own| && Descriptions(own)[i] == d;
      assert own[i] in own;
    }
    forall r | r in rows && r.invoiceNo == x
      ensures r.description in Descriptions(own)
    {
      assert r in own;
      var i :| 0 <= i < |own| && own[i] == r;
      assert Descriptions(own)[i] == r.description;
    }
    if x in InvoiceNos(rows) {
      var r :| r in rows && r.invoiceNo == x;
      assert r.description in Descriptions(own);
    }
    if own != [] {
      assert own[0] in own && own[0].invoiceNo == x;
      assert x in InvoiceNos(rows);
    }
  }

  /** The number of rows of invoice x described as d. */
  function CountOf(rows: seq<Row>, x: string, d: string): nat
  {
    if rows == [] then 0
    else (if rows[0].invoiceNo == x && rows[0].description == d then 1 else 0) + CountOf(rows[1..], x, d)
  }

  /** The item list of the rows unfolds one row at a time. */
  lemma ItemsOfFirstRow(rows: seq<Row>, x: string)
    requires rows != []
    ensures ItemsOf(rows, x) ==
              (if rows[0].invoiceNo == x then [rows[0].description] else []) + ItemsOf(rows[1..], x)
  {
    var head := if rows[0].invoiceNo == x then [rows[0]] else [];
    var own1 := Filter((r: Row) => r.invoiceNo == x, rows[1..]);
    assert Filter((r: Row) => r.invoiceNo == x, rows) == head + own1;
    assert Descriptions(head + own1) == Descriptions(head) + Descriptions(own1);
  }

  /** Duplicates are kept: each description occurs in x's list once per row of x carrying it. */
  lemma {:induction false} ItemsOfCounts(rows: seq<Row>, x: string, d: string)
    ensures multiset(ItemsOf(rows, x))[d] == CountOf(rows, x, d)
    decreases |rows|
  {
    if rows != [] {
      ItemsOfFirstRow(rows, x);
      ItemsOfCounts(rows[1..], x, d);
    }
  }

  /**
   * The items of x keep the order of x's own rows: the list is the description
   * column of a subsequence of the rows that holds exactly the rows of x, each
   * with its full multiplicity.
   */
  lemma ItemsOfInRowOrder(rows: seq<Row>, x: string)
    ensures exists own: seq<Row> ::
              && IsSubsequence(own, rows)
              && (forall r: Row :: r in own ==> r.invoiceNo == x)
              && (forall r: Row :: multiset(own)[r] == if r.invoiceNo == x then multiset(rows)[r] else 0)
              && ItemsOf(rows, x) == Descriptions(own)
  {
    var own := Filter((r: Row) => r.invoiceNo == x, rows);
    FilterIsSubsequence((r: Row) => r.invoiceNo == x, rows);
    forall r: Row
      ensures multiset(own)[r] == if r.invoiceNo == x then multiset(rows)[r] else 0
    {
      FilterMultiplicity((r: Row) => r.invoiceNo == x, rows, r);
    }
    assert ItemsOf(rows, x) == Descriptions(own);
  }

  /** The items of x also form a subsequence of the whole description column. */
  lemma {:induction false} ItemsOfInDescriptionColumn(rows: seq<Row>, x: string)
    ensures IsSubsequence(ItemsOf(rows, x), Descriptions(rows))
    decreases |rows|
  {
    if rows != [] {
      ItemsOfFirstRow(rows, x);
      ItemsOfInDescriptionColumn(rows[1..], x);
      var items, rest := ItemsOf(rows, x), ItemsOf(rows[1..], x);
      assert Descriptions(rows)[1..] == Descriptions(rows[1..]);
      if rows[0].invoiceNo == x {
        assert items[1..] == rest;
      } else {
        assert items == rest;
        SubsequenceOfTail(items, Descriptions(rows));
      }
    }
  }

  /** The group of invoice `invoiceNo`: the list of item descriptions bought under it. */
  datatype Basket = Basket(invoiceNo: string, items: seq<string>)

  /**
   * Grouping the rows by invoice number: exactly one basket per distinct
   * invoice number, in ascending key order, each holding that invoice's items.
   */
  function GroupByInvoice(rows: seq<Row>): (baskets: seq<Basket>)
    ensures |baskets| == |InvoiceNos(rows)|
    ensures forall i, j :: 0 <= i < j < |baskets| ==> LexLess(baskets[i].invoiceNo, baskets[j].invoiceNo)
    ensures forall x :: x in InvoiceNos(rows) <==> exists i :: 0 <= i < |baskets| && baskets[i].invoiceNo == x
    ensures forall i :: 0 <= i < |baskets| ==>
              baskets[i].items == ItemsOf(rows, baskets[i].invoiceNo) && baskets[i].items != []
  {
    var ks := SortedInvoiceNos(rows);
    AscendingIsDistinct(ks);
    DistinctCardinality(ks);
    assert (set k | k in ks) == InvoiceNos(rows);
    var baskets := seq(|ks|, i requires 0 <= i < |ks| => Basket(ks[i], ItemsOf(rows, ks[i])));
    forall x | x in ks
      ensures exists i :: 0 <= i < |baskets| && baskets[i].invoiceNo == x
    {
      var i :| 0 <= i < |ks| && ks[i] == x;
      assert baskets[i].invoiceNo == x;
    }
    baskets
  }

  /** The baskets without their keys, as the list handed to the transaction encoder. */
  function TransactionsList(rows: seq<Row>): (ts: seq<seq<string>>)
    ensures |ts| == |InvoiceNos(rows)|
    ensures forall i :: 0 <= i < |ts| ==> ts[i] != []
    ensures ts == ItemLists(rows, SortedInvoiceNos(rows))
  {
    var baskets := GroupByInvoice(rows);
    seq(|baskets|, i requires 0 <= i < |baskets| => baskets[i].items)
  }

  /** The number of items over all lists. */
  function TotalLength(ts: seq<seq<string>>): nat
  {
    if ts == [] then 0 else |ts[0]| + TotalLength(ts[1..])
  }

  /** The item lists of the given keys. */
  function ItemLists(rows: seq<Row>, ks: seq<string>): (ts: seq<seq<string>>)
    ensures |ts| == |ks|
  {
    seq(|ks|, i requires 0 <= i < |ks| => ItemsOf(rows, ks[i]))
  }

  /** Taking the first row away takes one item from the list of its invoice, if that is a key. */
  lemma {:induction false} PeelFirstRow(rows: seq<Row>, ks: seq<string>)
    requires rows != [] && Distinct(ks)
    ensures TotalLength(ItemLists(rows, ks)) ==
              TotalLength(ItemLists(rows[1..], ks)) + (if rows[0].invoiceNo in ks then 1 else 0)
    decreases |ks|
  {
    if ks != [] {
      assert ItemLists(rows, ks)[1..] == ItemLists(rows, ks[1..]);
      assert ItemLists(rows[1..], ks)[1..] == ItemLists(rows[1..], ks[1..]);
      assert Distinct(ks[1..]);
      PeelFirstRow(rows, ks[1..]);
      assert rows[0].invoiceNo == ks[0] ==> rows[0].invoiceNo !in ks[1..];
    }
  }

  /** No rows, no items. */
  lemma {:induction false} NoRowsNoItems(ks: seq<string>)
    ensures TotalLength(ItemLists([], ks)) == 0
    decreases |ks|
  {
    if ks != [] {
      assert ItemLists([], ks)[1..] == ItemLists([], ks[1..]);
      NoRowsNoItems(ks[1..]);
    }
  }

  /** Over distinct keys covering every row, the item lists hold exactly one item per row. */
  lemma {:induction false} ItemListsCoverRows(rows: seq<Row>, ks: seq<string>)
    requires Distinct(ks)
    requires forall r :: r in rows ==> r.invoiceNo in ks
    ensures TotalLength(ItemLists(rows, ks)) == |rows|
    decreases |rows|
  {
    if rows == [] {
      NoRowsNoItems(ks);
    } else {
      PeelFirstRow(rows, ks);
      ItemListsCoverRows(rows[1..], ks);
    }
  }

  /** The basket lengths sum to the number of rows: every row lands in exactly one basket. */
  lemma {:induction false} BasketSizesSum(rows: seq<Row>)
    ensures TotalLength(TransactionsList(rows)) == |rows|
  {
    var ks := SortedInvoiceNos(rows);
    AscendingIsDistinct(ks);
    assert TransactionsList(rows) == ItemLists(rows, ks);
    ItemListsCoverRows(rows, ks);
  }

  /**
   * Baskets built from the cleaned data are whole: a surviving invoice keeps
   * every item it had in the raw data.
   */
  lemma CleanBasketsAreWhole(rows: seq<Row>, x: string)
    requires x !in InvalidInvoiceNos(rows)
    ensures ItemsOf(Clean(rows), x) == ItemsOf(rows, x)
  {
    var invalid := InvalidInvoiceNos(rows);
    FilterNarrowed((r: Row) => r.invoiceNo == x, (r: Row) => r.invoiceNo !in invalid, rows);
  }
}
