/**
 * The invoice cleaning rule of the analysis script: credit notes, the invoices
 * they reverse, and every regular invoice with a bad row are dropped whole.
 */
module Invoices {
  import opened Filtering

  datatype Option<T> = None | Some(value: T)

  /**
   * One row of the retail data: the columns the cleaning rule and the baskets
   * read. A missing `UnitPrice` is `None`.
   */
  datatype Row = Row(invoiceNo: string, quantity: int, unitPrice: Option<real>, description: string)

  /** A credit note's invoice number starts with 'C'. */
  predicate IsCreditNote(invoiceNo: string)
  {
    |invoiceNo| > 0 && invoiceNo[0] == 'C'
  }

  /** The invoice a credit note reverses: its number with the leading 'C' dropped. */
  function OriginalInvoiceNo(creditNote: string): (original: string)
    requires IsCreditNote(creditNote)
    ensures |original| == |creditNote| - 1
    ensures ['C'] + original == creditNote
  {
    creditNote[1..]
  }

  /** A row with a usable quantity and price: not negative, present, not zero. */
  predicate HasValidAmounts(r: Row)
  {
    r.quantity >= 0 && r.unitPrice.Some? && r.unitPrice.value != 0.0
  }

  /** A row of a regular (non-credit) invoice with a negative quantity or a missing or zero price. */
  predicate IsProblematicRegular(r: Row)
  {
    !IsCreditNote(r.invoiceNo) && !HasValidAmounts(r)
  }

  /** The distinct invoice numbers occurring in the data. */
  function InvoiceNos(rows: seq<Row>): set<string>
  {
    set r | r in rows :: r.invoiceNo
  }

  /** The distinct numbers of all credit notes. */
  function CreditNoteNos(rows: seq<Row>): (nos: set<string>)
    ensures forall x :: x in nos <==> x in InvoiceNos(rows) && IsCreditNote(x)
  {
    set r | r in rows && IsCreditNote(r.invoiceNo) :: r.invoiceNo
  }

  /** The distinct numbers of the invoices that some credit note reverses. */
  function OriginalInvoiceNos(rows: seq<Row>): (nos: set<string>)
    ensures forall x :: x in nos <==> ['C'] + x in InvoiceNos(rows)
  {
    var nos := set r | r in rows && IsCreditNote(r.invoiceNo) :: OriginalInvoiceNo(r.invoiceNo);
    assert forall x :: ['C'] + x in InvoiceNos(rows) ==> x in nos by {
      forall x | ['C'] + x in InvoiceNos(rows)
        ensures x in nos
      {
        var r :| r in rows && r.invoiceNo == ['C'] + x;
        assert OriginalInvoiceNo(r.invoiceNo) == x;
      }
    }
    nos
  }

  /** The distinct numbers of regular invoices having at least one problematic row. */
  function ProblematicRegularNos(rows: seq<Row>): (nos: set<string>)
    ensures forall x :: x in nos <==>
              !IsCreditNote(x) && exists r :: r in rows && r.invoiceNo == x && !HasValidAmounts(r)
  {
    set r | r in rows && IsProblematicRegular(r) :: r.invoiceNo
  }

  /** Every invoice number to remove: the union of the three sets above. */
  function InvalidInvoiceNos(rows: seq<Row>): (invalid: set<string>)
    ensures forall x :: x in invalid <==>
              || (x in InvoiceNos(rows) && IsCreditNote(x))
              || ['C'] + x in InvoiceNos(rows)
              || (!IsCreditNote(x) && exists r :: r in rows && r.invoiceNo == x && !HasValidAmounts(r))
  {
    OriginalInvoiceNos(rows) + CreditNoteNos(rows) + ProblematicRegularNos(rows)
  }

  /**
   * The cleaned data: the rows whose invoice number is not invalid. Every
   * surviving row is a regular invoice row with valid amounts.
   */
  function Clean(rows: seq<Row>): (cleaned: seq<Row>)
    ensures forall r :: r in cleaned <==> r in rows && r.invoiceNo !in InvalidInvoiceNos(rows)
    ensures forall r :: r in cleaned ==> !IsCreditNote(r.invoiceNo) && HasValidAmounts(r)
  {
    var invalid := InvalidInvoiceNos(rows);
    Filter((r: Row) => r.invoiceNo !in invalid, rows)
  }

  /** For every credit note 'C' + x in the data, no row of invoice x survives. */
  lemma ReversedInvoiceRemoved(rows: seq<Row>, x: string)
    requires exists c :: c in rows && c.invoiceNo == ['C'] + x
    ensures forall r :: r in Clean(rows) ==> r.invoiceNo != x
  {
  }

  /**
   * A bad row of a regular invoice removes the whole invoice, not only itself:
   * no row with its number survives.
   */
  lemma WholeInvoiceRemoved(rows: seq<Row>, bad: Row)
    requires bad in rows && !IsCreditNote(bad.invoiceNo) && !HasValidAmounts(bad)
    ensures forall r :: r in Clean(rows) ==> r.invoiceNo != bad.invoiceNo
  {
  }

  /**
   * The rows of an invoice x of the data survive exactly when x is not a credit
   * note, no credit note 'C' + x occurs in the data, and every row of x has
   * valid amounts.
   */
  lemma InvoiceSurvivesIff(rows: seq<Row>, x: string)
    requires x in InvoiceNos(rows)
    ensures x !in InvalidInvoiceNos(rows) <==>
              && !IsCreditNote(x)
              && (forall c :: c in rows ==> c.invoiceNo != ['C'] + x)
              && (forall r :: r in rows && r.invoiceNo == x ==> HasValidAmounts(r))
  {
  }

  /** Cleaning keeps the surviving rows in their original order, unaltered and with their multiplicity. */
  lemma CleanIsOrderedSelection(rows: seq<Row>, x: Row)
    ensures IsSubsequence(Clean(rows), rows)
    ensures multiset(Clean(rows))[x] ==
              if x.invoiceNo !in InvalidInvoiceNos(rows) then multiset(rows)[x] else 0
  {
    var invalid := InvalidInvoiceNos(rows);
    FilterIsSubsequence((r: Row) => r.invoiceNo !in invalid, rows);
    FilterMultiplicity((r: Row) => r.invoiceNo !in invalid, rows, x);
  }

  /** Cleaning already cleaned data removes nothing more. */
  lemma CleanIdempotent(rows: seq<Row>)
    ensures Clean(Clean(rows)) == Clean(rows)
  {
    var cleaned := Clean(rows);
    assert InvalidInvoiceNos(cleaned) == {} by {
      assert CreditNoteNos(cleaned) == {};
      assert OriginalInvoiceNos(cleaned) == {};
      assert ProblematicRegularNos(cleaned) == {};
    }
    FilterAllKept((r: Row) => r.invoiceNo !in InvalidInvoiceNos(cleaned), cleaned);
  }
}
