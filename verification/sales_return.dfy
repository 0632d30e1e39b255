/** The Combined Sales Return document: validation of the returned quantities
    against the submitted returns of each invoice line, the header totals, and
    what submission produces (credit notes per invoice, then, when asked,
    delivery-note returns per delivery note). The host's returned-quantity
    query is the input `ledger`; the host's documents are maps by name; the
    currency-in-words formatter is the input `moneyInWords`. */
module SalesReturn {
  import opened Records
  import opened Grouping
  import opened ReturnLedger
  import opened CreditNotes
  import opened DeliveryNoteReturn

  /** The returned-quantity query: for (invoice, invoice item row, name to
      leave out), the aggregate rows per docstatus of the return invoices
      against that line whose own name differs from the one given. The
      document passes its own name, which none of its credit notes carries:
      they are named by the host and hold no link back to it, so nothing the
      document made is left out. */
  type Ledger = (string, string, string) -> seq<StatusTotal>

  // ---------------------------------------------------------------------
  // Validation of returned quantities
  // ---------------------------------------------------------------------

  /** Only rows linked to both an invoice and an invoice line are checked. */
  predicate IsChecked(row: ReturnRow)
  {
    row.linkedInvoice != "" && row.salesInvoiceItem != ""
  }

  function SubmittedQty(row: ReturnRow, ledger: Ledger, docname: string): real
  {
    StatusQty(ledger(row.linkedInvoice, row.salesInvoiceItem, docname), Submitted)
  }

  function DraftQty(row: ReturnRow, ledger: Ledger, docname: string): real
  {
    StatusQty(ledger(row.linkedInvoice, row.salesInvoiceItem, docname), Draft)
  }

  /** The hard cap: a checked row may not return more than the original
      quantity less what submitted returns already took back. */
  predicate Violates(row: ReturnRow, ledger: Ledger, docname: string)
  {
    IsChecked(row) && Abs(row.qty) > Abs(row.originalQty) - SubmittedQty(row, ledger, docname)
  }

  /** The outcome of validation; `row` numbers are 1-based, as in the messages. */
  datatype Verdict =
    | Passed
    | Exceeded(row: nat, itemCode: string, originalQty: real, submittedQty: real, remaining: real, attempted: real)

  /** The advisory notice about draft returns of a row's invoice line. */
  datatype Notice = DraftReturns(row: nat, itemCode: string, draftQty: real)

  datatype ValidationReport = ValidationReport(verdict: Verdict, notices: seq<Notice>)

  function ExceededAt(row: ReturnRow, index: nat, ledger: Ledger, docname: string): Verdict
  {
    var original := Abs(row.originalQty);
    var submitted := SubmittedQty(row, ledger, docname);
    Exceeded(index, row.itemCode, original, submitted, original - submitted, Abs(row.qty))
  }

  /** Validation of `rows` in order: it stops at the first violating row; a
      checked row that passes raises a notice when its line has draft returns. */
  function Validation(rows: seq<ReturnRow>, ledger: Ledger, docname: string): ValidationReport
  {
    if rows == [] then ValidationReport(Passed, [])
    else
      var prev := Validation(rows[..|rows| - 1], ledger, docname);
      var row := rows[|rows| - 1];
      if prev.verdict.Exceeded? || !IsChecked(row) then prev
      else if Violates(row, ledger, docname) then ValidationReport(ExceededAt(row, |rows|, ledger, docname), prev.notices)
      else if DraftQty(row, ledger, docname) > 0.0 then
        ValidationReport(Passed, prev.notices + [DraftReturns(|rows|, row.itemCode, DraftQty(row, ledger, docname))])
      else prev
  }

  /** Validation fails exactly when some row violates the cap, and then it
      reports the first such row with its figures. */
  lemma {:induction false} ValidationVerdict(rows: seq<ReturnRow>, ledger: Ledger, docname: string)
    ensures var v := Validation(rows, ledger, docname).verdict;
      && (v.Passed? <==> forall i :: 0 <= i < |rows| ==> !Violates(rows[i], ledger, docname))
      && (v.Exceeded? ==>
            && 1 <= v.row <= |rows|
            && Violates(rows[v.row - 1], ledger, docname)
            && (forall i :: 0 <= i < v.row - 1 ==> !Violates(rows[i], ledger, docname))
            && v == ExceededAt(rows[v.row - 1], v.row, ledger, docname))
  {
    if rows != [] {
      var init := rows[..|rows| - 1];
      ValidationVerdict(init, ledger, docname);
      assert forall i :: 0 <= i < |init| ==> init[i] == rows[i];
    }
  }

  /** Validation of one more row. */
  lemma ValidationStep(rows: seq<ReturnRow>, i: nat, ledger: Ledger, docname: string)
    requires i < |rows|
    ensures var prev := Validation(rows[..i], ledger, docname);
      var row := rows[i];
      Validation(rows[..i + 1], ledger, docname)
        == if prev.verdict.Exceeded? || !IsChecked(row) then prev
           else if Violates(row, ledger, docname) then ValidationReport(ExceededAt(row, i + 1, ledger, docname), prev.notices)
           else if DraftQty(row, ledger, docname) > 0.0 then
             ValidationReport(Passed, prev.notices + [DraftReturns(i + 1, row.itemCode, DraftQty(row, ledger, docname))])
           else prev
  {
    assert rows[..i + 1][..i] == rows[..i];
  }

  /** Once a prefix has failed, the rows after it change nothing. */
  lemma {:induction false} ValidationStopsAt(rows: seq<ReturnRow>, k: nat, ledger: Ledger, docname: string)
    requires k <= |rows|
    requires Validation(rows[..k], ledger, docname).verdict.Exceeded?
    ensures Validation(rows, ledger, docname) == Validation(rows[..k], ledger, docname)
  {
    if k < |rows| {
      var init := rows[..|rows| - 1];
      assert init[..k] == rows[..k];
      ValidationStopsAt(init, k, ledger, docname);
    } else {
      assert rows[..k] == rows;
    }
  }

  /** Notices come only from checked rows that passed the cap and have draft
      returns, with the draft quantity; when validation passes, every such row
      has its notice. */
  lemma {:induction false} ValidationNotices(rows: seq<ReturnRow>, ledger: Ledger, docname: string)
    ensures var report := Validation(rows, ledger, docname);
      && (forall m :: 0 <= m < |report.notices| ==>
            var n := report.notices[m];
            && 1 <= n.row <= |rows|
            && IsChecked(rows[n.row - 1])
            && !Violates(rows[n.row - 1], ledger, docname)
            && n.itemCode == rows[n.row - 1].itemCode
            && n.draftQty == DraftQty(rows[n.row - 1], ledger, docname) > 0.0)
      && (report.verdict.Passed? ==>
            forall i :: 0 <= i < |rows| && IsChecked(rows[i]) && DraftQty(rows[i], ledger, docname) > 0.0 ==>
              DraftReturns(i + 1, rows[i].itemCode, DraftQty(rows[i], ledger, docname)) in report.notices)
  {
    NoticesSound(rows, ledger, docname);
    NoticesComplete(rows, ledger, docname);
  }

  /** Every notice is about a checked row that passed the cap and has draft returns. */
  lemma {:induction false} NoticesSound(rows: seq<ReturnRow>, ledger: Ledger, docname: string)
    ensures forall m :: 0 <= m < |Validation(rows, ledger, docname).notices| ==>
        var n := Validation(rows, ledger, docname).notices[m];
        && 1 <= n.row <= |rows|
        && IsChecked(rows[n.row - 1])
        && !Violates(rows[n.row - 1], ledger, docname)
        && n.itemCode == rows[n.row - 1].itemCode
        && n.draftQty == DraftQty(rows[n.row - 1], ledger, docname) > 0.0
  {
    if rows != [] {
      var init := rows[..|rows| - 1];
      NoticesSound(init, ledger, docname);
      assert forall i :: 0 <= i < |init| ==> init[i] == rows[i];
    }
  }

  /** When validation passes, every checked row with draft returns has its notice. */
  lemma {:induction false} NoticesComplete(rows: seq<ReturnRow>, ledger: Ledger, docname: string)
    ensures var report := Validation(rows, ledger, docname);
      report.verdict.Passed? ==>
        forall i :: 0 <= i < |rows| && IsChecked(rows[i]) && DraftQty(rows[i], ledger, docname) > 0.0 ==>
          DraftReturns(i + 1, rows[i].itemCode, DraftQty(rows[i], ledger, docname)) in report.notices
  {
    if rows != [] {
      var init := rows[..|rows| - 1];
      NoticesComplete(init, ledger, docname);
      assert forall i :: 0 <= i < |init| ==> init[i] == rows[i];
    }
  }

  /** Draft returns never decide: two ledgers that agree on the submitted
      quantities give the same verdict, whatever their draft quantities. */
  lemma {:induction false} DraftQuantitiesNeverDecide(rows: seq<ReturnRow>, ledger1: Ledger, ledger2: Ledger, docname: string)
    requires forall i :: 0 <= i < |rows| ==> SubmittedQty(rows[i], ledger1, docname) == SubmittedQty(rows[i], ledger2, docname)
    ensures Validation(rows, ledger1, docname).verdict == Validation(rows, ledger2, docname).verdict
  {
    if rows != [] {
      var init := rows[..|rows| - 1];
      assert forall i :: 0 <= i < |init| ==> init[i] == rows[i];
      DraftQuantitiesNeverDecide(init, ledger1, ledger2, docname);
    }
  }

  /** A row missing its invoice or its invoice line never causes a rejection:
      adding it anywhere leaves pass or fail unchanged. */
  lemma UncheckedRowNeverRejects(a: seq<ReturnRow>, row: ReturnRow, b: seq<ReturnRow>, ledger: Ledger, docname: string)
    requires !IsChecked(row)
    ensures Validation(a + [row] + b, ledger, docname).verdict.Passed? == Validation(a + b, ledger, docname).verdict.Passed?
  {
    var with := a + [row] + b;
    var without := a + b;
    ValidationVerdict(with, ledger, docname);
    ValidationVerdict(without, ledger, docname);
    if i :| 0 <= i < |with| && Violates(with[i], ledger, docname) {
      if i < |a| {
        assert with[i] == without[i];
      } else {
        assert with[i] == without[i - 1];
      }
    }
    if i :| 0 <= i < |without| && Violates(without[i], ledger, docname) {
      if i < |a| {
        assert with[i] == without[i];
      } else {
        assert with[i + 1] == without[i];
      }
    }
  }

  /** When submitted returns already exceed the original quantity, a checked
      row fails even with a zero quantity. */
  lemma OverReturnedLineRejectsZero(rows: seq<ReturnRow>, k: nat, ledger: Ledger, docname: string)
    requires k < |rows| && IsChecked(rows[k]) && rows[k].qty == 0.0
    requires SubmittedQty(rows[k], ledger, docname) > Abs(rows[k].originalQty)
    ensures Validation(rows, ledger, docname).verdict.Exceeded?
  {
    ValidationVerdict(rows, ledger, docname);
  }

  /** Original 10 with 4 already returned on submitted returns (and 3 on a
      draft): returning 7 fails with 6 remaining, returning 6 passes with a
      notice about the draft. */
  lemma RemainingQuantityExample()
    ensures var ledger: Ledger := (invoice, item, exclude) => [StatusTotal(Draft, 3.0), StatusTotal(Submitted, 4.0)];
      var row := ReturnRow("ITEM", "SINV-1", "SII-1", 7.0, 10.0, 1.0, "Nos", "", 7.0, 0.0);
      && Validation([row], ledger, "CSR-1").verdict == Exceeded(1, "ITEM", 10.0, 4.0, 6.0, 7.0)
      && Validation([row.(qty := 6.0)], ledger, "CSR-1") == ValidationReport(Passed, [DraftReturns(1, "ITEM", 3.0)])
  {
    var ledger: Ledger := (invoice, item, exclude) => [StatusTotal(Draft, 3.0), StatusTotal(Submitted, 4.0)];
    var row := ReturnRow("ITEM", "SINV-1", "SII-1", 7.0, 10.0, 1.0, "Nos", "", 7.0, 0.0);
    var rows := ledger(row.linkedInvoice, row.salesInvoiceItem, "CSR-1");
    assert rows[..1] == [StatusTotal(Draft, 3.0)];
    assert StatusQty(rows, Submitted) == 4.0;
    assert StatusQty(rows, Draft) == 3.0;
    assert [row][..0] == [];
    assert [row.(qty := 6.0)][..0] == [];
  }

  // ---------------------------------------------------------------------
  // Totals
  // ---------------------------------------------------------------------

  function SumAbsQty(rows: seq<ReturnRow>): real
  {
    if rows == [] then 0.0 else SumAbsQty(rows[..|rows| - 1]) + Abs(rows[|rows| - 1].qty)
  }

  function SumAmount(rows: seq<ReturnRow>): real
  {
    if rows == [] then 0.0 else SumAmount(rows[..|rows| - 1]) + rows[|rows| - 1].totalAmount
  }

  function SumVat(rows: seq<ReturnRow>): real
  {
    if rows == [] then 0.0 else SumVat(rows[..|rows| - 1]) + rows[|rows| - 1].vatAmount
  }

  /** The amount in words of the currency formatter, for the absolute amount. */
  function AmountInWords(amount: real, moneyInWords: real -> string): string
  {
    moneyInWords(Abs(amount))
  }

  /** The words depend only on the size of the amount, not on its sign. */
  lemma AmountInWordsIgnoresSign(amount: real, moneyInWords: real -> string)
    ensures AmountInWords(-amount, moneyInWords) == AmountInWords(amount, moneyInWords)
  {
  }

  /** The total quantity is never negative. */
  lemma {:induction false} TotalQtyNonNegative(rows: seq<ReturnRow>)
    ensures SumAbsQty(rows) >= 0.0
  {
    if rows != [] {
      TotalQtyNonNegative(rows[..|rows| - 1]);
    }
  }

  /** The totals add up over any split of the rows. */
  lemma {:induction false} TotalsAppend(a: seq<ReturnRow>, b: seq<ReturnRow>)
    ensures SumAbsQty(a + b) == SumAbsQty(a) + SumAbsQty(b)
    ensures SumAmount(a + b) == SumAmount(a) + SumAmount(b)
    ensures SumVat(a + b) == SumVat(a) + SumVat(b)
  {
    if b == [] {
      assert a + b == a;
    } else {
      var initB := b[..|b| - 1];
      assert (a + b)[..|a + b| - 1] == a + initB;
      TotalsAppend(a, initB);
    }
  }

  // ---------------------------------------------------------------------
  // Submission
  // ---------------------------------------------------------------------

  /** Everything submission creates: the credit-note run, then the
      delivery-note returns in creation order. */
  datatype Submission = Submission(creditNotes: CreditNoteRun, deliveryNoteReturns: seq<DeliveryNoteReturn>)

  /** The first row that names an invoice line that cannot be loaded; rows
      naming none are skipped. */
  function FirstUnloadedItem(rows: seq<ReturnRow>, siItems: map<string, InvoiceItemLink>): (r: Option<string>)
    ensures r.None? <==>
      forall i :: 0 <= i < |rows| && rows[i].salesInvoiceItem != "" ==> rows[i].salesInvoiceItem in siItems
    ensures r.Some? ==>
      && r.value != ""
      && r.value !in siItems
      && exists i :: (0 <= i < |rows| && rows[i].salesInvoiceItem == r.value
           && forall j :: 0 <= j < i && rows[j].salesInvoiceItem != "" ==> rows[j].salesInvoiceItem in siItems)
  {
    if rows == [] then None
    else if rows[0].salesInvoiceItem != "" && rows[0].salesInvoiceItem !in siItems then Some(rows[0].salesInvoiceItem)
    else
      var r := FirstUnloadedItem(rows[1..], siItems);
      assert forall i :: 0 < i < |rows| ==> rows[i] == rows[1..][i - 1];
      r
  }

  /** The delivery-note grouping key: the delivery note of the row's invoice
      line, or none. */
  function DnKey(siItems: map<string, InvoiceItemLink>): ReturnRow -> string
  {
    (row: ReturnRow) =>
      if row.salesInvoiceItem != "" && row.salesInvoiceItem in siItems
      then siItems[row.salesInvoiceItem].deliveryNote
      else ""
  }

  /** The delivery-note returns for the delivery notes `dns`, in order, each
      from its group of rows; a delivery note with no surviving line adds
      nothing, and the first raise stops the run. */
  function DnReturnsFor(
    dns: seq<string>, rows: seq<ReturnRow>, docname: string,
    deliveryNotes: map<string, DeliveryNote>, siItems: map<string, InvoiceItemLink>)
    : Result<seq<DeliveryNoteReturn>, Error>
  {
    if dns == [] then Success([])
    else
      var prev := DnReturnsFor(dns[..|dns| - 1], rows, docname, deliveryNotes, siItems);
      var dn := dns[|dns| - 1];
      if prev.Failure? then prev
      else match ReturnDeliveryNote(dn, Members(rows, DnKey(siItems), dn), docname, deliveryNotes, siItems)
        case Failure(e) => Failure(e)
        case Success(None) => prev
        case Success(Some(doc)) => Success(prev.value + [doc])
  }

  /** What submitting the document produces: the credit notes (created as
      drafts) whatever the flag, and the delivery-note returns only when the
      flag is set. A raise anywhere fails the whole submission. */
  function SubmitOutcome(
    rows: seq<ReturnRow>, docname: string, createDeliveryNote: bool,
    invoices: map<string, SalesInvoice>, deliveryNotes: map<string, DeliveryNote>,
    siItems: map<string, InvoiceItemLink>)
    : Result<Submission, Error>
  {
    var credit := CreditNoteRunOf(rows, invoices, false);
    if credit.Failure? then Failure(credit.error)
    else if !createDeliveryNote then Success(Submission(credit.value, []))
    else match FirstUnloadedItem(rows, siItems)
      case Some(item) => Failure(NotFound("Sales Invoice Item", item))
      case None =>
        var dns := DnReturnsFor(Keys(rows, DnKey(siItems)), rows, docname, deliveryNotes, siItems);
        if dns.Failure? then Failure(dns.error) else Success(Submission(credit.value, dns.value))
  }

  /** Credit notes come first and their failure is re-raised; without the
      flag no delivery-note return is made. */
  lemma SubmissionOrder(
    rows: seq<ReturnRow>, docname: string, createDeliveryNote: bool,
    invoices: map<string, SalesInvoice>, deliveryNotes: map<string, DeliveryNote>,
    siItems: map<string, InvoiceItemLink>)
    ensures var r := SubmitOutcome(rows, docname, createDeliveryNote, invoices, deliveryNotes, siItems);
      var credit := CreditNoteRunOf(rows, invoices, false);
      && (credit.Failure? ==> r == Failure(credit.error))
      && (r.Success? ==> r.value.creditNotes == credit.value)
      && (credit.Success? && !createDeliveryNote ==> r == Success(Submission(credit.value, [])))
  {
  }

  /** With no row billed from a delivery note, no delivery-note return is
      made, even with the flag set. */
  lemma NoBacklinkNoDeliveryNoteReturn(
    rows: seq<ReturnRow>, docname: string, createDeliveryNote: bool,
    invoices: map<string, SalesInvoice>, deliveryNotes: map<string, DeliveryNote>,
    siItems: map<string, InvoiceItemLink>)
    requires forall i :: 0 <= i < |rows| ==>
      rows[i].salesInvoiceItem !in siItems || siItems[rows[i].salesInvoiceItem].deliveryNote == ""
    ensures var r := SubmitOutcome(rows, docname, createDeliveryNote, invoices, deliveryNotes, siItems);
      r.Success? ==> r.value.deliveryNoteReturns == []
  {
    var ks := Keys(rows, DnKey(siItems));
    if ks != [] {
      KeysComplete(rows, DnKey(siItems), ks[0]);
      assert false;
    }
  }

  /** The run over `dns` when every step succeeds: each return is that of
      one delivery note of `dns`, against it, built from its group. */
  lemma {:induction false} DnReturnsForShape(
    dns: seq<string>, rows: seq<ReturnRow>, docname: string,
    deliveryNotes: map<string, DeliveryNote>, siItems: map<string, InvoiceItemLink>)
    requires DnReturnsFor(dns, rows, docname, deliveryNotes, siItems).Success?
    ensures var docs := DnReturnsFor(dns, rows, docname, deliveryNotes, siItems).value;
      && |docs| <= |dns|
      && forall m :: 0 <= m < |docs| ==>
           exists j :: 0 <= j < |dns| && docs[m].returnAgainst == dns[j]
             && ReturnDeliveryNote(dns[j], Members(rows, DnKey(siItems), dns[j]), docname, deliveryNotes, siItems)
                == Success(Some(docs[m]))
  {
    if dns != [] {
      var init := dns[..|dns| - 1];
      DnReturnsForShape(init, rows, docname, deliveryNotes, siItems);
      var prev := DnReturnsFor(init, rows, docname, deliveryNotes, siItems).value;
      var docs := DnReturnsFor(dns, rows, docname, deliveryNotes, siItems).value;
      var dn := dns[|dns| - 1];
      var one := ReturnDeliveryNote(dn, Members(rows, DnKey(siItems), dn), docname, deliveryNotes, siItems);
      forall m | 0 <= m < |docs|
        ensures exists j :: (0 <= j < |dns| && docs[m].returnAgainst == dns[j]
          && ReturnDeliveryNote(dns[j], Members(rows, DnKey(siItems), dns[j]), docname, deliveryNotes, siItems)
             == Success(Some(docs[m])))
      {
        if m < |prev| {
          assert docs[m] == prev[m];
          var j :| 0 <= j < |init| && prev[m].returnAgainst == init[j]
            && ReturnDeliveryNote(init[j], Members(rows, DnKey(siItems), init[j]), docname, deliveryNotes, siItems)
               == Success(Some(prev[m]));
          assert dns[j] == init[j];
        } else {
          assert one == Success(Some(docs[m]));
          assert docs[m].returnAgainst == dn;
        }
      }
    }
  }

  /** One more delivery note in a successful run: its return, if its group
      has a surviving line, follows the returns before it. */
  lemma DnReturnsForSnoc(
    dns: seq<string>, rows: seq<ReturnRow>, docname: string,
    deliveryNotes: map<string, DeliveryNote>, siItems: map<string, InvoiceItemLink>)
    requires dns != []
    requires DnReturnsFor(dns, rows, docname, deliveryNotes, siItems).Success?
    ensures var prev := DnReturnsFor(dns[..|dns| - 1], rows, docname, deliveryNotes, siItems);
      var docs := DnReturnsFor(dns, rows, docname, deliveryNotes, siItems).value;
      var dn := dns[|dns| - 1];
      && prev.Success?
      && docs[..|prev.value|] == prev.value
      && |docs| == |prev.value| + (if ReturnLines(Members(rows, DnKey(siItems), dn), siItems) != [] then 1 else 0)
      && (|docs| > |prev.value| ==> docs[|prev.value|].returnAgainst == dn)
  {
    var dn := dns[|dns| - 1];
    var prev := DnReturnsFor(dns[..|dns| - 1], rows, docname, deliveryNotes, siItems);
    var docs := DnReturnsFor(dns, rows, docname, deliveryNotes, siItems).value;
    var one := ReturnDeliveryNote(dn, Members(rows, DnKey(siItems), dn), docname, deliveryNotes, siItems);
    if one.value.Some? {
      assert docs == prev.value + [one.value.value];
    }
  }

  /** The run over distinct delivery notes, when it succeeds, makes its
      returns against pairwise different delivery notes. */
  lemma {:induction false} DnReturnsForDistinct(
    dns: seq<string>, rows: seq<ReturnRow>, docname: string,
    deliveryNotes: map<string, DeliveryNote>, siItems: map<string, InvoiceItemLink>)
    requires forall i, j :: 0 <= i < j < |dns| ==> dns[i] != dns[j]
    requires DnReturnsFor(dns, rows, docname, deliveryNotes, siItems).Success?
    ensures var docs := DnReturnsFor(dns, rows, docname, deliveryNotes, siItems).value;
      forall m, n :: 0 <= m < n < |docs| ==> docs[m].returnAgainst != docs[n].returnAgainst
  {
    if dns != [] {
      var init := dns[..|dns| - 1];
      var dn := dns[|dns| - 1];
      DnReturnsForSnoc(dns, rows, docname, deliveryNotes, siItems);
      DnReturnsForDistinct(init, rows, docname, deliveryNotes, siItems);
      DnReturnsForShape(init, rows, docname, deliveryNotes, siItems);
      var prev := DnReturnsFor(init, rows, docname, deliveryNotes, siItems).value;
      var docs := DnReturnsFor(dns, rows, docname, deliveryNotes, siItems).value;
      forall m | 0 <= m < |prev|
        ensures prev[m].returnAgainst != dn
      {
        var j :| 0 <= j < |init| && prev[m].returnAgainst == init[j]
          && ReturnDeliveryNote(init[j], Members(rows, DnKey(siItems), init[j]), docname, deliveryNotes, siItems)
             == Success(Some(prev[m]));
        assert init[j] == dns[j];
      }
      forall m, n | 0 <= m < n < |docs|
        ensures docs[m].returnAgainst != docs[n].returnAgainst
      {
        assert docs[m] == prev[m];
        if n < |prev| {
          assert docs[n] == prev[n];
        }
      }
    }
  }

  /** The run, when it succeeds, makes a return for every delivery note whose
      group has a surviving line. */
  lemma {:induction false} DnReturnsForCovers(
    dns: seq<string>, rows: seq<ReturnRow>, docname: string,
    deliveryNotes: map<string, DeliveryNote>, siItems: map<string, InvoiceItemLink>)
    requires DnReturnsFor(dns, rows, docname, deliveryNotes, siItems).Success?
    ensures var docs := DnReturnsFor(dns, rows, docname, deliveryNotes, siItems).value;
      forall j :: 0 <= j < |dns| && ReturnLines(Members(rows, DnKey(siItems), dns[j]), siItems) != [] ==>
        exists m :: 0 <= m < |docs| && docs[m].returnAgainst == dns[j]
  {
    if dns != [] {
      var init := dns[..|dns| - 1];
      var dn := dns[|dns| - 1];
      DnReturnsForSnoc(dns, rows, docname, deliveryNotes, siItems);
      DnReturnsForCovers(init, rows, docname, deliveryNotes, siItems);
      var prev := DnReturnsFor(init, rows, docname, deliveryNotes, siItems).value;
      var docs := DnReturnsFor(dns, rows, docname, deliveryNotes, siItems).value;
      forall j | 0 <= j < |dns| && ReturnLines(Members(rows, DnKey(siItems), dns[j]), siItems) != []
        ensures exists m :: 0 <= m < |docs| && docs[m].returnAgainst == dns[j]
      {
        if j < |init| {
          assert init[j] == dns[j];
          var m :| 0 <= m < |prev| && prev[m].returnAgainst == init[j];
          assert docs[m] == prev[m];
        } else {
          assert docs[|prev|].returnAgainst == dns[j];
        }
      }
    }
  }

  /** One delivery-note return per delivery note: every return made on
      submission is against a delivery note some row was billed from, no two
      are against the same one, every delivery note with a surviving line has
      one, and each holds exactly the surviving lines of the rows billed from
      its delivery note. */
  lemma DeliveryNoteReturnPerDeliveryNote(
    rows: seq<ReturnRow>, docname: string,
    invoices: map<string, SalesInvoice>, deliveryNotes: map<string, DeliveryNote>,
    siItems: map<string, InvoiceItemLink>)
    requires SubmitOutcome(rows, docname, true, invoices, deliveryNotes, siItems).Success?
    ensures var docs := SubmitOutcome(rows, docname, true, invoices, deliveryNotes, siItems).value.deliveryNoteReturns;
      forall m :: 0 <= m < |docs| ==>
        && docs[m].returnAgainst != ""
        && (exists i :: 0 <= i < |rows| && DnKey(siItems)(rows[i]) == docs[m].returnAgainst)
        && docs[m].items == ReturnLines(Members(rows, DnKey(siItems), docs[m].returnAgainst), siItems)
        && docs[m].combinedSalesReturn == docname
    ensures var docs := SubmitOutcome(rows, docname, true, invoices, deliveryNotes, siItems).value.deliveryNoteReturns;
      forall m, n :: 0 <= m < n < |docs| ==> docs[m].returnAgainst != docs[n].returnAgainst
    ensures var docs := SubmitOutcome(rows, docname, true, invoices, deliveryNotes, siItems).value.deliveryNoteReturns;
      forall k :: k in Keys(rows, DnKey(siItems)) && ReturnLines(Members(rows, DnKey(siItems), k), siItems) != [] ==>
        exists m :: 0 <= m < |docs| && docs[m].returnAgainst == k
  {
    var ks := Keys(rows, DnKey(siItems));
    var docs := SubmitOutcome(rows, docname, true, invoices, deliveryNotes, siItems).value.deliveryNoteReturns;
    assert docs == DnReturnsFor(ks, rows, docname, deliveryNotes, siItems).value;
    DnReturnsOfGroups(rows, docname, deliveryNotes, siItems);
    DnReturnsForDistinct(ks, rows, docname, deliveryNotes, siItems);
    DnReturnsForCovers(ks, rows, docname, deliveryNotes, siItems);
    forall k | k in ks && ReturnLines(Members(rows, DnKey(siItems), k), siItems) != []
      ensures exists m :: 0 <= m < |docs| && docs[m].returnAgainst == k
    {
      var j :| 0 <= j < |ks| && ks[j] == k;
    }
  }

  /** The run over the groups' delivery notes: each return is against a
      delivery note some row is billed from, holds that group's surviving
      lines and links back to this document. */
  lemma DnReturnsOfGroups(
    rows: seq<ReturnRow>, docname: string,
    deliveryNotes: map<string, DeliveryNote>, siItems: map<string, InvoiceItemLink>)
    requires DnReturnsFor(Keys(rows, DnKey(siItems)), rows, docname, deliveryNotes, siItems).Success?
    ensures var docs := DnReturnsFor(Keys(rows, DnKey(siItems)), rows, docname, deliveryNotes, siItems).value;
      forall m :: 0 <= m < |docs| ==>
        && docs[m].returnAgainst != ""
        && (exists i :: 0 <= i < |rows| && DnKey(siItems)(rows[i]) == docs[m].returnAgainst)
        && docs[m].items == ReturnLines(Members(rows, DnKey(siItems), docs[m].returnAgainst), siItems)
        && docs[m].combinedSalesReturn == docname
  {
    var ks := Keys(rows, DnKey(siItems));
    var docs := DnReturnsFor(ks, rows, docname, deliveryNotes, siItems).value;
    DnReturnsForShape(ks, rows, docname, deliveryNotes, siItems);
    forall m | 0 <= m < |docs|
      ensures && docs[m].returnAgainst != ""
        && (exists i :: 0 <= i < |rows| && DnKey(siItems)(rows[i]) == docs[m].returnAgainst)
        && docs[m].items == ReturnLines(Members(rows, DnKey(siItems), docs[m].returnAgainst), siItems)
        && docs[m].combinedSalesReturn == docname
    {
      var j :| 0 <= j < |ks| && docs[m].returnAgainst == ks[j]
        && ReturnDeliveryNote(ks[j], Members(rows, DnKey(siItems), ks[j]), docname, deliveryNotes, siItems)
           == Success(Some(docs[m]));
      KeysComplete(rows, DnKey(siItems), ks[j]);
    }
  }

  /** The run over delivery notes that all exist and all have a surviving
      line: one return per delivery note, in order, each with its group's
      lines. */
  lemma {:induction false} DnReturnsForAll(
    dns: seq<string>, rows: seq<ReturnRow>, docname: string,
    deliveryNotes: map<string, DeliveryNote>, siItems: map<string, InvoiceItemLink>)
    requires forall j :: 0 <= j < |dns| ==> dns[j] != "" && dns[j] in deliveryNotes
    requires forall j :: 0 <= j < |dns| ==> ReturnLines(Members(rows, DnKey(siItems), dns[j]), siItems) != []
    ensures var r := DnReturnsFor(dns, rows, docname, deliveryNotes, siItems);
      && r.Success?
      && |r.value| == |dns|
      && forall j :: 0 <= j < |dns| ==>
           r.value[j].returnAgainst == dns[j]
           && r.value[j].items == ReturnLines(Members(rows, DnKey(siItems), dns[j]), siItems)
  {
    if dns != [] {
      var init := dns[..|dns| - 1];
      var dn := dns[|dns| - 1];
      DnReturnsForAll(init, rows, docname, deliveryNotes, siItems);
      var group := Members(rows, DnKey(siItems), dn);
      GroupLoads(rows, siItems, dn);
      var prev := DnReturnsFor(init, rows, docname, deliveryNotes, siItems).value;
      var one := ReturnDeliveryNote(dn, group, docname, deliveryNotes, siItems);
      assert one.Success? && one.value.Some?;
      var docs := DnReturnsFor(dns, rows, docname, deliveryNotes, siItems).value;
      assert docs == prev + [one.value.value];
      forall j | 0 <= j < |dns|
        ensures docs[j].returnAgainst == dns[j]
        ensures docs[j].items == ReturnLines(Members(rows, DnKey(siItems), dns[j]), siItems)
      {
        if j < |init| {
          assert docs[j] == prev[j] && dns[j] == init[j];
        }
      }
    }
  }

  /** The rows grouped under a delivery note all have loadable invoice lines. */
  lemma GroupLoads(rows: seq<ReturnRow>, siItems: map<string, InvoiceItemLink>, dn: string)
    requires dn != ""
    ensures FirstUnknownItem(Members(rows, DnKey(siItems), dn), siItems).None?
  {
    var group := Members(rows, DnKey(siItems), dn);
    assert forall m :: 0 <= m < |group| ==> DnKey(siItems)(group[m]) == dn;
  }

  /** Completeness of submission with the flag set: when every billed
      delivery note exists and every billed invoice line names its
      delivery-note line, there is exactly one return per delivery note the
      rows were billed from, in order of first occurrence. */
  lemma EveryDeliveryNoteReturned(
    rows: seq<ReturnRow>, docname: string,
    invoices: map<string, SalesInvoice>, deliveryNotes: map<string, DeliveryNote>,
    siItems: map<string, InvoiceItemLink>)
    requires CreditNoteRunOf(rows, invoices, false).Success?
    requires FirstUnloadedItem(rows, siItems).None?
    requires forall i :: (0 <= i < |rows| && rows[i].salesInvoiceItem in siItems
      && siItems[rows[i].salesInvoiceItem].deliveryNote != "") ==>
        (siItems[rows[i].salesInvoiceItem].deliveryNote in deliveryNotes
         && siItems[rows[i].salesInvoiceItem].dnDetail != "")
    ensures var r := SubmitOutcome(rows, docname, true, invoices, deliveryNotes, siItems);
      var ks := Keys(rows, DnKey(siItems));
      && r.Success?
      && |r.value.deliveryNoteReturns| == |ks|
      && forall j :: 0 <= j < |ks| ==> r.value.deliveryNoteReturns[j].returnAgainst == ks[j]
  {
    var key := DnKey(siItems);
    var ks := Keys(rows, key);
    forall j | 0 <= j < |ks|
      ensures ks[j] != "" && ks[j] in deliveryNotes
      ensures ReturnLines(Members(rows, key, ks[j]), siItems) != []
    {
      KeysComplete(rows, key, ks[j]);
      var i :| 0 <= i < |rows| && key(rows[i]) == ks[j];
      var group := Members(rows, key, ks[j]);
      MembersExactly(rows, key, ks[j], rows[i]);
      var m :| 0 <= m < |group| && group[m] == rows[i];
      assert Survives(group[m], siItems);
      ReturnLinesEmpty(group, siItems);
    }
    DnReturnsForAll(ks, rows, docname, deliveryNotes, siItems);
  }

  /** The grouping loop of submission: skip rows without an invoice line,
      load each invoice line (a missing one raises), and group the rows
      billed from a delivery note by that delivery note. */
  method GroupByDeliveryNote(rows: seq<ReturnRow>, siItems: map<string, InvoiceItemLink>)
    returns (r: Result<seq<string>, Error>, groups: map<string, seq<ReturnRow>>)
    ensures FirstUnloadedItem(rows, siItems).Some? ==>
      r == Failure(NotFound("Sales Invoice Item", FirstUnloadedItem(rows, siItems).value))
    ensures FirstUnloadedItem(rows, siItems).None? ==>
      && r == Success(Keys(rows, DnKey(siItems)))
      && groups.Keys == set k | k in r.value
      && forall k :: k in groups ==> groups[k] == Members(rows, DnKey(siItems), k)
  {
    var keys: seq<string> := [];
    groups := map[];
    for i := 0 to |rows|
      invariant forall j :: 0 <= j < i && rows[j].salesInvoiceItem != "" ==> rows[j].salesInvoiceItem in siItems
      invariant GroupsOf(rows[..i], DnKey(siItems), keys, groups)
    {
      assert rows[..i + 1] == rows[..i] + [rows[i]];
      var row := rows[i];
      if row.salesInvoiceItem == "" {
        GroupsOfSkip(rows[..i], row, DnKey(siItems), keys, groups);
        continue;
      }
      if row.salesInvoiceItem !in siItems {
        return Failure(NotFound("Sales Invoice Item", row.salesInvoiceItem)), groups;
      }
      var dn := siItems[row.salesInvoiceItem].deliveryNote;
      if dn == "" {
        GroupsOfSkip(rows[..i], row, DnKey(siItems), keys, groups);
        continue;
      }
      keys, groups := AddToGroup(rows[..i], row, DnKey(siItems), keys, groups);
    }
    assert rows[..|rows|] == rows;
    return Success(keys), groups;
  }

  /** One step of the delivery-note run. */
  lemma DnReturnsForStep(
    dns: seq<string>, j: nat, rows: seq<ReturnRow>, docname: string,
    deliveryNotes: map<string, DeliveryNote>, siItems: map<string, InvoiceItemLink>)
    requires j < |dns|
    requires DnReturnsFor(dns[..j], rows, docname, deliveryNotes, siItems).Success?
    ensures var prev := DnReturnsFor(dns[..j], rows, docname, deliveryNotes, siItems).value;
      DnReturnsFor(dns[..j + 1], rows, docname, deliveryNotes, siItems)
        == match ReturnDeliveryNote(dns[j], Members(rows, DnKey(siItems), dns[j]), docname, deliveryNotes, siItems)
             case Failure(e) => Failure(e)
             case Success(None) => Success(prev)
             case Success(Some(doc)) => Success(prev + [doc])
  {
    assert dns[..j + 1][..j] == dns[..j];
  }

  /** A failure of the delivery-note run is final. */
  lemma {:induction false} DnReturnsForFailureSticks(
    dns: seq<string>, j: nat, rows: seq<ReturnRow>, docname: string,
    deliveryNotes: map<string, DeliveryNote>, siItems: map<string, InvoiceItemLink>)
    requires j <= |dns|
    requires DnReturnsFor(dns[..j], rows, docname, deliveryNotes, siItems).Failure?
    ensures DnReturnsFor(dns, rows, docname, deliveryNotes, siItems) == DnReturnsFor(dns[..j], rows, docname, deliveryNotes, siItems)
  {
    if j < |dns| {
      var init := dns[..|dns| - 1];
      assert init[..j] == dns[..j];
      DnReturnsForFailureSticks(init, j, rows, docname, deliveryNotes, siItems);
    } else {
      assert dns[..j] == dns;
    }
  }

  // ---------------------------------------------------------------------
  // The document
  // ---------------------------------------------------------------------

  /** A Combined Sales Return: its rows, its flag, and the header totals that
      validation recomputes. */
  class CombinedSalesReturn {
    const name: string
    var items: seq<ReturnRow>
    var createDeliveryNote: bool
    var totalQty: real
    var total: real
    var totalTaxes: real
    var grandTotal: real
    var inWords: string

    constructor (name: string, items: seq<ReturnRow>, createDeliveryNote: bool)
      ensures this.name == name && this.items == items && this.createDeliveryNote == createDeliveryNote
      ensures totalQty == 0.0 && total == 0.0 && totalTaxes == 0.0 && grandTotal == 0.0 && inWords == ""
    {
      this.name := name;
      this.items := items;
      this.createDeliveryNote := createDeliveryNote;
      totalQty, total, totalTaxes, grandTotal, inWords := 0.0, 0.0, 0.0, 0.0, "";
    }

    /** The header agrees with the rows. */
    ghost predicate TotalsAgree(moneyInWords: real -> string)
      reads this
    {
      && totalQty == SumAbsQty(items)
      && total == SumAmount(items)
      && totalTaxes == SumVat(items)
      && grandTotal == total + totalTaxes
      && inWords == AmountInWords(grandTotal, moneyInWords)
    }

    /** Checks the rows in order against the ledger, passing this document's
      name as the return invoice name to leave out (a name none of its own
      credit notes has, so none of them is left out); stops at the first row
      over its cap. */
    method ValidateReturnQuantities(ledger: Ledger) returns (report: ValidationReport)
      ensures report == Validation(items, ledger, name)
    {
      var notices: seq<Notice> := [];
      for i := 0 to |items|
        invariant Validation(items[..i], ledger, name) == ValidationReport(Passed, notices)
      {
        ValidationStep(items, i, ledger, name);
        var row := items[i];
        if row.linkedInvoice == "" || row.salesInvoiceItem == "" {
          continue;
        }
        var originalQty := Abs(row.originalQty);
        var currentQty := Abs(row.qty);
        var submittedQty, draftQty := ReturnedQtyBreakdown(ledger(row.linkedInvoice, row.salesInvoiceItem, name));
        var remaining := originalQty - submittedQty;
        if currentQty > remaining {
          ValidationStopsAt(items, i + 1, ledger, name);
          return ValidationReport(Exceeded(i + 1, row.itemCode, originalQty, submittedQty, remaining, currentQty), notices);
        }
        if draftQty > 0.0 {
          notices := notices + [DraftReturns(i + 1, row.itemCode, draftQty)];
        }
      }
      assert items[..|items|] == items;
      return ValidationReport(Passed, notices);
    }

    /** Accumulates the row sums into the header. */
    method CalculateTotals(moneyInWords: real -> string)
      modifies this`totalQty, this`total, this`totalTaxes, this`grandTotal, this`inWords
      ensures TotalsAgree(moneyInWords)
      ensures totalQty >= 0.0
    {
      var qtySum, amountSum, taxSum := 0.0, 0.0, 0.0;
      for i := 0 to |items|
        invariant qtySum == SumAbsQty(items[..i])
        invariant amountSum == SumAmount(items[..i])
        invariant taxSum == SumVat(items[..i])
      {
        assert items[..i + 1][..i] == items[..i];
        qtySum := qtySum + Abs(items[i].qty);
        amountSum := amountSum + items[i].totalAmount;
        taxSum := taxSum + items[i].vatAmount;
      }
      assert items[..|items|] == items;
      totalQty := qtySum;
      total := amountSum;
      totalTaxes := taxSum;
      grandTotal := amountSum + taxSum;
      inWords := moneyInWords(Abs(grandTotal));
      TotalQtyNonNegative(items);
    }

    /** Validation before save: the quantity check, then the totals. A failed
      check aborts the save and leaves the header as it was. */
    method Validate(ledger: Ledger, moneyInWords: real -> string) returns (report: ValidationReport)
      modifies this`totalQty, this`total, this`totalTaxes, this`grandTotal, this`inWords
      ensures report == Validation(items, ledger, name)
      ensures report.verdict.Exceeded? ==>
        && totalQty == old(totalQty) && total == old(total) && totalTaxes == old(totalTaxes)
        && grandTotal == old(grandTotal) && inWords == old(inWords)
      ensures report.verdict.Passed? ==> TotalsAgree(moneyInWords)
    {
      report := ValidateReturnQuantities(ledger);
      if report.verdict.Exceeded? {
        return;
      }
      CalculateTotals(moneyInWords);
    }

    /** Submission: the credit notes, then, with the flag, one delivery-note
      return per delivery note the rows were billed from. */
    method OnSubmit(
      invoices: map<string, SalesInvoice>, deliveryNotes: map<string, DeliveryNote>,
      siItems: map<string, InvoiceItemLink>)
      returns (r: Result<Submission, Error>)
      ensures r == SubmitOutcome(items, name, createDeliveryNote, invoices, deliveryNotes, siItems)
    {
      var credit := CreateCreditNotes(items, invoices, false);
      if credit.Failure? {
        return Failure(credit.error);
      }
      if !createDeliveryNote {
        return Success(Submission(credit.value, []));
      }
      var grouping, groups := GroupByDeliveryNote(items, siItems);
      if grouping.Failure? {
        return Failure(grouping.error);
      }
      var dns := grouping.value;
      var docs: seq<DeliveryNoteReturn> := [];
      for j := 0 to |dns|
        invariant DnReturnsFor(dns[..j], items, name, deliveryNotes, siItems) == Success(docs)
      {
        DnReturnsForStep(dns, j, items, name, deliveryNotes, siItems);
        var made := CreateReturnDeliveryNote(dns[j], groups[dns[j]], name, deliveryNotes, siItems);
        if made.Failure? {
          DnReturnsForFailureSticks(dns, j + 1, items, name, deliveryNotes, siItems);
          return Failure(made.error);
        }
        if made.value.Some? {
          docs := docs + [made.value.value];
        }
      }
      assert dns[..|dns|] == dns;
      return Success(Submission(credit.value, docs));
    }
  }
}
