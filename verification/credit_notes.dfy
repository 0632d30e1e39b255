/** Credit-note generation: the rows of a submitted Combined Sales Return are
    grouped by their linked Sales Invoice, and each group becomes one return
    Sales Invoice (a credit note) against that invoice, with negative line
    quantities and a copy of the invoice's tax rows. The host's own tax and
    total computation, and the name `insert` gives the note, are not modelled:
    a note is the record the core builds. */
module CreditNotes {
  import opened Records
  import opened Grouping

  /** A credit-note line. */
  datatype CreditLine = CreditLine(
    itemCode: string,
    qty: real,
    rate: real,
    uom: string,
    territory: string,
    salesInvoiceItem: string)

  /** The six fields of a tax row that are copied onto the credit note. */
  datatype TaxLine = TaxLine(
    chargeType: string,
    accountHead: string,
    description: string,
    rate: real,
    includedInPrintRate: bool,
    costCenter: string)

  /** A return Sales Invoice (`is_return` = 1) as the core builds it; `submitted`
      is whether it was submitted after insertion. */
  datatype CreditNote = CreditNote(
    company: string,
    customer: string,
    returnAgainst: string,
    taxesAndCharges: string,
    items: seq<CreditLine>,
    taxes: seq<TaxLine>,
    submitted: bool)

  /** The notes in creation order, and the invoice named by each note's
      "Credit Note created for ..." message. */
  datatype CreditNoteRun = CreditNoteRun(notes: seq<CreditNote>, messages: seq<string>)

  /** The grouping key of the credit notes. */
  function InvoiceKey(row: ReturnRow): string
  {
    row.linkedInvoice
  }

  /** The credited quantity: a negative quantity is kept, any other is negated. */
  function CreditQty(qty: real): (q: real)
    ensures q == -Abs(qty)
    ensures q <= 0.0
  {
    if qty < 0.0 then qty else -Abs(qty)
  }

  function CreditLineOf(row: ReturnRow): CreditLine
  {
    CreditLine(row.itemCode, CreditQty(row.qty), row.rate, row.uom, row.territory, row.salesInvoiceItem)
  }

  /** One credit line per row, in row order, each crediting the row's absolute quantity. */
  function CreditLines(rows: seq<ReturnRow>): (lines: seq<CreditLine>)
    ensures |lines| == |rows|
    ensures forall i :: 0 <= i < |rows| ==> lines[i] == CreditLineOf(rows[i])
    ensures forall i :: 0 <= i < |rows| ==> lines[i].qty == -Abs(rows[i].qty) <= 0.0
  {
    if rows == [] then []
    else CreditLines(rows[..|rows| - 1]) + [CreditLineOf(rows[|rows| - 1])]
  }

  function TaxLineOf(tax: SalesTax): TaxLine
  {
    TaxLine(tax.chargeType, tax.accountHead, tax.description, tax.rate, tax.includedInPrintRate, tax.costCenter)
  }

  /** One tax line per tax row of the invoice, in order, with the copied fields equal. */
  function CopyTaxes(taxes: seq<SalesTax>): (lines: seq<TaxLine>)
    ensures |lines| == |taxes|
    ensures forall i :: 0 <= i < |taxes| ==>
      && lines[i].chargeType == taxes[i].chargeType
      && lines[i].accountHead == taxes[i].accountHead
      && lines[i].description == taxes[i].description
      && lines[i].rate == taxes[i].rate
      && lines[i].includedInPrintRate == taxes[i].includedInPrintRate
      && lines[i].costCenter == taxes[i].costCenter
  {
    if taxes == [] then []
    else CopyTaxes(taxes[..|taxes| - 1]) + [TaxLineOf(taxes[|taxes| - 1])]
  }

  /** The note for one invoice and its group of rows. */
  function CreditNoteFor(invoice: string, si: SalesInvoice, rows: seq<ReturnRow>, submit: bool): CreditNote
  {
    CreditNote(si.company, si.customer, invoice, si.taxesAndCharges, CreditLines(rows), CopyTaxes(si.taxes), submit)
  }

  /** The notes for the invoices `ks`, in order; the first invoice the store
      does not hold raises. */
  function CreditNotesFor(ks: seq<string>, rows: seq<ReturnRow>, invoices: map<string, SalesInvoice>, submit: bool)
    : Result<CreditNoteRun, Error>
  {
    if ks == [] then Success(CreditNoteRun([], []))
    else
      var prev := CreditNotesFor(ks[..|ks| - 1], rows, invoices, submit);
      var invoice := ks[|ks| - 1];
      if prev.Failure? then prev
      else if invoice !in invoices then Failure(NotFound("Sales Invoice", invoice))
      else
        var note := CreditNoteFor(invoice, invoices[invoice], Members(rows, InvoiceKey, invoice), submit);
        Success(CreditNoteRun(prev.value.notes + [note], prev.value.messages + [invoice]))
  }

  /** What `create_credit_notes` produces from the rows of a return document. */
  function CreditNoteRunOf(rows: seq<ReturnRow>, invoices: map<string, SalesInvoice>, submit: bool)
    : Result<CreditNoteRun, Error>
  {
    CreditNotesFor(Keys(rows, InvoiceKey), rows, invoices, submit)
  }

  /** When every invoice of `ks` exists: one note and one message per
      invoice, in order, each note built from that invoice's group. */
  lemma {:induction false} CreditNotesForSucceeds(ks: seq<string>, rows: seq<ReturnRow>, invoices: map<string, SalesInvoice>, submit: bool)
    requires forall j :: 0 <= j < |ks| ==> ks[j] in invoices
    ensures var r := CreditNotesFor(ks, rows, invoices, submit);
      && r.Success?
      && |r.value.notes| == |ks| == |r.value.messages|
      && forall j :: 0 <= j < |ks| ==>
           && r.value.messages[j] == ks[j]
           && r.value.notes[j] == CreditNoteFor(ks[j], invoices[ks[j]], Members(rows, InvoiceKey, ks[j]), submit)
  {
    if ks != [] {
      var init := ks[..|ks| - 1];
      CreditNotesForSucceeds(init, rows, invoices, submit);
      var prev := CreditNotesFor(init, rows, invoices, submit).value;
      var invoice := ks[|ks| - 1];
      var note := CreditNoteFor(invoice, invoices[invoice], Members(rows, InvoiceKey, invoice), submit);
      var r := CreditNotesFor(ks, rows, invoices, submit);
      assert r == Success(CreditNoteRun(prev.notes + [note], prev.messages + [invoice]));
      forall j | 0 <= j < |ks|
        ensures r.value.messages[j] == ks[j]
        ensures r.value.notes[j] == CreditNoteFor(ks[j], invoices[ks[j]], Members(rows, InvoiceKey, ks[j]), submit)
      {
        if j < |init| {
          assert ks[j] == init[j];
        }
      }
    }
  }

  /** One step of the run: the note for `ks[j]` follows the notes before it. */
  lemma CreditNotesForStep(ks: seq<string>, rows: seq<ReturnRow>, invoices: map<string, SalesInvoice>, submit: bool, j: nat)
    requires j < |ks| && ks[j] in invoices
    requires CreditNotesFor(ks[..j], rows, invoices, submit).Success?
    ensures var prev := CreditNotesFor(ks[..j], rows, invoices, submit).value;
      CreditNotesFor(ks[..j + 1], rows, invoices, submit)
        == Success(CreditNoteRun(
             prev.notes + [CreditNoteFor(ks[j], invoices[ks[j]], Members(rows, InvoiceKey, ks[j]), submit)],
             prev.messages + [ks[j]]))
  {
    assert ks[..j + 1][..j] == ks[..j];
  }

  /** When invoice `ks[j]` is the first one missing, the run raises for it. */
  lemma {:induction false} CreditNotesForFails(ks: seq<string>, rows: seq<ReturnRow>, invoices: map<string, SalesInvoice>, submit: bool, j: nat)
    requires j < |ks| && ks[j] !in invoices
    requires forall i :: 0 <= i < j ==> ks[i] in invoices
    ensures CreditNotesFor(ks, rows, invoices, submit) == Failure(NotFound("Sales Invoice", ks[j]))
  {
    var init := ks[..|ks| - 1];
    if j < |ks| - 1 {
      CreditNotesForFails(init, rows, invoices, submit, j);
    } else {
      CreditNotesForSucceeds(init, rows, invoices, submit);
    }
  }

  /** The run succeeds exactly when every invoice of `ks` exists. */
  lemma {:induction false} CreditNotesSucceedExactly(ks: seq<string>, rows: seq<ReturnRow>, invoices: map<string, SalesInvoice>, submit: bool)
    ensures CreditNotesFor(ks, rows, invoices, submit).Success? <==> forall j :: 0 <= j < |ks| ==> ks[j] in invoices
  {
    if ks != [] {
      var init := ks[..|ks| - 1];
      CreditNotesSucceedExactly(init, rows, invoices, submit);
      assert forall j :: 0 <= j < |init| ==> init[j] == ks[j];
    }
  }

  /** The note built for `ks[j]` returns against `ks[j]` and holds that
      invoice's group of rows. */
  lemma CreditNotesFollowKeys(rows: seq<ReturnRow>, invoices: map<string, SalesInvoice>, submit: bool)
    requires CreditNoteRunOf(rows, invoices, submit).Success?
    ensures var run := CreditNoteRunOf(rows, invoices, submit).value;
      var ks := Keys(rows, InvoiceKey);
      && |run.notes| == |ks| == |run.messages|
      && forall j :: 0 <= j < |ks| ==>
           && run.messages[j] == ks[j]
           && run.notes[j].returnAgainst == ks[j]
           && run.notes[j].items == CreditLines(Members(rows, InvoiceKey, ks[j]))
  {
    var ks := Keys(rows, InvoiceKey);
    CreditNotesSucceedExactly(ks, rows, invoices, submit);
    CreditNotesForSucceeds(ks, rows, invoices, submit);
  }

  /** One credit note and one message per distinct linked invoice: the notes
      return against pairwise different invoices, every linked row's invoice
      has a note, every note's invoice is some row's, and each note holds the
      lines of exactly its invoice's rows, in row order. */
  lemma OneCreditNotePerInvoice(rows: seq<ReturnRow>, invoices: map<string, SalesInvoice>, submit: bool)
    requires CreditNoteRunOf(rows, invoices, submit).Success?
    ensures var run := CreditNoteRunOf(rows, invoices, submit).value;
      && |run.notes| == |run.messages|
      && (forall j :: 0 <= j < |run.notes| ==> run.notes[j].returnAgainst == run.messages[j])
      && (forall i, j :: 0 <= i < j < |run.notes| ==> run.notes[i].returnAgainst != run.notes[j].returnAgainst)
      && (forall i :: 0 <= i < |rows| && rows[i].linkedInvoice != "" ==>
            exists j :: 0 <= j < |run.notes| && run.notes[j].returnAgainst == rows[i].linkedInvoice)
      && (forall j :: 0 <= j < |run.notes| ==>
            exists i :: 0 <= i < |rows| && rows[i].linkedInvoice == run.notes[j].returnAgainst)
      && (forall j :: 0 <= j < |run.notes| ==>
            run.notes[j].items == CreditLines(Members(rows, InvoiceKey, run.notes[j].returnAgainst)))
  {
    var ks := Keys(rows, InvoiceKey);
    var run := CreditNoteRunOf(rows, invoices, submit).value;
    CreditNotesFollowKeys(rows, invoices, submit);
    forall i | 0 <= i < |rows| && rows[i].linkedInvoice != ""
      ensures exists j :: 0 <= j < |run.notes| && run.notes[j].returnAgainst == rows[i].linkedInvoice
    {
      KeysComplete(rows, InvoiceKey, rows[i].linkedInvoice);
      var j :| 0 <= j < |ks| && ks[j] == rows[i].linkedInvoice;
      assert run.notes[j].returnAgainst == rows[i].linkedInvoice;
    }
    forall j | 0 <= j < |run.notes|
      ensures exists i :: 0 <= i < |rows| && rows[i].linkedInvoice == run.notes[j].returnAgainst
    {
      KeysComplete(rows, InvoiceKey, ks[j]);
      var i :| 0 <= i < |rows| && InvoiceKey(rows[i]) == ks[j];
    }
  }

  /** Every line of every credit note credits: its quantity is the negated
      absolute quantity of a row linked to the note's invoice. */
  lemma CreditLinesAreCredits(rows: seq<ReturnRow>, invoices: map<string, SalesInvoice>, submit: bool)
    requires CreditNoteRunOf(rows, invoices, submit).Success?
    ensures var notes := CreditNoteRunOf(rows, invoices, submit).value.notes;
      forall j, l :: 0 <= j < |notes| && 0 <= l < |notes[j].items| ==>
        && notes[j].items[l].qty <= 0.0
        && exists i :: 0 <= i < |rows| && rows[i].linkedInvoice == notes[j].returnAgainst
             && notes[j].items[l] == CreditLineOf(rows[i])
  {
    var run := CreditNoteRunOf(rows, invoices, submit).value;
    var ks := Keys(rows, InvoiceKey);
    CreditNotesFollowKeys(rows, invoices, submit);
    forall j, l | 0 <= j < |run.notes| && 0 <= l < |run.notes[j].items|
      ensures exists i :: 0 <= i < |rows| && rows[i].linkedInvoice == run.notes[j].returnAgainst
                && run.notes[j].items[l] == CreditLineOf(rows[i])
    {
      var group := Members(rows, InvoiceKey, ks[j]);
      MembersExactly(rows, InvoiceKey, ks[j], group[l]);
      var i :| 0 <= i < |rows| && rows[i] == group[l];
    }
  }

  /** The item loop of one note: each row appended with its credited quantity. */
  method AppendCreditLines(items: seq<ReturnRow>) returns (lines: seq<CreditLine>)
    ensures lines == CreditLines(items)
  {
    lines := [];
    for l := 0 to |items|
      invariant lines == CreditLines(items[..l])
    {
      assert items[..l + 1][..l] == items[..l];
      var qty := if items[l].qty < 0.0 then items[l].qty else -Abs(items[l].qty);
      lines := lines + [CreditLine(items[l].itemCode, qty, items[l].rate, items[l].uom,
                                   items[l].territory, items[l].salesInvoiceItem)];
    }
    assert items[..|items|] == items;
  }

  /** The tax loop of one note: each tax row of the invoice copied field by field. */
  method CopyTaxRows(taxes: seq<SalesTax>) returns (lines: seq<TaxLine>)
    ensures lines == CopyTaxes(taxes)
  {
    lines := [];
    for t := 0 to |taxes|
      invariant lines == CopyTaxes(taxes[..t])
    {
      assert taxes[..t + 1][..t] == taxes[..t];
      var tax := taxes[t];
      lines := lines + [TaxLine(tax.chargeType, tax.accountHead, tax.description, tax.rate,
                                tax.includedInPrintRate, tax.costCenter)];
    }
    assert taxes[..|taxes|] == taxes;
  }

  /** The body of the loop for one invoice: header from the invoice, the
      credited lines of its rows, the copied taxes. */
  method BuildCreditNote(invoice: string, original: SalesInvoice, items: seq<ReturnRow>, submit: bool)
    returns (note: CreditNote)
    ensures note == CreditNoteFor(invoice, original, items, submit)
  {
    var lines := AppendCreditLines(items);
    var taxes := CopyTaxRows(original.taxes);
    note := CreditNote(original.company, original.customer, invoice, original.taxesAndCharges,
                       lines, taxes, submit);
  }

  /** Builds the credit notes as the source does: group the rows by linked
      invoice, then for each invoice load it, append the negated lines and the
      copied taxes, and submit when asked. Any missing invoice raises, and the
      raise undoes the notes already inserted. */
  method CreateCreditNotes(rows: seq<ReturnRow>, invoices: map<string, SalesInvoice>, submit: bool)
    returns (r: Result<CreditNoteRun, Error>)
    ensures r == CreditNoteRunOf(rows, invoices, submit)
  {
    var keys, grouped := GroupBy(rows, InvoiceKey);
    r := CreditNotesLoop(keys, grouped, rows, invoices, submit);
  }

  /** The loop over the grouped invoices, in the dict's order. */
  method CreditNotesLoop(
    keys: seq<string>, grouped: map<string, seq<ReturnRow>>, rows: seq<ReturnRow>,
    invoices: map<string, SalesInvoice>, submit: bool)
    returns (r: Result<CreditNoteRun, Error>)
    requires forall j :: 0 <= j < |keys| ==> keys[j] in grouped && grouped[keys[j]] == Members(rows, InvoiceKey, keys[j])
    ensures r == CreditNotesFor(keys, rows, invoices, submit)
  {
    var notes: seq<CreditNote> := [];
    var messages: seq<string> := [];
    for j := 0 to |keys|
      invariant forall i :: 0 <= i < j ==> keys[i] in invoices
      invariant CreditNotesFor(keys[..j], rows, invoices, submit) == Success(CreditNoteRun(notes, messages))
    {
      var invoice := keys[j];
      if invoice !in invoices {
        CreditNotesForFails(keys, rows, invoices, submit, j);
        return Failure(NotFound("Sales Invoice", invoice));
      }
      var note := BuildCreditNote(invoice, invoices[invoice], grouped[invoice], submit);
      CreditNotesForStep(keys, rows, invoices, submit, j);
      notes := notes + [note];
      messages := messages + [invoice];
    }
    assert keys[..|keys|] == keys;
    return Success(CreditNoteRun(notes, messages));
  }
}
