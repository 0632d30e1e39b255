/** The Delivery Note return: a return Delivery Note against one original
    Delivery Note, holding a positive-quantity line for each return row whose
    Sales Invoice Item was billed from a delivery. When no row qualifies, no
    document is made. Insertion and submission belong to the host; a document
    here is the record the core builds, and it is always inserted and
    submitted. */
module DeliveryNoteReturn {
  import opened Records

  /** A line of the return Delivery Note. */
  datatype ReturnLine = ReturnLine(
    itemCode: string,
    qty: real,
    uom: string,
    warehouse: string,
    deliveryNoteItem: string)

  /** A return Delivery Note (`is_return` = 1), inserted and submitted. */
  datatype DeliveryNoteReturn = DeliveryNoteReturn(
    company: string,
    customer: string,
    returnAgainst: string,
    combinedSalesReturn: string,
    items: seq<ReturnLine>)

  /** A row is returned to stock when its invoice item names both a delivery
      note and a delivery-note line. */
  predicate Survives(row: ReturnRow, siItems: map<string, InvoiceItemLink>)
  {
    && row.salesInvoiceItem in siItems
    && siItems[row.salesInvoiceItem].deliveryNote != ""
    && siItems[row.salesInvoiceItem].dnDetail != ""
  }

  /** The line of a surviving row: item and unit from the row, quantity made
      positive, warehouse and delivery-note line from the invoice item. */
  function ReturnLineOf(row: ReturnRow, link: InvoiceItemLink): ReturnLine
  {
    ReturnLine(row.itemCode, Abs(row.qty), row.uom, link.warehouse, link.dnDetail)
  }

  /** The lines of the surviving rows, in row order. */
  function ReturnLines(rows: seq<ReturnRow>, siItems: map<string, InvoiceItemLink>): (lines: seq<ReturnLine>)
    ensures |lines| <= |rows|
    ensures forall l :: 0 <= l < |lines| ==> lines[l].qty >= 0.0
  {
    if rows == [] then []
    else
      var row := rows[|rows| - 1];
      ReturnLines(rows[..|rows| - 1], siItems)
        + (if Survives(row, siItems) then [ReturnLineOf(row, siItems[row.salesInvoiceItem])] else [])
  }

  /** The first row whose Sales Invoice Item cannot be loaded. */
  function FirstUnknownItem(rows: seq<ReturnRow>, siItems: map<string, InvoiceItemLink>): (r: Option<string>)
    ensures r.None? <==> forall i :: 0 <= i < |rows| ==> rows[i].salesInvoiceItem in siItems
    ensures r.Some? ==> r.value !in siItems && exists i :: (0 <= i < |rows| && rows[i].salesInvoiceItem == r.value
      && forall j :: 0 <= j < i ==> rows[j].salesInvoiceItem in siItems)
  {
    if rows == [] then None
    else if rows[0].salesInvoiceItem !in siItems then Some(rows[0].salesInvoiceItem)
    else
      var r := FirstUnknownItem(rows[1..], siItems);
      assert forall i :: 0 < i < |rows| ==> rows[i] == rows[1..][i - 1];
      r
  }

  /** What `create_return_delivery_note` does for one original delivery note:
      a missing delivery note or invoice item raises; otherwise the document
      when some line survives, and nothing when none does. */
  function ReturnDeliveryNote(
    originalDeliveryNote: string, rows: seq<ReturnRow>, combinedSalesReturn: string,
    deliveryNotes: map<string, DeliveryNote>, siItems: map<string, InvoiceItemLink>)
    : Result<Option<DeliveryNoteReturn>, Error>
  {
    if originalDeliveryNote !in deliveryNotes then Failure(NotFound("Delivery Note", originalDeliveryNote))
    else match FirstUnknownItem(rows, siItems)
      case Some(item) => Failure(NotFound("Sales Invoice Item", item))
      case None =>
        var lines := ReturnLines(rows, siItems);
        if lines == [] then Success(None)
        else
          var dn := deliveryNotes[originalDeliveryNote];
          Success(Some(DeliveryNoteReturn(dn.company, dn.customer, originalDeliveryNote, combinedSalesReturn, lines)))
  }

  /** The lines keep the row order and are exactly the surviving rows:
      the lines of a concatenation are the concatenation of the lines. */
  lemma {:induction false} ReturnLinesAppend(a: seq<ReturnRow>, b: seq<ReturnRow>, siItems: map<string, InvoiceItemLink>)
    ensures ReturnLines(a + b, siItems) == ReturnLines(a, siItems) + ReturnLines(b, siItems)
  {
    if b == [] {
      assert a + b == a;
    } else {
      var initB := b[..|b| - 1];
      assert (a + b)[..|a + b| - 1] == a + initB;
      ReturnLinesAppend(a, initB, siItems);
    }
  }

  /** `line` is the line of some surviving row of `rows`. */
  ghost predicate FromSurvivor(line: ReturnLine, rows: seq<ReturnRow>, siItems: map<string, InvoiceItemLink>)
  {
    exists i :: 0 <= i < |rows| && Survives(rows[i], siItems)
      && line == ReturnLineOf(rows[i], siItems[rows[i].salesInvoiceItem])
  }

  /** Every line comes from one surviving row: positive quantity, item and
      unit of the row, warehouse and delivery-note line of its invoice item. */
  lemma {:induction false} ReturnLinesFromSurvivors(rows: seq<ReturnRow>, siItems: map<string, InvoiceItemLink>)
    ensures forall l :: 0 <= l < |ReturnLines(rows, siItems)| ==> FromSurvivor(ReturnLines(rows, siItems)[l], rows, siItems)
  {
    if rows != [] {
      var init := rows[..|rows| - 1];
      var last := rows[|rows| - 1];
      ReturnLinesFromSurvivors(init, siItems);
      var prev := ReturnLines(init, siItems);
      var lines := ReturnLines(rows, siItems);
      forall l | 0 <= l < |lines|
        ensures FromSurvivor(lines[l], rows, siItems)
      {
        if l < |prev| {
          assert lines[l] == prev[l];
          assert FromSurvivor(prev[l], init, siItems);
          var i :| 0 <= i < |init| && Survives(init[i], siItems)
            && prev[l] == ReturnLineOf(init[i], siItems[init[i].salesInvoiceItem]);
          assert rows[i] == init[i];
        } else {
          assert Survives(last, siItems);
          assert lines[l] == ReturnLineOf(last, siItems[last.salesInvoiceItem]);
          assert rows[|rows| - 1] == last;
        }
      }
    }
  }

  /** Nothing survives exactly when no row survives. */
  lemma {:induction false} ReturnLinesEmpty(rows: seq<ReturnRow>, siItems: map<string, InvoiceItemLink>)
    ensures ReturnLines(rows, siItems) == [] <==> forall i :: 0 <= i < |rows| ==> !Survives(rows[i], siItems)
  {
    if rows != [] {
      var init := rows[..|rows| - 1];
      ReturnLinesEmpty(init, siItems);
      assert forall i :: 0 <= i < |init| ==> init[i] == rows[i];
    }
  }

  /** No document when nothing survives; otherwise one document against the
      original delivery note, with that note's company and customer and the
      link to the combined return that was passed in. */
  lemma ReturnDeliveryNoteOutcome(
    originalDeliveryNote: string, rows: seq<ReturnRow>, combinedSalesReturn: string,
    deliveryNotes: map<string, DeliveryNote>, siItems: map<string, InvoiceItemLink>)
    requires originalDeliveryNote in deliveryNotes
    requires forall i :: 0 <= i < |rows| ==> rows[i].salesInvoiceItem in siItems
    ensures var r := ReturnDeliveryNote(originalDeliveryNote, rows, combinedSalesReturn, deliveryNotes, siItems);
      && r.Success?
      && (r.value.None? <==> forall i :: 0 <= i < |rows| ==> !Survives(rows[i], siItems))
      && (r.value.Some? ==>
            && r.value.value.returnAgainst == originalDeliveryNote
            && r.value.value.company == deliveryNotes[originalDeliveryNote].company
            && r.value.value.customer == deliveryNotes[originalDeliveryNote].customer
            && r.value.value.combinedSalesReturn == combinedSalesReturn
            && r.value.value.items == ReturnLines(rows, siItems) != [])
  {
    ReturnLinesEmpty(rows, siItems);
  }

  /** The source's loop: load the original delivery note, append a line per
      surviving row, and make the document only when a line was appended. */
  method CreateReturnDeliveryNote(
    originalDeliveryNote: string, rows: seq<ReturnRow>, combinedSalesReturn: string,
    deliveryNotes: map<string, DeliveryNote>, siItems: map<string, InvoiceItemLink>)
    returns (r: Result<Option<DeliveryNoteReturn>, Error>)
    ensures r == ReturnDeliveryNote(originalDeliveryNote, rows, combinedSalesReturn, deliveryNotes, siItems)
  {
    if originalDeliveryNote !in deliveryNotes {
      return Failure(NotFound("Delivery Note", originalDeliveryNote));
    }
    var original := deliveryNotes[originalDeliveryNote];
    var lines: seq<ReturnLine> := [];
    for i := 0 to |rows|
      invariant forall j :: 0 <= j < i ==> rows[j].salesInvoiceItem in siItems
      invariant lines == ReturnLines(rows[..i], siItems)
    {
      assert rows[..i + 1][..i] == rows[..i];
      var row := rows[i];
      if row.salesInvoiceItem !in siItems {
        return Failure(NotFound("Sales Invoice Item", row.salesInvoiceItem));
      }
      var siItem := siItems[row.salesInvoiceItem];
      if siItem.deliveryNote == "" || siItem.dnDetail == "" {
        continue;
      }
      lines := lines + [ReturnLine(row.itemCode, Abs(row.qty), row.uom, siItem.warehouse, siItem.dnDetail)];
    }
    assert rows[..|rows|] == rows;
    if lines == [] {
      return Success(None);
    }
    return Success(Some(DeliveryNoteReturn(original.company, original.customer, originalDeliveryNote,
                                           combinedSalesReturn, lines)));
  }
}
