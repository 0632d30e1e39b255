/** Selection of the Sales Invoice Items a return may be raised against, and
    their enrichment with the invoice's VAT rate. The SQL that fetches the
    invoice lines and the tax rows belongs to the host database: both are
    inputs, `fetch` keyed by the query the selection chooses and `taxesOf`
    giving the submitted tax rows of an invoice in the order the host returns
    them. */
module InvoiceItems {
  import opened Records

  /** A row of the invoice-line query. */
  datatype InvoiceLine = InvoiceLine(
    salesInvoice: string,
    invoiceItemRow: string,
    salesInvoiceDate: string,
    itemCode: string,
    itemName: string,
    description: string,
    qty: real,
    rate: real,
    amount: real,
    uom: string,
    territory: string)

  /** An invoice line with the fields the selection adds to it. */
  datatype EnrichedLine = EnrichedLine(
    line: InvoiceLine,
    vatRateRatio: real,
    vatAmount: real,
    originalQty: real,
    maxReturnableQty: real)

  /** The three filters the selection can put on submitted, non-return invoices. */
  datatype InvoiceQuery =
    | ItemAcrossCustomer(customer: string, itemCode: string)  // ordered by posting date, newest first
    | AllOfCustomer(customer: string)
    | SingleInvoice(invoice: string)                          // not filtered by customer

  function UpperAscii(c: char): char
  {
    if 'a' <= c <= 'z' then (c as int - 32) as char else c
  }

  /** `"VAT" in head.upper()`; an empty head never matches. */
  predicate IsVatAccount(head: string)
  {
    exists i :: 0 <= i && i + 3 <= |head|
      && UpperAscii(head[i]) == 'V' && UpperAscii(head[i + 1]) == 'A' && UpperAscii(head[i + 2]) == 'T'
  }

  /** The rate of the first tax row booked to a VAT account, 0 when none is. */
  function FirstVatRate(taxes: seq<SalesTax>): real
  {
    if taxes == [] then 0.0
    else if IsVatAccount(taxes[0].accountHead) then taxes[0].rate
    else FirstVatRate(taxes[1..])
  }

  /** First match: the rate is that of the earliest VAT row, and 0 without one. */
  lemma {:induction false} FirstVatRateIsFirstMatch(taxes: seq<SalesTax>)
    ensures (forall i :: 0 <= i < |taxes| ==> !IsVatAccount(taxes[i].accountHead)) ==> FirstVatRate(taxes) == 0.0
    ensures forall k :: 0 <= k < |taxes| && IsVatAccount(taxes[k].accountHead)
                     && (forall i :: 0 <= i < k ==> !IsVatAccount(taxes[i].accountHead))
                     ==> FirstVatRate(taxes) == taxes[k].rate
  {
    if taxes != [] {
      FirstVatRateIsFirstMatch(taxes[1..]);
      forall k | 0 < k < |taxes| && IsVatAccount(taxes[k].accountHead)
        && (forall i :: 0 <= i < k ==> !IsVatAccount(taxes[i].accountHead))
        ensures FirstVatRate(taxes) == taxes[k].rate
      {
        assert !IsVatAccount(taxes[0].accountHead);
        assert taxes[1..][k - 1] == taxes[k];
        assert forall i :: 0 <= i < k - 1 ==> taxes[1..][i] == taxes[i + 1];
      }
    }
  }

  /** The VAT rate (%) of an invoice: the search with its early return. */
  method InvoiceVatRate(taxes: seq<SalesTax>) returns (rate: real)
    ensures rate == FirstVatRate(taxes)
  {
    var i := 0;
    while i < |taxes|
      invariant 0 <= i <= |taxes|
      invariant FirstVatRate(taxes) == FirstVatRate(taxes[i..])
    {
      assert taxes[i..][1..] == taxes[i + 1..];
      if IsVatAccount(taxes[i].accountHead) {
        return taxes[i].rate;
      }
      i := i + 1;
    }
    return 0.0;
  }

  /** The fields added to one line given its invoice's VAT rate (%). */
  function Enrich(line: InvoiceLine, vatRate: real): EnrichedLine
  {
    var vatRatio := if vatRate != 0.0 then vatRate / 100.0 else 0.0;
    var lineAmount := line.qty * line.rate;
    EnrichedLine(line, vatRatio, lineAmount * vatRatio, line.qty, Abs(line.qty))
  }

  /** What an enriched line promises: its original quantity is the invoiced
      one, the returnable cap is its absolute value, and an invoice without a
      VAT row carries no VAT. */
  lemma EnrichedLineFacts(line: InvoiceLine, taxes: seq<SalesTax>)
    ensures var e := Enrich(line, FirstVatRate(taxes));
      && e.originalQty == line.qty
      && e.maxReturnableQty >= 0.0
      && (e.maxReturnableQty == line.qty || e.maxReturnableQty == -line.qty)
      && e.vatRateRatio * 100.0 == FirstVatRate(taxes)
      && ((forall i :: 0 <= i < |taxes| ==> !IsVatAccount(taxes[i].accountHead)) ==> e.vatAmount == 0.0)
  {
    FirstVatRateIsFirstMatch(taxes);
  }

  /** `out` is `rows`, line by line, each enriched with its invoice's VAT rate. */
  ghost predicate EnrichesAll(out: seq<EnrichedLine>, rows: seq<InvoiceLine>, taxesOf: string -> seq<SalesTax>)
  {
    && |out| == |rows|
    && forall i :: 0 <= i < |rows| ==> out[i] == Enrich(rows[i], FirstVatRate(taxesOf(rows[i].salesInvoice)))
  }

  /** The selection: the customer is required; an item code wins over
      `select_all`, which wins over a named invoice; with none of the three
      nothing is selected. Every selected line is enriched with its invoice's
      VAT rate, each invoice's rate being looked up once. */
  method GetSalesInvoiceItems(
    customer: string, salesInvoice: string, selectAll: int, itemCode: string,
    fetch: InvoiceQuery -> seq<InvoiceLine>, taxesOf: string -> seq<SalesTax>)
    returns (r: Result<seq<EnrichedLine>, Error>)
    ensures customer == "" ==> r == Failure(CustomerRequired)
    ensures customer != "" ==> r.Success?
    ensures customer != "" && itemCode != "" ==>
      EnrichesAll(r.value, fetch(ItemAcrossCustomer(customer, itemCode)), taxesOf)
    ensures customer != "" && itemCode == "" && selectAll != 0 ==>
      EnrichesAll(r.value, fetch(AllOfCustomer(customer)), taxesOf)
    ensures customer != "" && itemCode == "" && selectAll == 0 && salesInvoice != "" ==>
      EnrichesAll(r.value, fetch(SingleInvoice(salesInvoice)), taxesOf)
    ensures customer != "" && itemCode == "" && selectAll == 0 && salesInvoice == "" ==> r.value == []
  {
    if customer == "" {
      return Failure(CustomerRequired);
    }
    var query;
    if itemCode != "" {
      query := ItemAcrossCustomer(customer, itemCode);
    } else if selectAll != 0 {
      query := AllOfCustomer(customer);
    } else {
      if salesInvoice == "" {
        return Success([]);
      }
      query := SingleInvoice(salesInvoice);
    }
    var rows := fetch(query);
    var cache: map<string, real> := map[];
    var enriched: seq<EnrichedLine> := [];
    for i := 0 to |rows|
      invariant |enriched| == i
      invariant forall inv :: inv in cache ==> cache[inv] == FirstVatRate(taxesOf(inv))
      invariant forall j :: 0 <= j < i ==> enriched[j] == Enrich(rows[j], FirstVatRate(taxesOf(rows[j].salesInvoice)))
    {
      var inv := rows[i].salesInvoice;
      var vatRate;
      if inv !in cache {
        vatRate := InvoiceVatRate(taxesOf(inv));
        cache := cache[inv := vatRate];
      } else {
        vatRate := cache[inv];
      }
      enriched := enriched + [Enrich(rows[i], vatRate)];
    }
    return Success(enriched);
  }
}
