/** Records shared by the Combined Sales Return model: the rows of the return
    document, the host documents the core reads, and the error values that
    stand for the framework's exceptions.

    Link fields that Python tests for truthiness (`if not row.linked_invoice`)
    are strings here, and the empty string stands for an unset link. Quantities
    and amounts are `real`: the framework's floating point is not modelled. */
module Records {

  datatype Option<+T> = None | Some(value: T)

  datatype Result<+R, +E> = Success(value: R) | Failure(error: E)

  /** What the framework raises on the paths the core does not catch. */
  datatype Error =
    | NotFound(doctype: string, name: string)  // `frappe.get_doc` of a missing document
    | CustomerRequired                         // `frappe.throw("Customer is required.")`

  /** One row of the Combined Sales Return Item child table. */
  datatype ReturnRow = ReturnRow(
    itemCode: string,
    linkedInvoice: string,      // the Sales Invoice the row returns against
    salesInvoiceItem: string,   // the Sales Invoice Item row it returns
    qty: real,
    originalQty: real,
    rate: real,
    uom: string,
    territory: string,
    totalAmount: real,
    vatAmount: real)

  /** The fields of a Sales Invoice Item that the delivery-note logic reads. */
  datatype InvoiceItemLink = InvoiceItemLink(
    deliveryNote: string,   // the Delivery Note the invoice line was billed from
    dnDetail: string,       // the Delivery Note Item row it was billed from
    warehouse: string)

  /** A row of a Sales Invoice's Sales Taxes and Charges table. */
  datatype SalesTax = SalesTax(
    chargeType: string,
    accountHead: string,
    description: string,
    rate: real,
    includedInPrintRate: bool,
    costCenter: string,
    taxAmount: real)        // computed by the host; never copied

  /** The fields of a Sales Invoice that credit-note generation reads. */
  datatype SalesInvoice = SalesInvoice(
    company: string,
    customer: string,
    taxesAndCharges: string,
    taxes: seq<SalesTax>)

  /** The fields of a Delivery Note that the delivery-note return reads. */
  datatype DeliveryNote = DeliveryNote(company: string, customer: string)

  /** One row of the returned-quantity aggregate: `ABS(SUM(qty))` of the return
      invoices with one docstatus (0 draft, 1 submitted, 2 cancelled). */
  datatype StatusTotal = StatusTotal(docstatus: int, qty: real)

  function Abs(x: real): (r: real)
    ensures r >= 0.0
    ensures r == x || r == -x
  {
    if x < 0.0 then -x else x
  }
}
