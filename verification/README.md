# Combined Sales Return — a verified model

This project models the business rules of the Combined Sales Return app for an ERP system. A Combined Sales Return is one document that returns items sold on several Sales Invoices of one customer. Before it is saved, every row is checked against the quantity already returned on submitted returns of its invoice line: the row's quantity may not exceed what remains. Draft returns only raise a notice. The header totals are then recomputed from the rows.

Submission groups the rows by linked invoice and creates one credit note (a return Sales Invoice) per invoice. Each note has negated quantities and a copy of the invoice's taxes. When the document's `create_delivery_note` flag is set, submission also groups the rows by the delivery note their invoice line was billed from. It creates one return Delivery Note per delivery note, with positive quantities, and only when some row's invoice line names a delivery-note line.

The model also covers the selection helper that lists the invoice lines a return may be raised against. It covers the helper's filter precedence and how each line is enriched with its invoice's VAT rate.

The host framework is replaced by inputs:
- The documents it would load are maps by name: Sales Invoices, Delivery Notes, and Sales Invoice Items (reduced to their delivery note, delivery-note line and warehouse). A missing name is the `NotFound` error the load would raise.
- The returned-quantity SQL is the function `Ledger`. For (invoice, invoice line, return document to leave out), it gives one aggregate row per docstatus.
- The invoice-line SQL is a function of the chosen query, and the tax-row query a function of the invoice.
- The currency formatter is a function of the amount.
- Any raise is a `Failure` result. Since a raise rolls back the transaction, a failure carries no documents.

Modules:
- `Records`: the shared records and the error type.
- `Grouping`: the insertion-ordered `setdefault(...).append` dict.
- `ReturnLedger`: the (submitted, draft) breakdown fold.
- `InvoiceItems`: the selection helper and the VAT search.
- `CreditNotes`: the credit-note run.
- `DeliveryNoteReturn`: the return Delivery Note for one delivery note.
- `SalesReturn`: the document class, its validation, totals and submission, and their specifications.

## Model

| member | source | states |
|---|---|---|
| Grouping.Keys | combined_sales_return/combined_sales_return/doctype/combined_sales_return/combined_sales_return.py:287-290 | the group keys of a `setdefault` dict are pairwise distinct and never empty |
| Grouping.Members | combined_sales_return/combined_sales_return/doctype/combined_sales_return/combined_sales_return.py:287-290 | a group never holds more rows than the input, and every row in it has the group's key |
| Grouping.KeysInFirstOccurrenceOrder | combined_sales_return/combined_sales_return/doctype/combined_sales_return/combined_sales_return.py:287-290 | the keys come in first-occurrence order: a row carrying a later key is preceded by a row carrying each earlier key |
| Grouping.KeysComplete | combined_sales_return/combined_sales_return/doctype/combined_sales_return/combined_sales_return.py:287-290 | a key has a group exactly when it is non-empty and some row carries it |
| Grouping.MembersExactly | combined_sales_return/combined_sales_return/doctype/combined_sales_return/combined_sales_return.py:287-290 | a row is in group `k` exactly when it is one of the rows and its key is `k` |
| Grouping.MembersAppend | combined_sales_return/combined_sales_return/doctype/combined_sales_return/combined_sales_return.py:287-290 | grouping keeps input order: the group of a concatenation is the concatenation of the groups |
| Grouping.GroupsCoverKeyedRows | combined_sales_return/combined_sales_return/doctype/combined_sales_return/combined_sales_return.py:287-290 | partition and coverage: the groups together hold every row with a key exactly once, and no row without one |
| Grouping.AddToGroup | combined_sales_return/combined_sales_return/doctype/combined_sales_return/combined_sales_return.py:104-106 | one `setdefault(key, []).append(row)` step: a new key opens a group at the end, a known one gets the row appended |
| Grouping.GroupsOfSkip | combined_sales_return/combined_sales_return/doctype/combined_sales_return/combined_sales_return.py:289 | a row with an empty key leaves the dict as it was |
| Grouping.GroupBy | combined_sales_return/combined_sales_return/doctype/combined_sales_return/combined_sales_return.py:287-290 | the grouping loop produces the keys in first-occurrence order, and each key maps to its group |
| ReturnLedger.ReturnedQtyBreakdown | combined_sales_return/combined_sales_return/doctype/combined_sales_return/combined_sales_return.py:406-417 | the fold yields the quantity of the docstatus-1 row as submitted and of the docstatus-0 row as draft, each the last such row, and 0 when there is none |
| ReturnLedger.StatusQtyAbsent | combined_sales_return/combined_sales_return/doctype/combined_sales_return/combined_sales_return.py:406-407 | with no row of a docstatus, its quantity stays at the default 0 |
| ReturnLedger.StatusQtyIgnoresOtherStatus | combined_sales_return/combined_sales_return/doctype/combined_sales_return/combined_sales_return.py:411-415 | a row of any other docstatus (a cancelled return, say) never changes either quantity, wherever it stands |
| ReturnLedger.StatusQtyOfOnlyRow | combined_sales_return/combined_sales_return/doctype/combined_sales_return/combined_sales_return.py:392-417 | with one row per docstatus, as the GROUP BY gives, the fold takes that row's quantity |
| InvoiceItems.FirstVatRateIsFirstMatch | combined_sales_return/combined_sales_return/doctype/combined_sales_return/combined_sales_return.py:161-166 | the VAT rate is that of the first tax row whose account head contains VAT, and 0 when none does |
| InvoiceItems.InvoiceVatRate | combined_sales_return/combined_sales_return/doctype/combined_sales_return/combined_sales_return.py:146-166 | the search loop with its early return yields that first-match rate |
| InvoiceItems.EnrichedLineFacts | combined_sales_return/combined_sales_return/doctype/combined_sales_return/combined_sales_return.py:261-270 | an enriched line keeps the invoiced quantity as original quantity, caps returns at its absolute value, carries the ratio rate/100, and has no VAT when the invoice has no VAT row |
| InvoiceItems.GetSalesInvoiceItems | combined_sales_return/combined_sales_return/doctype/combined_sales_return/combined_sales_return.py:185-272 | no customer raises; otherwise an item code wins over select_all, which wins over a named invoice, and with none of them the result is empty; every fetched line is enriched with its own invoice's VAT rate, the cache never changing it |
| CreditNotes.CreditQty | combined_sales_return/combined_sales_return/doctype/combined_sales_return/combined_sales_return.py:316 | a credited quantity is the negated absolute quantity, so never positive |
| CreditNotes.CreditLines | combined_sales_return/combined_sales_return/doctype/combined_sales_return/combined_sales_return.py:315-325 | one credit line per row, in order, with item, rate, unit, territory and invoice line from the row and quantity -|qty| |
| CreditNotes.CopyTaxes | combined_sales_return/combined_sales_return/doctype/combined_sales_return/combined_sales_return.py:331-339 | one tax line per tax row of the invoice, in order, with the six copied fields equal |
| CreditNotes.CreditNotesForSucceeds | combined_sales_return/combined_sales_return/doctype/combined_sales_return/combined_sales_return.py:294-354 | when every grouped invoice exists, one note and one message per invoice, in order, each note built from that invoice and its group |
| CreditNotes.CreditNotesForFails | combined_sales_return/combined_sales_return/doctype/combined_sales_return/combined_sales_return.py:295 | the first grouped invoice that does not exist makes the whole run raise Sales Invoice not found for it |
| CreditNotes.CreditNotesSucceedExactly | combined_sales_return/combined_sales_return/doctype/combined_sales_return/combined_sales_return.py:294-295 | the run succeeds exactly when every grouped invoice exists |
| CreditNotes.CreditNotesFollowKeys | combined_sales_return/combined_sales_return/doctype/combined_sales_return/combined_sales_return.py:294-352 | note j and message j are for the j-th invoice key, and note j holds the credit lines of that invoice's group |
| CreditNotes.OneCreditNotePerInvoice | combined_sales_return/combined_sales_return/doctype/combined_sales_return/combined_sales_return.py:287-354 | one note and one message per distinct linked invoice: notes against pairwise different invoices, every linked row's invoice has a note, every note's invoice is some row's, and each note holds the lines of exactly its invoice's rows in row order |
| CreditNotes.CreditLinesAreCredits | combined_sales_return/combined_sales_return/doctype/combined_sales_return/combined_sales_return.py:315-325 | every line of every note has a quantity at most 0 and is the credit line of a row linked to that note's invoice |
| CreditNotes.AppendCreditLines | combined_sales_return/combined_sales_return/doctype/combined_sales_return/combined_sales_return.py:315-325 | the item loop appends exactly the credit lines of the group |
| CreditNotes.CopyTaxRows | combined_sales_return/combined_sales_return/doctype/combined_sales_return/combined_sales_return.py:331-339 | the tax loop appends exactly the copied tax lines |
| CreditNotes.BuildCreditNote | combined_sales_return/combined_sales_return/doctype/combined_sales_return/combined_sales_return.py:295-350 | the note for one invoice: company, customer, return_against and template from the invoice, its group's credit lines, its copied taxes |
| CreditNotes.CreditNotesLoop | combined_sales_return/combined_sales_return/doctype/combined_sales_return/combined_sales_return.py:292-354 | the loop over the grouped invoices produces exactly `CreditNotes.CreditNotesFor` of the keys and groups, raising at the first missing invoice |
| CreditNotes.CreateCreditNotes | combined_sales_return/combined_sales_return/doctype/combined_sales_return/combined_sales_return.py:279-354 | grouping then the loop produce exactly `CreditNotes.CreditNoteRunOf` of the rows, which `OneCreditNotePerInvoice` shows is one note per distinct linked invoice |
| DeliveryNoteReturn.ReturnLines | combined_sales_return/combined_sales_return/api/delivery_note_return.py:33-49 | at most one line per row, and every line has quantity |qty| >= 0 |
| DeliveryNoteReturn.FirstUnknownItem | combined_sales_return/combined_sales_return/api/delivery_note_return.py:33-37 | the first row whose invoice line cannot be loaded: none exactly when every row's loads |
| DeliveryNoteReturn.ReturnLinesAppend | combined_sales_return/combined_sales_return/api/delivery_note_return.py:33-49 | the lines keep the row order: lines of a concatenation are the concatenation of the lines |
| DeliveryNoteReturn.ReturnLinesFromSurvivors | combined_sales_return/combined_sales_return/api/delivery_note_return.py:40-49 | every line comes from a row whose invoice line names both a delivery note and a delivery-note line: item and unit from the row, warehouse and delivery_note_item from the invoice line, quantity |qty| |
| DeliveryNoteReturn.ReturnLinesEmpty | combined_sales_return/combined_sales_return/api/delivery_note_return.py:40-53 | there are no lines exactly when no row survives the filter |
| DeliveryNoteReturn.ReturnDeliveryNoteOutcome | combined_sales_return/combined_sales_return/api/delivery_note_return.py:17-58 | with all lookups succeeding: nothing when no row survives, otherwise one document against the original delivery note, with its company and customer, the combined-return link passed in, and the surviving lines |
| DeliveryNoteReturn.CreateReturnDeliveryNote | combined_sales_return/combined_sales_return/api/delivery_note_return.py:7-58 | the loop with its `continue` filter and the emptiness branch produce exactly `DeliveryNoteReturn.ReturnDeliveryNote`, raising for a missing delivery note or invoice line |
| SalesReturn.ValidationVerdict | combined_sales_return/combined_sales_return/doctype/combined_sales_return/combined_sales_return.py:21-49 | validation fails exactly when some checked row has |qty| > |original_qty| - submitted, and the failure names the first such row (1-based) with original, submitted, remaining and attempted quantities |
| SalesReturn.ValidationStopsAt | combined_sales_return/combined_sales_return/doctype/combined_sales_return/combined_sales_return.py:39-49 | once a row has failed, the rows after it change nothing |
| SalesReturn.ValidationNotices | combined_sales_return/combined_sales_return/doctype/combined_sales_return/combined_sales_return.py:52-62 | notices come only from checked rows that pass the cap and have draft quantity > 0, carrying that quantity; when validation passes every such row has its notice |
| SalesReturn.NoticesSound | combined_sales_return/combined_sales_return/doctype/combined_sales_return/combined_sales_return.py:52-62 | every notice is about a checked row that passed the cap and has draft quantity > 0, with its item code and that quantity |
| SalesReturn.NoticesComplete | combined_sales_return/combined_sales_return/doctype/combined_sales_return/combined_sales_return.py:52-62 | when validation passes, every checked row with draft quantity > 0 has its notice |
| SalesReturn.DraftQuantitiesNeverDecide | combined_sales_return/combined_sales_return/doctype/combined_sales_return/combined_sales_return.py:29-52 | two ledgers that agree on submitted quantities give the same verdict whatever their draft quantities |
| SalesReturn.UncheckedRowNeverRejects | combined_sales_return/combined_sales_return/doctype/combined_sales_return/combined_sales_return.py:23-24 | a row missing its invoice or its invoice line, inserted anywhere, never changes pass or fail |
| SalesReturn.OverReturnedLineRejectsZero | combined_sales_return/combined_sales_return/doctype/combined_sales_return/combined_sales_return.py:26-49 | when submitted returns already exceed the original quantity, a checked row with quantity 0 still fails |
| SalesReturn.RemainingQuantityExample | combined_sales_return/combined_sales_return/doctype/combined_sales_return/combined_sales_return.py:26-62 | original 10 with 4 returned on submitted returns and 3 on drafts: returning 7 fails with 6 remaining; returning 6 passes with a notice for the 3 in drafts |
| SalesReturn.TotalQtyNonNegative | combined_sales_return/combined_sales_return/doctype/combined_sales_return/combined_sales_return.py:121-126 | the total quantity is never negative |
| SalesReturn.TotalsAppend | combined_sales_return/combined_sales_return/doctype/combined_sales_return/combined_sales_return.py:121-128 | each total is additive over any split of the rows |
| SalesReturn.AmountInWordsIgnoresSign | combined_sales_return/combined_sales_return/doctype/combined_sales_return/combined_sales_return.py:133-139 | the amount in words depends only on the absolute grand total |
| SalesReturn.FirstUnloadedItem | combined_sales_return/combined_sales_return/doctype/combined_sales_return/combined_sales_return.py:88-97 | the first row naming an invoice line that cannot be loaded: none exactly when every named line loads |
| SalesReturn.SubmissionOrder | combined_sales_return/combined_sales_return/doctype/combined_sales_return/combined_sales_return.py:69-84 | credit notes come first and their failure is re-raised; a successful submission carries that credit-note run; without the flag no delivery-note return is made |
| SalesReturn.NoBacklinkNoDeliveryNoteReturn | combined_sales_return/combined_sales_return/doctype/combined_sales_return/combined_sales_return.py:99-102 | when no row's invoice line was billed from a delivery note, submission makes no delivery-note return |
| SalesReturn.DnReturnsForShape | combined_sales_return/combined_sales_return/doctype/combined_sales_return/combined_sales_return.py:109-114 | each delivery-note return made is that of one delivered note, built from its group, and there are at most as many as delivery notes |
| SalesReturn.DnReturnsForDistinct | combined_sales_return/combined_sales_return/doctype/combined_sales_return/combined_sales_return.py:109-114 | over pairwise distinct delivery notes, the returns made are against pairwise different delivery notes |
| SalesReturn.DnReturnsForCovers | combined_sales_return/combined_sales_return/doctype/combined_sales_return/combined_sales_return.py:109-114 | every delivery note of the run whose group has a surviving line gets a return against it |
| SalesReturn.DnReturnsOfGroups | combined_sales_return/combined_sales_return/doctype/combined_sales_return/combined_sales_return.py:104-114 | over the grouped delivery notes, each return is against a delivery note some row was billed from, links back to this document and holds exactly the surviving lines of that group |
| SalesReturn.DeliveryNoteReturnPerDeliveryNote | combined_sales_return/combined_sales_return/doctype/combined_sales_return/combined_sales_return.py:86-114 | one delivery-note return per delivery note on submission: no two against the same delivery note, one for every delivery note some row was billed from whose group has a surviving line, each against a delivery note some row was billed from, carrying this document's name, and holding exactly the surviving lines of the rows billed from it |
| SalesReturn.DnReturnsForAll | combined_sales_return/combined_sales_return/doctype/combined_sales_return/combined_sales_return.py:109-114 | when every grouped delivery note exists and has a surviving line, the run makes one return per delivery note, in order, each with its group's lines |
| SalesReturn.EveryDeliveryNoteReturned | combined_sales_return/combined_sales_return/doctype/combined_sales_return/combined_sales_return.py:86-114 | when every billed delivery note exists and every billed invoice line names its delivery-note line, submission makes exactly one return per distinct delivery note, in first-occurrence order |
| SalesReturn.GroupLoads | combined_sales_return/combined_sales_return/doctype/combined_sales_return/combined_sales_return.py:94-106 | every row grouped under a delivery note has a loadable invoice line |
| SalesReturn.GroupByDeliveryNote | combined_sales_return/combined_sales_return/doctype/combined_sales_return/combined_sales_return.py:86-106 | the grouping loop raises Sales Invoice Item not found for the first unloadable invoice line; otherwise it yields the delivery notes in first-occurrence order, each with its rows |
| SalesReturn.DnReturnsForFailureSticks | combined_sales_return/combined_sales_return/doctype/combined_sales_return/combined_sales_return.py:109-114 | a raise while creating delivery-note returns ends the submission with that error |
| SalesReturn.CombinedSalesReturn.constructor | combined_sales_return/combined_sales_return/doctype/combined_sales_return/combined_sales_return.py:9-12 | a document with its name, rows and flag, and a zero header |
| SalesReturn.CombinedSalesReturn.ValidateReturnQuantities | combined_sales_return/combined_sales_return/doctype/combined_sales_return/combined_sales_return.py:20-62 | the loop over the rows returns exactly `SalesReturn.Validation` of the rows, the ledger query being passed this document's name as the return invoice to leave out, a name none of its own credit notes carries, so verdict and notices are as `ValidationVerdict` and `ValidationNotices` state |
| SalesReturn.CombinedSalesReturn.CalculateTotals | combined_sales_return/combined_sales_return/doctype/combined_sales_return/combined_sales_return.py:116-139 | total_qty is the sum of |qty| and is >= 0, total the sum of total_amount, total_taxes the sum of vat_amount, grand_total their sum, in_words the words of |grand_total| |
| SalesReturn.CombinedSalesReturn.Validate | combined_sales_return/combined_sales_return/doctype/combined_sales_return/combined_sales_return.py:14-18 | a failing quantity check leaves the header untouched; a passing one leaves the totals agreeing with the rows |
| SalesReturn.CombinedSalesReturn.OnSubmit | combined_sales_return/combined_sales_return/doctype/combined_sales_return/combined_sales_return.py:65-114 | submission produces exactly `SalesReturn.SubmitOutcome`: the credit-note run `CreditNotes.CreditNoteRunOf` as drafts, then with the flag the delivery-note run `SalesReturn.DnReturnsFor` over the grouped delivery notes, any raise failing the whole submission |

## Left out

- SQL and ORM calls (`frappe.db.sql`, `frappe.get_doc`, `frappe.get_all`, `insert`, `submit`): host persistence. Their results are inputs (maps and functions), and a created document is the record the core builds.
- The SQL filter text of the selection helper: only its branch precedence is modelled. The query for a single named invoice is not restricted to the customer, as in the source.
- `set_missing_values` and `calculate_taxes_and_totals` on credit notes: the host tax engine. The model keeps the fields the core sets, and leaves out the posting date and the `update_outstanding_for_self` flag.
- Document names assigned by the host: credit-note messages are kept as the invoice they are for, and `create_return_delivery_note`'s returned name as the document record.
- `money_in_words` and `amount_in_words`: locale formatting from a library the model cannot see. `in_words` is modelled as a function, supplied as input, of |grand_total|.
- Message text, HTML and `log_error`: a raise is an `Error` value and a notice a `Notice` value.
- Floating point and `flt`: quantities and amounts are exact reals, with no rounding. A `None` number is taken as 0 and a `None` link as the empty string.
- `nowdate`, RPC whitelisting, permissions, and the race between concurrent returns that read the ledger before either is saved.
- `get_already_returned_qty`: defined but never called in this code.
- InvoiceItems.IsVatAccount: upper-cases ASCII letters only, because full Unicode case mapping is not modelled.
- Credit notes are created unsubmitted, as submission calls `create_credit_notes` with its default `submit_credit_notes=False`. Direct calls with `True` are covered by the `submit` parameter of `CreditNotes.CreateCreditNotes`.
- The ledger query's exclusion clause `si.name != exclude_docname` compares the name of a return Sales Invoice with this Combined Sales Return's name. No row of this document is a Sales Invoice, and the credit notes it creates get other names and carry no link back to it, because the `combined_sales_return` field is commented out where they are built. So the clause leaves out nothing this document made. The model passes the name to `Ledger` as the source does and does not model the SQL itself.
