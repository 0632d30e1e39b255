/** The returned-quantity breakdown: the loop that turns the per-docstatus
    aggregate rows of the returned-quantity query into the pair
    (submitted quantity, draft quantity). The query itself belongs to the host
    database and is an input here. */
module ReturnLedger {
  import opened Records

  const Draft: int := 0
  const Submitted: int := 1

  /** The quantity the fold ends with for `status`: that of the last row with
      that docstatus, or 0 when there is none. */
  function StatusQty(rows: seq<StatusTotal>, status: int): real
  {
    if rows == [] then 0.0
    else if rows[|rows| - 1].docstatus == status then rows[|rows| - 1].qty
    else StatusQty(rows[..|rows| - 1], status)
  }

  /** The fold over the aggregate rows, overwriting as it goes. */
  method ReturnedQtyBreakdown(rows: seq<StatusTotal>) returns (submitted: real, draft: real)
    ensures submitted == StatusQty(rows, Submitted)
    ensures draft == StatusQty(rows, Draft)
  {
    submitted, draft := 0.0, 0.0;
    for i := 0 to |rows|
      invariant submitted == StatusQty(rows[..i], Submitted)
      invariant draft == StatusQty(rows[..i], Draft)
    {
      assert rows[..i + 1][..i] == rows[..i];
      if rows[i].docstatus == Submitted {
        submitted := rows[i].qty;
      } else if rows[i].docstatus == Draft {
        draft := rows[i].qty;
      }
    }
    assert rows[..|rows|] == rows;
  }

  /** With no row of a docstatus, its quantity defaults to 0. */
  lemma {:induction false} StatusQtyAbsent(rows: seq<StatusTotal>, status: int)
    requires forall i :: 0 <= i < |rows| ==> rows[i].docstatus != status
    ensures StatusQty(rows, status) == 0.0
  {
    if rows != [] {
      StatusQtyAbsent(rows[..|rows| - 1], status);
    }
  }

  /** A row of another docstatus (a cancelled return, say) never changes the
      quantity of `status`, wherever it stands. */
  lemma {:induction false} StatusQtyIgnoresOtherStatus(a: seq<StatusTotal>, x: StatusTotal, b: seq<StatusTotal>, status: int)
    requires x.docstatus != status
    ensures StatusQty(a + [x] + b, status) == StatusQty(a + b, status)
  {
    if b == [] {
      assert (a + [x] + b)[..|a| ] == a;
      assert a + b == a;
    } else {
      var initB := b[..|b| - 1];
      assert (a + [x] + b)[..|a + [x] + b| - 1] == a + [x] + initB;
      assert (a + b)[..|a + b| - 1] == a + initB;
      StatusQtyIgnoresOtherStatus(a, x, initB, status);
    }
  }

  /** When exactly one row has the docstatus, as the query's GROUP BY
      guarantees, the fold takes that row's quantity. */
  lemma {:induction false} StatusQtyOfOnlyRow(rows: seq<StatusTotal>, j: nat, status: int)
    requires j < |rows| && rows[j].docstatus == status
    requires forall i :: 0 <= i < |rows| && i != j ==> rows[i].docstatus != status
    ensures StatusQty(rows, status) == rows[j].qty
  {
    var init := rows[..|rows| - 1];
    if j < |rows| - 1 {
      StatusQtyOfOnlyRow(init, j, status);
    }
  }
}
