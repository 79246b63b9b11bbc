/** The orders table (polymarket_bot/database.py) as a sequence of rows in the order they
    were written, and the sizes read off it. Prices, sizes and shares are exact reals. */
module OrderTable {
  import opened Reals

  datatype Role = Entry | Exit

  /** The statuses the code tells apart; Other is any the venue may add. */
  datatype Status =
    | Open | Live | Delayed | Unmatched | CancelRequested
    | Matched | Filled | Cancelled | TerminalUnknown | Failed
    | Other(name: string)

  predicate Active(s: Status) {
    s.Open? || s.Live? || s.Delayed? || s.Unmatched? || s.CancelRequested?
  }

  datatype Row = Row(id: string, slug: string, outcome: string, role: Role, price: real, size: real,
                     matched: real, status: Status)

  type Table = seq<Row>

  // ----- Writing

  function Without(rows: Table, id: string): Table {
    if rows == [] then []
    else Without(rows[..|rows| - 1], id) + (if rows[|rows| - 1].id == id then [] else [rows[|rows| - 1]])
  }

  /** A new row starts wholly matched if it is reported matched, and replaces any row of
      its id. */
  function AddOrder(rows: Table, order: Row): Table {
    Without(rows, order.id) + [order.(matched := if order.status.Matched? || order.status.Filled? then order.size else 0.0)]
  }

  function UpdateOrder(rows: Table, id: string, status: Status, matched: real): Table {
    seq(|rows|, i requires 0 <= i < |rows| =>
          if rows[i].id == id then rows[i].(status := status, matched := matched) else rows[i])
  }

  function MarkOrders(rows: Table, ids: set<string>, status: Status): Table {
    seq(|rows|, i requires 0 <= i < |rows| => if rows[i].id in ids then rows[i].(status := status) else rows[i])
  }

  // ----- Reading

  function Total(rows: Table, weight: Row -> real): real {
    if rows == [] then 0.0 else Total(rows[..|rows| - 1], weight) + weight(rows[|rows| - 1])
  }

  predicate IsExit(r: Row, slug: string, outcome: string) {
    r.role.Exit? && r.slug == slug && r.outcome == outcome
  }

  /** What an exit row has taken off its rung: what it sold and may still sell, and a
      failed submission's whole size. */
  function Handled(r: Row): real {
    if Active(r.status) then r.matched + Max(0.0, r.size - r.matched)
    else if r.status.Failed? then r.matched + r.size
    else r.matched
  }

  function HandledAt(slug: string, outcome: string, price: real): Row -> real {
    (r: Row) => if IsExit(r, slug, outcome) && r.price == price then Handled(r) else 0.0
  }

  function HandledSize(rows: Table, slug: string, outcome: string, price: real): real {
    Total(rows, HandledAt(slug, outcome, price))
  }

  function ReservedBy(slug: string, outcome: string): Row -> real {
    (r: Row) => if IsExit(r, slug, outcome) && Active(r.status) then Max(0.0, r.size - r.matched) else 0.0
  }

  function ReservedSize(rows: Table, slug: string, outcome: string): real {
    Total(rows, ReservedBy(slug, outcome))
  }

  predicate IsEntry(r: Row, slug: string, outcome: string) {
    r.role.Entry? && r.slug == slug && r.outcome == outcome
  }

  /** The greatest weight of any row, and no less than zero. */
  function Best(rows: Table, weight: Row -> real): real {
    if rows == [] then 0.0 else Max(Best(rows[..|rows| - 1], weight), weight(rows[|rows| - 1]))
  }

  function MatchedBy(slug: string, outcome: string): Row -> real {
    (r: Row) => if IsEntry(r, slug, outcome) then r.matched else 0.0
  }

  /** The most any one entry order of the outcome has matched. */
  function BestMatched(rows: Table, slug: string, outcome: string): real {
    Best(rows, MatchedBy(slug, outcome))
  }

  /** The size matched over all the entry orders of the outcome. */
  function MatchedSize(rows: Table, slug: string, outcome: string): real {
    Total(rows, MatchedBy(slug, outcome))
  }

  /** exit_handled_size adds its total up row by row. */
  method ExitHandledSize(rows: Table, slug: string, outcome: string, price: real) returns (total: real)
    ensures total == HandledSize(rows, slug, outcome, price)
  {
    total := 0.0;
    for i := 0 to |rows|
      invariant total == HandledSize(rows[..i], slug, outcome, price)
    {
      assert rows[..i + 1][..i] == rows[..i];
      var r := rows[i];
      if IsExit(r, slug, outcome) && r.price == price {
        total := total + r.matched;
        if Active(r.status) {
          total := total + Max(0.0, r.size - r.matched);
        } else if r.status.Failed? {
          total := total + r.size;
        }
      }
    }
    assert rows[..|rows|] == rows;
  }

  /** An exit that may still fill takes the larger of its size and its fill off its rung, and
      reserves what of that is not filled; a failed one takes its whole size besides its
      fill, and any other its fill alone. */
  lemma WhatAnExitTakes(r: Row)
    requires r.role.Exit?
    ensures var resting := r.status in {Open, Live, Delayed, Unmatched, CancelRequested};
            && Handled(r) == (if resting then Max(r.size, r.matched)
                              else if r.status == Failed then r.size + r.matched else r.matched)
            && ReservedBy(r.slug, r.outcome)(r) == (if resting then Max(r.size, r.matched) - r.matched else 0.0)
  {}

  /** Once all that may still fill is written down as cancelled, nothing is reserved. */
  lemma {:induction false} CancellingFreesTheReserve(rows: Table, ids: set<string>, slug: string, outcome: string)
    requires forall r <- rows :: IsExit(r, slug, outcome) && Active(r.status) ==> r.id in ids
    ensures ReservedSize(MarkOrders(rows, ids, Cancelled), slug, outcome) == 0.0
  {
    if rows != [] {
      var n := |rows| - 1;
      assert rows[n] in rows;
      CancellingFreesTheReserve(rows[..n], ids, slug, outcome);
      assert MarkOrders(rows, ids, Cancelled)[..n] == MarkOrders(rows[..n], ids, Cancelled);
    }
  }

  // ----- How the totals move

  ghost predicate NonNegative(rows: Table, weight: Row -> real) {
    forall r <- rows :: 0.0 <= weight(r)
  }

  lemma {:induction false} WithoutTotal(rows: Table, id: string, weight: Row -> real)
    requires NonNegative(rows, weight)
    ensures Total(Without(rows, id), weight) <= Total(rows, weight)
    ensures 0.0 <= Total(rows, weight)
  {
    if rows != [] {
      var n := |rows| - 1;
      WithoutTotal(rows[..n], id, weight);
      var w := Without(rows[..n], id);
      assert (w + [rows[n]])[..|w|] == w;
      assert rows[n] in rows;
      if rows[n].id == id { assert Without(rows, id) == w; }
    }
  }

  lemma {:induction false} WithoutAbsent(rows: Table, id: string)
    requires forall r <- rows :: r.id != id
    ensures Without(rows, id) == rows
  {
    if rows != [] {
      var n := |rows| - 1;
      assert rows[n] in rows;
      assert rows[..n] + [rows[n]] == rows;
      WithoutAbsent(rows[..n], id);
    }
  }

  lemma {:induction false} WithoutRows(rows: Table, id: string)
    ensures forall r :: r in Without(rows, id) <==> r in rows && r.id != id
  {
    if rows != [] {
      var n := |rows| - 1;
      WithoutRows(rows[..n], id);
      assert rows == rows[..n] + [rows[n]];
    }
  }

  /** Of the order's id there is the order alone, filled whole when it was reported matched
      or filled and not at all otherwise; every other row stands. */
  lemma AddedExactly(rows: Table, order: Row)
    ensures var added := AddOrder(rows, order);
            && (exists r <- added :: r.id == order.id)
            && (forall r <- added :: r.id == order.id ==>
                  && r.(matched := order.matched) == order
                  && r.matched == (if order.status in {Matched, Filled} then order.size else 0.0))
            && (forall r: Row :: r.id != order.id ==> (r in added <==> r in rows))
  {
    WithoutRows(rows, order.id);
    var added := AddOrder(rows, order);
    assert added[|added| - 1] in added;
  }

  lemma {:induction false} AddTotal(rows: Table, order: Row, weight: Row -> real)
    requires NonNegative(rows, weight)
    ensures var added := AddOrder(rows, order);
            && Total(added, weight) <= Total(rows, weight) + weight(added[|added| - 1])
            && ((forall r <- rows :: r.id != order.id) ==>
                  Total(added, weight) == Total(rows, weight) + weight(added[|added| - 1]))
  {
    WithoutTotal(rows, order.id, weight);
    var added := AddOrder(rows, order);
    assert added[..|added| - 1] == Without(rows, order.id);
    if forall r <- rows :: r.id != order.id { WithoutAbsent(rows, order.id); }
  }

  lemma {:induction false} TotalPointwise(a: Table, b: Table, weight: Row -> real)
    requires |a| == |b| && forall i :: 0 <= i < |a| ==> weight(a[i]) <= weight(b[i])
    ensures Total(a, weight) <= Total(b, weight)
  {
    if a != [] { TotalPointwise(a[..|a| - 1], b[..|b| - 1], weight); }
  }

  lemma {:induction false} BestBounds(rows: Table, weight: Row -> real)
    ensures 0.0 <= Best(rows, weight)
    ensures forall r <- rows :: weight(r) <= Best(rows, weight)
    ensures Best(rows, weight) == 0.0 || exists r <- rows :: weight(r) == Best(rows, weight)
  {
    if rows != [] {
      var n := |rows| - 1;
      BestBounds(rows[..n], weight);
      assert rows == rows[..n] + [rows[n]];
    }
  }

  lemma {:induction false} BestGrows(a: Table, b: Table, weight: Row -> real)
    requires forall r <- a :: 0.0 < weight(r) ==> exists q <- b :: weight(r) <= weight(q)
    ensures Best(a, weight) <= Best(b, weight)
  {
    BestBounds(a, weight);
    BestBounds(b, weight);
  }

  /** No row weighs more than all together. */
  lemma {:induction false} BestWithinTotal(rows: Table, weight: Row -> real)
    requires NonNegative(rows, weight)
    ensures Best(rows, weight) <= Total(rows, weight)
    ensures 0.0 <= Total(rows, weight)
  {
    if rows != [] {
      var n := |rows| - 1;
      BestWithinTotal(rows[..n], weight);
      assert rows[n] in rows;
    }
  }
}
