/** What the exit passes may offer against the account's balance, and when a pass repeated
    at once finds nothing left to offer. */
module ExitBalance {
  import opened ExitLadder
  import opened OrderTable
  import opened Reals

  // ----- The balance

  lemma {:induction false} LadderReserves(rows: Table, entry: Row, rungs: seq<Rung>, available: real, minSize: real,
                                          answer: Target -> Answer, slug: string, outcome: string)
    requires 0.0 < minSize && 0.0 <= available
    ensures ReservedSize(Ladder(rows, entry, rungs, available, minSize, answer).rows, slug, outcome) <=
            ReservedSize(rows, slug, outcome) + (if slug == entry.slug && outcome == entry.outcome then available else 0.0)
    decreases |rungs|
  {
    if rungs != [] {
      var size := Min(rungs[0].pending, available);
      if size < minSize {
        LadderReserves(rows, entry, rungs[1..], available, minSize, answer, slug, outcome);
      } else {
        var offer := Offer(rungs[0].target, size, answer(rungs[0].target));
        PlacingReserves(rows, entry, offer, slug, outcome);
        var left := if offer.answer.Placed? then available - size else available;
        LadderReserves(AddOrder(rows, ExitRow(entry, offer)), entry, rungs[1..], left, minSize, answer, slug, outcome);
      }
    }
  }

  lemma RowPassReserves(rows: Table, entry: Row, desk: Desk, now: int, reply: Reply, slug: string, outcome: string,
                        balance: real)
    requires entry.slug in desk.markets
    requires slug == entry.slug && outcome == entry.outcome ==> reply.balance <= balance
    ensures ReservedSize(RowPass(rows, entry, desk, now, reply).rows, slug, outcome) <=
            Max(balance, ReservedSize(rows, slug, outcome))
  {
    var minSize := desk.markets[entry.slug].minSize;
    LadderReserves(rows, entry, PendingRungs(rows, entry, desk.targets, minSize),
                   Available(rows, entry, reply.balance), minSize, reply.answer, slug, outcome);
  }

  /** One pass never leaves more of an outcome on offer than the larger of the balance it
      read and what was on offer before, whatever the exchange answers. */
  lemma {:induction false} PassWithinBalance(rows: Table, entries: seq<Row>, desk: Desk, now: int, reply: Row -> Reply,
                                             slug: string, outcome: string, balance: real)
    requires forall r <- entries :: r.slug in desk.markets
    requires forall r <- entries :: r.slug == slug && r.outcome == outcome ==> reply(r).balance <= balance
    ensures ReservedSize(PassOver(rows, entries, desk, now, reply).rows, slug, outcome) <=
            Max(balance, ReservedSize(rows, slug, outcome))
    decreases |entries|
  {
    if entries != [] {
      RowPassReserves(rows, entries[0], desk, now, reply(entries[0]), slug, outcome, balance);
      PassWithinBalance(RowPass(rows, entries[0], desk, now, reply(entries[0])).rows, entries[1..], desk, now, reply,
                        slug, outcome, balance);
    }
  }

  // ----- A ladder, sizes only

  /** What is still available after offering the pending sizes in order, each order taken
      or refused. */
  function Left(pending: seq<real>, available: real, minSize: real, taken: seq<bool>): real
    requires |taken| == |pending|
    decreases |pending|
  {
    if pending == [] || available < minSize then available
    else Left(pending[1..], if taken[0] then available - Min(pending[0], available) else available, minSize, taken[1..])
  }

  /** Some size was cut to what was available, refused, and still lacks a whole order. */
  predicate CutAndRefused(pending: seq<real>, available: real, minSize: real, taken: seq<bool>)
    requires |taken| == |pending|
    decreases |pending|
  {
    if pending == [] || available < minSize then false
    else
      var size := Min(pending[0], available);
      (!taken[0] && minSize <= pending[0] - size) ||
      CutAndRefused(pending[1..], if taken[0] then available - size else available, minSize, taken[1..])
  }

  /** Nothing that could still be offered is left over. */
  predicate Settled(pending: seq<real>, available: real, minSize: real, taken: seq<bool>)
    requires |taken| == |pending|
  {
    Left(pending, available, minSize, taken) < minSize || !CutAndRefused(pending, available, minSize, taken)
  }

  /** Can be told before the pass: whichever orders are taken, no size is ever cut by a
      whole order. */
  predicate NeverCut(pending: seq<real>, available: real, minSize: real)
    decreases |pending|
  {
    pending == [] || available < minSize ||
    (var size := Min(pending[0], available);
     && pending[0] - size < minSize
     && NeverCut(pending[1..], available, minSize)
     && NeverCut(pending[1..], available - size, minSize))
  }

  /** A ladder settles whatever mix of its orders is taken exactly when none is ever cut. */
  lemma {:induction false} SettlesWhateverIsTakenExactly(pending: seq<real>, available: real, minSize: real)
    requires 0.0 < minSize
    ensures NeverCut(pending, available, minSize) <==>
            forall taken: seq<bool> :: |taken| == |pending| ==> Settled(pending, available, minSize, taken)
  {
    if NeverCut(pending, available, minSize) {
      forall taken: seq<bool> | |taken| == |pending| ensures Settled(pending, available, minSize, taken) {
        NeverCutSettles(pending, available, minSize, taken);
      }
    } else {
      var taken := UnsettledMix(pending, available, minSize);
    }
  }

  lemma {:induction false} NeverCutSettles(pending: seq<real>, available: real, minSize: real, taken: seq<bool>)
    requires NeverCut(pending, available, minSize) && |taken| == |pending|
    ensures !CutAndRefused(pending, available, minSize, taken)
    decreases |pending|
  {
    if pending != [] && minSize <= available {
      var left := if taken[0] then available - Min(pending[0], available) else available;
      NeverCutSettles(pending[1..], left, minSize, taken[1..]);
    }
  }

  lemma {:induction false} UnsettledMix(pending: seq<real>, available: real, minSize: real) returns (taken: seq<bool>)
    requires !NeverCut(pending, available, minSize)
    ensures |taken| == |pending| && !Settled(pending, available, minSize, taken)
    decreases |pending|
  {
    var size := Min(pending[0], available);
    if minSize <= pending[0] - size {
      var rest := AllRefused(pending[1..], available, minSize);
      taken := [false] + rest;
      assert taken[1..] == rest;
    } else if !NeverCut(pending[1..], available, minSize) {
      var rest := UnsettledMix(pending[1..], available, minSize);
      taken := [false] + rest;
      assert taken[1..] == rest;
    } else {
      var rest := UnsettledMix(pending[1..], available - size, minSize);
      taken := [true] + rest;
      assert taken[1..] == rest;
    }
  }

  lemma {:induction false} AllRefused(pending: seq<real>, available: real, minSize: real) returns (taken: seq<bool>)
    requires minSize <= available
    ensures |taken| == |pending| && Left(pending, available, minSize, taken) == available
    decreases |pending|
  {
    taken := [];
    if pending != [] {
      var rest := AllRefused(pending[1..], available, minSize);
      taken := [false] + rest;
      assert taken[1..] == rest;
    }
  }

  // ----- The ladder on the table

  function Pendings(rungs: seq<Rung>): seq<real> {
    seq(|rungs|, i requires 0 <= i < |rungs| => rungs[i].pending)
  }

  function Answers(rungs: seq<Rung>, answer: Target -> Answer): seq<bool> {
    seq(|rungs|, i requires 0 <= i < |rungs| => answer(rungs[i].target).Placed?)
  }

  /** The ids given are new and told apart, and the orders taken rest. */
  ghost predicate OrdersRest(rows: Table, rungs: seq<Rung>, answer: Target -> Answer) {
    && (forall i :: 0 <= i < |rungs| ==> NoRow(rows, answer(rungs[i].target).id))
    && (forall i :: 0 <= i < |rungs| && answer(rungs[i].target).Placed? ==> Active(answer(rungs[i].target).status))
    && (forall i, j :: 0 <= i < j < |rungs| ==> answer(rungs[i].target).id != answer(rungs[j].target).id)
  }

  /** A ladder about to be offered: ascending rungs that each lack a whole order. */
  ghost predicate Offerable(rows: Table, entry: Row, rungs: seq<Rung>, minSize: real, answer: Target -> Answer) {
    && 0.0 < minSize && Ascending(rungs) && OrdersRest(rows, rungs, answer)
    && (forall i :: 0 <= i < |rungs| ==> minSize <= rungs[i].pending)
    && forall r <- rows :: 0.0 <= r.matched && (r.role.Exit? ==> r.matched <= r.size)
  }

  function First(entry: Row, rungs: seq<Rung>, available: real, answer: Target -> Answer): Offer
    requires rungs != []
  {
    Offer(rungs[0].target, Min(rungs[0].pending, available), answer(rungs[0].target))
  }

  function LeftByFirst(rungs: seq<Rung>, available: real, answer: Target -> Answer): real
    requires rungs != []
  {
    if answer(rungs[0].target).Placed? then available - Min(rungs[0].pending, available) else available
  }

  lemma AfterFirst(rows: Table, entry: Row, rungs: seq<Rung>, available: real, minSize: real, answer: Target -> Answer)
    requires Offerable(rows, entry, rungs, minSize, answer) && rungs != [] && minSize <= available
    ensures var placed := AddOrder(rows, ExitRow(entry, First(entry, rungs, available, answer)));
            Offerable(placed, entry, rungs[1..], minSize, answer)
  {
    WithoutRows(rows, answer(rungs[0].target).id);
  }

  lemma {:induction false} SizesAfterFirst(rungs: seq<Rung>, available: real, minSize: real, answer: Target -> Answer)
    requires rungs != [] && minSize <= available
    ensures var left := LeftByFirst(rungs, available, answer);
            var rest, answers := Pendings(rungs[1..]), Answers(rungs[1..], answer);
            && Left(Pendings(rungs), available, minSize, Answers(rungs, answer)) == Left(rest, left, minSize, answers)
            && (CutAndRefused(Pendings(rungs), available, minSize, Answers(rungs, answer)) <==>
                  (!answer(rungs[0].target).Placed? && minSize <= rungs[0].pending - Min(rungs[0].pending, available)) ||
                  CutAndRefused(rest, left, minSize, answers))
  {
    assert Pendings(rungs)[1..] == Pendings(rungs[1..]) && Answers(rungs, answer)[1..] == Answers(rungs[1..], answer);
  }

  lemma FirstHandles(rows: Table, entry: Row, rungs: seq<Rung>, available: real, minSize: real, answer: Target -> Answer,
                     slug: string, outcome: string, price: real)
    requires Offerable(rows, entry, rungs, minSize, answer) && rungs != [] && minSize <= available
    ensures var first := First(entry, rungs, available, answer);
            HandledSize(AddOrder(rows, ExitRow(entry, first)), slug, outcome, price) ==
              HandledSize(rows, slug, outcome, price) +
              (if slug == entry.slug && outcome == entry.outcome && price == first.target.price then first.size else 0.0)
  {
    var first := First(entry, rungs, available, answer);
    assert first.answer == answer(rungs[0].target);
    AddTotal(rows, ExitRow(entry, first), HandledAt(slug, outcome, price));
  }

  lemma FirstReserves(rows: Table, entry: Row, rungs: seq<Rung>, available: real, minSize: real, answer: Target -> Answer,
                      slug: string, outcome: string)
    requires Offerable(rows, entry, rungs, minSize, answer) && rungs != [] && minSize <= available
    ensures ReservedSize(AddOrder(rows, ExitRow(entry, First(entry, rungs, available, answer))), slug, outcome) ==
            ReservedSize(rows, slug, outcome) +
            (if slug == entry.slug && outcome == entry.outcome then available - LeftByFirst(rungs, available, answer) else 0.0)
  {
    var first := First(entry, rungs, available, answer);
    assert first.answer == answer(rungs[0].target);
    PlacingReserves(rows, entry, first, slug, outcome);
  }

  /** Nothing handled is ever given back by a ladder, and prices it does not offer at are
      left alone. */
  lemma {:induction false} LadderGrows(rows: Table, entry: Row, rungs: seq<Rung>, available: real, minSize: real,
                                       answer: Target -> Answer, slug: string, outcome: string, price: real)
    requires Offerable(rows, entry, rungs, minSize, answer) && minSize <= available
    ensures var after := Ladder(rows, entry, rungs, available, minSize, answer).rows;
            && HandledSize(rows, slug, outcome, price) <= HandledSize(after, slug, outcome, price)
            && ((forall i :: 0 <= i < |rungs| ==> rungs[i].target.price != price) ==>
                  HandledSize(after, slug, outcome, price) == HandledSize(rows, slug, outcome, price))
    decreases |rungs|
  {
    if rungs != [] {
      AfterFirst(rows, entry, rungs, available, minSize, answer);
      FirstHandles(rows, entry, rungs, available, minSize, answer, slug, outcome, price);
      var left := LeftByFirst(rungs, available, answer);
      if minSize <= left {
        var placed := AddOrder(rows, ExitRow(entry, First(entry, rungs, available, answer)));
        LadderGrows(placed, entry, rungs[1..], left, minSize, answer, slug, outcome, price);
      }
    }
  }

  lemma {:induction false} LadderKeepsReserved(rows: Table, entry: Row, rungs: seq<Rung>, available: real,
                                               minSize: real,
                                               answer: Target -> Answer, slug: string, outcome: string)
    requires Offerable(rows, entry, rungs, minSize, answer) && minSize <= available
    ensures ReservedSize(rows, slug, outcome) <=
            ReservedSize(Ladder(rows, entry, rungs, available, minSize, answer).rows, slug, outcome)
    decreases |rungs|
  {
    if rungs != [] {
      AfterFirst(rows, entry, rungs, available, minSize, answer);
      FirstReserves(rows, entry, rungs, available, minSize, answer, slug, outcome);
      var left := LeftByFirst(rungs, available, answer);
      if minSize <= left {
        var placed := AddOrder(rows, ExitRow(entry, First(entry, rungs, available, answer)));
        LadderKeepsReserved(placed, entry, rungs[1..], left, minSize, answer, slug, outcome);
      }
    }
  }

  lemma {:induction false} LadderReservesExactly(rows: Table, entry: Row, rungs: seq<Rung>, available: real,
                                                 minSize: real, answer: Target -> Answer)
    requires Offerable(rows, entry, rungs, minSize, answer) && minSize <= available
    ensures var left := Left(Pendings(rungs), available, minSize, Answers(rungs, answer));
            && 0.0 <= left
            && ReservedSize(Ladder(rows, entry, rungs, available, minSize, answer).rows, entry.slug, entry.outcome) ==
                 ReservedSize(rows, entry.slug, entry.outcome) + available - left
    decreases |rungs|
  {
    if rungs != [] {
      AfterFirst(rows, entry, rungs, available, minSize, answer);
      SizesAfterFirst(rungs, available, minSize, answer);
      FirstReserves(rows, entry, rungs, available, minSize, answer, entry.slug, entry.outcome);
      var left := LeftByFirst(rungs, available, answer);
      if minSize <= left {
        var placed := AddOrder(rows, ExitRow(entry, First(entry, rungs, available, answer)));
        LadderReservesExactly(placed, entry, rungs[1..], left, minSize, answer);
      }
    }
  }

  /** What a rung still lacks after a ladder. */
  function Lacks(rows: Table, after: Table, entry: Row, r: Rung): real {
    r.pending - (HandledSize(after, entry.slug, entry.outcome, r.target.price) -
                 HandledSize(rows, entry.slug, entry.outcome, r.target.price))
  }

  ghost predicate Short(rows: Table, after: Table, entry: Row, rungs: seq<Rung>, minSize: real) {
    exists r <- rungs :: minSize <= Lacks(rows, after, entry, r)
  }

  lemma {:induction false} FirstLacks(rows: Table, entry: Row, rungs: seq<Rung>, available: real, minSize: real,
                                      answer: Target -> Answer)
    requires Offerable(rows, entry, rungs, minSize, answer) && rungs != [] && minSize <= available
    requires minSize <= LeftByFirst(rungs, available, answer)
    ensures var after := Ladder(rows, entry, rungs, available, minSize, answer).rows;
            Lacks(rows, after, entry, rungs[0]) == rungs[0].pending - Min(rungs[0].pending, available)
  {
    AfterFirst(rows, entry, rungs, available, minSize, answer);
    var placed := AddOrder(rows, ExitRow(entry, First(entry, rungs, available, answer)));
    var price := rungs[0].target.price;
    FirstHandles(rows, entry, rungs, available, minSize, answer, entry.slug, entry.outcome, price);
    LadderGrows(placed, entry, rungs[1..], LeftByFirst(rungs, available, answer), minSize, answer,
                entry.slug, entry.outcome, price);
  }

  lemma LaterLacks(rows: Table, after: Table, entry: Row, rungs: seq<Rung>, available: real, minSize: real,
                   answer: Target -> Answer, r: Rung)
    requires Offerable(rows, entry, rungs, minSize, answer) && rungs != [] && r in rungs[1..] && minSize <= available
    ensures var placed := AddOrder(rows, ExitRow(entry, First(entry, rungs, available, answer)));
            Lacks(rows, after, entry, r) == Lacks(placed, after, entry, r)
  {
    FirstHandles(rows, entry, rungs, available, minSize, answer, entry.slug, entry.outcome, r.target.price);
  }

  lemma {:induction false} ShortAfterFirst(rows: Table, entry: Row, rungs: seq<Rung>, available: real, minSize: real,
                                           answer: Target -> Answer)
    requires Offerable(rows, entry, rungs, minSize, answer) && rungs != [] && minSize <= available
    requires minSize <= LeftByFirst(rungs, available, answer)
    ensures var placed := AddOrder(rows, ExitRow(entry, First(entry, rungs, available, answer)));
            var after := Ladder(rows, entry, rungs, available, minSize, answer).rows;
            Short(rows, after, entry, rungs, minSize) <==>
            minSize <= rungs[0].pending - Min(rungs[0].pending, available) || Short(placed, after, entry, rungs[1..], minSize)
  {
    var placed := AddOrder(rows, ExitRow(entry, First(entry, rungs, available, answer)));
    var after := Ladder(rows, entry, rungs, available, minSize, answer).rows;
    FirstLacks(rows, entry, rungs, available, minSize, answer);
    forall r <- rungs[1..] ensures Lacks(rows, after, entry, r) == Lacks(placed, after, entry, r) {
      LaterLacks(rows, after, entry, rungs, available, minSize, answer, r);
    }
  }

  /** While enough is left to offer, a rung is left short exactly when some order was cut
      and refused. */
  lemma {:induction false} ShortExactly(rows: Table, entry: Row, rungs: seq<Rung>, available: real,
                                        minSize: real, answer: Target -> Answer)
    requires Offerable(rows, entry, rungs, minSize, answer) && minSize <= available
    requires minSize <= Left(Pendings(rungs), available, minSize, Answers(rungs, answer))
    ensures Short(rows, Ladder(rows, entry, rungs, available, minSize, answer).rows, entry, rungs, minSize) <==>
            CutAndRefused(Pendings(rungs), available, minSize, Answers(rungs, answer))
    decreases |rungs|
  {
    if rungs != [] {
      AfterFirst(rows, entry, rungs, available, minSize, answer);
      SizesAfterFirst(rungs, available, minSize, answer);
      var left := LeftByFirst(rungs, available, answer);
      assert minSize <= left;
      ShortAfterFirst(rows, entry, rungs, available, minSize, answer);
      ShortExactly(AddOrder(rows, ExitRow(entry, First(entry, rungs, available, answer))), entry, rungs[1..], left, minSize, answer);
    }
  }

  // ----- A row's pass made again

  predicate Closed(entry: Row, desk: Desk, now: int)
    requires entry.slug in desk.markets
  {
    desk.markets[entry.slug].endTs - desk.cancelBefore <= now
  }

  /** Nothing is left to offer for the entry. */
  predicate Idle(rows: Table, entry: Row, desk: Desk, now: int, balance: real)
    requires entry.slug in desk.markets
  {
    var minSize := desk.markets[entry.slug].minSize;
    || Closed(entry, desk, now)
    || Available(rows, entry, balance) < minSize
    || forall t <- desk.targets :: PendingAt(rows, entry, t) < minSize
  }

  /** A pass over the row submits nothing exactly when it is idle. */
  lemma OffersNothingExactly(rows: Table, entry: Row, desk: Desk, now: int, reply: Reply)
    requires entry.slug in desk.markets
    ensures RowPass(rows, entry, desk, now, reply).offers == [] <==> Idle(rows, entry, desk, now, reply.balance)
    ensures Idle(rows, entry, desk, now, reply.balance) ==> RowPass(rows, entry, desk, now, reply) == Passed(rows, [])
  {
    var minSize := desk.markets[entry.slug].minSize;
    var rungs := PendingRungs(rows, entry, desk.targets, minSize);
    PendingExactly(rows, entry, desk.targets, minSize);
    if rungs != [] {
      assert rungs[0] in rungs;
      assert minSize <= PendingAt(rows, entry, rungs[0].target);
    }
  }

  ghost predicate RowsInBounds(rows: Table) {
    forall r <- rows :: 0.0 <= r.matched && (r.role.Exit? ==> r.matched <= r.size)
  }

  lemma {:induction false} PendingOfferable(rows: Table, entry: Row, desk: Desk, answer: Target -> Answer)
    requires entry.slug in desk.markets && RowsInBounds(rows)
    requires OrdersRest(rows, PendingRungs(rows, entry, desk.targets, desk.markets[entry.slug].minSize), answer)
    ensures var minSize := desk.markets[entry.slug].minSize;
            Offerable(rows, entry, PendingRungs(rows, entry, desk.targets, minSize), minSize, answer)
  {
    var minSize := desk.markets[entry.slug].minSize;
    var rungs := PendingRungs(rows, entry, desk.targets, minSize);
    PendingExactly(rows, entry, desk.targets, minSize);
    forall i | 0 <= i < |rungs| ensures minSize <= rungs[i].pending { assert rungs[i] in rungs; }
  }

  /** Every rung of the plan is below a whole order after the ladder exactly when none of
      those offered is left short. */
  lemma {:induction false} PendingAfterExactly(rows: Table, entry: Row, desk: Desk, available: real,
                                               answer: Target -> Answer)
    requires entry.slug in desk.markets && RowsInBounds(rows)
    requires desk.markets[entry.slug].minSize <= available
    requires OrdersRest(rows, PendingRungs(rows, entry, desk.targets, desk.markets[entry.slug].minSize), answer)
    ensures var minSize := desk.markets[entry.slug].minSize;
            var rungs := PendingRungs(rows, entry, desk.targets, minSize);
            var after := Ladder(rows, entry, rungs, available, minSize, answer).rows;
            (forall t <- desk.targets :: PendingAt(after, entry, t) < minSize) <==> !Short(rows, after, entry, rungs, minSize)
  {
    var minSize := desk.markets[entry.slug].minSize;
    var rungs := PendingRungs(rows, entry, desk.targets, minSize);
    var after := Ladder(rows, entry, rungs, available, minSize, answer).rows;
    PendingOfferable(rows, entry, desk, answer);
    PendingExactly(rows, entry, desk.targets, minSize);
    forall r <- rungs ensures r.target in desk.targets && Lacks(rows, after, entry, r) == PendingAt(after, entry, r.target) {}
    forall t <- desk.targets | Rung(t, PendingAt(rows, entry, t)) !in rungs
      ensures PendingAt(after, entry, t) < minSize
    {
      LadderGrows(rows, entry, rungs, available, minSize, answer, entry.slug, entry.outcome, t.price);
    }
    if !Short(rows, after, entry, rungs, minSize) {
      forall t <- desk.targets ensures PendingAt(after, entry, t) < minSize {
        if Rung(t, PendingAt(rows, entry, t)) in rungs {
          assert Lacks(rows, after, entry, Rung(t, PendingAt(rows, entry, t))) < minSize;
        }
      }
    }
  }

  function RowPendings(rows: Table, entry: Row, desk: Desk): seq<Rung>
    requires entry.slug in desk.markets
  {
    PendingRungs(rows, entry, desk.targets, desk.markets[entry.slug].minSize)
  }

  ghost predicate RowSettles(rows: Table, entry: Row, desk: Desk, reply: Reply)
    requires entry.slug in desk.markets
  {
    Settled(Pendings(RowPendings(rows, entry, desk)), Available(rows, entry, reply.balance),
            desk.markets[entry.slug].minSize, Answers(RowPendings(rows, entry, desk), reply.answer))
  }

  /** After a pass whose accepted exits rest, nothing is left to offer at the same balance
      exactly when the ladder settled. */
  lemma IdleAfterExactly(rows: Table, entry: Row, desk: Desk, now: int, later: int, reply: Reply)
    requires entry.slug in desk.markets && RowsInBounds(rows)
    requires OrdersRest(rows, RowPendings(rows, entry, desk), reply.answer)
    requires now <= later && !Closed(entry, desk, later)
    ensures Idle(RowPass(rows, entry, desk, now, reply).rows, entry, desk, later, reply.balance) <==>
            RowSettles(rows, entry, desk, reply)
  {
    var minSize := desk.markets[entry.slug].minSize;
    var rungs := RowPendings(rows, entry, desk);
    var available := Available(rows, entry, reply.balance);
    PendingExactly(rows, entry, desk.targets, minSize);
    if rungs != [] && minSize <= available {
      var after := Ladder(rows, entry, rungs, available, minSize, reply.answer).rows;
      var left := Left(Pendings(rungs), available, minSize, Answers(rungs, reply.answer));
      PendingOfferable(rows, entry, desk, reply.answer);
      LadderReservesExactly(rows, entry, rungs, available, minSize, reply.answer);
      assert Available(after, entry, reply.balance) == left;
      PendingAfterExactly(rows, entry, desk, available, reply.answer);
      if minSize <= left { ShortExactly(rows, entry, rungs, available, minSize, reply.answer); }
    }
  }

  /** The same pass made again over the row submits nothing exactly when the first settled:
      too little was left to offer, or no order that was cut to what was left was refused. */
  lemma SecondPassIsQuietExactly(rows: Table, entry: Row, desk: Desk, now: int, later: int, reply: Reply, again: Reply)
    requires entry.slug in desk.markets && RowsInBounds(rows)
    requires OrdersRest(rows, RowPendings(rows, entry, desk), reply.answer)
    requires now <= later && !Closed(entry, desk, later) && again.balance == reply.balance
    ensures RowPass(RowPass(rows, entry, desk, now, reply).rows, entry, desk, later, again).offers == [] <==>
            RowSettles(rows, entry, desk, reply)
  {
    IdleAfterExactly(rows, entry, desk, now, later, reply);
    OffersNothingExactly(RowPass(rows, entry, desk, now, reply).rows, entry, desk, later, again);
  }

  /** The answers of a mix: every order is given the id for its target, and is taken and
      rests or is refused. */
  ghost function Mix(rungs: seq<Rung>, ids: Target -> string, taken: seq<bool>): Target -> Answer
    requires |taken| == |rungs|
  {
    (t: Target) => if exists i :: 0 <= i < |rungs| && rungs[i].target == t && taken[i] then Placed(ids(t), Live)
                   else Refused(ids(t))
  }

  lemma MixAnswers(rungs: seq<Rung>, ids: Target -> string, taken: seq<bool>)
    requires Ascending(rungs) && |taken| == |rungs|
    ensures Answers(rungs, Mix(rungs, ids, taken)) == taken
  {
    forall i | 0 <= i < |rungs| ensures Mix(rungs, ids, taken)(rungs[i].target).Placed? == taken[i] {
      assert forall j :: 0 <= j < |rungs| && rungs[j].target == rungs[i].target ==> j == i;
    }
  }

  /** Whatever mix of the rungs is taken and refused, the second pass is quiet: exactly
      when no rung is ever cut by a whole order, which can be told before the first. */
  lemma QuietWhateverTheMixExactly(rows: Table, entry: Row, desk: Desk, now: int, balance: real, ids: Target -> string)
    requires entry.slug in desk.markets && RowsInBounds(rows) && !Closed(entry, desk, now)
    requires forall t <- desk.targets :: NoRow(rows, ids(t))
    requires forall t, u :: t in desk.targets && u in desk.targets && t != u ==> ids(t) != ids(u)
    ensures var rungs := RowPendings(rows, entry, desk);
            NeverCut(Pendings(rungs), Available(rows, entry, balance), desk.markets[entry.slug].minSize) <==>
            forall taken: seq<bool>, again: Reply :: |taken| == |rungs| && again.balance == balance ==>
              var first := RowPass(rows, entry, desk, now, Reply(balance, Mix(rungs, ids, taken)));
              RowPass(first.rows, entry, desk, now, again).offers == []
  {
    var minSize := desk.markets[entry.slug].minSize;
    var rungs := RowPendings(rows, entry, desk);
    var available := Available(rows, entry, balance);
    SettlesWhateverIsTakenExactly(Pendings(rungs), available, minSize);
    forall taken: seq<bool>, again: Reply | |taken| == |rungs| && again.balance == balance
      ensures var first := RowPass(rows, entry, desk, now, Reply(balance, Mix(rungs, ids, taken)));
              RowPass(first.rows, entry, desk, now, again).offers == [] <==>
              Settled(Pendings(rungs), available, minSize, taken)
    {
      MixSecondPass(rows, entry, desk, now, balance, ids, taken, again);
    }
    if !NeverCut(Pendings(rungs), available, minSize) {
      var taken := UnsettledMix(Pendings(rungs), available, minSize);
      var again := Reply(balance, Mix(rungs, ids, taken));
      assert RowPass(RowPass(rows, entry, desk, now, again).rows, entry, desk, now, again).offers != [];
    }
  }

  lemma MixSecondPass(rows: Table, entry: Row, desk: Desk, now: int, balance: real, ids: Target -> string,
                      taken: seq<bool>, again: Reply)
    requires entry.slug in desk.markets && RowsInBounds(rows) && !Closed(entry, desk, now)
    requires forall t <- desk.targets :: NoRow(rows, ids(t))
    requires forall t, u :: t in desk.targets && u in desk.targets && t != u ==> ids(t) != ids(u)
    requires |taken| == |RowPendings(rows, entry, desk)| && again.balance == balance
    ensures var rungs := RowPendings(rows, entry, desk);
            var first := RowPass(rows, entry, desk, now, Reply(balance, Mix(rungs, ids, taken)));
            RowPass(first.rows, entry, desk, now, again).offers == [] <==>
            Settled(Pendings(rungs), Available(rows, entry, balance), desk.markets[entry.slug].minSize, taken)
  {
    var rungs := RowPendings(rows, entry, desk);
    var answer := Mix(rungs, ids, taken);
    PendingExactly(rows, entry, desk.targets, desk.markets[entry.slug].minSize);
    MixAnswers(rungs, ids, taken);
    forall i | 0 <= i < |rungs| ensures rungs[i].target in desk.targets && answer(rungs[i].target).id == ids(rungs[i].target) {
      assert rungs[i] in rungs;
    }
    SecondPassIsQuietExactly(rows, entry, desk, now, now, Reply(balance, answer), again);
  }

  /** A balance that covers everything pending is never cut. */
  lemma {:induction false} CoveredIsNeverCut(pending: seq<real>, available: real, minSize: real)
    requires 0.0 < minSize && Sum(pending) <= available
    requires forall i :: 0 <= i < |pending| ==> 0.0 <= pending[i]
    ensures NeverCut(pending, available, minSize) && 0.0 <= Sum(pending)
    decreases |pending|
  {
    if pending != [] {
      SumNonNegative(pending[1..]);
      CoveredIsNeverCut(pending[1..], available, minSize);
      CoveredIsNeverCut(pending[1..], available - pending[0], minSize);
    }
  }

  // ----- A balance that covers everything

  function WholeOffers(rungs: seq<Rung>, answer: Target -> Answer): seq<Offer> {
    seq(|rungs|, i requires 0 <= i < |rungs| => Offer(rungs[i].target, rungs[i].pending, answer(rungs[i].target)))
  }

  /** With enough for them all, the first rung is offered whole, and there is enough left
      for the others. */
  lemma CoveredFirst(rows: Table, entry: Row, rungs: seq<Rung>, available: real, minSize: real, answer: Target -> Answer)
    requires Offerable(rows, entry, rungs, minSize, answer) && rungs != [] && Sum(Pendings(rungs)) <= available
    ensures minSize <= rungs[0].pending <= available && First(entry, rungs, available, answer).size == rungs[0].pending
    ensures Sum(Pendings(rungs[1..])) <= LeftByFirst(rungs, available, answer)
    ensures rungs[1..] != [] ==> minSize <= LeftByFirst(rungs, available, answer)
  {
    assert Pendings(rungs)[1..] == Pendings(rungs[1..]);
    SumNonNegative(Pendings(rungs[1..]));
    if rungs[1..] != [] { EachWithinSum(Pendings(rungs[1..])); }
  }

  /** So every rung of the ladder is offered whole, whichever of the orders are taken. */
  lemma {:induction false} CoveredOffers(rows: Table, entry: Row, rungs: seq<Rung>, available: real, minSize: real,
                                         answer: Target -> Answer)
    requires Offerable(rows, entry, rungs, minSize, answer) && Sum(Pendings(rungs)) <= available
    ensures Ladder(rows, entry, rungs, available, minSize, answer).offers == WholeOffers(rungs, answer)
    decreases |rungs|
  {
    if rungs != [] {
      var first := First(entry, rungs, available, answer);
      CoveredFirst(rows, entry, rungs, available, minSize, answer);
      AfterFirst(rows, entry, rungs, available, minSize, answer);
      assert WholeOffers(rungs, answer) == [first] + WholeOffers(rungs[1..], answer);
      if rungs[1..] != [] {
        CoveredOffers(AddOrder(rows, ExitRow(entry, first)), entry, rungs[1..], LeftByFirst(rungs, available, answer),
                      minSize, answer);
      }
    }
  }

  lemma {:induction false} CoveredLast(rows: Table, entry: Row, rungs: seq<Rung>, available: real, minSize: real,
                                       answer: Target -> Answer)
    requires Offerable(rows, entry, rungs, minSize, answer) && |rungs| == 1 && minSize <= rungs[0].pending <= available
    ensures Lacks(rows, Ladder(rows, entry, rungs, available, minSize, answer).rows, entry, rungs[0]) == 0.0
  {
    var placed := AddOrder(rows, ExitRow(entry, First(entry, rungs, available, answer)));
    FirstHandles(rows, entry, rungs, available, minSize, answer, entry.slug, entry.outcome, rungs[0].target.price);
    assert rungs[1..] == [];
    assert Ladder(rows, entry, rungs, available, minSize, answer).rows == placed;
  }

  lemma {:induction false} CoveredRest(rows: Table, entry: Row, rungs: seq<Rung>, available: real, minSize: real,
                                       answer: Target -> Answer, r: Rung)
    requires Offerable(rows, entry, rungs, minSize, answer) && r in rungs && 1 < |rungs|
    requires minSize <= rungs[0].pending <= available && minSize <= LeftByFirst(rungs, available, answer)
    requires var placed := AddOrder(rows, ExitRow(entry, First(entry, rungs, available, answer)));
             var after := Ladder(rows, entry, rungs, available, minSize, answer).rows;
             r in rungs[1..] ==> Lacks(placed, after, entry, r) == 0.0
    ensures Lacks(rows, Ladder(rows, entry, rungs, available, minSize, answer).rows, entry, r) == 0.0
  {
    var after := Ladder(rows, entry, rungs, available, minSize, answer).rows;
    if r in rungs[1..] {
      LaterLacks(rows, after, entry, rungs, available, minSize, answer, r);
    } else {
      assert rungs == [rungs[0]] + rungs[1..];
      FirstLacks(rows, entry, rungs, available, minSize, answer);
    }
  }

  /** And lacks nothing afterwards. */
  lemma {:induction false} CoveredLacks(rows: Table, entry: Row, rungs: seq<Rung>, available: real, minSize: real,
                                        answer: Target -> Answer, r: Rung)
    requires Offerable(rows, entry, rungs, minSize, answer) && Sum(Pendings(rungs)) <= available && r in rungs
    ensures Lacks(rows, Ladder(rows, entry, rungs, available, minSize, answer).rows, entry, r) == 0.0
    decreases |rungs|
  {
    CoveredFirst(rows, entry, rungs, available, minSize, answer);
    if |rungs| == 1 {
      CoveredLast(rows, entry, rungs, available, minSize, answer);
    } else {
      if r in rungs[1..] {
        AfterFirst(rows, entry, rungs, available, minSize, answer);
        CoveredLacks(AddOrder(rows, ExitRow(entry, First(entry, rungs, available, answer))), entry, rungs[1..],
                     LeftByFirst(rungs, available, answer), minSize, answer, r);
      }
      CoveredRest(rows, entry, rungs, available, minSize, answer, r);
    }
  }

  lemma {:induction false} EachWithinSum(sizes: seq<real>)
    requires sizes != [] && forall i :: 0 <= i < |sizes| ==> 0.0 <= sizes[i]
    ensures sizes[0] <= Sum(sizes)
  {
    SumNonNegative(sizes[1..]);
  }

  /** What the targets lack of their shares of the fill, together. */
  function Lacking(rows: Table, entry: Row, targets: seq<Target>): real {
    if targets == [] then 0.0
    else
      var t := targets[|targets| - 1];
      Lacking(rows, entry, targets[..|targets| - 1]) +
      Max(0.0, entry.matched * t.fraction - HandledSize(rows, entry.slug, entry.outcome, t.price))
  }

  lemma {:induction false} PendingsWithinLacking(rows: Table, entry: Row, targets: seq<Target>, minSize: real)
    requires 0.0 < minSize
    ensures Sum(Pendings(PendingRungs(rows, entry, targets, minSize))) <= Lacking(rows, entry, targets)
  {
    if targets != [] {
      var n := |targets| - 1;
      var before := PendingRungs(rows, entry, targets[..n], minSize);
      PendingsWithinLacking(rows, entry, targets[..n], minSize);
      var pending := PendingAt(rows, entry, targets[n]);
      assert Pendings(before + [Rung(targets[n], pending)]) == Pendings(before) + [pending];
      SumOfMore(Pendings(before), pending);
    }
  }

  /** The account holds enough, beyond what is on offer already, for all the entry lacks. */
  ghost predicate Covers(rows: Table, entry: Row, desk: Desk, balance: real) {
    Lacking(rows, entry, desk.targets) <= balance - ReservedSize(rows, entry.slug, entry.outcome)
  }

  lemma RowPassCovers(rows: Table, entry: Row, desk: Desk, now: int, reply: Reply)
    requires entry.slug in desk.markets && RowsInBounds(rows) && !Closed(entry, desk, now)
    requires OrdersRest(rows, RowPendings(rows, entry, desk), reply.answer) && Covers(rows, entry, desk, reply.balance)
    ensures var p := RowPass(rows, entry, desk, now, reply);
            && p.offers == WholeOffers(RowPendings(rows, entry, desk), reply.answer)
            && forall t <- desk.targets :: PendingAt(p.rows, entry, t) < desk.markets[entry.slug].minSize
  {
    var minSize, rungs := desk.markets[entry.slug].minSize, RowPendings(rows, entry, desk);
    var available, p := Available(rows, entry, reply.balance), RowPass(rows, entry, desk, now, reply);
    PendingExactly(rows, entry, desk.targets, minSize);
    if rungs != [] {
      PendingOfferable(rows, entry, desk, reply.answer);
      PendingsWithinLacking(rows, entry, desk.targets, minSize);
      EachWithinSum(Pendings(rungs));
      CoveredOffers(rows, entry, rungs, available, minSize, reply.answer);
      forall r <- rungs ensures Lacks(rows, p.rows, entry, r) < minSize {
        CoveredLacks(rows, entry, rungs, available, minSize, reply.answer, r);
      }
      PendingAfterExactly(rows, entry, desk, available, reply.answer);
    }
  }

  lemma {:induction false} NoExitsNoneHandled(rows: Table, slug: string, outcome: string, price: real)
    requires forall r <- rows :: !IsExit(r, slug, outcome)
    ensures HandledSize(rows, slug, outcome, price) == 0.0
  {
    if rows != [] {
      assert rows[|rows| - 1] in rows;
      NoExitsNoneHandled(rows[..|rows| - 1], slug, outcome, price);
    }
  }

  /** What a target lacks before anything is handled is its whole share. */
  lemma PendingIsTheShare(rows: Table, entry: Row, t: Target)
    requires forall r <- rows :: !IsExit(r, entry.slug, entry.outcome)
    ensures PendingAt(rows, entry, t) == entry.matched * t.fraction
  {
    NoExitsNoneHandled(rows, entry.slug, entry.outcome, t.price);
  }

  lemma PendingsAreOffered(rows: Table, entry: Row, desk: Desk, now: int, reply: Reply, t: Target)
    requires entry.slug in desk.markets && RowsInBounds(rows) && !Closed(entry, desk, now) && t in desk.targets
    requires OrdersRest(rows, RowPendings(rows, entry, desk), reply.answer) && Covers(rows, entry, desk, reply.balance)
    ensures var offers := RowPass(rows, entry, desk, now, reply).offers;
            && (forall o <- offers :: o.target == t ==> o.size == PendingAt(rows, entry, t))
            && (desk.markets[entry.slug].minSize <= PendingAt(rows, entry, t) ==>
                  Offer(t, PendingAt(rows, entry, t), reply.answer(t)) in offers)
  {
    var rungs, offers := RowPendings(rows, entry, desk), RowPass(rows, entry, desk, now, reply).offers;
    RowPassCovers(rows, entry, desk, now, reply);
    PendingMembers(rows, entry, desk.targets, desk.markets[entry.slug].minSize);
    forall o <- offers | o.target == t ensures o.size == PendingAt(rows, entry, t) {
      var i :| 0 <= i < |offers| && offers[i] == o;
      assert rungs[i] in rungs;
    }
    if desk.markets[entry.slug].minSize <= PendingAt(rows, entry, t) {
      var rung := Rung(t, PendingAt(rows, entry, t));
      assert rung in rungs;
      var i :| 0 <= i < |rungs| && rungs[i] == rung;
      assert offers[i] in offers;
    }
  }

  /** The first pass over an entry offers every target its whole share of the fill, when
      that makes an order and the account holds enough for all. */
  lemma WholeSharesAreOffered(rows: Table, entry: Row, desk: Desk, now: int, reply: Reply, t: Target)
    requires entry.slug in desk.markets && RowsInBounds(rows) && !Closed(entry, desk, now) && t in desk.targets
    requires OrdersRest(rows, RowPendings(rows, entry, desk), reply.answer) && Covers(rows, entry, desk, reply.balance)
    requires forall r <- rows :: !IsExit(r, entry.slug, entry.outcome)
    ensures var offers, share := RowPass(rows, entry, desk, now, reply).offers, entry.matched * t.fraction;
            && (forall o <- offers :: o.target == t ==> o.size == share)
            && (desk.markets[entry.slug].minSize <= share ==> Offer(t, share, reply.answer(t)) in offers)
  {
    PendingIsTheShare(rows, entry, t);
    PendingsAreOffered(rows, entry, desk, now, reply, t);
  }

  /** A table that shows the second pass need not be quiet: twenty shares filled, all of
      them to be sold at one target, ten of them in the account; the offer of those ten is
      refused, and the next pass offers ten again. */
  lemma ARefusedCutIsOfferedAgain(t: Target, entry: Row, desk: Desk, reply: Reply)
    requires t == Target(0.6, 1.0) && entry == Row("e", "m", "up", Entry, 0.5, 20.0, 20.0, Filled)
    requires desk.targets == [t] && desk.markets == map["m" := Market(300, 5.0)] && desk.cancelBefore == 0
    requires reply.balance == 10.0 && reply.answer(t) == Refused("failed")
    ensures var first := RowPass([entry], entry, desk, 0, reply);
            first.offers == [Offer(t, 10.0, Refused("failed"))]
            && RowPass(first.rows, entry, desk, 0, reply).offers != []
  {
    assert desk.targets[..0] == [] && [entry][..0] == [];
    assert HandledSize([entry], "m", "up", 0.6) == HandledSize([], "m", "up", 0.6);
    assert ReservedSize([entry], "m", "up") == ReservedSize([], "m", "up");
    assert PendingAt([entry], entry, t) == 20.0;
    assert PendingRungs([entry], entry, [], 5.0) == [];
    var rungs := RowPendings([entry], entry, desk);
    assert rungs == [Rung(t, 20.0)];
    assert rungs[1..] == [];
    assert Pendings(rungs) == [20.0] && Answers(rungs, reply.answer) == [false];
    assert [20.0][1..] == [] && [false][1..] == [];
    assert Left([20.0], 10.0, 5.0, [false]) == Left([], 10.0, 5.0, []);
    assert Available([entry], entry, 10.0) == 10.0;
    var placed := AddOrder([entry], ExitRow(entry, Offer(t, 10.0, Refused("failed"))));
    assert Ladder(placed, entry, rungs[1..], 10.0, 5.0, reply.answer) == Passed(placed, []);
    SecondPassIsQuietExactly([entry], entry, desk, 0, 0, reply, reply);
  }

  // ----- The whole pass made again

  lemma {:induction false} EntriesExactly(rows: Table, markets: map<string, Market>)
    ensures forall r :: r in EntriesWithFills(rows, markets) <==>
                        r in rows && r.role.Entry? && 0.0 < r.matched && r.slug in markets
  {
    if rows != [] {
      EntriesExactly(rows[..|rows| - 1], markets);
      assert rows == rows[..|rows| - 1] + [rows[|rows| - 1]];
    }
  }

  /** Of every entry's ladder in turn: its accepted exits rest and it settles. */
  ghost predicate AllSettle(rows: Table, entries: seq<Row>, desk: Desk, now: int, reply: Row -> Reply)
    requires forall r <- entries :: r.slug in desk.markets
    decreases |entries|
  {
    entries == [] ||
    var e := entries[0];
    && OrdersRest(rows, RowPendings(rows, e, desk), reply(e).answer)
    && RowSettles(rows, e, desk, reply(e))
    && AllSettle(RowPass(rows, e, desk, now, reply(e)).rows, entries[1..], desk, now, reply)
  }

  /** Nothing has been given back between two tables. */
  ghost predicate Grown(a: Table, b: Table) {
    && (forall slug, outcome, price :: HandledSize(a, slug, outcome, price) <= HandledSize(b, slug, outcome, price))
    && (forall slug, outcome :: ReservedSize(a, slug, outcome) <= ReservedSize(b, slug, outcome))
  }

  lemma RowPassGrows(rows: Table, entry: Row, desk: Desk, now: int, reply: Reply)
    requires entry.slug in desk.markets && RowsInBounds(rows)
    requires OrdersRest(rows, RowPendings(rows, entry, desk), reply.answer)
    ensures Grown(rows, RowPass(rows, entry, desk, now, reply).rows)
  {
    var minSize := desk.markets[entry.slug].minSize;
    var rungs := RowPendings(rows, entry, desk);
    var available := Available(rows, entry, reply.balance);
    PendingOfferable(rows, entry, desk, reply.answer);
    if minSize <= available {
      var after := Ladder(rows, entry, rungs, available, minSize, reply.answer).rows;
      forall slug, outcome, price ensures HandledSize(rows, slug, outcome, price) <= HandledSize(after, slug, outcome, price) {
        LadderGrows(rows, entry, rungs, available, minSize, reply.answer, slug, outcome, price);
      }
      forall slug, outcome ensures ReservedSize(rows, slug, outcome) <= ReservedSize(after, slug, outcome) {
        LadderKeepsReserved(rows, entry, rungs, available, minSize, reply.answer, slug, outcome);
      }
    }
  }

  lemma {:induction false} LadderInBounds(rows: Table, entry: Row, rungs: seq<Rung>, available: real, minSize: real,
                                          answer: Target -> Answer)
    requires RowsInBounds(rows) && 0.0 < minSize
    ensures RowsInBounds(Ladder(rows, entry, rungs, available, minSize, answer).rows)
    decreases |rungs|
  {
    if rungs != [] {
      var size := Min(rungs[0].pending, available);
      if size < minSize {
        LadderInBounds(rows, entry, rungs[1..], available, minSize, answer);
      } else {
        var offer := Offer(rungs[0].target, size, answer(rungs[0].target));
        WithoutRows(rows, offer.answer.id);
        LadderInBounds(AddOrder(rows, ExitRow(entry, offer)), entry, rungs[1..],
                       if offer.answer.Placed? then available - size else available, minSize, answer);
      }
    }
  }

  lemma IdleStays(a: Table, b: Table, entry: Row, desk: Desk, now: int, later: int, balance: real, less: real)
    requires entry.slug in desk.markets && Grown(a, b) && now <= later && less <= balance
    requires Idle(a, entry, desk, now, balance)
    ensures Idle(b, entry, desk, later, less)
  {
    assert ReservedSize(a, entry.slug, entry.outcome) <= ReservedSize(b, entry.slug, entry.outcome);
    forall t <- desk.targets ensures PendingAt(b, entry, t) <= PendingAt(a, entry, t) {
      assert HandledSize(a, entry.slug, entry.outcome, t.price) <= HandledSize(b, entry.slug, entry.outcome, t.price);
    }
  }

  lemma SettledLeavesIdle(rows: Table, e: Row, desk: Desk, now: int, reply: Reply)
    requires RowsInBounds(rows) && e.slug in desk.markets
    requires OrdersRest(rows, RowPendings(rows, e, desk), reply.answer) && RowSettles(rows, e, desk, reply)
    ensures var first := RowPass(rows, e, desk, now, reply).rows;
            RowsInBounds(first) && Grown(rows, first) && Idle(first, e, desk, now, reply.balance)
  {
    LadderInBounds(rows, e, RowPendings(rows, e, desk), Available(rows, e, reply.balance), desk.markets[e.slug].minSize,
                   reply.answer);
    RowPassGrows(rows, e, desk, now, reply);
    if !Closed(e, desk, now) { IdleAfterExactly(rows, e, desk, now, now, reply); }
  }

  lemma {:induction false} PassLeavesAllIdle(rows: Table, entries: seq<Row>, desk: Desk, now: int, reply: Row -> Reply)
    requires RowsInBounds(rows) && forall r <- entries :: r.slug in desk.markets
    requires AllSettle(rows, entries, desk, now, reply)
    ensures var after := PassOver(rows, entries, desk, now, reply).rows;
            Grown(rows, after) && forall r <- entries :: Idle(after, r, desk, now, reply(r).balance)
    decreases |entries|
  {
    if entries != [] {
      var e := entries[0];
      var first := RowPass(rows, e, desk, now, reply(e)).rows;
      var after := PassOver(rows, entries, desk, now, reply).rows;
      SettledLeavesIdle(rows, e, desk, now, reply(e));
      PassLeavesAllIdle(first, entries[1..], desk, now, reply);
      IdleStays(first, after, e, desk, now, now, reply(e).balance, reply(e).balance);
      GrownTwice(rows, first, after);
      assert entries == [e] + entries[1..];
    }
  }

  lemma GrownTwice(a: Table, b: Table, c: Table)
    requires Grown(a, b) && Grown(b, c)
    ensures Grown(a, c)
  {
    forall slug, outcome, price ensures HandledSize(a, slug, outcome, price) <= HandledSize(c, slug, outcome, price) {
      assert HandledSize(a, slug, outcome, price) <= HandledSize(b, slug, outcome, price);
    }
    forall slug, outcome ensures ReservedSize(a, slug, outcome) <= ReservedSize(c, slug, outcome) {
      assert ReservedSize(a, slug, outcome) <= ReservedSize(b, slug, outcome);
    }
  }

  lemma {:induction false} IdlePassDoesNothing(rows: Table, entries: seq<Row>, desk: Desk, now: int,
                                               reply: Row -> Reply)
    requires forall r <- entries :: r.slug in desk.markets && Idle(rows, r, desk, now, reply(r).balance)
    ensures PassOver(rows, entries, desk, now, reply) == Passed(rows, [])
    decreases |entries|
  {
    if entries != [] {
      OffersNothingExactly(rows, entries[0], desk, now, reply(entries[0]));
      IdlePassDoesNothing(rows, entries[1..], desk, now, reply);
    }
  }

  /** A whole pass whose ladders all settled leaves nothing for a second one to submit,
      whichever entries and outcomes share the table, at the same balances or lower. */
  lemma {:induction false} RepeatedPassDoesNothing(rows: Table, desk: Desk, now: int, reply: Row -> Reply, later: int,
                                                   again: Row -> Reply)
    requires Sound(rows, desk.targets) && forall r, t :: NoEntry(rows, reply(r).answer(t).id)
    requires AllSettle(rows, EntriesWithFills(rows, desk.markets), desk, now, reply)
    requires now <= later && forall r :: again(r).balance <= reply(r).balance
    ensures var after := Pass(rows, desk, now, reply).rows;
            Pass(after, desk, later, again) == Passed(after, [])
  {
    var entries := EntriesWithFills(rows, desk.markets);
    var after := Pass(rows, desk, now, reply).rows;
    PassLeavesAllIdle(rows, entries, desk, now, reply);
    PassKeeps(rows, entries, desk, now, reply);
    EntriesExactly(rows, desk.markets);
    EntriesExactly(after, desk.markets);
    forall r <- EntriesWithFills(after, desk.markets) ensures Idle(after, r, desk, later, again(r).balance) {
      assert r in entries;
      IdleStays(after, after, r, desk, now, later, reply(r).balance, again(r).balance);
    }
    IdlePassDoesNothing(after, EntriesWithFills(after, desk.markets), desk, later, again);
  }

  // ----- Entries of different outcomes

  /** Nothing of an outcome has changed between two tables. */
  ghost predicate Untouched(a: Table, b: Table, slug: string, outcome: string) {
    && ReservedSize(a, slug, outcome) == ReservedSize(b, slug, outcome)
    && forall price :: HandledSize(a, slug, outcome, price) == HandledSize(b, slug, outcome, price)
  }

  predicate SameOutcome(a: Row, b: Row) { a.slug == b.slug && a.outcome == b.outcome }

  ghost predicate OutcomesDiffer(entries: seq<Row>) {
    forall i, j :: 0 <= i < j < |entries| ==> !SameOutcome(entries[i], entries[j])
  }

  /** Every submission is given an id of its own, and the orders taken rest. */
  ghost predicate IdsApart(rows: Table, entries: seq<Row>, desk: Desk, reply: Row -> Reply) {
    && (forall e <- entries, t <- desk.targets ::
          NoRow(rows, reply(e).answer(t).id) && (reply(e).answer(t).Placed? ==> Active(reply(e).answer(t).status)))
    && (forall e <- entries, t <- desk.targets, f <- entries, u <- desk.targets ::
          (e != f || t != u) ==> reply(e).answer(t).id != reply(f).answer(u).id)
  }

  lemma {:induction false} LadderTouches(rows: Table, entry: Row, rungs: seq<Rung>, available: real, minSize: real,
                                         answer: Target -> Answer, slug: string, outcome: string)
    requires Offerable(rows, entry, rungs, minSize, answer) && minSize <= available
    requires slug != entry.slug || outcome != entry.outcome
    ensures Untouched(rows, Ladder(rows, entry, rungs, available, minSize, answer).rows, slug, outcome)
    decreases |rungs|
  {
    if rungs != [] {
      AfterFirst(rows, entry, rungs, available, minSize, answer);
      var placed := AddOrder(rows, ExitRow(entry, First(entry, rungs, available, answer)));
      var left := LeftByFirst(rungs, available, answer);
      FirstTouches(rows, entry, rungs, available, minSize, answer, slug, outcome);
      if minSize <= left {
        LadderTouches(placed, entry, rungs[1..], left, minSize, answer, slug, outcome);
        UntouchedTwice(rows, placed, Ladder(placed, entry, rungs[1..], left, minSize, answer).rows, slug, outcome);
      }
    }
  }

  lemma FirstTouches(rows: Table, entry: Row, rungs: seq<Rung>, available: real, minSize: real, answer: Target -> Answer,
                     slug: string, outcome: string)
    requires Offerable(rows, entry, rungs, minSize, answer) && rungs != [] && minSize <= available
    requires slug != entry.slug || outcome != entry.outcome
    ensures Untouched(rows, AddOrder(rows, ExitRow(entry, First(entry, rungs, available, answer))), slug, outcome)
  {
    var placed := AddOrder(rows, ExitRow(entry, First(entry, rungs, available, answer)));
    FirstReserves(rows, entry, rungs, available, minSize, answer, slug, outcome);
    forall price ensures HandledSize(rows, slug, outcome, price) == HandledSize(placed, slug, outcome, price) {
      FirstHandles(rows, entry, rungs, available, minSize, answer, slug, outcome, price);
    }
  }

  /** Ids the exchange did not give stay unused. */
  lemma {:induction false} LadderGivesIds(rows: Table, entry: Row, rungs: seq<Rung>, available: real, minSize: real,
                                          answer: Target -> Answer, id: string)
    requires NoRow(rows, id) && forall i :: 0 <= i < |rungs| ==> answer(rungs[i].target).id != id
    ensures NoRow(Ladder(rows, entry, rungs, available, minSize, answer).rows, id)
    decreases |rungs|
  {
    if rungs != [] {
      var size := Min(rungs[0].pending, available);
      if size < minSize {
        LadderGivesIds(rows, entry, rungs[1..], available, minSize, answer, id);
      } else {
        var offer := Offer(rungs[0].target, size, answer(rungs[0].target));
        WithoutRows(rows, offer.answer.id);
        LadderGivesIds(AddOrder(rows, ExitRow(entry, offer)), entry, rungs[1..],
                       if offer.answer.Placed? then available - size else available, minSize, answer, id);
      }
    }
  }

  lemma IdsRest(rows: Table, entries: seq<Row>, desk: Desk, reply: Row -> Reply, e: Row)
    requires IdsApart(rows, entries, desk, reply) && e in entries && e.slug in desk.markets
    ensures OrdersRest(rows, RowPendings(rows, e, desk), reply(e).answer)
    ensures forall r <- RowPendings(rows, e, desk) :: r.target in desk.targets
  {
    var rungs := RowPendings(rows, e, desk);
    PendingExactly(rows, e, desk.targets, desk.markets[e.slug].minSize);
    forall i | 0 <= i < |rungs| ensures rungs[i].target in desk.targets { assert rungs[i] in rungs; }
  }

  /** The first entry's part of a pass touches nothing of another outcome. */
  lemma FirstPassLeavesOthers(rows: Table, entries: seq<Row>, desk: Desk, now: int, reply: Row -> Reply,
                              slug: string, outcome: string)
    requires RowsInBounds(rows) && entries != [] && IdsApart(rows, entries, desk, reply)
    requires entries[0].slug in desk.markets && (slug != entries[0].slug || outcome != entries[0].outcome)
    ensures Untouched(rows, RowPass(rows, entries[0], desk, now, reply(entries[0])).rows, slug, outcome)
  {
    var e := entries[0];
    var minSize, available := desk.markets[e.slug].minSize, Available(rows, e, reply(e).balance);
    IdsRest(rows, entries, desk, reply, e);
    PendingOfferable(rows, e, desk, reply(e).answer);
    if minSize <= available {
      LadderTouches(rows, e, RowPendings(rows, e, desk), available, minSize, reply(e).answer, slug, outcome);
    }
  }

  lemma FirstPassGivesIds(rows: Table, entries: seq<Row>, desk: Desk, now: int, reply: Row -> Reply, id: string)
    requires entries != [] && entries[0].slug in desk.markets && NoRow(rows, id)
    requires forall t <- desk.targets :: reply(entries[0]).answer(t).id != id
    ensures NoRow(RowPass(rows, entries[0], desk, now, reply(entries[0])).rows, id)
  {
    var e := entries[0];
    var rungs := RowPendings(rows, e, desk);
    PendingExactly(rows, e, desk.targets, desk.markets[e.slug].minSize);
    forall i | 0 <= i < |rungs| ensures reply(e).answer(rungs[i].target).id != id { assert rungs[i] in rungs; }
    LadderGivesIds(rows, e, rungs, Available(rows, e, reply(e).balance), desk.markets[e.slug].minSize, reply(e).answer, id);
  }

  lemma FirstPassInBounds(rows: Table, entries: seq<Row>, desk: Desk, now: int, reply: Row -> Reply)
    requires RowsInBounds(rows) && entries != [] && entries[0].slug in desk.markets
    ensures RowsInBounds(RowPass(rows, entries[0], desk, now, reply(entries[0])).rows)
  {
    var e := entries[0];
    LadderInBounds(rows, e, RowPendings(rows, e, desk), Available(rows, e, reply(e).balance), desk.markets[e.slug].minSize,
                   reply(e).answer);
  }

  lemma {:induction false} UntouchedPendings(a: Table, b: Table, e: Row, targets: seq<Target>, minSize: real)
    requires Untouched(a, b, e.slug, e.outcome)
    ensures PendingRungs(a, e, targets, minSize) == PendingRungs(b, e, targets, minSize)
  {
    if targets != [] {
      var n := |targets| - 1;
      UntouchedPendings(a, b, e, targets[..n], minSize);
      assert HandledSize(a, e.slug, e.outcome, targets[n].price) == HandledSize(b, e.slug, e.outcome, targets[n].price);
    }
  }

  lemma UntouchedIdle(a: Table, b: Table, e: Row, desk: Desk, now: int, reply: Reply)
    requires e.slug in desk.markets && Untouched(a, b, e.slug, e.outcome)
    ensures Idle(a, e, desk, now, reply.balance) <==> Idle(b, e, desk, now, reply.balance)
    ensures RowSettles(a, e, desk, reply) <==> RowSettles(b, e, desk, reply)
  {
    UntouchedPendings(a, b, e, desk.targets, desk.markets[e.slug].minSize);
    forall t <- desk.targets ensures PendingAt(a, e, t) == PendingAt(b, e, t) {
      assert HandledSize(a, e.slug, e.outcome, t.price) == HandledSize(b, e.slug, e.outcome, t.price);
    }
  }

  lemma UntouchedTwice(a: Table, b: Table, c: Table, slug: string, outcome: string)
    requires Untouched(a, b, slug, outcome) && Untouched(b, c, slug, outcome)
    ensures Untouched(a, c, slug, outcome)
  {
    forall price ensures HandledSize(a, slug, outcome, price) == HandledSize(c, slug, outcome, price) {
      assert HandledSize(a, slug, outcome, price) == HandledSize(b, slug, outcome, price);
    }
  }

  lemma IdsApartAfterFirst(rows: Table, entries: seq<Row>, desk: Desk, now: int, reply: Row -> Reply)
    requires RowsInBounds(rows) && entries != [] && IdsApart(rows, entries, desk, reply) && OutcomesDiffer(entries)
    requires forall e <- entries :: e.slug in desk.markets
    ensures IdsApart(RowPass(rows, entries[0], desk, now, reply(entries[0])).rows, entries[1..], desk, reply)
  {
    var first := RowPass(rows, entries[0], desk, now, reply(entries[0])).rows;
    forall e <- entries[1..], t <- desk.targets ensures NoRow(first, reply(e).answer(t).id) {
      var i :| 1 <= i < |entries| && entries[i] == e;
      assert !SameOutcome(entries[0], entries[i]);
      forall u <- desk.targets ensures reply(entries[0]).answer(u).id != reply(e).answer(t).id {}
      FirstPassGivesIds(rows, entries, desk, now, reply, reply(e).answer(t).id);
    }
  }

  /** A pass over entries of different outcomes touches nothing of any other outcome. */
  lemma {:induction false} PassLeavesOthers(rows: Table, entries: seq<Row>, desk: Desk, now: int, reply: Row -> Reply,
                                            slug: string, outcome: string)
    requires RowsInBounds(rows) && IdsApart(rows, entries, desk, reply) && OutcomesDiffer(entries)
    requires forall e <- entries :: e.slug in desk.markets && (e.slug != slug || e.outcome != outcome)
    ensures Untouched(rows, PassOver(rows, entries, desk, now, reply).rows, slug, outcome)
    decreases |entries|
  {
    if entries != [] {
      var first := RowPass(rows, entries[0], desk, now, reply(entries[0])).rows;
      FirstPassLeavesOthers(rows, entries, desk, now, reply, slug, outcome);
      FirstPassInBounds(rows, entries, desk, now, reply);
      IdsApartAfterFirst(rows, entries, desk, now, reply);
      PassLeavesOthers(first, entries[1..], desk, now, reply, slug, outcome);
      UntouchedTwice(rows, first, PassOver(first, entries[1..], desk, now, reply).rows, slug, outcome);
    }
  }

  /** The rest of the pass leaves what the first entry's ladder did. */
  lemma {:induction false} RestLeavesFirst(rows: Table, entries: seq<Row>, desk: Desk, now: int, reply: Row -> Reply)
    requires RowsInBounds(rows) && IdsApart(rows, entries, desk, reply) && OutcomesDiffer(entries)
    requires entries != [] && forall e <- entries :: e.slug in desk.markets
    ensures Untouched(RowPass(rows, entries[0], desk, now, reply(entries[0])).rows,
                      PassOver(rows, entries, desk, now, reply).rows, entries[0].slug, entries[0].outcome)
  {
    var e := entries[0];
    forall f <- entries[1..] ensures f.slug != e.slug || f.outcome != e.outcome {
      var i :| 1 <= i < |entries| && entries[i] == f;
      assert !SameOutcome(entries[0], entries[i]);
    }
    FirstPassInBounds(rows, entries, desk, now, reply);
    IdsApartAfterFirst(rows, entries, desk, now, reply);
    PassLeavesOthers(RowPass(rows, e, desk, now, reply(e)).rows, entries[1..], desk, now, reply, e.slug, e.outcome);
  }

  lemma {:induction false} FirstIdleExactly(rows: Table, entries: seq<Row>, desk: Desk, now: int, later: int,
                                            reply: Row -> Reply)
    requires RowsInBounds(rows) && IdsApart(rows, entries, desk, reply) && OutcomesDiffer(entries)
    requires now <= later && entries != [] && forall e <- entries :: e.slug in desk.markets
    ensures Idle(PassOver(rows, entries, desk, now, reply).rows, entries[0], desk, later, reply(entries[0]).balance) <==>
            Closed(entries[0], desk, later) || RowSettles(rows, entries[0], desk, reply(entries[0]))
  {
    var e := entries[0];
    var first := RowPass(rows, e, desk, now, reply(e)).rows;
    IdsRest(rows, entries, desk, reply, e);
    if !Closed(e, desk, later) { IdleAfterExactly(rows, e, desk, now, later, reply(e)); }
    RestLeavesFirst(rows, entries, desk, now, reply);
    UntouchedIdle(first, PassOver(first, entries[1..], desk, now, reply).rows, e, desk, later, reply(e));
  }

  /** After a pass over entries of different outcomes, each is idle exactly when it is closed
      or its own ladder settled, on the table the pass started from. */
  lemma {:induction false} PassIdleExactly(rows: Table, entries: seq<Row>, desk: Desk, now: int, later: int,
                                           reply: Row -> Reply, k: nat)
    requires RowsInBounds(rows) && IdsApart(rows, entries, desk, reply) && OutcomesDiffer(entries)
    requires now <= later && k < |entries| && forall e <- entries :: e.slug in desk.markets
    ensures Idle(PassOver(rows, entries, desk, now, reply).rows, entries[k], desk, later, reply(entries[k]).balance) <==>
            Closed(entries[k], desk, later) || RowSettles(rows, entries[k], desk, reply(entries[k]))
    decreases |entries|
  {
    if k == 0 {
      FirstIdleExactly(rows, entries, desk, now, later, reply);
    } else {
      var e := entries[k];
      var first := RowPass(rows, entries[0], desk, now, reply(entries[0])).rows;
      assert !SameOutcome(entries[0], entries[k]);
      FirstPassInBounds(rows, entries, desk, now, reply);
      IdsApartAfterFirst(rows, entries, desk, now, reply);
      FirstPassLeavesOthers(rows, entries, desk, now, reply, e.slug, e.outcome);
      UntouchedIdle(rows, first, e, desk, later, reply(e));
      PassIdleExactly(first, entries[1..], desk, now, later, reply, k - 1);
    }
  }

  lemma {:induction false} UntouchedLacking(a: Table, b: Table, e: Row, targets: seq<Target>)
    requires Untouched(a, b, e.slug, e.outcome)
    ensures Lacking(a, e, targets) == Lacking(b, e, targets)
  {
    if targets != [] {
      var n := |targets| - 1;
      UntouchedLacking(a, b, e, targets[..n]);
      assert HandledSize(a, e.slug, e.outcome, targets[n].price) == HandledSize(b, e.slug, e.outcome, targets[n].price);
    }
  }

  lemma UntouchedShort(a: Table, b: Table, e: Row, targets: seq<Target>, minSize: real)
    requires Untouched(a, b, e.slug, e.outcome) && forall t <- targets :: PendingAt(a, e, t) < minSize
    ensures forall t <- targets :: PendingAt(b, e, t) < minSize
  {
    forall t <- targets ensures PendingAt(b, e, t) < minSize {
      assert HandledSize(a, e.slug, e.outcome, t.price) == HandledSize(b, e.slug, e.outcome, t.price);
    }
  }

  lemma {:induction false} PassCovers(rows: Table, entries: seq<Row>, desk: Desk, now: int, reply: Row -> Reply, k: nat)
    requires RowsInBounds(rows) && IdsApart(rows, entries, desk, reply) && OutcomesDiffer(entries)
    requires k < |entries| && forall e <- entries :: e.slug in desk.markets
    requires !Closed(entries[k], desk, now) && Covers(rows, entries[k], desk, reply(entries[k]).balance)
    ensures forall t <- desk.targets ::
              PendingAt(PassOver(rows, entries, desk, now, reply).rows, entries[k], t) < desk.markets[entries[k].slug].minSize
    decreases |entries|
  {
    var e, first := entries[k], RowPass(rows, entries[0], desk, now, reply(entries[0])).rows;
    if k == 0 {
      IdsRest(rows, entries, desk, reply, e);
      RowPassCovers(rows, e, desk, now, reply(e));
      RestLeavesFirst(rows, entries, desk, now, reply);
      UntouchedShort(first, PassOver(rows, entries, desk, now, reply).rows, e, desk.targets, desk.markets[e.slug].minSize);
    } else {
      assert !SameOutcome(entries[0], entries[k]);
      FirstPassInBounds(rows, entries, desk, now, reply);
      IdsApartAfterFirst(rows, entries, desk, now, reply);
      FirstPassLeavesOthers(rows, entries, desk, now, reply, e.slug, e.outcome);
      UntouchedLacking(rows, first, e, desk.targets);
      PassCovers(first, entries[1..], desk, now, reply, k - 1);
    }
  }

  lemma {:induction false} PassCoversEntry(rows: Table, desk: Desk, now: int, reply: Row -> Reply, e: Row, t: Target)
    requires RowsInBounds(rows) && t in desk.targets
    requires var entries := EntriesWithFills(rows, desk.markets);
             OutcomesDiffer(entries) && IdsApart(rows, entries, desk, reply) && e in entries
    requires !Closed(e, desk, now) && Covers(rows, e, desk, reply(e).balance)
    ensures PendingAt(Pass(rows, desk, now, reply).rows, e, t) < desk.markets[e.slug].minSize
  {
    var entries := EntriesWithFills(rows, desk.markets);
    var k :| 0 <= k < |entries| && entries[k] == e;
    PassCovers(rows, entries, desk, now, reply, k);
  }

  lemma ShareShort(rows: Table, e: Row, t: Target, minSize: real)
    requires PendingAt(rows, e, t) < minSize
    ensures e.matched * t.fraction - HandledSize(rows, e.slug, e.outcome, t.price) < minSize
  {}

  /** A pass leaves nothing unsold that could be offered: where each filled entry is of an
      outcome of its own, every target of an open one that the account holds enough for
      ends with less than an order missing of its share of the fill, whichever of the
      orders are taken. */
  lemma {:induction false} NoShareIsLeftOut(rows: Table, desk: Desk, now: int, reply: Row -> Reply, e: Row, t: Target)
    requires RowsInBounds(rows) && t in desk.targets
    requires var entries := EntriesWithFills(rows, desk.markets);
             OutcomesDiffer(entries) && IdsApart(rows, entries, desk, reply) && e in entries
    requires now < desk.markets[e.slug].endTs - desk.cancelBefore && Covers(rows, e, desk, reply(e).balance)
    ensures e.matched * t.fraction - HandledSize(Pass(rows, desk, now, reply).rows, e.slug, e.outcome, t.price) <
            desk.markets[e.slug].minSize
  {
    PassCoversEntry(rows, desk, now, reply, e, t);
    ShareShort(Pass(rows, desk, now, reply).rows, e, t, desk.markets[e.slug].minSize);
  }

  /** A pass submits nothing exactly when every entry is idle. */
  lemma {:induction false} QuietPassExactly(rows: Table, entries: seq<Row>, desk: Desk, now: int, reply: Row -> Reply)
    requires forall r <- entries :: r.slug in desk.markets
    ensures PassOver(rows, entries, desk, now, reply).offers == [] <==>
            forall r <- entries :: Idle(rows, r, desk, now, reply(r).balance)
    decreases |entries|
  {
    if entries != [] {
      OffersNothingExactly(rows, entries[0], desk, now, reply(entries[0]));
      QuietPassExactly(rows, entries[1..], desk, now, reply);
      assert entries == [entries[0]] + entries[1..];
    }
  }

  /** When every filled entry is of an outcome of its own, the whole pass made again submits
      nothing exactly when the ladder of every entry still open had settled, which the
      table, the balances and the answers of the first pass decide. */
  lemma {:induction false} RepeatedPassIsQuietExactly(rows: Table, desk: Desk, now: int, reply: Row -> Reply,
                                                      later: int, again: Row -> Reply)
    requires Sound(rows, desk.targets) && forall r, t :: NoEntry(rows, reply(r).answer(t).id)
    requires var entries := EntriesWithFills(rows, desk.markets);
             OutcomesDiffer(entries) && IdsApart(rows, entries, desk, reply)
    requires now <= later && forall r :: again(r).balance == reply(r).balance
    ensures Pass(Pass(rows, desk, now, reply).rows, desk, later, again).offers == [] <==>
            forall r <- EntriesWithFills(rows, desk.markets) ::
              Closed(r, desk, later) || RowSettles(rows, r, desk, reply(r))
  {
    var entries := EntriesWithFills(rows, desk.markets);
    var after := Pass(rows, desk, now, reply).rows;
    var entriesAfter := EntriesWithFills(after, desk.markets);
    PassKeeps(rows, entries, desk, now, reply);
    EntriesExactly(rows, desk.markets);
    EntriesExactly(after, desk.markets);
    forall r <- entries
      ensures r in entriesAfter
      ensures Idle(after, r, desk, later, again(r).balance) <==> Closed(r, desk, later) || RowSettles(rows, r, desk, reply(r))
    {
      var k :| 0 <= k < |entries| && entries[k] == r;
      PassIdleExactly(rows, entries, desk, now, later, reply, k);
    }
    QuietPassExactly(after, entriesAfter, desk, later, again);
  }
}
