/** The take-profit ladder (polymarket_bot/service.py): every pass offers, for each entry
    order with fills, the rungs of the plan that are not handled yet. */
module ExitLadder {
  import opened OrderTable
  import opened Reals

  datatype Target = Target(price: real, fraction: real)

  /** What a pass reads off the market's row. */
  datatype Market = Market(endTs: int, minSize: real)

  /** What one submission comes to: an order the venue took or was found to hold, or a
      failure, which is recorded under an id of its own. */
  datatype Answer = Placed(id: string, status: Status) | Refused(id: string)

  /** What the exchange answers one entry row with. */
  datatype Reply = Reply(balance: real, answer: Target -> Answer)

  datatype Rung = Rung(target: Target, pending: real)

  datatype Offer = Offer(target: Target, size: real, answer: Answer)

  /** The table after some submissions, and the submissions in order. */
  datatype Passed = Passed(rows: Table, offers: seq<Offer>)

  function Shares(targets: seq<Target>): real {
    if targets == [] then 0.0 else Shares(targets[..|targets| - 1]) + targets[|targets| - 1].fraction
  }

  ghost predicate ValidTargets(targets: seq<Target>) {
    && (forall i, j :: 0 <= i < j < |targets| ==> targets[i].price < targets[j].price)
    && (forall t <- targets :: 0.0 < t.fraction <= 1.0)
    && Shares(targets) <= 1.0
  }

  /** What does not change over a run: the plan's targets, the markets and the time before
      a market's end from which nothing is offered any more. */
  datatype Settings = Settings(targets: seq<Target>, markets: map<string, Market>, cancelBefore: int)

  ghost predicate ValidSettings(s: Settings) {
    ValidTargets(s.targets) && forall slug <- s.markets :: 0.0 < s.markets[slug].minSize
  }

  type Desk = s: Settings | ValidSettings(s) witness Settings([], map[], 0)

  // ----- One pass

  function PendingAt(rows: Table, entry: Row, t: Target): real {
    entry.matched * t.fraction - HandledSize(rows, entry.slug, entry.outcome, t.price)
  }

  function PendingRungs(rows: Table, entry: Row, targets: seq<Target>, minSize: real): seq<Rung> {
    if targets == [] then []
    else
      var t, before := targets[|targets| - 1], PendingRungs(rows, entry, targets[..|targets| - 1], minSize);
      if minSize <= PendingAt(rows, entry, t) then before + [Rung(t, PendingAt(rows, entry, t))] else before
  }

  function ExitRow(entry: Row, o: Offer): Row {
    Row(o.answer.id, entry.slug, entry.outcome, Exit, o.target.price, o.size, 0.0,
        if o.answer.Placed? then o.answer.status else Failed)
  }

  function Ladder(rows: Table, entry: Row, rungs: seq<Rung>, available: real, minSize: real,
                  answer: Target -> Answer): Passed
    decreases |rungs|
  {
    if rungs == [] then Passed(rows, [])
    else
      var size := Min(rungs[0].pending, available);
      if size < minSize then Ladder(rows, entry, rungs[1..], available, minSize, answer)
      else
        var offer := Offer(rungs[0].target, size, answer(rungs[0].target));
        var placed := AddOrder(rows, ExitRow(entry, offer));
        var left := if offer.answer.Placed? then available - size else available;
        if left < minSize then Passed(placed, [offer])
        else Then([offer], Ladder(placed, entry, rungs[1..], left, minSize, answer))
  }

  function Then(offers: seq<Offer>, p: Passed): Passed { p.(offers := offers + p.offers) }

  lemma ThenThen(a: seq<Offer>, b: seq<Offer>, p: Passed)
    ensures Then(a, Then(b, p)) == Then(a + b, p)
  {
    assert a + (b + p.offers) == a + b + p.offers;
  }

  function Available(rows: Table, entry: Row, balance: real): real {
    Max(0.0, balance - ReservedSize(rows, entry.slug, entry.outcome))
  }

  function RowPass(rows: Table, entry: Row, desk: Desk, now: int, reply: Reply): Passed
    requires entry.slug in desk.markets
  {
    var market := desk.markets[entry.slug];
    var pending := PendingRungs(rows, entry, desk.targets, market.minSize);
    var available := Available(rows, entry, reply.balance);
    if market.endTs - desk.cancelBefore <= now || pending == [] || available < market.minSize then Passed(rows, [])
    else Ladder(rows, entry, pending, available, market.minSize, reply.answer)
  }

  function EntriesWithFills(rows: Table, markets: map<string, Market>): (entries: seq<Row>)
    ensures forall r <- entries :: r in rows && r.role.Entry? && 0.0 < r.matched && r.slug in markets
  {
    if rows == [] then []
    else
      var last, before := rows[|rows| - 1], EntriesWithFills(rows[..|rows| - 1], markets);
      if last.role.Entry? && 0.0 < last.matched && last.slug in markets then before + [last] else before
  }

  /** The entries are read once; the table changes as the pass goes through them. */
  function PassOver(rows: Table, entries: seq<Row>, desk: Desk, now: int, reply: Row -> Reply): Passed
    requires forall r <- entries :: r.slug in desk.markets
    decreases |entries|
  {
    if entries == [] then Passed(rows, [])
    else
      var first := RowPass(rows, entries[0], desk, now, reply(entries[0]));
      Then(first.offers, PassOver(first.rows, entries[1..], desk, now, reply))
  }

  function Pass(rows: Table, desk: Desk, now: int, reply: Row -> Reply): Passed {
    PassOver(rows, EntriesWithFills(rows, desk.markets), desk, now, reply)
  }

  /** The database handle the service places its exits through. */
  class Service {
    var rows: Table

    constructor (rows: Table)
      ensures this.rows == rows
    {
      this.rows := rows;
    }

    /** Submits one rung and writes down what came of it. */
    method PlaceExitRung(entry: Row, target: Target, size: real, answer: Answer) returns (placed: bool)
      modifies this
      ensures placed == answer.Placed?
      ensures rows == AddOrder(old(rows), ExitRow(entry, Offer(target, size, answer)))
    {
      rows := AddOrder(rows, ExitRow(entry, Offer(target, size, answer)));
      placed := answer.Placed?;
    }

    method PlaceLadder(entry: Row, rungs: seq<Rung>, available: real, minSize: real, answer: Target -> Answer)
      returns (offers: seq<Offer>)
      modifies this
      ensures Passed(rows, offers) == Ladder(old(rows), entry, rungs, available, minSize, answer)
    {
      offers := [];
      var left, i := available, 0;
      ghost var whole := Ladder(rows, entry, rungs, available, minSize, answer);
      while i < |rungs|
        invariant 0 <= i <= |rungs|
        invariant whole == Then(offers, Ladder(rows, entry, rungs[i..], left, minSize, answer))
      {
        var rung := rungs[i];
        var size := Min(rung.pending, left);
        assert rungs[i..][1..] == rungs[i + 1..];
        if minSize <= size {
          var placed := PlaceExitRung(entry, rung.target, size, answer(rung.target));
          ghost var before := offers;
          offers := offers + [Offer(rung.target, size, answer(rung.target))];
          if placed {
            left := left - size;
          }
          if left < minSize {
            return;
          }
          ThenThen(before, [offers[|before|]], Ladder(rows, entry, rungs[i + 1..], left, minSize, answer));
        }
        i := i + 1;
      }
    }

    method PlaceRowExits(entry: Row, desk: Desk, now: int, reply: Reply) returns (offers: seq<Offer>)
      requires entry.slug in desk.markets
      modifies this
      ensures Passed(rows, offers) == RowPass(old(rows), entry, desk, now, reply)
    {
      offers := [];
      var market := desk.markets[entry.slug];
      if now < market.endTs - desk.cancelBefore {
        var pending := PendingRungs(rows, entry, desk.targets, market.minSize);
        if pending != [] {
          var available := Available(rows, entry, reply.balance);
          if market.minSize <= available {
            offers := PlaceLadder(entry, pending, available, market.minSize, reply.answer);
          }
        }
      }
    }

    /** One pass over the entries with fills. */
    method PlaceMissingExits(desk: Desk, now: int, reply: Row -> Reply) returns (offers: seq<Offer>)
      modifies this
      ensures Passed(rows, offers) == Pass(old(rows), desk, now, reply)
    {
      offers := [];
      var entries := EntriesWithFills(rows, desk.markets);
      ghost var whole := PassOver(rows, entries, desk, now, reply);
      for i := 0 to |entries|
        invariant whole == Then(offers, PassOver(rows, entries[i..], desk, now, reply))
      {
        assert entries[i..][1..] == entries[i + 1..];
        var made := PlaceRowExits(entries[i], desk, now, reply(entries[i]));
        ThenThen(offers, made, PassOver(rows, entries[i + 1..], desk, now, reply));
        offers := offers + made;
      }
    }
  }

  // ----- What is pending

  ghost predicate Ascending(rungs: seq<Rung>) {
    forall i, j :: 0 <= i < j < |rungs| ==> rungs[i].target.price < rungs[j].target.price
  }

  lemma {:induction false} PendingMembers(rows: Table, entry: Row, targets: seq<Target>, minSize: real)
    ensures forall r :: r in PendingRungs(rows, entry, targets, minSize) <==>
                        r.target in targets && r.pending == PendingAt(rows, entry, r.target) && minSize <= r.pending
  {
    if targets != [] {
      var n := |targets| - 1;
      PendingMembers(rows, entry, targets[..n], minSize);
      assert targets == targets[..n] + [targets[n]];
    }
  }

  lemma {:induction false} PendingAscends(rows: Table, entry: Row, targets: seq<Target>, minSize: real)
    requires forall i, j :: 0 <= i < j < |targets| ==> targets[i].price < targets[j].price
    ensures Ascending(PendingRungs(rows, entry, targets, minSize))
  {
    if targets != [] {
      var n := |targets| - 1;
      var before := PendingRungs(rows, entry, targets[..n], minSize);
      PendingAscends(rows, entry, targets[..n], minSize);
      PendingMembers(rows, entry, targets[..n], minSize);
      forall i | 0 <= i < |before| ensures before[i].target.price < targets[n].price {
        assert before[i] in before;
        var k :| 0 <= k < n && targets[k] == before[i].target;
      }
    }
  }

  /** Exactly the targets that still lack a whole order are pending, in the plan's order,
      each with what it lacks. */
  lemma {:induction false} PendingExactly(rows: Table, entry: Row, targets: seq<Target>, minSize: real)
    requires forall i, j :: 0 <= i < j < |targets| ==> targets[i].price < targets[j].price
    ensures var rungs := PendingRungs(rows, entry, targets, minSize);
            && (forall r <- rungs :: r.target in targets && r.pending == PendingAt(rows, entry, r.target) >= minSize)
            && (forall t <- targets :: minSize <= PendingAt(rows, entry, t) ==> Rung(t, PendingAt(rows, entry, t)) in rungs)
            && Ascending(rungs)
  {
    PendingMembers(rows, entry, targets, minSize);
    PendingAscends(rows, entry, targets, minSize);
  }

  lemma OnePrice(targets: seq<Target>, a: Target, b: Target)
    requires ValidTargets(targets) && a in targets && b in targets && a.price == b.price
    ensures a == b
  {
    var i :| 0 <= i < |targets| && targets[i] == a;
    var j :| 0 <= j < |targets| && targets[j] == b;
  }

  // ----- What one submission does to the sizes

  predicate OnPlan(price: real, targets: seq<Target>) { exists t <- targets :: t.price == price }

  ghost predicate SoundRows(rows: Table, targets: seq<Target>) {
    forall r <- rows :: 0.0 <= r.matched && (r.role.Exit? ==> r.matched <= r.size && OnPlan(r.price, targets))
  }

  ghost predicate NoEntry(rows: Table, id: string) { forall r <- rows :: r.role.Entry? ==> r.id != id }

  ghost predicate SameEntries(a: Table, b: Table) {
    forall r: Row :: r.role.Entry? ==> (r in a <==> r in b)
  }

  lemma PlacingKeepsEntries(rows: Table, order: Row)
    requires order.role.Exit? && NoEntry(rows, order.id)
    ensures SameEntries(rows, AddOrder(rows, order))
  {
    WithoutRows(rows, order.id);
  }

  lemma {:induction false} SameEntriesSameBest(a: Table, b: Table, weight: Row -> real)
    requires SameEntries(a, b) && forall r: Row :: r.role.Exit? ==> weight(r) == 0.0
    ensures Best(a, weight) == Best(b, weight)
  {
    BestGrows(a, b, weight);
    BestGrows(b, a, weight);
  }

  lemma PlacingSoundRow(rows: Table, targets: seq<Target>, entry: Row, o: Offer)
    requires SoundRows(rows, targets) && o.target in targets && 0.0 <= o.size
    ensures SoundRows(AddOrder(rows, ExitRow(entry, o)), targets)
  {
    WithoutRows(rows, o.answer.id);
    assert OnPlan(o.target.price, targets);
  }

  ghost predicate NoRow(rows: Table, id: string) { forall r <- rows :: r.id != id }

  lemma PlacingAdds(rows: Table, targets: seq<Target>, entry: Row, o: Offer, slug: string, outcome: string, price: real)
    requires SoundRows(rows, targets) && 0.0 <= o.size
    ensures var placed := AddOrder(rows, ExitRow(entry, o));
            var more := if slug == entry.slug && outcome == entry.outcome && price == o.target.price then o.size else 0.0;
            && HandledSize(placed, slug, outcome, price) <= HandledSize(rows, slug, outcome, price) + more
            && (NoRow(rows, o.answer.id) && (o.answer.Placed? ==> Active(o.answer.status)) ==>
                  HandledSize(placed, slug, outcome, price) == HandledSize(rows, slug, outcome, price) + more)
  {
    AddTotal(rows, ExitRow(entry, o), HandledAt(slug, outcome, price));
  }

  lemma PlacingReserves(rows: Table, entry: Row, o: Offer, slug: string, outcome: string)
    requires 0.0 <= o.size
    ensures var placed := AddOrder(rows, ExitRow(entry, o));
            var more := if slug == entry.slug && outcome == entry.outcome && o.answer.Placed? then o.size else 0.0;
            && ReservedSize(placed, slug, outcome) <= ReservedSize(rows, slug, outcome) + more
            && (NoRow(rows, o.answer.id) && (o.answer.Placed? ==> Active(o.answer.status)) ==>
                  ReservedSize(placed, slug, outcome) == ReservedSize(rows, slug, outcome) + more)
  {
    AddTotal(rows, ExitRow(entry, o), ReservedBy(slug, outcome));
  }

  // ----- No rung is offered beyond its share of the fill

  function DesiredBy(slug: string, outcome: string, t: Target): Row -> real {
    (r: Row) => if IsEntry(r, slug, outcome) then r.matched * t.fraction else 0.0
  }

  /** The most any one entry order of the outcome wants sold at the target. */
  function Cap(rows: Table, slug: string, outcome: string, t: Target): real {
    Best(rows, DesiredBy(slug, outcome, t))
  }

  lemma PlacingKeepsCap(rows: Table, order: Row, slug: string, outcome: string, t: Target)
    requires order.role.Exit? && NoEntry(rows, order.id)
    ensures Cap(AddOrder(rows, order), slug, outcome, t) == Cap(rows, slug, outcome, t)
  {
    PlacingKeepsEntries(rows, order);
    SameEntriesSameBest(rows, AddOrder(rows, order), DesiredBy(slug, outcome, t));
  }

  ghost predicate WithinShares(rows: Table, targets: seq<Target>) {
    forall slug, outcome, t :: t in targets ==> HandledSize(rows, slug, outcome, t.price) <= Cap(rows, slug, outcome, t)
  }

  ghost predicate Sound(rows: Table, targets: seq<Target>) {
    SoundRows(rows, targets) && WithinShares(rows, targets)
  }

  ghost predicate Fits(rows: Table, entry: Row, r: Rung) {
    HandledSize(rows, entry.slug, entry.outcome, r.target.price) + r.pending <= Cap(rows, entry.slug, entry.outcome, r.target)
  }

  lemma PlacingFits(rows: Table, targets: seq<Target>, entry: Row, o: Offer, pending: real,
                    slug: string, outcome: string, t: Target)
    requires ValidTargets(targets) && Sound(rows, targets) && o.target in targets && t in targets
    requires 0.0 <= o.size <= pending && Fits(rows, entry, Rung(o.target, pending)) && NoEntry(rows, o.answer.id)
    ensures var placed := AddOrder(rows, ExitRow(entry, o));
            HandledSize(placed, slug, outcome, t.price) <= Cap(placed, slug, outcome, t)
  {
    var placed := AddOrder(rows, ExitRow(entry, o));
    PlacingAdds(rows, targets, entry, o, slug, outcome, t.price);
    PlacingKeepsCap(rows, ExitRow(entry, o), slug, outcome, t);
    var before, after := HandledSize(rows, slug, outcome, t.price), HandledSize(placed, slug, outcome, t.price);
    assert before <= Cap(rows, slug, outcome, t);
    if slug == entry.slug && outcome == entry.outcome && t.price == o.target.price {
      OnePrice(targets, t, o.target);
      assert after <= before + o.size;
    } else {
      assert after <= before;
    }
  }

  lemma PlacingKeepsSound(rows: Table, targets: seq<Target>, entry: Row, o: Offer, pending: real)
    requires ValidTargets(targets) && Sound(rows, targets) && o.target in targets
    requires 0.0 <= o.size <= pending && Fits(rows, entry, Rung(o.target, pending)) && NoEntry(rows, o.answer.id)
    ensures Sound(AddOrder(rows, ExitRow(entry, o)), targets)
  {
    forall slug, outcome, t | t in targets
      ensures HandledSize(AddOrder(rows, ExitRow(entry, o)), slug, outcome, t.price) <=
              Cap(AddOrder(rows, ExitRow(entry, o)), slug, outcome, t)
    {
      PlacingFits(rows, targets, entry, o, pending, slug, outcome, t);
    }
    PlacingSoundRow(rows, targets, entry, o);
  }

  lemma PlacingElsewhere(rows: Table, targets: seq<Target>, entry: Row, o: Offer, rung: Rung)
    requires SoundRows(rows, targets) && o.target in targets && 0.0 <= o.size && NoEntry(rows, o.answer.id)
    requires rung.target.price != o.target.price && Fits(rows, entry, rung)
    ensures Fits(AddOrder(rows, ExitRow(entry, o)), entry, rung)
  {
    PlacingAdds(rows, targets, entry, o, entry.slug, entry.outcome, rung.target.price);
    PlacingKeepsCap(rows, ExitRow(entry, o), entry.slug, entry.outcome, rung.target);
  }

  ghost predicate RungsFit(rows: Table, targets: seq<Target>, entry: Row, rungs: seq<Rung>) {
    Ascending(rungs) && forall i :: 0 <= i < |rungs| ==> rungs[i].target in targets && Fits(rows, entry, rungs[i])
  }

  lemma PlacingKeepsRungs(rows: Table, targets: seq<Target>, entry: Row, o: Offer, rungs: seq<Rung>)
    requires SoundRows(rows, targets) && 0.0 <= o.size && NoEntry(rows, o.answer.id)
    requires RungsFit(rows, targets, entry, rungs) && rungs != [] && o.target == rungs[0].target
    ensures RungsFit(AddOrder(rows, ExitRow(entry, o)), targets, entry, rungs[1..])
  {
    forall i | 1 <= i < |rungs| ensures Fits(AddOrder(rows, ExitRow(entry, o)), entry, rungs[i]) {
      PlacingElsewhere(rows, targets, entry, o, rungs[i]);
    }
  }

  lemma {:induction false} LadderKeeps(rows: Table, targets: seq<Target>, entry: Row, rungs: seq<Rung>, available: real,
                                       minSize: real, answer: Target -> Answer)
    requires ValidTargets(targets) && Sound(rows, targets) && 0.0 < minSize
    requires RungsFit(rows, targets, entry, rungs) && forall t :: NoEntry(rows, answer(t).id)
    ensures var after := Ladder(rows, entry, rungs, available, minSize, answer).rows;
            Sound(after, targets) && SameEntries(rows, after)
    decreases |rungs|
  {
    if rungs != [] {
      var r := rungs[0];
      var size := Min(r.pending, available);
      if size < minSize {
        LadderKeeps(rows, targets, entry, rungs[1..], available, minSize, answer);
      } else {
        var offer := Offer(r.target, size, answer(r.target));
        var placed := AddOrder(rows, ExitRow(entry, offer));
        PlacingKeepsSound(rows, targets, entry, offer, r.pending);
        PlacingKeepsEntries(rows, ExitRow(entry, offer));
        PlacingKeepsRungs(rows, targets, entry, offer, rungs);
        var left := if offer.answer.Placed? then available - size else available;
        LadderKeeps(placed, targets, entry, rungs[1..], left, minSize, answer);
      }
    }
  }

  lemma ShareGrows(a: real, b: real, fraction: real)
    requires a <= b && 0.0 <= fraction
    ensures a * fraction <= b * fraction
  {}

  /** The entry row read at the start of a pass is still in the table, so what it lacks is
      at most what its rung may still take. */
  lemma {:induction false} PendingFits(rows: Table, targets: seq<Target>, entry: Row, minSize: real)
    requires ValidTargets(targets) && entry in rows && entry.role.Entry?
    ensures RungsFit(rows, targets, entry, PendingRungs(rows, entry, targets, minSize))
  {
    var rungs := PendingRungs(rows, entry, targets, minSize);
    PendingExactly(rows, entry, targets, minSize);
    forall i | 0 <= i < |rungs| ensures rungs[i].target in targets && Fits(rows, entry, rungs[i]) {
      assert rungs[i] in rungs;
      EntryFits(rows, entry, rungs[i]);
    }
  }

  lemma EntryFits(rows: Table, entry: Row, r: Rung)
    requires entry in rows && entry.role.Entry? && r.pending == PendingAt(rows, entry, r.target)
    ensures Fits(rows, entry, r)
  {
    BestBounds(rows, DesiredBy(entry.slug, entry.outcome, r.target));
    assert DesiredBy(entry.slug, entry.outcome, r.target)(entry) <= Cap(rows, entry.slug, entry.outcome, r.target);
  }

  lemma RowPassKeeps(rows: Table, desk: Desk, entry: Row, now: int, reply: Reply)
    requires Sound(rows, desk.targets) && entry.slug in desk.markets && entry in rows && entry.role.Entry?
    requires forall t :: NoEntry(rows, reply.answer(t).id)
    ensures var after := RowPass(rows, entry, desk, now, reply).rows;
            Sound(after, desk.targets) && SameEntries(rows, after)
  {
    var minSize := desk.markets[entry.slug].minSize;
    PendingFits(rows, desk.targets, entry, minSize);
    LadderKeeps(rows, desk.targets, entry, PendingRungs(rows, entry, desk.targets, minSize),
                Available(rows, entry, reply.balance), minSize, reply.answer);
  }

  lemma {:induction false} PassKeeps(rows: Table, entries: seq<Row>, desk: Desk, now: int, reply: Row -> Reply)
    requires Sound(rows, desk.targets)
    requires forall r <- entries :: r in rows && r.role.Entry? && r.slug in desk.markets
    requires forall r, t :: NoEntry(rows, reply(r).answer(t).id)
    ensures var after := PassOver(rows, entries, desk, now, reply).rows;
            Sound(after, desk.targets) && SameEntries(rows, after)
    decreases |entries|
  {
    if entries != [] {
      RowPassKeeps(rows, desk, entries[0], now, reply(entries[0]));
      PassKeeps(RowPass(rows, entries[0], desk, now, reply(entries[0])).rows, entries[1..], desk, now, reply);
    }
  }

  // ----- Whole runs

  /** An event of a run: an entry order recorded, a fill of one, the venue's word on a
      tracked exit, a cancellation written down, an exit pass. */
  datatype Event =
    | EntryAdded(order: Row)
    | EntryFilled(id: string, status: Status, matched: real)
    | ExitSeen(id: string, status: Status, matched: real)
    | Marked(ids: set<string>, status: Status)
    | ExitPass(now: int, reply: Row -> Reply)

  /** Told of a status and a matched size, an exit row takes no more of its rung than it
      did: any word on an active order but a failure that is partly matched, and of a
      closed one no further fill and no return. */
  predicate TakesNoMore(r: Row, status: Status, matched: real) {
    if Active(r.status) then status.Failed? ==> matched == 0.0
    else if r.status.Failed? then status.Failed? ==> matched <= r.matched
    else if Active(status) then r.matched == r.size
    else if status.Failed? then matched == 0.0 && r.matched == r.size
    else matched <= r.matched
  }

  lemma TakesNoMoreOfItsRung(r: Row, status: Status, matched: real)
    requires r.role.Exit? && 0.0 <= r.matched <= r.size && 0.0 <= matched <= r.size
    ensures Handled(r.(status := status, matched := matched)) <= Handled(r) <==> TakesNoMore(r, status, matched)
  {}

  /** Fills of entries only grow, the marks are made on rows read as active, and no exit
      is given the id of an entry. */
  ghost predicate CanHappen(rows: Table, e: Event) {
    match e
    case EntryAdded(order) => order.role.Entry? && 0.0 <= order.size && NoRow(rows, order.id)
    case EntryFilled(id, status, matched) =>
      forall r <- rows :: r.id == id ==> r.role.Entry? && r.matched <= matched
    case ExitSeen(id, status, matched) =>
      forall r <- rows :: r.id == id ==> r.role.Exit? && 0.0 <= matched <= r.size && TakesNoMore(r, status, matched)
    case Marked(ids, status) => !status.Failed? && forall r <- rows :: r.id in ids ==> Active(r.status)
    case ExitPass(now, reply) => forall r, t :: NoEntry(rows, reply(r).answer(t).id)
  }

  function Step(rows: Table, desk: Desk, e: Event): Table {
    match e
    case EntryAdded(order) => AddOrder(rows, order)
    case EntryFilled(id, status, matched) => UpdateOrder(rows, id, status, matched)
    case ExitSeen(id, status, matched) => UpdateOrder(rows, id, status, matched)
    case Marked(ids, status) => MarkOrders(rows, ids, status)
    case ExitPass(now, reply) => Pass(rows, desk, now, reply).rows
  }

  ghost predicate AllCanHappen(rows: Table, desk: Desk, events: seq<Event>)
    decreases |events|
  {
    events == [] || (CanHappen(rows, events[0]) && AllCanHappen(Step(rows, desk, events[0]), desk, events[1..]))
  }

  function After(rows: Table, desk: Desk, events: seq<Event>): Table
    decreases |events|
  {
    if events == [] then rows else After(Step(rows, desk, events[0]), desk, events[1..])
  }

  /** One row rewritten in place without letting its exit take more, or its entry less. */
  predicate NoWorse(a: Row, b: Row) {
    && b.role == a.role && b.slug == a.slug && b.outcome == a.outcome && b.price == a.price && b.size == a.size
    && (a.role.Entry? ==> a.matched <= b.matched)
    && (a.role.Exit? ==> 0.0 <= b.matched <= b.size && Handled(b) <= Handled(a))
  }

  lemma RewriteKeeps(a: Table, b: Table, targets: seq<Target>)
    requires ValidTargets(targets) && Sound(a, targets)
    requires |a| == |b| && forall i :: 0 <= i < |a| ==> NoWorse(a[i], b[i])
    ensures Sound(b, targets)
  {
    forall r <- b ensures 0.0 <= r.matched && (r.role.Exit? ==> r.matched <= r.size && OnPlan(r.price, targets)) {
      var i :| 0 <= i < |b| && b[i] == r;
      assert NoWorse(a[i], b[i]) && a[i] in a;
    }
    forall slug, outcome, t | t in targets
      ensures HandledSize(b, slug, outcome, t.price) <= Cap(b, slug, outcome, t)
    {
      RewriteGrowsCap(a, b, slug, outcome, t);
      TotalPointwise(b, a, HandledAt(slug, outcome, t.price));
      assert HandledSize(a, slug, outcome, t.price) <= Cap(a, slug, outcome, t);
    }
  }

  lemma RewriteGrowsCap(a: Table, b: Table, slug: string, outcome: string, t: Target)
    requires |a| == |b| && forall i :: 0 <= i < |a| ==> NoWorse(a[i], b[i])
    requires 0.0 <= t.fraction
    ensures Cap(a, slug, outcome, t) <= Cap(b, slug, outcome, t)
  {
    var desired := DesiredBy(slug, outcome, t);
    forall r <- a | 0.0 < desired(r) ensures exists q <- b :: desired(r) <= desired(q) {
      var i :| 0 <= i < |a| && a[i] == r;
      assert b[i] in b && NoWorse(a[i], b[i]);
      ShareGrows(a[i].matched, b[i].matched, t.fraction);
    }
    BestGrows(a, b, desired);
  }

  /** The only row of its id. */
  ghost predicate Alone(rows: Table, r: Row) {
    r in rows && forall q <- rows :: q.id == r.id ==> q == r
  }

  lemma WordKeepsShares(rows: Table, targets: seq<Target>, r: Row, status: Status, matched: real)
    requires ValidTargets(targets) && Sound(rows, targets) && Alone(rows, r)
    requires r.role.Exit? && 0.0 <= matched <= r.size && TakesNoMore(r, status, matched)
    ensures Sound(UpdateOrder(rows, r.id, status, matched), targets)
  {
    var after := UpdateOrder(rows, r.id, status, matched);
    forall i | 0 <= i < |rows| ensures NoWorse(rows[i], after[i]) {
      assert rows[i] in rows;
      if rows[i].id == r.id { TakesNoMoreOfItsRung(r, status, matched); }
    }
    RewriteKeeps(rows, after, targets);
  }

  /** A rung with no room left: one entry filled for just what the exit has taken. */
  function FullEntry(r: Row, t: Target): Row
    requires 0.0 < t.fraction
  {
    Row(r.id + "'", r.slug, r.outcome, Entry, t.price, Handled(r) / t.fraction, Handled(r) / t.fraction, Filled)
  }

  lemma DivideAndMultiply(x: real, f: real)
    requires 0.0 < f
    ensures x / f * f == x && (0.0 <= x ==> 0.0 <= x / f)
  {}

  lemma {:induction false} TotalOfTwo(a: Row, b: Row, weight: Row -> real)
    ensures Total([a, b], weight) == weight(a) + weight(b)
    ensures Best([a, b], weight) == Max(Max(0.0, weight(a)), weight(b))
  {
    assert [a, b][..1] == [a] && [a][..0] == [];
    assert Total([a], weight) == Total([], weight) + weight(a);
    assert Best([a], weight) == Max(Best([], weight), weight(a));
  }

  /** What an entry of an outcome and one exit of the same make of a rung. */
  lemma TwoRowsOnARung(e: Row, r: Row, slug: string, outcome: string, t: Target)
    requires e.role.Entry? && r.role.Exit? && e.slug == r.slug && e.outcome == r.outcome
    ensures HandledSize([e, r], slug, outcome, t.price) ==
            if slug == r.slug && outcome == r.outcome && r.price == t.price then Handled(r) else 0.0
    ensures Cap([e, r], slug, outcome, t) ==
            if slug == r.slug && outcome == r.outcome then Max(0.0, e.matched * t.fraction) else 0.0
  {
    TotalOfTwo(e, r, HandledAt(slug, outcome, t.price));
    TotalOfTwo(e, r, DesiredBy(slug, outcome, t));
  }

  lemma FullRungSound(r: Row, targets: seq<Target>, t: Target)
    requires ValidTargets(targets) && t in targets && t.price == r.price
    requires r.role.Exit? && 0.0 <= r.matched <= r.size
    ensures Sound([FullEntry(r, t), r], targets) && Alone([FullEntry(r, t), r], r)
  {
    var e := FullEntry(r, t);
    DivideAndMultiply(Handled(r), t.fraction);
    assert |e.id| == |r.id| + 1;
    assert OnPlan(r.price, targets);
    forall slug, outcome, u | u in targets
      ensures HandledSize([e, r], slug, outcome, u.price) <= Cap([e, r], slug, outcome, u)
    {
      TwoRowsOnARung(e, r, slug, outcome, u);
      if r.price == u.price { OnePrice(targets, t, u); }
    }
  }

  lemma FullRungOverflows(r: Row, targets: seq<Target>, t: Target, status: Status, matched: real)
    requires ValidTargets(targets) && t in targets && t.price == r.price
    requires r.role.Exit? && 0.0 <= r.matched <= r.size && 0.0 <= matched <= r.size && !TakesNoMore(r, status, matched)
    ensures !Sound(UpdateOrder([FullEntry(r, t), r], r.id, status, matched), targets)
  {
    var e, told := FullEntry(r, t), r.(status := status, matched := matched);
    assert |e.id| == |r.id| + 1;
    assert UpdateOrder([e, r], r.id, status, matched) == [e, told];
    TakesNoMoreOfItsRung(r, status, matched);
    DivideAndMultiply(Handled(r), t.fraction);
    TwoRowsOnARung(e, told, r.slug, r.outcome, t);
    assert !(HandledSize([e, told], r.slug, r.outcome, t.price) <= Cap([e, told], r.slug, r.outcome, t));
  }

  /** A word on an exit order keeps every rung within its share, whatever the rest of the
      table holds, exactly when the order takes no more than it did: outside that, the word
      breaks a rung that has no room left. */
  lemma TakesNoMoreExactly(r: Row, targets: seq<Target>, status: Status, matched: real)
    requires ValidTargets(targets) && r.role.Exit? && OnPlan(r.price, targets)
    requires 0.0 <= r.matched <= r.size && 0.0 <= matched <= r.size
    ensures TakesNoMore(r, status, matched) <==>
            forall rows: Table :: Sound(rows, targets) && Alone(rows, r) ==>
              Sound(UpdateOrder(rows, r.id, status, matched), targets)
  {
    if TakesNoMore(r, status, matched) {
      forall rows: Table | Sound(rows, targets) && Alone(rows, r)
        ensures Sound(UpdateOrder(rows, r.id, status, matched), targets)
      {
        WordKeepsShares(rows, targets, r, status, matched);
      }
    } else {
      var t :| t in targets && t.price == r.price;
      FullRungSound(r, targets, t);
      FullRungOverflows(r, targets, t, status, matched);
    }
  }

  lemma {:induction false} TotalOfThree(a: Row, b: Row, c: Row, weight: Row -> real)
    ensures Total([a, b, c], weight) == weight(a) + weight(b) + weight(c)
  {
    assert [a, b, c][..2] == [a, b] && [a, b][..1] == [a] && [a][..0] == [];
    assert Total([a, b], weight) == Total([a], weight) + weight(b);
    assert Total([a], weight) == Total([], weight) + weight(a);
  }

  /** What an unguarded word can do: a fill told late of an order written off as cancelled,
      after its size was offered again, takes the rung to twice what was filled. */
  lemma ALateFillGoesBeyond(entry: Row, cancelled: Row, again: Row)
    requires entry == Row("e", "m", "up", Entry, 0.5, 10.0, 10.0, Matched)
    requires cancelled == Row("a", "m", "up", Exit, 0.6, 10.0, 0.0, Cancelled)
    requires again == Row("b", "m", "up", Exit, 0.6, 10.0, 0.0, Live)
    ensures HandledSize([entry, cancelled, again], "m", "up", 0.6) == 10.0 == MatchedSize([entry, cancelled, again], "m", "up")
    ensures var late := UpdateOrder([entry, cancelled, again], "a", Matched, 10.0);
            HandledSize(late, "m", "up", 0.6) == 20.0 && MatchedSize(late, "m", "up") == 10.0
  {
    var filled := cancelled.(status := Matched, matched := 10.0);
    TotalOfThree(entry, cancelled, again, HandledAt("m", "up", 0.6));
    TotalOfThree(entry, cancelled, again, MatchedBy("m", "up"));
    TotalOfThree(entry, filled, again, HandledAt("m", "up", 0.6));
    TotalOfThree(entry, filled, again, MatchedBy("m", "up"));
    assert UpdateOrder([entry, cancelled, again], "a", Matched, 10.0) == [entry, filled, again];
  }

  lemma StepKeeps(rows: Table, desk: Desk, e: Event)
    requires Sound(rows, desk.targets) && CanHappen(rows, e)
    ensures Sound(Step(rows, desk, e), desk.targets)
  {
    match e {
      case EntryAdded(order) => EntryKeeps(rows, desk.targets, order);
      case EntryFilled(id, status, matched) =>
        forall i | 0 <= i < |rows| ensures NoWorse(rows[i], Step(rows, desk, e)[i]) { assert rows[i] in rows; }
        RewriteKeeps(rows, Step(rows, desk, e), desk.targets);
      case ExitSeen(id, status, matched) =>
        forall i | 0 <= i < |rows| ensures NoWorse(rows[i], Step(rows, desk, e)[i]) {
          assert rows[i] in rows;
          if rows[i].id == id { TakesNoMoreOfItsRung(rows[i], status, matched); }
        }
        RewriteKeeps(rows, Step(rows, desk, e), desk.targets);
      case Marked(ids, status) =>
        forall i | 0 <= i < |rows| ensures NoWorse(rows[i], Step(rows, desk, e)[i]) { assert rows[i] in rows; }
        RewriteKeeps(rows, Step(rows, desk, e), desk.targets);
      case ExitPass(now, reply) =>
        PassKeeps(rows, EntriesWithFills(rows, desk.markets), desk, now, reply);
    }
  }

  lemma EntryKeepsRung(rows: Table, order: Row, slug: string, outcome: string, t: Target)
    requires order.role.Entry? && NoRow(rows, order.id) && forall r <- rows :: r.role.Exit? ==> 0.0 <= Handled(r)
    ensures var added := AddOrder(rows, order);
            && HandledSize(added, slug, outcome, t.price) == HandledSize(rows, slug, outcome, t.price)
            && Cap(rows, slug, outcome, t) <= Cap(added, slug, outcome, t)
  {
    WithoutAbsent(rows, order.id);
    AddTotal(rows, order, HandledAt(slug, outcome, t.price));
    BestGrows(rows, AddOrder(rows, order), DesiredBy(slug, outcome, t));
  }

  lemma EntryKeeps(rows: Table, targets: seq<Target>, order: Row)
    requires Sound(rows, targets) && order.role.Entry? && 0.0 <= order.size && NoRow(rows, order.id)
    ensures Sound(AddOrder(rows, order), targets)
  {
    var added := AddOrder(rows, order);
    WithoutAbsent(rows, order.id);
    forall slug, outcome, t | t in targets
      ensures HandledSize(added, slug, outcome, t.price) <= Cap(added, slug, outcome, t)
    {
      EntryKeepsRung(rows, order, slug, outcome, t);
      assert HandledSize(rows, slug, outcome, t.price) <= Cap(rows, slug, outcome, t);
    }
  }

  /** No rung ever takes more than its share of the fill, over any run. */
  lemma {:induction false} RunKeeps(rows: Table, desk: Desk, events: seq<Event>)
    requires Sound(rows, desk.targets) && AllCanHappen(rows, desk, events)
    ensures Sound(After(rows, desk, events), desk.targets)
    decreases |events|
  {
    if events != [] {
      StepKeeps(rows, desk, events[0]);
      RunKeeps(Step(rows, desk, events[0]), desk, events[1..]);
    }
  }

  // ----- All the rungs together

  function TakenBy(slug: string, outcome: string): Row -> real {
    (r: Row) => if IsExit(r, slug, outcome) then Handled(r) else 0.0
  }

  /** What all the exits of the outcome have sold, may still sell, or failed to sell. */
  function Taken(rows: Table, slug: string, outcome: string): real {
    Total(rows, TakenBy(slug, outcome))
  }

  function RungSum(rows: Table, slug: string, outcome: string, targets: seq<Target>): real {
    if targets == [] then 0.0
    else RungSum(rows, slug, outcome, targets[..|targets| - 1]) +
         HandledSize(rows, slug, outcome, targets[|targets| - 1].price)
  }

  lemma {:induction false} RungSumStep(rows: Table, slug: string, outcome: string, targets: seq<Target>)
    requires rows != [] && forall i, j :: 0 <= i < j < |targets| ==> targets[i].price < targets[j].price
    ensures var last := rows[|rows| - 1];
            RungSum(rows, slug, outcome, targets) == RungSum(rows[..|rows| - 1], slug, outcome, targets) +
              (if IsExit(last, slug, outcome) && OnPlan(last.price, targets) then Handled(last) else 0.0)
  {
    if targets != [] {
      var n := |targets| - 1;
      RungSumStep(rows, slug, outcome, targets[..n]);
      assert targets == targets[..n] + [targets[n]];
      var price := rows[|rows| - 1].price;
      if OnPlan(price, targets[..n]) {
        var t :| t in targets[..n] && t.price == price;
        var i :| 0 <= i < n && targets[i] == t;
        assert t in targets;
      } else if OnPlan(price, targets) {
        assert targets[n].price == price;
      } else {
        assert targets[n] in targets;
      }
    }
  }

  lemma {:induction false} TakenIsRungSum(rows: Table, slug: string, outcome: string, targets: seq<Target>)
    requires ValidTargets(targets) && SoundRows(rows, targets)
    ensures Taken(rows, slug, outcome) == RungSum(rows, slug, outcome, targets)
  {
    if rows == [] {
      RungSumOfNone(slug, outcome, targets);
    } else {
      assert rows[|rows| - 1] in rows;
      TakenIsRungSum(rows[..|rows| - 1], slug, outcome, targets);
      RungSumStep(rows, slug, outcome, targets);
    }
  }

  lemma {:induction false} RungSumOfNone(slug: string, outcome: string, targets: seq<Target>)
    ensures RungSum([], slug, outcome, targets) == 0.0
  {
    if targets != [] { RungSumOfNone(slug, outcome, targets[..|targets| - 1]); }
  }

  function Portions(best: real, targets: seq<Target>): real {
    if targets == [] then 0.0 else Portions(best, targets[..|targets| - 1]) + best * targets[|targets| - 1].fraction
  }

  lemma {:induction false} PortionsTogether(best: real, targets: seq<Target>)
    ensures Portions(best, targets) == best * Shares(targets)
  {
    if targets != [] {
      var n := |targets| - 1;
      PortionsTogether(best, targets[..n]);
      ShareSplits(best, Shares(targets[..n]), targets[n].fraction);
    }
  }

  lemma ShareSplits(a: real, f: real, g: real)
    ensures a * (f + g) == a * f + a * g
  {}

  lemma DesireIsAShare(r: Row, slug: string, outcome: string, t: Target, best: real)
    requires 0.0 <= t.fraction && 0.0 <= best && MatchedBy(slug, outcome)(r) <= best
    ensures DesiredBy(slug, outcome, t)(r) <= best * t.fraction
  {
    ShareGrows(MatchedBy(slug, outcome)(r), best, t.fraction);
    ShareGrows(0.0, best, t.fraction);
  }

  lemma CapIsAShare(rows: Table, slug: string, outcome: string, t: Target, best: real)
    requires 0.0 <= t.fraction && 0.0 <= best
    requires forall r <- rows :: MatchedBy(slug, outcome)(r) <= best
    ensures Cap(rows, slug, outcome, t) <= best * t.fraction
  {
    var desired := DesiredBy(slug, outcome, t);
    BestBounds(rows, desired);
    ShareGrows(0.0, best, t.fraction);
    if r :| r in rows && desired(r) == Best(rows, desired) {
      DesireIsAShare(r, slug, outcome, t, best);
    }
  }

  /** The ladder as a whole never offers more than was filled: over any run from an empty
      table, everything taken by the exits of an outcome is within what one of its entry
      orders matched, and so within what they matched together. */
  lemma {:induction false} NeverBeyondTheFill(desk: Desk, events: seq<Event>, slug: string, outcome: string)
    requires AllCanHappen([], desk, events)
    ensures var rows := After([], desk, events);
            Taken(rows, slug, outcome) <= BestMatched(rows, slug, outcome) <= MatchedSize(rows, slug, outcome)
  {
    var rows := After([], desk, events);
    EmptyIsSound(desk);
    RunKeeps([], desk, events);
    TakenWithinFill(rows, desk, slug, outcome);
  }

  lemma EmptyIsSound(desk: Desk)
    ensures Sound([], desk.targets)
  {}

  lemma RungWithinShare(rows: Table, desk: Desk, slug: string, outcome: string, t: Target, best: real)
    requires Sound(rows, desk.targets) && 0.0 <= best && t in desk.targets
    requires forall r <- rows :: MatchedBy(slug, outcome)(r) <= best
    ensures HandledSize(rows, slug, outcome, t.price) <= best * t.fraction
  {
    CapIsAShare(rows, slug, outcome, t, best);
    assert HandledSize(rows, slug, outcome, t.price) <= Cap(rows, slug, outcome, t);
  }

  /** No rung takes more than its part of best. */
  ghost predicate WithinParts(rows: Table, slug: string, outcome: string, targets: seq<Target>, best: real) {
    forall t <- targets :: HandledSize(rows, slug, outcome, t.price) <= best * t.fraction
  }

  lemma AllWithinParts(rows: Table, desk: Desk, slug: string, outcome: string, best: real)
    requires Sound(rows, desk.targets) && 0.0 <= best
    requires forall r <- rows :: MatchedBy(slug, outcome)(r) <= best
    ensures WithinParts(rows, slug, outcome, desk.targets, best)
  {
    forall t <- desk.targets ensures HandledSize(rows, slug, outcome, t.price) <= best * t.fraction {
      RungWithinShare(rows, desk, slug, outcome, t, best);
    }
  }

  lemma {:induction false} RungSumWithinPortions(rows: Table, slug: string, outcome: string, targets: seq<Target>,
                                                 best: real)
    requires WithinParts(rows, slug, outcome, targets, best)
    ensures RungSum(rows, slug, outcome, targets) <= Portions(best, targets)
  {
    if targets != [] {
      var n := |targets| - 1;
      assert targets[n] in targets;
      RungSumWithinPortions(rows, slug, outcome, targets[..n], best);
    }
  }

  lemma {:induction false} PortionsWithin(best: real, targets: seq<Target>)
    requires 0.0 <= best && Shares(targets) <= 1.0
    ensures Portions(best, targets) <= best
  {
    PortionsTogether(best, targets);
    WholeBoundsShare(Portions(best, targets), best, Shares(targets));
  }

  lemma {:induction false} RungsWithinShares(rows: Table, desk: Desk, slug: string, outcome: string, best: real)
    requires Sound(rows, desk.targets) && 0.0 <= best
    requires forall r <- rows :: MatchedBy(slug, outcome)(r) <= best
    ensures RungSum(rows, slug, outcome, desk.targets) <= best
  {
    AllWithinParts(rows, desk, slug, outcome, best);
    RungSumWithinPortions(rows, slug, outcome, desk.targets, best);
    PortionsWithin(best, desk.targets);
  }

  lemma TakenWithinFill(rows: Table, desk: Desk, slug: string, outcome: string)
    requires Sound(rows, desk.targets)
    ensures Taken(rows, slug, outcome) <= BestMatched(rows, slug, outcome) <= MatchedSize(rows, slug, outcome)
  {
    TakenIsRungSum(rows, slug, outcome, desk.targets);
    BestBounds(rows, MatchedBy(slug, outcome));
    RungsWithinShares(rows, desk, slug, outcome, BestMatched(rows, slug, outcome));
    BestWithinTotal(rows, MatchedBy(slug, outcome));
  }

  lemma WholeBoundsShare(x: real, a: real, f: real)
    requires x <= a * f && 0.0 <= a && f <= 1.0
    ensures x <= a
  {}
}
