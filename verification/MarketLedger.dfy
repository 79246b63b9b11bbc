/** What becomes of a market (polymarket_bot/service.py): its state in the markets table,
    the orders recorded for it, the retry kept for it while the process lives, and every
    attempt made to place its entry. */
module MarketLedger {

  const KNOCK_MS := 240000

  datatype State = Placing | Pending | Active | Skipped | Error | Expired | ExitError

  datatype Retry = Retry(attempts: nat, firstStarted: int, lastFinished: int)

  /** One attempt to place a market's entry: when its turn came, when it started, until
      when it might knock, the sends it took and the orders it recorded. */
  datatype Attempt = Attempt(slug: string, asked: int, started: int, until: int, sends: nat, ids: seq<string>)

  /** What one account's placement came to. */
  datatype Result = Result(ids: seq<string>, failed: bool, retryable: bool, sends: nat, expected: nat, gaveUp: bool) {
    predicate Complete() { !failed && |ids| == expected }
  }

  /** What a fleet's placement came to. */
  datatype Placement =
    | Raised
    | Settled(ids: seq<string>, kept: bool, retryable: bool, sends: nat, gaveUp: bool)

  datatype Mode = DryRun(outcomes: seq<string>) | Solo | Fleet

  /** One market taken up: what the checks find, and what its placement would come to. */
  datatype Look = Look(slug: string, eligible: bool, buyOnTick: bool, targetsOnTick: bool, sizeMeetsMinimum: bool,
                       withinDaily: bool, withinReserve: bool, activated: bool, booksReady: bool, doorOpen: bool,
                       asked: int, started: int, finished: int, result: Result, placement: Placement)

  datatype Ledger = Ledger(markets: map<string, State>, orders: map<string, string>, retries: map<string, Retry>,
                           attempts: seq<Attempt>, runStart: nat)

  predicate CanStart(l: Ledger, slug: string) {
    slug !in l.markets || (l.markets[slug].Pending? && slug !in l.orders.Values)
  }

  function SetState(l: Ledger, slug: string, s: State): Ledger {
    if slug in l.markets then l.(markets := l.markets[slug := s]) else l
  }

  function Forget(l: Ledger, slug: string): Ledger { l.(retries := l.retries - {slug}) }

  function Skip(l: Ledger, slug: string): Ledger {
    Forget(l, slug).(markets := l.markets[slug := Skipped])
  }

  function Record(l: Ledger, slug: string, ids: seq<string>): Ledger {
    l.(orders := l.orders + map id | id in ids :: slug)
  }

  function Tried(l: Ledger, k: Look, until: int, sends: nat, ids: seq<string>): Ledger {
    l.(attempts := l.attempts + [Attempt(k.slug, k.asked, k.started, until, sends, ids)])
  }

  function Requeue(l: Ledger, k: Look, sends: nat): Ledger {
    if k.slug in l.retries then
      var r := l.retries[k.slug];
      l.(retries := l.retries[k.slug := r.(attempts := r.attempts + sends, lastFinished := k.finished)])
    else
      SetState(l.(retries := l.retries[k.slug := Retry(sends, k.started, k.finished)]), k.slug, Pending)
  }

  function DryIds(slug: string, outcomes: seq<string>): seq<string> {
    seq(|outcomes|, i requires 0 <= i < |outcomes| => "dry:" + slug + ":" + outcomes[i])
  }

  function PlaceAlone(l: Ledger, k: Look, until: int): Ledger {
    var r := k.result;
    var tried := Tried(Record(l, k.slug, r.ids), k, until, r.sends, r.ids);
    if r.Complete() then SetState(Forget(tried, k.slug), k.slug, Active)
    else if r.gaveUp && r.ids == [] then Skip(tried, k.slug)
    else if r.retryable && r.ids == [] then Requeue(tried, k, r.sends)
    else SetState(Forget(tried, k.slug), k.slug, Error)
  }

  function PlaceWithFleet(l: Ledger, k: Look, until: int): Ledger {
    match k.placement
    case Raised => SetState(Forget(Tried(l, k, until, 0, []), k.slug), k.slug, Error)
    case Settled(ids, kept, retryable, sends, gaveUp) =>
      var tried := Tried(Record(l, k.slug, ids), k, until, sends, ids);
      if kept then SetState(Forget(tried, k.slug), k.slug, Active)
      else if gaveUp then Skip(tried, k.slug)
      else if retryable then Requeue(tried, k, sends)
      else SetState(Forget(tried, k.slug), k.slug, Error)
  }

  function KnockUntil(l: Ledger, k: Look): int {
    (if k.slug in l.retries then l.retries[k.slug].firstStarted else k.asked) + KNOCK_MS
  }

  function PlaceDry(l: Ledger, k: Look, until: int, ids: seq<string>): Ledger {
    SetState(Tried(Record(l, k.slug, ids), k, until, 0, ids), k.slug, Active)
  }

  function Submit(l: Ledger, mode: Mode, k: Look, until: int): Ledger {
    match mode
    case DryRun(outcomes) => PlaceDry(l, k, until, DryIds(k.slug, outcomes))
    case Solo => PlaceAlone(l, k, until)
    case Fleet => PlaceWithFleet(l, k, until)
  }

  function Prepare(l: Ledger, slug: string): Ledger {
    if slug in l.retries then l else l.(markets := l.markets[slug := Placing])
  }

  function Place(l: Ledger, mode: Mode, k: Look): Ledger {
    var until := KnockUntil(l, k);
    if !mode.DryRun? && k.activated && (until <= k.asked || k.doorOpen) then Skip(l, k.slug)
    else Submit(Prepare(l, k.slug), mode, k, until)
  }

  /** The ledger after one market was taken up, and whether the rest of the batch is. */
  function Consider(l: Ledger, mode: Mode, k: Look): (Ledger, bool) {
    if !k.eligible then
      (if k.slug in l.retries then SetState(Forget(l, k.slug), k.slug, Expired) else l, true)
    else if !CanStart(l, k.slug) then (l, true)
    else if !k.buyOnTick || !k.targetsOnTick || !k.sizeMeetsMinimum then (Skip(l, k.slug), true)
    else if !k.withinDaily || !k.withinReserve then (l, false)
    else if !mode.DryRun? && !k.activated && !k.booksReady then (l, true)
    else (Place(l, mode, k), true)
  }

  // ----- The service

  class Service {
    const mode: Mode
    var markets: map<string, State>
    var orders: map<string, string>
    var retries: map<string, Retry>
    var attempts: seq<Attempt>
    const runStart: nat

    function View(): Ledger
      reads this
    {
      Ledger(markets, orders, retries, attempts, runStart)
    }

    /** A process starts on the tables as they are, with no retries. */
    constructor (mode: Mode, markets: map<string, State>, orders: map<string, string>, attempts: seq<Attempt>)
      ensures this.mode == mode
      ensures View() == Ledger(markets, orders, map[], attempts, |attempts|)
    {
      this.mode := mode;
      this.markets := markets;
      this.orders := orders;
      this.retries := map[];
      this.attempts := attempts;
      this.runStart := |attempts|;
    }

    method SetMarketState(slug: string, s: State)
      modifies this`markets
      ensures View() == SetState(old(View()), slug, s)
    {
      if slug in markets {
        markets := markets[slug := s];
      }
    }

    method SkipMarket(slug: string)
      modifies this`markets, this`retries
      ensures View() == Skip(old(View()), slug)
    {
      retries := retries - {slug};
      markets := markets[slug := Skipped];
    }

    method AddOrders(slug: string, ids: seq<string>)
      modifies this`orders
      ensures View() == Record(old(View()), slug, ids)
    {
      for i := 0 to |ids|
        invariant orders == old(orders) + map id | id in ids[..i] :: slug
      {
        orders := orders[ids[i] := slug];
        assert ids[..i + 1] == ids[..i] + [ids[i]];
      }
      assert ids[..|ids|] == ids;
    }

    method RequeuePlacement(k: Look, sends: nat)
      modifies this`markets, this`retries
      ensures View() == Requeue(old(View()), k, sends)
    {
      if k.slug in retries {
        var r := retries[k.slug];
        retries := retries[k.slug := r.(attempts := r.attempts + sends, lastFinished := k.finished)];
      } else {
        retries := retries[k.slug := Retry(sends, k.started, k.finished)];
        SetMarketState(k.slug, Pending);
      }
    }

    method PlaceOnFleet(k: Look, until: int)
      modifies this`markets, this`orders, this`retries, this`attempts
      ensures View() == PlaceWithFleet(old(View()), k, until)
    {
      if k.placement.Raised? {
        attempts := attempts + [Attempt(k.slug, k.asked, k.started, until, 0, [])];
        retries := retries - {k.slug};
        SetMarketState(k.slug, Error);
        return;
      }
      var p := k.placement;
      AddOrders(k.slug, p.ids);
      attempts := attempts + [Attempt(k.slug, k.asked, k.started, until, p.sends, p.ids)];
      if p.kept {
        retries := retries - {k.slug};
        SetMarketState(k.slug, Active);
      } else if p.gaveUp {
        SkipMarket(k.slug);
      } else if p.retryable {
        RequeuePlacement(k, p.sends);
      } else {
        retries := retries - {k.slug};
        SetMarketState(k.slug, Error);
      }
    }

    method PlaceOnOneAccount(k: Look, until: int)
      modifies this`markets, this`orders, this`retries, this`attempts
      ensures View() == PlaceAlone(old(View()), k, until)
    {
      var r := k.result;
      AddOrders(k.slug, r.ids);
      attempts := attempts + [Attempt(k.slug, k.asked, k.started, until, r.sends, r.ids)];
      if r.Complete() {
        retries := retries - {k.slug};
        SetMarketState(k.slug, Active);
      } else {
        if r.gaveUp && r.ids == [] {
          SkipMarket(k.slug);
          return;
        }
        if r.retryable && r.ids == [] {
          RequeuePlacement(k, r.sends);
          return;
        }
        retries := retries - {k.slug};
        SetMarketState(k.slug, Error);
      }
    }

    method SubmitEntry(k: Look, until: int)
      modifies this`markets, this`orders, this`retries, this`attempts
      ensures View() == Submit(old(View()), mode, k, until)
    {
      match mode {
        case DryRun(outcomes) =>
          var ids := DryIds(k.slug, outcomes);
          AddOrders(k.slug, ids);
          attempts := attempts + [Attempt(k.slug, k.asked, k.started, until, 0, ids)];
          SetMarketState(k.slug, Active);
        case Solo =>
          PlaceOnOneAccount(k, until);
        case Fleet =>
          PlaceOnFleet(k, until);
      }
    }

    method PlaceMarket(k: Look)
      modifies this`markets, this`orders, this`retries, this`attempts
      ensures View() == Place(old(View()), mode, k)
    {
      var until := KnockUntil(View(), k);
      if !mode.DryRun? && k.activated {
        if until <= k.asked {
          SkipMarket(k.slug);
          return;
        }
        if k.doorOpen {
          SkipMarket(k.slug);
          return;
        }
      }
      if k.slug !in retries {
        markets := markets[k.slug := Placing];
      }
      SubmitEntry(k, until);
    }

    method ConsiderMarket(k: Look) returns (goOn: bool)
      modifies this`markets, this`orders, this`retries, this`attempts
      ensures (View(), goOn) == Consider(old(View()), mode, k)
    {
      if !k.eligible {
        if k.slug in retries {
          retries := retries - {k.slug};
          SetMarketState(k.slug, Expired);
        }
        return true;
      }
      if !CanStart(View(), k.slug) {
        return true;
      }
      if !k.buyOnTick || !k.targetsOnTick || !k.sizeMeetsMinimum {
        SkipMarket(k.slug);
        return true;
      }
      if !k.withinDaily || !k.withinReserve {
        return false;
      }
      if !mode.DryRun? && !k.activated && !k.booksReady {
        return true;
      }
      PlaceMarket(k);
      return true;
    }
  }

  // ----- Whole histories

  /** A market is taken up, an order found at the venue is adopted, an exit fails, or the
      process starts again. */
  datatype Event = Considered(k: Look) | Adopted(id: string, slug: string) | ExitFailed(slug: string) | Restarted

  /** A fleet may be retried, or gave up, only when no member has an order (see
      FleetSettlement.NothingRestsWhenItMayBeRetried). */
  predicate Proper(e: Event) {
    e.Considered? && e.k.placement.Settled? && (e.k.placement.retryable || e.k.placement.gaveUp) ==> e.k.placement.ids == []
  }

  function Step(l: Ledger, mode: Mode, e: Event): Ledger {
    match e
    case Considered(k) => Consider(l, mode, k).0
    case Adopted(id, slug) => if slug in l.markets && id !in l.orders then Record(l, slug, [id]) else l
    case ExitFailed(slug) => SetState(l, slug, ExitError)
    case Restarted => l.(retries := map[], runStart := |l.attempts|)
  }

  function After(l: Ledger, mode: Mode, events: seq<Event>): Ledger
    decreases |events|
  {
    if events == [] then l else After(Step(l, mode, events[0]), mode, events[1..])
  }

  const EMPTY := Ledger(map[], map[], map[], [], 0)

  /** Done with: on record and not waiting for another attempt. */
  predicate DoneWith(l: Ledger, slug: string) { slug in l.markets && !l.markets[slug].Pending? }

  function AttemptsAt(attempts: seq<Attempt>, slug: string): (r: seq<Attempt>)
    ensures forall a <- r :: a in attempts && a.slug == slug
  {
    if attempts == [] then []
    else
      var before, last := AttemptsAt(attempts[..|attempts| - 1], slug), attempts[|attempts| - 1];
      if last.slug == slug then before + [last] else before
  }

  function Sends(attempts: seq<Attempt>): nat {
    if attempts == [] then 0 else Sends(attempts[..|attempts| - 1]) + attempts[|attempts| - 1].sends
  }

  /** Every attempt but the last of a market recorded nothing, and one that recorded an
      order left the market done with. */
  ghost predicate RecordsOnce(l: Ledger) {
    forall i :: 0 <= i < |l.attempts| ==>
      && l.attempts[i].slug in l.markets
      && (l.attempts[i].ids != [] ==> DoneWith(l, l.attempts[i].slug))
      && (l.attempts[i].ids != [] ==> forall j :: i < j < |l.attempts| ==> l.attempts[j].slug != l.attempts[i].slug)
  }

  /** The attempts this process has made at a market. */
  function Trail(l: Ledger, slug: string): seq<Attempt> {
    if l.runStart <= |l.attempts| then AttemptsAt(l.attempts[l.runStart..], slug) else []
  }

  /** They knock to one common end, and the retry kept for the market tells when they began
      and what they took. */
  ghost predicate OneBudget(trail: seq<Attempt>, l: Ledger, slug: string) {
    && (forall j :: 1 <= j < |trail| ==> trail[j].until == trail[0].started + KNOCK_MS)
    && (trail != [] ==> slug in l.markets && trail[0].until == trail[0].asked + KNOCK_MS)
    && (trail != [] && l.markets[slug].Pending? ==> slug in l.retries)
    && (slug in l.retries ==>
          trail != [] && l.retries[slug].firstStarted == trail[0].started && l.retries[slug].attempts == Sends(trail))
  }

  ghost predicate Kept(l: Ledger) {
    && RecordsOnce(l) && l.runStart <= |l.attempts|
    && forall slug :: OneBudget(Trail(l, slug), l, slug)
  }

  // ----- One event

  ghost predicate SameElsewhere(l: Ledger, m: Ledger, slug: string) {
    forall s :: s != slug ==>
      && (s in l.markets <==> s in m.markets) && (s in l.markets ==> l.markets[s] == m.markets[s])
      && (s in l.retries <==> s in m.retries) && (s in l.retries ==> l.retries[s] == m.retries[s])
  }

  /** No attempt was made: nothing changed, or the market is done with. */
  ghost predicate Untried(l: Ledger, m: Ledger, slug: string) {
    m.attempts == l.attempts && m.orders == l.orders && (m == l || (DoneWith(m, slug) && slug !in m.retries))
  }

  /** An attempt was made, and its orders written down. If there was any the market is done with; if it is to be
      tried again the retry carries on from the one before. */
  ghost predicate TriedOnce(l: Ledger, m: Ledger, slug: string, a: Attempt) {
    && a.slug == slug && m.attempts == l.attempts + [a] && slug in m.markets
    && (forall id :: id in m.orders <==> id in l.orders || id in a.ids)
    && (forall id <- m.orders :: m.orders[id] == if id in a.ids then slug else l.orders[id])
    && (a.ids != [] ==> DoneWith(m, slug))
    && (m.markets[slug].Pending? ==> slug in m.retries)
    && (slug in m.retries ==>
          && m.retries[slug].firstStarted == (if slug in l.retries then l.retries[slug].firstStarted else a.started)
          && m.retries[slug].attempts == (if slug in l.retries then l.retries[slug].attempts else 0) + a.sends)
  }

  function AttemptOf(k: Look, until: int, sends: nat, ids: seq<string>): Attempt {
    Attempt(k.slug, k.asked, k.started, until, sends, ids)
  }

  lemma RequeueShape(l: Ledger, k: Look, until: int, sends: nat)
    requires k.slug in l.markets && (k.slug in l.retries ==> l.markets[k.slug].Pending?)
    ensures var m := Requeue(Tried(Record(l, k.slug, []), k, until, sends, []), k, sends);
            TriedOnce(l, m, k.slug, AttemptOf(k, until, sends, [])) && SameElsewhere(l, m, k.slug) && m.runStart == l.runStart
  {}

  lemma AloneShape(l: Ledger, k: Look, until: int)
    requires k.slug in l.markets && (k.slug in l.retries ==> l.markets[k.slug].Pending?)
    ensures var m := PlaceAlone(l, k, until);
            TriedOnce(l, m, k.slug, AttemptOf(k, until, k.result.sends, k.result.ids)) && SameElsewhere(l, m, k.slug)
            && m.runStart == l.runStart
  {
    var r := k.result;
    if !r.Complete() && r.ids == [] && r.retryable && !r.gaveUp {
      RequeueShape(l, k, until, r.sends);
    }
  }

  lemma FleetShape(l: Ledger, k: Look, until: int)
    requires k.slug in l.markets && (k.slug in l.retries ==> l.markets[k.slug].Pending?) && Proper(Considered(k))
    ensures var m := PlaceWithFleet(l, k, until);
            var a := if k.placement.Raised? then AttemptOf(k, until, 0, [])
                     else AttemptOf(k, until, k.placement.sends, k.placement.ids);
            TriedOnce(l, m, k.slug, a) && SameElsewhere(l, m, k.slug) && m.runStart == l.runStart
  {
    var p := k.placement;
    if p.Settled? && !p.kept && !p.gaveUp && p.retryable {
      RequeueShape(l, k, until, p.sends);
    }
  }

  /** The orders and the sends that an attempt comes back with. */
  function Reported(mode: Mode, k: Look): (seq<string>, nat) {
    match mode
    case DryRun(outcomes) => (DryIds(k.slug, outcomes), 0)
    case Solo => (k.result.ids, k.result.sends)
    case Fleet => if k.placement.Settled? then (k.placement.ids, k.placement.sends) else ([], 0)
  }

  function AttemptAt(l: Ledger, mode: Mode, k: Look): Attempt {
    AttemptOf(k, KnockUntil(l, k), Reported(mode, k).1, Reported(mode, k).0)
  }

  /** The market comes up on its activation with no time left to knock, or its door open. */
  predicate TooLate(l: Ledger, mode: Mode, k: Look) {
    !mode.DryRun? && k.activated && (KnockUntil(l, k) <= k.asked || k.doorOpen)
  }

  lemma DryShape(l: Ledger, k: Look, until: int, outcomes: seq<string>)
    requires k.slug in l.markets && (k.slug in l.retries ==> l.markets[k.slug].Pending?)
    ensures var m := Submit(l, DryRun(outcomes), k, until);
            TriedOnce(l, m, k.slug, AttemptOf(k, until, 0, DryIds(k.slug, outcomes))) && SameElsewhere(l, m, k.slug)
            && m.runStart == l.runStart
  {}

  lemma SubmitShape(l: Ledger, mode: Mode, k: Look, until: int)
    requires k.slug in l.markets && (k.slug in l.retries ==> l.markets[k.slug].Pending?) && Proper(Considered(k))
    ensures var m := Submit(l, mode, k, until);
            SameElsewhere(l, m, k.slug) && m.runStart == l.runStart &&
            TriedOnce(l, m, k.slug, AttemptOf(k, until, Reported(mode, k).1, Reported(mode, k).0))
  {
    match mode {
      case DryRun(outcomes) => DryShape(l, k, until, outcomes);
      case Solo => AloneShape(l, k, until);
      case Fleet => FleetShape(l, k, until);
    }
  }

  lemma PlaceShape(l: Ledger, mode: Mode, k: Look)
    requires Proper(Considered(k)) && CanStart(l, k.slug) && (k.slug in l.retries ==> k.slug in l.markets)
    ensures var m := Place(l, mode, k);
            SameElsewhere(l, m, k.slug) && m.runStart == l.runStart &&
            (Untried(l, m, k.slug) || TriedOnce(l, m, k.slug, AttemptAt(l, mode, k)))
  {
    if TooLate(l, mode, k) {
      assert Place(l, mode, k) == Skip(l, k.slug);
    } else {
      var prepared, a := Prepare(l, k.slug), AttemptAt(l, mode, k);
      SubmitShape(prepared, mode, k, KnockUntil(l, k));
      PreparedOnce(l, Place(l, mode, k), k.slug, a);
    }
  }

  /** Preparing the market changes nothing that an attempt carries on from. */
  lemma PreparedOnce(l: Ledger, m: Ledger, slug: string, a: Attempt)
    requires TriedOnce(Prepare(l, slug), m, slug, a) && SameElsewhere(Prepare(l, slug), m, slug)
    ensures TriedOnce(l, m, slug, a) && SameElsewhere(l, m, slug)
  {}

  // ----- What every history keeps

  lemma TrailAppend(l: Ledger, m: Ledger, a: Attempt, slug: string)
    requires l.runStart == m.runStart <= |l.attempts| && m.attempts == l.attempts + [a]
    ensures Trail(m, slug) == Trail(l, slug) + (if a.slug == slug then [a] else [])
  {
    var more := m.attempts[m.runStart..];
    assert more[..|more| - 1] == l.attempts[l.runStart..];
  }

  lemma TriedKeepsRecords(l: Ledger, m: Ledger, slug: string, a: Attempt)
    requires RecordsOnce(l) && CanStart(l, slug) && SameElsewhere(l, m, slug) && TriedOnce(l, m, slug, a)
    ensures RecordsOnce(m)
  {
    forall i | 0 <= i < |m.attempts|
      ensures m.attempts[i].slug in m.markets
      ensures m.attempts[i].ids != [] ==> DoneWith(m, m.attempts[i].slug)
      ensures m.attempts[i].ids != [] ==> forall j :: i < j < |m.attempts| ==> m.attempts[j].slug != m.attempts[i].slug
    {
      if i < |l.attempts| {
        assert m.attempts[i] == l.attempts[i];
        assert l.attempts[i].ids != [] ==> DoneWith(l, l.attempts[i].slug);
      }
    }
  }

  lemma TriedKeepsBudget(l: Ledger, m: Ledger, k: Look, a: Attempt, trail: seq<Attempt>)
    requires OneBudget(trail, l, k.slug) && CanStart(l, k.slug) && TriedOnce(l, m, k.slug, a)
    requires a.asked == k.asked && a.until == KnockUntil(l, k)
    ensures OneBudget(trail + [a], m, k.slug)
  {
    assert (trail + [a])[..|trail|] == trail;
  }

  lemma BudgetElsewhere(l: Ledger, m: Ledger, slug: string, other: string, trail: seq<Attempt>)
    requires OneBudget(trail, l, other) && other != slug && SameElsewhere(l, m, slug)
    ensures OneBudget(trail, m, other)
  {}

  lemma UntriedKeeps(l: Ledger, m: Ledger, slug: string)
    requires Kept(l) && Untried(l, m, slug) && SameElsewhere(l, m, slug) && m.runStart == l.runStart
    ensures Kept(m)
  {
    forall s ensures OneBudget(Trail(m, s), m, s) {
      assert OneBudget(Trail(l, s), l, s);
      if s != slug { BudgetElsewhere(l, m, slug, s, Trail(l, s)); }
    }
    forall i | 0 <= i < |m.attempts| ensures m.attempts[i].ids != [] ==> DoneWith(m, m.attempts[i].slug) {
      assert m.attempts[i] == l.attempts[i];
    }
  }

  lemma TriedKeeps(l: Ledger, m: Ledger, k: Look, a: Attempt)
    requires Kept(l) && CanStart(l, k.slug) && TriedOnce(l, m, k.slug, a)
    requires SameElsewhere(l, m, k.slug) && m.runStart == l.runStart
    requires a.asked == k.asked && a.until == KnockUntil(l, k)
    ensures Kept(m)
  {
    TriedKeepsRecords(l, m, k.slug, a);
    forall s ensures OneBudget(Trail(m, s), m, s) {
      assert OneBudget(Trail(l, s), l, s);
      TrailAppend(l, m, a, s);
      if s == k.slug {
        TriedKeepsBudget(l, m, k, a, Trail(l, s));
      } else {
        assert Trail(l, s) + [] == Trail(l, s);
        BudgetElsewhere(l, m, k.slug, s, Trail(l, s));
      }
    }
  }

  /** The plan does not fit the market. */
  predicate Unfit(k: Look) { !k.buyOnTick || !k.targetsOnTick || !k.sizeMeetsMinimum }

  /** The market gets as far as being placed. */
  predicate ComesToPlacing(l: Ledger, mode: Mode, k: Look) {
    && k.eligible && CanStart(l, k.slug) && !Unfit(k) && k.withinDaily && k.withinReserve
    && (mode.DryRun? || k.activated || k.booksReady)
  }

  lemma UnplacedShape(l: Ledger, mode: Mode, k: Look)
    requires !ComesToPlacing(l, mode, k) && (k.slug in l.retries ==> k.slug in l.markets)
    ensures var m := Consider(l, mode, k).0;
            Untried(l, m, k.slug) && SameElsewhere(l, m, k.slug) && m.runStart == l.runStart
  {}

  lemma ConsiderShape(l: Ledger, mode: Mode, k: Look)
    requires Kept(l) && Proper(Considered(k))
    ensures var m := Consider(l, mode, k).0;
            SameElsewhere(l, m, k.slug) && m.runStart == l.runStart &&
            (Untried(l, m, k.slug) ||
             (CanStart(l, k.slug) && TriedOnce(l, m, k.slug, AttemptAt(l, mode, k))))
  {
    assert k.slug in l.retries ==> k.slug in l.markets by { assert OneBudget(Trail(l, k.slug), l, k.slug); }
    if ComesToPlacing(l, mode, k) {
      PlaceShape(l, mode, k);
      assert Consider(l, mode, k).0 == Place(l, mode, k);
    } else {
      UnplacedShape(l, mode, k);
    }
  }

  lemma ConsiderKeeps(l: Ledger, mode: Mode, k: Look)
    requires Kept(l) && Proper(Considered(k))
    ensures Kept(Consider(l, mode, k).0)
  {
    var m := Consider(l, mode, k).0;
    ConsiderShape(l, mode, k);
    if Untried(l, m, k.slug) {
      UntriedKeeps(l, m, k.slug);
    } else {
      TriedKeeps(l, m, k, AttemptAt(l, mode, k));
    }
  }

  lemma AdoptionKeeps(l: Ledger, m: Ledger)
    requires Kept(l) && m == l.(orders := m.orders)
    ensures Kept(m)
  {
    forall s ensures OneBudget(Trail(m, s), m, s) {
      assert Trail(m, s) == Trail(l, s);
      assert OneBudget(Trail(l, s), l, s);
    }
  }

  lemma MarkedOnceKeeps(l: Ledger, m: Ledger, slug: string, trail: seq<Attempt>, s: string)
    requires OneBudget(trail, l, s) && slug in l.markets && m == l.(markets := l.markets[slug := ExitError])
    ensures OneBudget(trail, m, s)
  {}

  lemma ExitFailureKeeps(l: Ledger, slug: string)
    requires Kept(l) && slug in l.markets
    ensures Kept(SetState(l, slug, ExitError))
  {
    var m := SetState(l, slug, ExitError);
    forall s ensures OneBudget(Trail(m, s), m, s) {
      assert Trail(m, s) == Trail(l, s);
      MarkedOnceKeeps(l, m, slug, Trail(l, s), s);
    }
    forall i | 0 <= i < |m.attempts| ensures m.attempts[i].ids != [] ==> DoneWith(m, m.attempts[i].slug) {
      assert m.attempts[i] == l.attempts[i];
    }
  }

  lemma RestartKeeps(l: Ledger, m: Ledger)
    requires Kept(l) && m == l.(retries := map[], runStart := |l.attempts|)
    ensures Kept(m)
  {
    assert m.attempts[m.runStart..] == [];
    assert forall s :: Trail(m, s) == [];
  }

  lemma StepKeeps(l: Ledger, mode: Mode, e: Event)
    requires Kept(l) && Proper(e)
    ensures Kept(Step(l, mode, e))
  {
    match e {
      case Considered(k) => ConsiderKeeps(l, mode, k);
      case Adopted(id, slug) => AdoptionKeeps(l, Step(l, mode, e));
      case ExitFailed(slug) => if slug in l.markets { ExitFailureKeeps(l, slug); }
      case Restarted => RestartKeeps(l, Step(l, mode, e));
    }
  }

  lemma {:induction false} HistoryKeeps(l: Ledger, mode: Mode, events: seq<Event>)
    requires Kept(l) && forall e <- events :: Proper(e)
    ensures Kept(After(l, mode, events))
    decreases |events|
  {
    if events != [] {
      StepKeeps(l, mode, events[0]);
      HistoryKeeps(Step(l, mode, events[0]), mode, events[1..]);
    }
  }

  /** Over every history, across restarts: at most one attempt at a market's entry records
      orders, and every attempt before it recorded none. */
  lemma {:induction false} AtMostOneAttemptRecords(mode: Mode, events: seq<Event>, i: nat, j: nat)
    requires forall e <- events :: Proper(e)
    requires i < j < |After(EMPTY, mode, events).attempts|
    requires After(EMPTY, mode, events).attempts[i].slug == After(EMPTY, mode, events).attempts[j].slug
    ensures After(EMPTY, mode, events).attempts[i].ids == []
  {
    HistoryKeeps(EMPTY, mode, events);
  }

  /** Over every history, of the attempts one process makes at a market the first knocks
      for its budget from when its turn came, and all the later ones to one end, counted
      from when the first started. The retry kept for the market counts exactly the sends
      they took. */
  lemma {:induction false} OneEndForAllAttempts(mode: Mode, events: seq<Event>, slug: string)
    requires forall e <- events :: Proper(e)
    ensures var l := After(EMPTY, mode, events);
            var trail := Trail(l, slug);
            && (trail != [] ==> trail[0].until == trail[0].asked + KNOCK_MS)
            && (forall j :: 1 <= j < |trail| ==> trail[j].until == trail[0].started + KNOCK_MS)
            && (slug in l.retries ==> l.retries[slug].attempts == Sends(trail))
  {
    HistoryKeeps(EMPTY, mode, events);
    assert OneBudget(Trail(After(EMPTY, mode, events), slug), After(EMPTY, mode, events), slug);
  }

  // ----- The orders table

  /** The last attempt to report the order, if any does. */
  predicate ReportedLast(attempts: seq<Attempt>, i: nat, id: string) {
    i < |attempts| && id in attempts[i].ids && forall j :: i < j < |attempts| ==> id !in attempts[j].ids
  }

  /** Every order reported is on the table, under the market of the last attempt to report
      it; and what is there was reported, or adopted for the market it is under. */
  ghost predicate TableFollows(l: Ledger, past: seq<Event>) {
    && (forall i, id :: 0 <= i < |l.attempts| && id in l.attempts[i].ids ==> id in l.orders)
    && (forall i: nat, id :: ReportedLast(l.attempts, i, id) ==> id in l.orders && l.orders[id] == l.attempts[i].slug)
    && (forall id <- l.orders ::
          (exists i :: 0 <= i < |l.attempts| && id in l.attempts[i].ids) || Adopted(id, l.orders[id]) in past)
  }

  lemma TriedFollows(l: Ledger, m: Ledger, slug: string, a: Attempt, past: seq<Event>, e: Event)
    requires TableFollows(l, past) && TriedOnce(l, m, slug, a)
    ensures TableFollows(m, past + [e])
  {
    var n := |l.attempts|;
    forall i: nat, id | ReportedLast(m.attempts, i, id)
      ensures id in m.orders && m.orders[id] == m.attempts[i].slug
    {
      if i < n {
        assert m.attempts[n] == a && forall j :: 0 <= j < n ==> m.attempts[j] == l.attempts[j];
        assert ReportedLast(l.attempts, i, id);
      }
    }
    forall id <- m.orders
      ensures (exists i :: 0 <= i < |m.attempts| && id in m.attempts[i].ids) || Adopted(id, m.orders[id]) in past + [e]
    {
      if id in a.ids {
        assert id in m.attempts[n].ids;
      } else if i :| 0 <= i < n && id in l.attempts[i].ids {
        assert id in m.attempts[i].ids;
      }
    }
  }

  lemma StepFollows(l: Ledger, mode: Mode, e: Event, past: seq<Event>)
    requires Kept(l) && Proper(e) && TableFollows(l, past)
    ensures TableFollows(Step(l, mode, e), past + [e])
  {
    var m := Step(l, mode, e);
    if e.Considered? {
      ConsiderShape(l, mode, e.k);
      if !Untried(l, m, e.k.slug) {
        TriedFollows(l, m, e.k.slug, AttemptAt(l, mode, e.k), past, e);
      }
    }
  }

  lemma {:induction false} HistoryFollows(l: Ledger, mode: Mode, events: seq<Event>, past: seq<Event>)
    requires Kept(l) && TableFollows(l, past) && forall e <- events :: Proper(e)
    ensures TableFollows(After(l, mode, events), past + events)
    decreases |events|
  {
    if events == [] {
      assert past + events == past;
    } else {
      StepKeeps(l, mode, events[0]);
      StepFollows(l, mode, events[0], past);
      HistoryFollows(Step(l, mode, events[0]), mode, events[1..], past + [events[0]]);
      assert past + [events[0]] + events[1..] == past + events;
    }
  }

  /** Over every history, across restarts: the orders table holds every order any attempt
      reported, under its own attempt's market (the last one's, should two report it), and
      no others but those adopted, each under the market it was adopted for. */
  lemma {:induction false} EveryOrderIsOnTheTable(mode: Mode, events: seq<Event>)
    requires forall e <- events :: Proper(e)
    ensures var l := After(EMPTY, mode, events);
            && (forall i, id :: 0 <= i < |l.attempts| && id in l.attempts[i].ids ==> id in l.orders)
            && (forall i: nat, id :: ReportedLast(l.attempts, i, id) ==>
                  id in l.orders && l.orders[id] == l.attempts[i].slug)
            && (forall id <- l.orders ::
                  (exists i :: 0 <= i < |l.attempts| && id in l.attempts[i].ids) || Adopted(id, l.orders[id]) in events)
  {
    HistoryFollows(EMPTY, mode, events, []);
    assert [] + events == events;
  }

  lemma {:induction false} AfterInTwo(l: Ledger, mode: Mode, events: seq<Event>, k: nat)
    requires k <= |events|
    ensures After(l, mode, events) == After(After(l, mode, events[..k]), mode, events[k..])
    decreases k
  {
    if k == 0 {
      assert events[0..] == events;
    } else {
      assert events[..k][0] == events[0] && events[..k][1..] == events[1..][..k - 1] && events[1..][k - 1..] == events[k..];
      AfterInTwo(Step(l, mode, events[0]), mode, events[1..], k - 1);
    }
  }

  lemma {:induction false} OrdersStay(l: Ledger, mode: Mode, events: seq<Event>, id: string)
    requires Kept(l) && id in l.orders && forall e <- events :: Proper(e)
    ensures id in After(l, mode, events).orders
    decreases |events|
  {
    if events != [] {
      var e := events[0];
      StepKeeps(l, mode, e);
      if e.Considered? { ConsiderShape(l, mode, e.k); }
      OrdersStay(Step(l, mode, e), mode, events[1..], id);
    }
  }

  /** An order adopted for a market on record is on the table from then on. */
  lemma {:induction false} AdoptedStays(mode: Mode, events: seq<Event>, k: nat, id: string, slug: string)
    requires k < |events| && events[k] == Adopted(id, slug) && forall e <- events :: Proper(e)
    requires slug in After(EMPTY, mode, events[..k]).markets
    ensures id in After(EMPTY, mode, events).orders
  {
    var before := After(EMPTY, mode, events[..k]);
    HistoryKeeps(EMPTY, mode, events[..k]);
    StepKeeps(before, mode, events[k]);
    AfterInTwo(EMPTY, mode, events, k);
    assert events[k..][1..] == events[k + 1..];
    OrdersStay(Step(before, mode, events[k]), mode, events[k + 1..], id);
  }

  /** A market once done with, whatever it is found to be afterwards, is never tried again. */
  lemma {:induction false} DoneForGood(l: Ledger, mode: Mode, events: seq<Event>, slug: string)
    requires DoneWith(l, slug)
    ensures var m := After(l, mode, events);
            DoneWith(m, slug) && AttemptsAt(m.attempts, slug) == AttemptsAt(l.attempts, slug)
    decreases |events|
  {
    if events != [] {
      StepLeavesDone(l, mode, events[0], slug);
      DoneForGood(Step(l, mode, events[0]), mode, events[1..], slug);
    }
  }

  ghost predicate LeavesAlone(l: Ledger, m: Ledger, slug: string) {
    && slug in m.markets && slug in l.markets && m.markets[slug] == l.markets[slug]
    && (m.attempts == l.attempts ||
        (m.attempts != [] && m.attempts[..|m.attempts| - 1] == l.attempts && m.attempts[|m.attempts| - 1].slug != slug))
  }

  lemma AloneLeavesOthers(l: Ledger, k: Look, until: int, slug: string)
    requires slug != k.slug && slug in l.markets
    ensures LeavesAlone(l, PlaceAlone(l, k, until), slug)
  {
    assert LeavesAlone(l, Tried(Record(l, k.slug, k.result.ids), k, until, k.result.sends, k.result.ids), slug);
  }

  lemma FleetLeavesOthers(l: Ledger, k: Look, until: int, slug: string)
    requires slug != k.slug && slug in l.markets
    ensures LeavesAlone(l, PlaceWithFleet(l, k, until), slug)
  {
    if k.placement.Settled? {
      var p := k.placement;
      assert LeavesAlone(l, Tried(Record(l, k.slug, p.ids), k, until, p.sends, p.ids), slug);
    }
  }

  lemma SubmitLeavesOthers(l: Ledger, mode: Mode, k: Look, until: int, slug: string)
    requires slug != k.slug && slug in l.markets
    ensures LeavesAlone(l, Submit(l, mode, k, until), slug)
  {
    match mode {
      case DryRun(outcomes) => assert LeavesAlone(l, PlaceDry(l, k, until, DryIds(k.slug, outcomes)), slug);
      case Solo => AloneLeavesOthers(l, k, until, slug);
      case Fleet => FleetLeavesOthers(l, k, until, slug);
    }
  }

  lemma PlaceLeavesOthers(l: Ledger, mode: Mode, k: Look, slug: string)
    requires slug != k.slug && slug in l.markets
    ensures LeavesAlone(l, Place(l, mode, k), slug)
  {
    SubmitLeavesOthers(Prepare(l, k.slug), mode, k, KnockUntil(l, k), slug);
  }

  lemma ConsiderLeavesDone(l: Ledger, mode: Mode, k: Look, slug: string)
    requires DoneWith(l, slug)
    ensures var m := Consider(l, mode, k).0;
            DoneWith(m, slug) && (slug == k.slug ==> m.attempts == l.attempts) && (slug != k.slug ==> LeavesAlone(l, m, slug))
  {
    if slug != k.slug { PlaceLeavesOthers(l, mode, k, slug); }
  }

  lemma {:induction false} StepLeavesDone(l: Ledger, mode: Mode, e: Event, slug: string)
    requires DoneWith(l, slug)
    ensures var m := Step(l, mode, e);
            DoneWith(m, slug) && AttemptsAt(m.attempts, slug) == AttemptsAt(l.attempts, slug)
  {
    if e.Considered? { ConsiderLeavesDone(l, mode, e.k, slug); }
  }

  // ----- One market taken up

  /** Everything that must hold for an attempt: the market is to be traded, can be started,
      fits the plan and the budgets, is known to the venue, and on its activation still has
      knocking time and a shut door. */
  predicate Cleared(l: Ledger, mode: Mode, k: Look) {
    && k.eligible && CanStart(l, k.slug)
    && k.buyOnTick && k.targetsOnTick && k.sizeMeetsMinimum && k.withinDaily && k.withinReserve
    && (mode.DryRun? || (if k.activated then k.asked < KnockUntil(l, k) && !k.doorOpen else k.booksReady))
  }

  lemma SubmitTries(l: Ledger, mode: Mode, k: Look, until: int)
    ensures |Submit(l, mode, k, until).attempts| == |l.attempts| + 1
  {
    match mode {
      case DryRun(outcomes) => assert |PlaceDry(l, k, until, DryIds(k.slug, outcomes)).attempts| == |l.attempts| + 1;
      case Solo => assert |PlaceAlone(l, k, until).attempts| == |l.attempts| + 1;
      case Fleet => assert |PlaceWithFleet(l, k, until).attempts| == |l.attempts| + 1;
    }
  }

  /** An attempt is made exactly when everything is cleared. The rest of the batch is left
      only over a budget. */
  lemma TriedExactly(l: Ledger, mode: Mode, k: Look)
    ensures Consider(l, mode, k).0.attempts != l.attempts <==> Cleared(l, mode, k)
    ensures !Consider(l, mode, k).1 <==>
            k.eligible && CanStart(l, k.slug) && !Unfit(k) && !(k.withinDaily && k.withinReserve)
    ensures !Consider(l, mode, k).1 ==> Consider(l, mode, k).0 == l
  {
    SubmitTries(Prepare(l, k.slug), mode, k, KnockUntil(l, k));
  }

  predicate GaveUp(mode: Mode, k: Look) {
    (mode.Solo? && k.result.gaveUp) || (mode.Fleet? && k.placement.Settled? && k.placement.gaveUp)
  }

  predicate Retryable(mode: Mode, k: Look) {
    (mode.Solo? && k.result.retryable) || (mode.Fleet? && k.placement.Settled? && k.placement.retryable)
  }

  predicate Whole(mode: Mode, k: Look) {
    match mode
    case DryRun(_) => true
    case Solo => !k.result.failed && |k.result.ids| == k.result.expected
    case Fleet => k.placement.Settled? && k.placement.kept
  }

  /** What an attempt leaves: the market is active exactly when the whole entry stands, else
      skipped when the attempt gave up without an order, else to be tried again when it may
      be and no order came of it, and else in error. Only one to be tried again keeps a
      retry. The attempt is told as it was made. */
  ghost predicate LeavesAsMade(m: Ledger, mode: Mode, k: Look, until: int) {
    && k.slug in m.markets && m.attempts != []
    && var (state, last) := (m.markets[k.slug], m.attempts[|m.attempts| - 1]);
       && (state.Active? <==> Whole(mode, k))
       && (state.Skipped? <==> !Whole(mode, k) && last.ids == [] && GaveUp(mode, k))
       && (state.Pending? <==> !Whole(mode, k) && last.ids == [] && !GaveUp(mode, k) && Retryable(mode, k))
       && (state.Active? || state.Skipped? || state.Pending? || state.Error?)
       && (state.Pending? <==> k.slug in m.retries)
       && (state.Pending? ==> m.retries[k.slug].lastFinished == k.finished)
       && last.slug == k.slug && last.until == until && (last.ids, last.sends) == Reported(mode, k)
  }

  lemma DryLeaves(l: Ledger, k: Look, until: int, outcomes: seq<string>)
    requires k.slug in l.markets && k.slug !in l.retries
    ensures LeavesAsMade(Submit(l, DryRun(outcomes), k, until), DryRun(outcomes), k, until)
  {}

  lemma AloneLeaves(l: Ledger, k: Look, until: int)
    requires k.slug in l.markets && (k.slug in l.retries ==> l.markets[k.slug].Pending?)
    ensures LeavesAsMade(PlaceAlone(l, k, until), Solo, k, until)
  {}

  lemma FleetLeaves(l: Ledger, k: Look, until: int)
    requires k.slug in l.markets && (k.slug in l.retries ==> l.markets[k.slug].Pending?) && Proper(Considered(k))
    ensures LeavesAsMade(PlaceWithFleet(l, k, until), Fleet, k, until)
  {}

  lemma AttemptLeaves(l: Ledger, mode: Mode, k: Look)
    requires Proper(Considered(k)) && Cleared(l, mode, k)
    requires k.slug in l.retries ==> k.slug in l.markets && !mode.DryRun?
    ensures LeavesAsMade(Consider(l, mode, k).0, mode, k, KnockUntil(l, k))
  {
    var until := KnockUntil(l, k);
    var prepared := Prepare(l, k.slug);
    assert Consider(l, mode, k).0 == Submit(prepared, mode, k, until);
    match mode {
      case DryRun(outcomes) => DryLeaves(prepared, k, until, outcomes);
      case Solo => AloneLeaves(prepared, k, until);
      case Fleet => FleetLeaves(prepared, k, until);
    }
  }

  /** A market not tried is skipped for good when it could be started but the plan does not
      fit it, or it is too late and no budget stands in the way; a retry whose market is no
      longer to be traded expires; and otherwise nothing changes. */
  lemma UntriedLeaves(l: Ledger, mode: Mode, k: Look)
    requires !Cleared(l, mode, k)
    ensures var m := Consider(l, mode, k).0;
            && m.orders == l.orders && m.attempts == l.attempts && SameElsewhere(l, m, k.slug)
            && if k.eligible && CanStart(l, k.slug) && (Unfit(k) || (k.withinDaily && k.withinReserve && TooLate(l, mode, k)))
               then k.slug in m.markets && m.markets[k.slug].Skipped? && k.slug !in m.retries
               else if !k.eligible && k.slug in l.retries
               then k.slug !in m.retries && (k.slug in l.markets ==> k.slug in m.markets && m.markets[k.slug].Expired?)
               else m == l
  {
    if !k.eligible && k.slug in l.retries {
      assert SameElsewhere(l, SetState(Forget(l, k.slug), k.slug, Expired), k.slug);
    }
  }

  /** A market with an order on the table is not tried again, whoever recorded the order:
      one adopted for a market that waits to be tried again ends its tries. */
  lemma OrderEndsTheTries(l: Ledger, mode: Mode, k: Look, id: string)
    requires k.slug in l.markets && id in l.orders && l.orders[id] == k.slug
    ensures Consider(l, mode, k).0.attempts == l.attempts
  {
    assert k.slug in l.orders.Values;
    TriedExactly(l, mode, k);
  }
}
