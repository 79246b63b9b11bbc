/** The coordinator of one knock as values: what each event does to a member
    (knocker/internal/knock/knock.go, coordinate to stop), and what every run keeps.

    One clock, in nanoseconds, serves for the deadlines and the drains. Replies arrive
    already classified (knocker/internal/venue/reply.go); the sends themselves are the
    member's sent and answered: which leg each attempt carried, and which attempts have
    handed a reply back. */
module KnockModel {
  import opened Options

  const NANOS_PER_MS := 1_000_000
  const DRAIN_TIME := 3_000_000_000
  const LANES := 15
  const STREAMS_PER_LANE := 100
  const FLEET_ACCOUNTS := 5
  const IN_FLIGHT_CAP := LANES * STREAMS_PER_LANE / FLEET_ACCOUNTS

  const KNOCK_BUDGET_ERROR := "no acceptance within the knocking budget"
  const MARKET_ENDED_ERROR := "market ended before both orders were accepted"
  const STOPPED_ERROR := "knocking stopped: the bot is shutting down"

  datatype Leg = Leg(outcome: string, body: string)

  /** How the coordinator takes a reply: as no verdict, as an order, or as one of two kinds of refusal. */
  datatype Class = Class(transient: bool, accepted: bool, orderId: string, notReady: bool)

  datatype Reply = Reply(outcome: string, returned: int, status: int, body: string, verdict: Class,
                         local: Option<string>)

  datatype AcceptedOrder = AcceptedOrder(outcome: string, orderId: string, status: int, body: string)

  // ----- Replies and texts kept once each

  datatype Key = ReplyKey(status: int, body: string) | StatusKey(status: int) | TextKey(text: string)

  datatype Item = Response(status: int, body: string) | Text(text: string)

  datatype Items = Items(seen: set<Key>, list: seq<Item>)
  {
    function Add(key: Key, item: Item): Items {
      if key in seen then this else Items(seen + {key}, list + [item])
    }

    function AddReply(status: int, body: string): Items { Add(ReplyKey(status, body), Response(status, body)) }

    /** One reply a status is enough here. */
    function FirstOf(status: int, body: string): Items { Add(StatusKey(status), Response(status, body)) }

    function AddText(text: string): Items { Add(TextKey(text), Text(text)) }

    /** A text is listed exactly when it has been seen, and nothing seen goes unlisted. */
    ghost predicate Consistent() {
      && (forall text :: TextKey(text) in seen <==> Text(text) in list)
      && (seen != {} ==> list != [])
    }
  }

  const NO_ITEMS := Items({}, [])

  // ----- One member

  datatype MemberState = MemberState(
    legs: seq<Leg>,
    attempts: nat, heldBack: nat, inFlight: int,
    accepted: map<string, AcceptedOrder>, registered: int,
    errors: Items, ambiguous: Items,
    stopped: bool, gaveUp: bool, drainUntil: int, sending: bool,
    sent: seq<string>, answered: set<nat>)

  function Start(legs: seq<Leg>): MemberState {
    MemberState(legs, 0, 0, 0, map[], 0, NO_ITEMS, NO_ITEMS, false, false, 0, true, [], {})
  }

  function Wall(now: int): int { now / NANOS_PER_MS }

  /** Nothing about the slots and sends is touched. */
  predicate SameSends(m: MemberState, r: MemberState) {
    r.legs == m.legs && r.attempts == m.attempts && r.heldBack == m.heldBack && r.sent == m.sent
  }

  function Stop(m: MemberState, now: int): (r: MemberState)
    ensures SameSends(m, r)
  {
    if m.stopped then m else m.(stopped := true, sending := false, drainUntil := now + DRAIN_TIME)
  }

  predicate Past(knockUntil: int, marketEnd: int, now: int) {
    marketEnd <= Wall(now) || knockUntil <= Wall(now)
  }

  function PastDeadline(m: MemberState, knockUntil: int, marketEnd: int, now: int): (r: MemberState)
    ensures SameSends(m, r)
  {
    if marketEnd <= Wall(now) then Stop(m.(errors := m.errors.AddText(MARKET_ENDED_ERROR)), now)
    else if knockUntil <= Wall(now) then
      Stop(m.(errors := m.errors.AddText(KNOCK_BUDGET_ERROR), gaveUp := true), now)
    else m
  }

  /** The legs not registered yet, in plan order. */
  function Remaining(legs: seq<Leg>, accepted: map<string, AcceptedOrder>): seq<Leg> {
    if legs == [] then []
    else (if legs[0].outcome in accepted then [] else [legs[0]]) + Remaining(legs[1..], accepted)
  }

  /** The legs a slot chooses from: all of them if none is left unregistered. */
  function Candidates(m: MemberState): seq<Leg> {
    var remaining := Remaining(m.legs, m.accepted);
    if remaining == [] then m.legs else remaining
  }

  function Choice(m: MemberState): Leg
    requires m.legs != []
  {
    Candidates(m)[m.attempts % |Candidates(m)|]
  }

  function OnSlot(m: MemberState, knockUntil: int, marketEnd: int, now: int): (r: MemberState)
    requires m.legs != []
    ensures r.legs == m.legs
  {
    if m.stopped then m
    else if Past(knockUntil, marketEnd, now) then PastDeadline(m, knockUntil, marketEnd, now)
    else if IN_FLIGHT_CAP <= m.inFlight then m.(heldBack := m.heldBack + 1)
    else m.(attempts := m.attempts + 1, inFlight := m.inFlight + 1, sent := m.sent + [Choice(m).outcome])
  }

  /** A registered order and the time of the reply that carried it. */
  function Register(m: MemberState, rep: Reply): (r: MemberState)
    ensures SameSends(m, r)
  {
    m.(accepted := m.accepted[rep.outcome := AcceptedOrder(rep.outcome, rep.verdict.orderId, rep.status, rep.body)],
       registered := if m.registered == 0 || rep.returned < m.registered then rep.returned else m.registered)
  }

  function Conflict(outcome: string, earlier: string, later: string): string {
    "conflicting " + outcome + " order ids: " + earlier + ", " + later
  }

  function OnVerdict(m: MemberState, rep: Reply, now: int): (r: MemberState)
    ensures SameSends(m, r)
  {
    var judged :=
      if !rep.verdict.accepted then m.(errors := m.errors.AddReply(rep.status, rep.body))
      else if rep.outcome in m.accepted && m.accepted[rep.outcome].orderId != rep.verdict.orderId then
        Stop(m.(ambiguous := m.ambiguous.AddText(
                  Conflict(rep.outcome, m.accepted[rep.outcome].orderId, rep.verdict.orderId))), now)
      else Register(m, rep);
    if |judged.accepted| == |judged.legs| then Stop(judged, now)
    else if !rep.verdict.accepted && !rep.verdict.notReady then Stop(judged, now)
    else judged
  }

  function OnReply(m: MemberState, attempt: nat, rep: Reply, now: int): (r: MemberState)
    ensures SameSends(m, r)
  {
    var m := HandedBack(m, attempt);
    if m.stopped && m.drainUntil < now then m else OnFreshReply(m, rep, now)
  }

  function HandedBack(m: MemberState, attempt: nat): MemberState {
    m.(inFlight := m.inFlight - 1, answered := m.answered + {attempt})
  }

  /** A reply that still counts: the member is sending, or draining. */
  function OnFreshReply(m: MemberState, rep: Reply, now: int): (r: MemberState)
    ensures SameSends(m, r)
  {
    match rep.local
    case Some(error) => Stop(m.(ambiguous := m.ambiguous.AddText(error)), now)
    case None =>
      if rep.verdict.transient then m.(ambiguous := m.ambiguous.FirstOf(rep.status, rep.body))
      else OnVerdict(m, rep, now)
  }

  // ----- The knock

  datatype Knock = Knock(members: seq<MemberState>, knockUntil: int, marketEnd: int)

  datatype Event =
    | SlotDue(member: nat)
    | ReplyIn(member: nat, attempt: nat, reply: Reply)
    | GiveUp(until: int)
    | Failed(error: string)
    | Stopping
    | TimerFired

  /** What the event does to member i. */
  function OnEvent(m: MemberState, i: nat, knockUntil: int, marketEnd: int, now: int, e: Event): (r: MemberState)
    requires m.legs != []
    ensures r.legs == m.legs
  {
    match e
    case SlotDue(j) => if i == j then OnSlot(m, knockUntil, marketEnd, now) else m
    case ReplyIn(j, attempt, rep) => if i == j then OnReply(m, attempt, rep, now) else m
    case GiveUp(_) => m
    case Failed(error) =>
      if m.stopped then m else Stop(m.(ambiguous := m.ambiguous.AddText("knock failed: " + error)), now)
    case Stopping =>
      if m.stopped then m else Stop(m.(errors := m.errors.AddText(STOPPED_ERROR)), now)
    case TimerFired => if m.stopped then m else PastDeadline(m, knockUntil, marketEnd, now)
  }

  predicate HasLegs(k: Knock) { forall i :: 0 <= i < |k.members| ==> k.members[i].legs != [] }

  function Least(a: int, b: int): int { if a < b then a else b }

  function Step(k: Knock, now: int, e: Event): (next: Knock)
    requires HasLegs(k)
    ensures HasLegs(next)
  {
    Knock(seq(|k.members|, i requires 0 <= i < |k.members| =>
                OnEvent(k.members[i], i, k.knockUntil, k.marketEnd, now, e)),
          if e.GiveUp? then Least(k.knockUntil, e.until) else k.knockUntil,
          k.marketEnd)
  }

  // ----- What the events of a run are

  predicate GoodReply(rep: Reply) {
    && 0 < rep.returned
    && (rep.verdict.accepted ==> rep.verdict.orderId != "" && !rep.verdict.notReady)
    && (rep.verdict.transient ==> !rep.verdict.accepted)
  }

  /** Slots and replies name members; a reply answers an attempt that was sent, carries
      its leg, and each attempt is answered once at most. */
  predicate Possible(k: Knock, e: Event) {
    match e
    case SlotDue(j) => j < |k.members|
    case ReplyIn(j, attempt, rep) =>
      && j < |k.members| && GoodReply(rep)
      && 1 <= attempt <= |k.members[j].sent| && attempt !in k.members[j].answered
      && rep.outcome == k.members[j].sent[attempt - 1]
    case _ => true
  }

  /** One turn of the coordinator: when it looked what is pending, and the event it then
      took up, at a moment no earlier. */
  datatype Timed = Timed(looked: int, at: int, event: Event)

  /** Turns happen in time order, each event possible when it comes. */
  ghost predicate Run(k: Knock, clock: int, events: seq<Timed>)
    requires HasLegs(k)
    decreases |events|
  {
    events == [] ||
    (clock <= events[0].looked <= events[0].at && Possible(k, events[0].event) &&
     Run(Step(k, events[0].at, events[0].event), events[0].at, events[1..]))
  }

  function After(k: Knock, events: seq<Timed>): (end: Knock)
    requires HasLegs(k)
    ensures HasLegs(end) && |end.members| == |k.members| && end.marketEnd == k.marketEnd
    decreases |events|
  {
    if events == [] then k
    else After(Step(k, events[0].at, events[0].event), events[1..])
  }

  // ----- The invariant

  function Outcomes(legs: seq<Leg>): set<string> { set leg <- legs :: leg.outcome }

  predicate DistinctOutcomes(legs: seq<Leg>) {
    forall i, j :: 0 <= i < j < |legs| ==> legs[i].outcome != legs[j].outcome
  }

  ghost predicate Sound(m: MemberState, marketEnd: int) {
    && m.legs != [] && DistinctOutcomes(m.legs)
    && SendsCounted(m)
    && OrdersKnown(m)
    && StopExplained(m, marketEnd)
  }

  /** In flight is what was sent and not answered, within the account's share. */
  ghost predicate SendsCounted(m: MemberState) {
    && m.attempts == |m.sent|
    && (forall a <- m.answered :: 1 <= a <= |m.sent|)
    && m.inFlight == m.attempts - |m.answered|
    && 0 <= m.inFlight <= IN_FLIGHT_CAP
    && (forall o <- m.sent :: o in Outcomes(m.legs))
  }

  ghost predicate OrdersKnown(m: MemberState) {
    && (forall o <- m.accepted.Keys :: o in Outcomes(m.legs))
    && (forall o <- m.accepted.Keys :: m.accepted[o].outcome == o && m.accepted[o].orderId != "")
    && (m.registered == 0 <==> m.accepted == map[])
    && 0 <= m.registered
    && (!m.stopped ==> |m.accepted| < |m.legs|)
  }

  /** A stopped member has every leg registered or says why not; it gave up exactly when
      it says its budget ran out, and then before the market ended. */
  ghost predicate StopExplained(m: MemberState, marketEnd: int) {
    && m.errors.Consistent() && m.ambiguous.Consistent()
    && m.sending == !m.stopped
    && (m.stopped ==> |m.accepted| == |m.legs| || m.errors.list != [] || m.ambiguous.list != [])
    && (m.gaveUp <==> Text(KNOCK_BUDGET_ERROR) in m.errors.list)
    && (m.gaveUp ==> m.stopped && Wall(m.drainUntil - DRAIN_TIME) < marketEnd)
    && (Text(MARKET_ENDED_ERROR) in m.errors.list ==>
          m.stopped && !m.gaveUp && marketEnd <= Wall(m.drainUntil - DRAIN_TIME))
  }

  ghost predicate AllSound(k: Knock) {
    forall i :: 0 <= i < |k.members| ==> Sound(k.members[i], k.marketEnd)
  }

  // ----- The invariant is kept

  lemma {:induction false} RangeCard(s: set<nat>, n: nat)
    requires forall a <- s :: 1 <= a <= n
    ensures |s| <= n
  {
    if n == 0 {
      assert (forall a :: a !in s) ==> s == {};
    } else {
      RangeCard(s - {n}, n - 1);
      if n in s { assert |s| == |s - {n}| + 1; } else { assert s - {n} == s; }
    }
  }

  lemma {:induction false} OutcomesCard(legs: seq<Leg>)
    requires DistinctOutcomes(legs)
    ensures |Outcomes(legs)| == |legs|
  {
    if legs == [] {
      assert Outcomes(legs) == {};
    } else {
      var n := |legs| - 1;
      OutcomesCard(legs[..n]);
      assert legs == legs[..n] + [legs[n]];
      assert Outcomes(legs) == Outcomes(legs[..n]) + {legs[n].outcome};
    }
  }

  lemma SubsetCard(a: set<string>, b: set<string>)
    requires a <= b
    ensures |a| <= |b| && (a != b ==> |a| < |b|)
  {
    assert b == a + (b - a);
    assert (b - a == {}) ==> a == b;
  }

  /** Registered legs never outnumber the legs, and fall short exactly when some leg is
      still unregistered. */
  lemma AcceptedCard(m: MemberState)
    requires DistinctOutcomes(m.legs) && m.accepted.Keys <= Outcomes(m.legs)
    ensures |m.accepted| <= |m.legs|
    ensures |m.accepted| < |m.legs| <==> Remaining(m.legs, m.accepted) != []
  {
    OutcomesCard(m.legs);
    SubsetCard(m.accepted.Keys, Outcomes(m.legs));
    assert |m.accepted| == |m.accepted.Keys|;
    RemainingExactly(m.legs, m.accepted);
    if Remaining(m.legs, m.accepted) == [] {
      forall o | o in Outcomes(m.legs)
        ensures o in m.accepted.Keys
      {
        var leg :| leg in m.legs && leg.outcome == o;
        assert leg !in Remaining(m.legs, m.accepted);
      }
      assert m.accepted.Keys == Outcomes(m.legs);
    } else {
      var leg := Remaining(m.legs, m.accepted)[0];
      assert leg in Remaining(m.legs, m.accepted);
      assert leg.outcome in Outcomes(m.legs) && leg.outcome !in m.accepted.Keys;
    }
  }

  lemma {:induction false} RemainingExactly(legs: seq<Leg>, accepted: map<string, AcceptedOrder>)
    ensures forall leg :: leg in Remaining(legs, accepted) <==> leg in legs && leg.outcome !in accepted
  {
    if legs != [] {
      RemainingExactly(legs[1..], accepted);
      assert legs == [legs[0]] + legs[1..];
    }
  }

  lemma AddedText(l: Items, text: string)
    requires l.Consistent()
    ensures l.AddText(text).Consistent() && l.AddText(text).list != []
    ensures forall t :: Text(t) in l.AddText(text).list <==> t == text || Text(t) in l.list
  {
    assert forall t :: Text(t) in l.list + [Text(text)] <==> Text(t) in l.list || t == text;
  }

  lemma AddedResponse(l: Items, key: Key, status: int, body: string)
    requires l.Consistent() && !key.TextKey?
    ensures l.Add(key, Response(status, body)).Consistent()
    ensures forall t :: Text(t) in l.Add(key, Response(status, body)).list <==> Text(t) in l.list
    ensures l.Add(key, Response(status, body)).list != []
  {
    assert forall t :: Text(t) in l.list + [Response(status, body)] <==> Text(t) in l.list;
  }

  lemma DeadlineSound(m: MemberState, knockUntil: int, marketEnd: int, now: int)
    requires Sound(m, marketEnd) && !m.stopped
    ensures Sound(PastDeadline(m, knockUntil, marketEnd, now), marketEnd)
  {
    AddedText(m.errors, MARKET_ENDED_ERROR);
    AddedText(m.errors, KNOCK_BUDGET_ERROR);
    TextsDiffer();
  }

  lemma TextsDiffer()
    ensures KNOCK_BUDGET_ERROR != MARKET_ENDED_ERROR
    ensures STOPPED_ERROR != KNOCK_BUDGET_ERROR && STOPPED_ERROR != MARKET_ENDED_ERROR
  {
    assert |KNOCK_BUDGET_ERROR| == 40 && |MARKET_ENDED_ERROR| == 45 && |STOPPED_ERROR| == 42;
  }

  lemma SlotSound(m: MemberState, knockUntil: int, marketEnd: int, now: int)
    requires Sound(m, marketEnd)
    ensures Sound(OnSlot(m, knockUntil, marketEnd, now), marketEnd)
  {
    if !m.stopped && Past(knockUntil, marketEnd, now) {
      DeadlineSound(m, knockUntil, marketEnd, now);
    } else if !m.stopped && m.inFlight < IN_FLIGHT_CAP {
      SlotSendsUnregistered(m, knockUntil, marketEnd, now);
    }
  }

  /** The fallback to all legs is never taken: a member still sending has an unregistered
      leg, and a slot sends one. */
  lemma SlotSendsUnregistered(m: MemberState, knockUntil: int, marketEnd: int, now: int)
    requires Sound(m, marketEnd) && !m.stopped
    ensures Remaining(m.legs, m.accepted) != []
    ensures Choice(m) in m.legs && Choice(m).outcome !in m.accepted
  {
    AcceptedCard(m);
    RemainingExactly(m.legs, m.accepted);
    assert Choice(m) in Remaining(m.legs, m.accepted);
  }

  lemma RegisterSound(m: MemberState, rep: Reply)
    requires OrdersKnown(m.(stopped := true)) && GoodReply(rep) && rep.verdict.accepted && rep.outcome in Outcomes(m.legs)
    ensures OrdersKnown(Register(m, rep).(stopped := true))
  {
    assert rep.outcome in Register(m, rep).accepted;
  }

  lemma VerdictSound(m: MemberState, rep: Reply, marketEnd: int, now: int)
    requires Sound(m, marketEnd) && GoodReply(rep) && rep.outcome in Outcomes(m.legs)
    ensures Sound(OnVerdict(m, rep, now), marketEnd)
  {
    if !rep.verdict.accepted {
      AddedResponse(m.errors, ReplyKey(rep.status, rep.body), rep.status, rep.body);
    } else if rep.outcome in m.accepted && m.accepted[rep.outcome].orderId != rep.verdict.orderId {
      AddedText(m.ambiguous, Conflict(rep.outcome, m.accepted[rep.outcome].orderId, rep.verdict.orderId));
    } else {
      AcceptedSound(m, rep, marketEnd, now);
    }
  }

  lemma AcceptedSound(m: MemberState, rep: Reply, marketEnd: int, now: int)
    requires Sound(m, marketEnd) && GoodReply(rep) && rep.verdict.accepted && rep.outcome in Outcomes(m.legs)
    ensures var r := Register(m, rep);
            Sound(if |r.accepted| == |r.legs| then Stop(r, now) else r, marketEnd)
  {
    var r := Register(m, rep);
    RegisterSound(m, rep);
    AcceptedCard(r);
    SubsetCard(m.accepted.Keys, r.accepted.Keys);
    var x := if |r.accepted| == |r.legs| then Stop(r, now) else r;
    assert SendsCounted(x);
    assert OrdersKnown(x);
    assert |m.accepted| == |m.accepted.Keys| && |r.accepted| == |r.accepted.Keys|;
    assert StopExplained(x, marketEnd);
  }

  lemma ReplySound(m: MemberState, attempt: nat, rep: Reply, marketEnd: int, now: int)
    requires Sound(m, marketEnd) && GoodReply(rep) && 1 <= attempt <= |m.sent| && attempt !in m.answered
    requires rep.outcome == m.sent[attempt - 1]
    ensures Sound(OnReply(m, attempt, rep, now), marketEnd)
  {
    HandedBackSound(m, attempt, marketEnd);
    assert m.sent[attempt - 1] in m.sent;
    if !(m.stopped && m.drainUntil < now) { FreshReplySound(HandedBack(m, attempt), rep, marketEnd, now); }
  }

  lemma HandedBackSound(m: MemberState, attempt: nat, marketEnd: int)
    requires Sound(m, marketEnd) && 1 <= attempt <= |m.sent| && attempt !in m.answered
    ensures Sound(HandedBack(m, attempt), marketEnd)
  {
    RangeCard(m.answered + {attempt}, |m.sent|);
  }

  lemma FreshReplySound(m: MemberState, rep: Reply, marketEnd: int, now: int)
    requires Sound(m, marketEnd) && GoodReply(rep) && rep.outcome in Outcomes(m.legs)
    ensures Sound(OnFreshReply(m, rep, now), marketEnd)
  {
    match rep.local
    case Some(error) => AddedText(m.ambiguous, error);
    case None =>
      if rep.verdict.transient {
        AddedResponse(m.ambiguous, StatusKey(rep.status), rep.status, rep.body);
      } else {
        VerdictSound(m, rep, marketEnd, now);
      }
  }

  lemma EventSound(m: MemberState, i: nat, k: Knock, now: int, e: Event)
    requires HasLegs(k) && i < |k.members| && m == k.members[i] && Sound(m, k.marketEnd) && Possible(k, e)
    ensures Sound(OnEvent(m, i, k.knockUntil, k.marketEnd, now, e), k.marketEnd)
  {
    match e
    case SlotDue(j) => if i == j { SlotSound(m, k.knockUntil, k.marketEnd, now); }
    case ReplyIn(j, attempt, rep) => if i == j { ReplySound(m, attempt, rep, k.marketEnd, now); }
    case GiveUp(_) =>
    case Failed(error) => AddedText(m.ambiguous, "knock failed: " + error);
    case Stopping =>
      AddedText(m.errors, STOPPED_ERROR);
      TextsDiffer();
    case TimerFired => if !m.stopped { DeadlineSound(m, k.knockUntil, k.marketEnd, now); }
  }

  lemma StepSound(k: Knock, now: int, e: Event)
    requires HasLegs(k) && AllSound(k) && Possible(k, e)
    ensures AllSound(Step(k, now, e))
  {
    forall i | 0 <= i < |k.members|
      ensures Sound(Step(k, now, e).members[i], k.marketEnd)
    {
      EventSound(k.members[i], i, k, now, e);
    }
  }

  /** For every interleaving of slots, replies, give-ups, failures, stops and timer events,
      in any order and number: every member stays sound. */
  lemma {:induction false} RunSound(k: Knock, clock: int, events: seq<Timed>)
    requires HasLegs(k) && AllSound(k) && Run(k, clock, events)
    ensures AllSound(After(k, events))
    decreases |events|
  {
    if events != [] {
      var t := events[0];
      StepSound(k, t.at, t.event);
      RunSound(Step(k, t.at, t.event), t.at, events[1..]);
    }
  }

  /** A knock starts sound. */
  lemma StartSound(legs: seq<Leg>, marketEnd: int)
    requires legs != [] && DistinctOutcomes(legs)
    ensures Sound(Start(legs), marketEnd)
  {}

  // ----- Which events stop a member, and what they leave on record

  /** The reply names another order than the one registered for its leg. */
  predicate OtherId(m: MemberState, rep: Reply) {
    rep.outcome in m.accepted && m.accepted[rep.outcome].orderId != rep.verdict.orderId
  }

  /** The reply registers the only leg that is still missing. */
  predicate LastLeg(m: MemberState, rep: Reply) {
    rep.outcome !in m.accepted && |m.accepted| + 1 == |m.legs|
  }

  /** The event ends the sending of member i, told by what the event itself carries. */
  ghost predicate Ends(k: Knock, i: nat, at: int, e: Event)
    requires i < |k.members|
  {
    match e
    case SlotDue(j) => i == j && (k.marketEnd <= Wall(at) || k.knockUntil <= Wall(at))
    case TimerFired => k.marketEnd <= Wall(at) || k.knockUntil <= Wall(at)
    case GiveUp(_) => false
    case Failed(_) => true
    case Stopping => true
    case ReplyIn(j, _, rep) =>
      i == j && (rep.local.Some? ||
                 (!rep.verdict.transient &&
                  if rep.verdict.accepted then OtherId(k.members[i], rep) || LastLeg(k.members[i], rep)
                  else !rep.verdict.notReady))
  }

  lemma RegisteredCount(m: MemberState, rep: Reply)
    ensures |Register(m, rep).accepted| == |m.accepted| + (if rep.outcome in m.accepted then 0 else 1)
  {
    var r := Register(m, rep);
    assert r.accepted.Keys == m.accepted.Keys + {rep.outcome};
    assert |r.accepted| == |r.accepted.Keys| && |m.accepted| == |m.accepted.Keys|;
  }

  /** Whatever stopped the member dropped it from the sending at once and gave it its drain. */
  predicate StoppedBy(m: MemberState, r: MemberState, now: int) {
    if r.stopped then !r.sending && r.drainUntil == now + DRAIN_TIME else r.sending == m.sending
  }

  lemma DeadlineStops(m: MemberState, knockUntil: int, marketEnd: int, now: int)
    requires !m.stopped
    ensures var r := PastDeadline(m, knockUntil, marketEnd, now);
            (r.stopped <==> marketEnd <= Wall(now) || knockUntil <= Wall(now)) && StoppedBy(m, r, now)
  {}

  lemma ReplyStopsExactly(m: MemberState, attempt: nat, rep: Reply, now: int)
    requires !m.stopped && |m.accepted| < |m.legs| && GoodReply(rep)
    ensures OnReply(m, attempt, rep, now).stopped <==>
            rep.local.Some? || (!rep.verdict.transient && if rep.verdict.accepted then OtherId(m, rep) || LastLeg(m, rep)
                                                          else !rep.verdict.notReady)
    ensures StoppedBy(m, OnReply(m, attempt, rep, now), now)
  {
    RegisteredCount(HandedBack(m, attempt), rep);
  }

  /** A member that is sending goes on through everything but these: a failed knock or a
      stop, a deadline seen past at its own slot or when the timer fires, a local error, a
      refusal other than "not open yet", a second id for a leg, and its last leg accepted.
      Once stopped it drains for DRAIN_TIME from that moment. */
  lemma StopsExactly(k: Knock, i: nat, at: int, e: Event)
    requires HasLegs(k) && i < |k.members| && Sound(k.members[i], k.marketEnd) && !k.members[i].stopped && Possible(k, e)
    ensures var m := Step(k, at, e).members[i];
            && (m.stopped <==> Ends(k, i, at, e))
            && (if m.stopped then !m.sending && m.drainUntil == at + DRAIN_TIME else m.sending)
  {
    var m := k.members[i];
    match e
    case SlotDue(_) => DeadlineStops(m, k.knockUntil, k.marketEnd, at);
    case ReplyIn(_, attempt, rep) => ReplyStopsExactly(m, attempt, rep, at);
    case GiveUp(_) =>
    case Failed(_) =>
    case Stopping =>
    case TimerFired => DeadlineStops(m, k.knockUntil, k.marketEnd, at);
  }

  /** It gives up exactly at a deadline seen past while the market still runs, and nothing
      takes that back or adds it to a member stopped otherwise. */
  lemma GivesUpExactly(k: Knock, i: nat, at: int, e: Event)
    requires HasLegs(k) && i < |k.members|
    ensures Step(k, at, e).members[i].gaveUp <==>
            || k.members[i].gaveUp
            || (!k.members[i].stopped && (e == TimerFired || e == SlotDue(i)) && k.knockUntil <= Wall(at) < k.marketEnd)
  {
    var m := k.members[i];
    match e
    case SlotDue(_) =>
    case ReplyIn(_, attempt, rep) => ReplyGivesNothingUp(m, attempt, rep, at);
    case GiveUp(_) =>
    case Failed(_) =>
    case Stopping =>
    case TimerFired =>
  }

  lemma ReplyGivesNothingUp(m: MemberState, attempt: nat, rep: Reply, now: int)
    ensures OnReply(m, attempt, rep, now).gaveUp == m.gaveUp
  {}

  /** The event is a reply of member i that still counts: the member is sending or draining. */
  predicate Counts(k: Knock, i: nat, at: int, e: Event)
    requires i < |k.members|
  {
    e.ReplyIn? && e.member == i && (!k.members[i].stopped || at <= k.members[i].drainUntil)
  }

  /** Something put on record, under the key that keeps it from being listed twice. */
  datatype Note = Note(key: Key, item: Item)

  function TextNote(text: string): Note { Note(TextKey(text), Text(text)) }

  /** What the event leaves in doubt about an order of member i: that the knock failed, a
      local error, a send without a verdict, one of each status, or a second id for a leg. */
  function DoubtOf(k: Knock, i: nat, at: int, e: Event): Option<Note>
    requires i < |k.members|
  {
    if e.Failed? && !k.members[i].stopped then Some(TextNote("knock failed: " + e.error))
    else if !Counts(k, i, at, e) then None
    else
      var rep := e.reply;
      if rep.local.Some? then Some(TextNote(rep.local.value))
      else if rep.verdict.transient then Some(Note(StatusKey(rep.status), Response(rep.status, rep.body)))
      else if rep.verdict.accepted && OtherId(k.members[i], rep) then
        Some(TextNote(Conflict(rep.outcome, k.members[i].accepted[rep.outcome].orderId, rep.verdict.orderId)))
      else None
  }

  /** What it leaves as an error: that the bot stops, a deadline, or a refusal. */
  function ErrorOf(k: Knock, i: nat, at: int, e: Event): Option<Note>
    requires i < |k.members|
  {
    if Counts(k, i, at, e) then
      var rep := e.reply;
      if rep.local.Some? || rep.verdict.transient || rep.verdict.accepted then None
      else Some(Note(ReplyKey(rep.status, rep.body), Response(rep.status, rep.body)))
    else if k.members[i].stopped then None
    else if e.Stopping? then Some(TextNote(STOPPED_ERROR))
    else if e != TimerFired && e != SlotDue(i) then None
    else if k.marketEnd <= Wall(at) then Some(TextNote(MARKET_ENDED_ERROR))
    else if k.knockUntil <= Wall(at) then Some(TextNote(KNOCK_BUDGET_ERROR))
    else None
  }

  /** The note, if there is one, is on record, listed unless one of its key was before; and
      nothing else has changed. */
  predicate Noted(l: Items, r: Items, note: Option<Note>) {
    match note
    case None => r == l
    case Some(n) =>
      r.seen == l.seen + {n.key} && r.list == (if n.key in l.seen then l.list else l.list + [n.item])
  }

  lemma AddNotes(l: Items, n: Note)
    ensures Noted(l, l.Add(n.key, n.item), Some(n))
  {
    if n.key in l.seen { assert l.seen + {n.key} == l.seen; }
  }

  lemma VerdictNotes(m: MemberState, rep: Reply, now: int)
    ensures Noted(m.ambiguous, OnVerdict(m, rep, now).ambiguous,
                  if rep.verdict.accepted && OtherId(m, rep)
                  then Some(TextNote(Conflict(rep.outcome, m.accepted[rep.outcome].orderId, rep.verdict.orderId))) else None)
    ensures Noted(m.errors, OnVerdict(m, rep, now).errors,
                  if rep.verdict.accepted then None
                  else Some(Note(ReplyKey(rep.status, rep.body), Response(rep.status, rep.body))))
  {
    AddNotes(m.errors, Note(ReplyKey(rep.status, rep.body), Response(rep.status, rep.body)));
    if OtherId(m, rep) {
      AddNotes(m.ambiguous, TextNote(Conflict(rep.outcome, m.accepted[rep.outcome].orderId, rep.verdict.orderId)));
    }
  }

  lemma ReplyNotes(k: Knock, i: nat, at: int, e: Event)
    requires i < |k.members| && Counts(k, i, at, e)
    ensures var m, r := k.members[i], OnReply(k.members[i], e.attempt, e.reply, at);
            Noted(m.ambiguous, r.ambiguous, DoubtOf(k, i, at, e)) && Noted(m.errors, r.errors, ErrorOf(k, i, at, e))
  {
    var m, rep := k.members[i], e.reply;
    match rep.local
    case Some(error) => AddNotes(m.ambiguous, TextNote(error));
    case None =>
      if rep.verdict.transient {
        AddNotes(m.ambiguous, Note(StatusKey(rep.status), Response(rep.status, rep.body)));
      } else {
        VerdictNotes(HandedBack(m, e.attempt), rep, at);
      }
  }

  lemma DeadlineNotes(m: MemberState, knockUntil: int, marketEnd: int, now: int)
    ensures var r := PastDeadline(m, knockUntil, marketEnd, now);
            && r.ambiguous == m.ambiguous
            && Noted(m.errors, r.errors,
                     if marketEnd <= Wall(now) then Some(TextNote(MARKET_ENDED_ERROR))
                     else if knockUntil <= Wall(now) then Some(TextNote(KNOCK_BUDGET_ERROR)) else None)
  {
    AddNotes(m.errors, TextNote(MARKET_ENDED_ERROR));
    AddNotes(m.errors, TextNote(KNOCK_BUDGET_ERROR));
  }

  /** Every event leaves on member i's record exactly the doubt and the error it carries. */
  lemma RecordsExactly(k: Knock, i: nat, at: int, e: Event)
    requires HasLegs(k) && i < |k.members|
    ensures var m, r := k.members[i], Step(k, at, e).members[i];
            Noted(m.ambiguous, r.ambiguous, DoubtOf(k, i, at, e)) && Noted(m.errors, r.errors, ErrorOf(k, i, at, e))
  {
    var m := k.members[i];
    match e
    case SlotDue(_) => DeadlineNotes(m, k.knockUntil, k.marketEnd, at);
    case ReplyIn(_, _, _) => if Counts(k, i, at, e) { ReplyNotes(k, i, at, e); }
    case GiveUp(_) =>
    case Failed(error) => AddNotes(m.ambiguous, TextNote("knock failed: " + error));
    case Stopping => AddNotes(m.errors, TextNote(STOPPED_ERROR));
    case TimerFired => DeadlineNotes(m, k.knockUntil, k.marketEnd, at);
  }

  /** The order on record for each leg of member i is the one the last accepting reply
      carried, of those that counted and did not name another than the one there. */
  lemma RegistersExactly(k: Knock, i: nat, at: int, e: Event)
    requires HasLegs(k) && i < |k.members|
    ensures var m, r := k.members[i], Step(k, at, e).members[i];
            r.accepted ==
              if Counts(k, i, at, e) && e.reply.local.None? && !e.reply.verdict.transient && e.reply.verdict.accepted
                 && !OtherId(m, e.reply)
              then m.accepted[e.reply.outcome :=
                     AcceptedOrder(e.reply.outcome, e.reply.verdict.orderId, e.reply.status, e.reply.body)]
              else m.accepted
  {
    var m := k.members[i];
    match e
    case SlotDue(_) =>
    case ReplyIn(_, attempt, rep) => if Counts(k, i, at, e) { FreshReplyRegisters(HandedBack(m, attempt), rep, at); }
    case GiveUp(_) =>
    case Failed(_) =>
    case Stopping =>
    case TimerFired =>
  }

  lemma {:induction false} FreshReplyRegisters(m: MemberState, rep: Reply, now: int)
    ensures OnFreshReply(m, rep, now).accepted ==
            if rep.local.None? && !rep.verdict.transient && rep.verdict.accepted && !OtherId(m, rep)
            then m.accepted[rep.outcome := AcceptedOrder(rep.outcome, rep.verdict.orderId, rep.status, rep.body)]
            else m.accepted
  {}

  lemma {:induction false} OutcomesAtMost(legs: seq<Leg>)
    ensures |Outcomes(legs)| <= |legs|
  {
    if legs == [] {
      assert Outcomes(legs) == {};
    } else {
      var n := |legs| - 1;
      OutcomesAtMost(legs[..n]);
      assert legs == legs[..n] + [legs[n]];
      assert Outcomes(legs) == Outcomes(legs[..n]) + {legs[n].outcome};
    }
  }

  /** A member whose every outcome is registered is done, by the coordinator's count,
      exactly when its legs have different outcomes: with one repeated it would go on
      sending, and to no purpose. */
  lemma DoneWhenAllRegistered(m: MemberState)
    requires m.accepted.Keys == Outcomes(m.legs)
    ensures |m.accepted| == |m.legs| <==> DistinctOutcomes(m.legs)
  {
    assert |m.accepted| == |m.accepted.Keys|;
    if DistinctOutcomes(m.legs) {
      OutcomesCard(m.legs);
    } else {
      var i, j :| 0 <= i < j < |m.legs| && m.legs[i].outcome == m.legs[j].outcome;
      var fewer := m.legs[..j] + m.legs[j + 1..];
      forall o
        ensures o in Outcomes(m.legs) <==> o in Outcomes(fewer)
      {
        if leg :| leg in m.legs && leg.outcome == o {
          var k :| 0 <= k < |m.legs| && m.legs[k] == leg;
          assert (if k < j then fewer[k] else if k == j then fewer[i] else fewer[k - 1]).outcome == o;
        }
      }
      OutcomesAtMost(fewer);
      assert Outcomes(m.legs) == Outcomes(fewer);
    }
  }
}
