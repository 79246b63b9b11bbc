/** What holds over whole runs of the coordinator: what a member's state can still become,
    when the knock returns, and why the order of the replies does not matter. */
module KnockRuns {
  import opened Arithmetic
  import opened Options
  import opened KnockModel

  // ----- What never changes again

  /** n is a later state of m: registered ids stand, the registration time only improves,
      and a stopped member's sends, give-up and drain are fixed. */
  ghost predicate Follows(m: MemberState, n: MemberState) {
    && n.legs == m.legs && m.sent <= n.sent && m.answered <= n.answered
    && (forall o <- m.accepted.Keys :: o in n.accepted.Keys && n.accepted[o].orderId == m.accepted[o].orderId)
    && (m.registered != 0 ==> 0 < n.registered <= m.registered)
    && (m.stopped ==>
          && n.stopped && n.sent == m.sent && n.attempts == m.attempts && n.heldBack == m.heldBack
          && n.drainUntil == m.drainUntil && n.gaveUp == m.gaveUp && !n.sending)
    && m.errors.list <= n.errors.list && m.ambiguous.list <= n.ambiguous.list
  }

  lemma FollowsTransitive(m: MemberState, n: MemberState, o: MemberState)
    requires Follows(m, n) && Follows(n, o)
    ensures Follows(m, o)
  {}

  predicate Steady(m: MemberState) {
    0 <= m.registered && m.sending == !m.stopped
  }

  lemma StopFollows(m: MemberState, now: int)
    requires Steady(m)
    ensures Follows(m, Stop(m, now)) && Steady(Stop(m, now))
  {}

  lemma NoteFollows(m: MemberState, errors: Items, ambiguous: Items)
    requires Steady(m) && m.errors.list <= errors.list && m.ambiguous.list <= ambiguous.list
    ensures Follows(m, m.(errors := errors, ambiguous := ambiguous)) && Steady(m.(errors := errors, ambiguous := ambiguous))
  {}

  lemma RegisterFollows(m: MemberState, rep: Reply)
    requires Steady(m) && GoodReply(rep)
    requires rep.outcome in m.accepted ==> m.accepted[rep.outcome].orderId == rep.verdict.orderId
    ensures Follows(m, Register(m, rep)) && Steady(Register(m, rep))
  {}

  /** A note in the errors or the ambiguous list, then a stop, or no stop. */
  lemma NotedFollows(m: MemberState, errors: Items, ambiguous: Items, now: int)
    requires Steady(m) && m.errors.list <= errors.list && m.ambiguous.list <= ambiguous.list
    ensures var n := m.(errors := errors, ambiguous := ambiguous);
            Follows(m, n) && Follows(m, Stop(n, now))
  {
    var n := m.(errors := errors, ambiguous := ambiguous);
    NoteFollows(m, errors, ambiguous);
    StopFollows(n, now);
    FollowsTransitive(m, n, Stop(n, now));
  }

  lemma {:induction false} VerdictFollows(m: MemberState, rep: Reply, now: int)
    requires Steady(m) && GoodReply(rep)
    ensures Follows(m, OnVerdict(m, rep, now))
  {
    if !rep.verdict.accepted {
      NotedFollows(m, m.errors.AddReply(rep.status, rep.body), m.ambiguous, now);
    } else if rep.outcome in m.accepted && m.accepted[rep.outcome].orderId != rep.verdict.orderId {
      NotedFollows(m, m.errors, m.ambiguous.AddText(
        Conflict(rep.outcome, m.accepted[rep.outcome].orderId, rep.verdict.orderId)), now);
    } else {
      RegisterFollows(m, rep);
      StopFollows(Register(m, rep), now);
      FollowsTransitive(m, Register(m, rep), Stop(Register(m, rep), now));
    }
  }

  lemma ReplyFollows(m: MemberState, attempt: nat, rep: Reply, now: int)
    requires Steady(m) && GoodReply(rep)
    ensures Follows(m, OnReply(m, attempt, rep, now))
  {
    var counted := HandedBack(m, attempt);
    assert Follows(m, counted) && Steady(counted);
    if !(m.stopped && m.drainUntil < now) {
      match rep.local
      case Some(error) => NotedFollows(counted, counted.errors, counted.ambiguous.AddText(error), now);
      case None =>
        if rep.verdict.transient {
          NotedFollows(counted, counted.errors, counted.ambiguous.FirstOf(rep.status, rep.body), now);
        } else {
          VerdictFollows(counted, rep, now);
        }
      FollowsTransitive(m, counted, OnReply(m, attempt, rep, now));
    }
  }

  lemma DeadlineFollows(m: MemberState, knockUntil: int, marketEnd: int, now: int)
    requires Steady(m) && !m.stopped
    ensures Follows(m, PastDeadline(m, knockUntil, marketEnd, now))
  {}

  lemma SlotFollows(m: MemberState, knockUntil: int, marketEnd: int, now: int)
    requires Steady(m) && m.legs != []
    ensures Follows(m, OnSlot(m, knockUntil, marketEnd, now))
  {
    if !m.stopped { DeadlineFollows(m, knockUntil, marketEnd, now); }
  }

  lemma EventFollows(m: MemberState, i: nat, k: Knock, now: int, e: Event)
    requires HasLegs(k) && i < |k.members| && m == k.members[i] && Sound(m, k.marketEnd) && Possible(k, e)
    ensures Follows(m, OnEvent(m, i, k.knockUntil, k.marketEnd, now, e))
  {
    assert Steady(m) by { assert OrdersKnown(m) && StopExplained(m, k.marketEnd); }
    SteadyEventFollows(m, i, k.knockUntil, k.marketEnd, now, e);
  }

  lemma SteadyEventFollows(m: MemberState, i: nat, knockUntil: int, marketEnd: int, now: int, e: Event)
    requires Steady(m) && m.legs != [] && (e.ReplyIn? ==> GoodReply(e.reply))
    ensures Follows(m, OnEvent(m, i, knockUntil, marketEnd, now, e))
  {
    match e
    case SlotDue(j) => SlotFollows(m, knockUntil, marketEnd, now);
    case ReplyIn(j, attempt, rep) => ReplyFollows(m, attempt, rep, now);
    case GiveUp(_) =>
    case Failed(error) => NotedFollows(m, m.errors, m.ambiguous.AddText("knock failed: " + error), now);
    case Stopping => NotedFollows(m, m.errors.AddText(STOPPED_ERROR), m.ambiguous, now);
    case TimerFired => if !m.stopped { DeadlineFollows(m, knockUntil, marketEnd, now); }
  }

  lemma {:induction false} RunFollows(k: Knock, clock: int, events: seq<Timed>, i: nat)
    requires HasLegs(k) && AllSound(k) && Run(k, clock, events) && i < |k.members|
    ensures Follows(k.members[i], After(k, events).members[i])
    decreases |events|
  {
    if events != [] {
      var t := events[0];
      var next := Step(k, t.at, t.event);
      StepSound(k, t.at, t.event);
      EventFollows(k.members[i], i, k, t.at, t.event);
      RunFollows(next, t.at, events[1..], i);
      FollowsTransitive(k.members[i], next.members[i], After(k, events).members[i]);
    }
  }

  /** Once a member's drain is over, nothing that happens changes what it came to. */
  lemma {:induction false} DrainedIsFinal(k: Knock, clock: int, events: seq<Timed>, i: nat)
    requires HasLegs(k) && Run(k, clock, events) && i < |k.members|
    requires k.members[i].stopped && k.members[i].drainUntil < clock
    ensures var m, n := k.members[i], After(k, events).members[i];
            n == m.(inFlight := n.inFlight, answered := n.answered)
    decreases |events|
  {
    if events != [] {
      var n := Step(k, events[0].at, events[0].event).members[i];
      assert n == k.members[i].(inFlight := n.inFlight, answered := n.answered);
      DrainedIsFinal(Step(k, events[0].at, events[0].event), events[0].at, events[1..], i);
    }
  }

  // ----- When the knock returns

  /** The member needs no more attention: stopped, with nothing in flight or its drain over. */
  predicate Done(m: MemberState, now: int) {
    m.stopped && !(0 < m.inFlight && now < m.drainUntil)
  }

  ghost predicate Finished(k: Knock, now: int) {
    forall i :: 0 <= i < |k.members| ==> Done(k.members[i], now)
  }

  function Deadline(k: Knock): int { Least(k.knockUntil, k.marketEnd) * NANOS_PER_MS }

  /** The moment the member itself needs looking at, should nothing arrive for it. */
  function DueOf(m: MemberState, deadline: int, now: int): Option<int> {
    if !m.stopped then Some(deadline)
    else if 0 < m.inFlight && now < m.drainUntil then Some(m.drainUntil)
    else None
  }

  /** The earliest of the first n members' dues. */
  function Wake(k: Knock, now: int, n: nat): Option<int>
    requires n <= |k.members|
  {
    if n == 0 then None
    else
      var wake, due := Wake(k, now, n - 1), DueOf(k.members[n - 1], Deadline(k), now);
      if due.Some? && (wake.None? || due.value < wake.value) then due else wake
  }

  lemma {:induction false} WakeIsEarliest(k: Knock, now: int, n: nat)
    requires n <= |k.members|
    ensures Wake(k, now, n).None? <==> forall i :: 0 <= i < n ==> Done(k.members[i], now)
    ensures Wake(k, now, n).Some? ==>
              && (exists i :: 0 <= i < n && DueOf(k.members[i], Deadline(k), now) == Wake(k, now, n))
              && (forall i :: 0 <= i < n && !Done(k.members[i], now) ==>
                    Wake(k, now, n).value <= DueOf(k.members[i], Deadline(k), now).value)
  {
    if 0 < n { WakeIsEarliest(k, now, n - 1); }
  }

  /** Wake-ups are served when due: the coordinator looks again as soon as it has handled
      an event, and never waits past the moment it is to wake. */
  ghost predicate Prompt(k: Knock, clock: int, events: seq<Timed>)
    requires HasLegs(k)
    decreases |events|
  {
    events == [] ||
    (var t := events[0];
     var wake := Wake(k, clock, |k.members|);
     && wake.Some? && t.looked == clock <= t.at && (t.at <= clock || t.at <= wake.value)
     && Possible(k, t.event)
     && Prompt(Step(k, t.at, t.event), t.at, events[1..]))
  }

  function EndClock(clock: int, events: seq<Timed>): int {
    if events == [] then clock else events[|events| - 1].at
  }

  /** Nothing is waited for past the bound, and by the bound all is done. */
  ghost predicate InTime(k: Knock, now: int, bound: int) {
    && (Finished(k, now) || now < bound)
    && (forall i :: 0 <= i < |k.members| && !Done(k.members[i], now) ==>
          DueOf(k.members[i], Deadline(k), now).value <= bound)
  }

  /** No drain lasts longer than it would had the member stopped just now. */
  ghost predicate RecentStops(k: Knock, now: int) {
    forall i :: 0 <= i < |k.members| && k.members[i].stopped ==> k.members[i].drainUntil <= now + DRAIN_TIME
  }

  lemma {:induction false} StopsAreRecent(k: Knock, clock: int, events: seq<Timed>)
    requires HasLegs(k) && Run(k, clock, events) && RecentStops(k, clock)
    ensures RecentStops(After(k, events), EndClock(clock, events))
    decreases |events|
  {
    if events != [] {
      var t := events[0];
      var next := Step(k, t.at, t.event);
      forall i | 0 <= i < |next.members| && next.members[i].stopped
        ensures next.members[i].drainUntil <= t.at + DRAIN_TIME
      {
        EventStopsNow(k.members[i], i, k, t.at, t.event);
      }
      StopsAreRecent(next, t.at, events[1..]);
    }
  }

  lemma EventStopsNow(m: MemberState, i: nat, k: Knock, now: int, e: Event)
    requires HasLegs(k) && i < |k.members| && m == k.members[i]
    ensures var n := OnEvent(m, i, k.knockUntil, k.marketEnd, now, e);
            && (m.stopped ==> n.stopped && n.drainUntil == m.drainUntil)
            && (!m.stopped && n.stopped ==> n.drainUntil == now + DRAIN_TIME)
  {
    if e.ReplyIn? && e.member == i && !(m.stopped && m.drainUntil < now) {
      FreshReplyStopsNow(HandedBack(m, e.attempt), e.reply, now);
    }
  }

  lemma FreshReplyStopsNow(m: MemberState, rep: Reply, now: int)
    ensures var n := OnFreshReply(m, rep, now);
            && (m.stopped ==> n.stopped && n.drainUntil == m.drainUntil)
            && (!m.stopped && n.stopped ==> n.drainUntil == now + DRAIN_TIME)
  {}

  /** No member sends past last, and none drains past last + DRAIN_TIME. */
  ghost predicate Within(k: Knock, now: int, last: int) {
    && Deadline(k) <= last
    && forall i :: 0 <= i < |k.members| ==>
         if k.members[i].stopped then k.members[i].drainUntil <= last + DRAIN_TIME else now <= last
  }

  lemma {:induction false} StepWithin(k: Knock, clock: int, t: Timed, last: int)
    requires HasLegs(k) && Within(k, clock, last)
    requires var wake := Wake(k, clock, |k.members|);
             wake.Some? && clock <= t.at && (t.at <= clock || t.at <= wake.value)
    ensures Within(Step(k, t.at, t.event), t.at, last)
    ensures t.at <= (if clock <= last + DRAIN_TIME then last + DRAIN_TIME else clock)
  {
    var next := Step(k, t.at, t.event);
    WakeIsEarliest(k, clock, |k.members|);
    assert Deadline(next) <= Deadline(k);
    forall i | 0 <= i < |next.members|
      ensures if next.members[i].stopped then next.members[i].drainUntil <= last + DRAIN_TIME else t.at <= last
    {
      EventStopsNow(k.members[i], i, k, t.at, t.event);
    }
  }

  lemma {:induction false} PromptWithin(k: Knock, clock: int, events: seq<Timed>, last: int)
    requires HasLegs(k) && Prompt(k, clock, events) && Within(k, clock, last) && clock <= last + DRAIN_TIME
    ensures Within(After(k, events), EndClock(clock, events), last)
    ensures EndClock(clock, events) <= last + DRAIN_TIME
    decreases |events|
  {
    if events != [] {
      var t := events[0];
      StepWithin(k, clock, t, last);
      PromptWithin(Step(k, t.at, t.event), t.at, events[1..], last);
    }
  }

  /** From any moment of a run, with wake-ups served when due, the last event is taken up
      and the knock is over by the deadline that then stands, or that moment if it is later,
      plus the drain: whatever comes after, replies or none, and however a give-up lowers
      the deadline. */
  lemma {:induction false} ReturnsInTime(k: Knock, clock: int, events: seq<Timed>)
    requires HasLegs(k) && RecentStops(k, clock) && Prompt(k, clock, events)
    ensures var last := if clock < Deadline(k) then Deadline(k) else clock;
            && InTime(After(k, events), EndClock(clock, events), last + DRAIN_TIME)
            && EndClock(clock, events) <= last + DRAIN_TIME
  {
    var last := if clock < Deadline(k) then Deadline(k) else clock;
    PromptWithin(k, clock, events, last);
  }

  /** While a member is still waiting for a reply, the deadline plus the drain is kept
      whatever happens exactly when the deadline is not already past: so a give-up time
      that arrives late costs as much longer as it is late. */
  lemma {:induction false} DeadlineKeptExactly(k: Knock, clock: int, i: nat)
    requires HasLegs(k) && RecentStops(k, clock) && i < |k.members|
    requires !k.members[i].stopped && 0 < k.members[i].inFlight
    ensures clock <= Deadline(k) <==>
            forall events :: Prompt(k, clock, events) ==>
              InTime(After(k, events), EndClock(clock, events), Deadline(k) + DRAIN_TIME)
              && EndClock(clock, events) <= Deadline(k) + DRAIN_TIME
  {
    if clock <= Deadline(k) {
      forall events | Prompt(k, clock, events)
        ensures InTime(After(k, events), EndClock(clock, events), Deadline(k) + DRAIN_TIME)
        ensures EndClock(clock, events) <= Deadline(k) + DRAIN_TIME
      {
        ReturnsInTime(k, clock, events);
      }
    } else {
      var events := [Timed(clock, clock, TimerFired)];
      WakeIsEarliest(k, clock, |k.members|);
      var end := Step(k, clock, TimerFired);
      assert After(k, events) == end by { assert After(end, events[1..]) == end; }
      assert Prompt(k, clock, events) by { assert Prompt(end, clock, events[1..]); }
      assert Wall(clock) >= Least(k.knockUntil, k.marketEnd);
      assert end.members[i].stopped && end.members[i].drainUntil == clock + DRAIN_TIME;
      assert !Done(end.members[i], clock);
    }
  }

  // ----- What the coordinator does with a run

  /** The coordinator's loop: it returns at the first look that finds the knock finished. */
  function Coordinate(k: Knock, events: seq<Timed>): (n: nat)
    requires HasLegs(k)
    ensures n <= |events|
    decreases |events|
  {
    if events == [] || Wake(k, events[0].looked, |k.members|).None? then 0
    else 1 + Coordinate(Step(k, events[0].at, events[0].event), events[1..])
  }

  /** It returns only when every member has stopped and has nothing in flight or a
      finished drain, and at the first such look. */
  lemma {:induction false} ReturnsOnlyWhenFinished(k: Knock, events: seq<Timed>, j: nat)
    requires HasLegs(k) && j < |events|
    ensures j < Coordinate(k, events) ==> !Finished(After(k, events[..j]), events[j].looked)
    ensures j == Coordinate(k, events) ==> Finished(After(k, events[..j]), events[j].looked)
    decreases j
  {
    WakeIsEarliest(k, events[0].looked, |k.members|);
    if j == 0 {
      assert events[..0] == [];
    } else {
      var next := Step(k, events[0].at, events[0].event);
      assert events[..j][0] == events[0] && events[..j][1..] == events[1..][..j - 1];
      if Coordinate(k, events) != 0 { ReturnsOnlyWhenFinished(next, events[1..], j - 1); }
    }
  }

  /** Of sound members, finished says that each has stopped, and that every one of its sends
      has been answered or its drain is over. */
  lemma FinishedExactly(k: Knock, now: int)
    requires AllSound(k)
    ensures Finished(k, now) <==>
            forall i :: 0 <= i < |k.members| ==>
              && k.members[i].stopped
              && (|k.members[i].answered| == |k.members[i].sent| || k.members[i].drainUntil <= now)
  {
    forall i | 0 <= i < |k.members| ensures 0 < k.members[i].inFlight <==> |k.members[i].answered| != |k.members[i].sent| {
      assert Sound(k.members[i], k.marketEnd);
    }
  }

  function GiveUps(events: seq<Timed>): seq<int>
    decreases |events|
  {
    if events == [] then [] else (if events[0].event.GiveUp? then [events[0].event.until] else []) + GiveUps(events[1..])
  }

  /** The knock goes by the earliest of the deadline it was given and all the give-ups that
      have come in. */
  lemma {:induction false} GiveUpsLowerTheDeadline(k: Knock, events: seq<Timed>)
    requires HasLegs(k)
    ensures After(k, events).knockUntil <= k.knockUntil
    ensures forall until <- GiveUps(events) :: After(k, events).knockUntil <= until
    ensures After(k, events).knockUntil == k.knockUntil || After(k, events).knockUntil in GiveUps(events)
    decreases |events|
  {
    if events != [] { GiveUpsLowerTheDeadline(Step(k, events[0].at, events[0].event), events[1..]); }
  }

  // ----- The order of the replies does not matter

  /** The replies of a run that count for member i, whatever else happens in between. */
  function Counting(k: Knock, events: seq<Timed>, i: nat): seq<Reply>
    requires HasLegs(k) && i < |k.members|
    decreases |events|
  {
    if events == [] then []
    else (if Counts(k, i, events[0].at, events[0].event) then [events[0].event.reply] else [])
         + Counting(Step(k, events[0].at, events[0].event), events[1..], i)
  }

  predicate Accepting(rep: Reply) {
    rep.local.None? && !rep.verdict.transient && rep.verdict.accepted
  }

  /** The venue answers one leg's signed body with one order id. */
  ghost predicate OneId(ids: map<string, string>, replies: seq<Reply>) {
    forall rep <- replies :: GoodReply(rep) && (Accepting(rep) ==> rep.outcome in ids && ids[rep.outcome] == rep.verdict.orderId)
  }

  ghost predicate RegisteredAs(m: MemberState, ids: map<string, string>) {
    && (forall o <- m.accepted.Keys :: o in ids && m.accepted[o].orderId == ids[o])
    && (m.registered == 0 <==> m.accepted == map[]) && 0 <= m.registered
  }

  ghost predicate Carried(replies: seq<Reply>, o: string) {
    exists rep <- replies :: Accepting(rep) && rep.outcome == o
  }

  /** time is the earliest of earlier, if any, and the accepting replies' return times. */
  ghost predicate Earliest(time: int, earlier: int, replies: seq<Reply>) {
    && (time == 0 <==> earlier == 0 && forall rep <- replies :: !Accepting(rep))
    && (time != 0 ==> time == earlier || exists rep <- replies :: Accepting(rep) && rep.returned == time)
    && (earlier != 0 ==> time <= earlier)
    && (forall rep <- replies :: Accepting(rep) ==> time <= rep.returned)
  }

  /** What one reply inside the drain does to the registered orders. */
  ghost predicate Registers(m: MemberState, n: MemberState, rep: Reply) {
    && n.accepted.Keys == m.accepted.Keys + (if Accepting(rep) then {rep.outcome} else {})
    && n.registered == (if Accepting(rep) && (m.registered == 0 || rep.returned < m.registered)
                        then rep.returned else m.registered)
  }

  lemma AcceptingReply(m: MemberState, attempt: nat, rep: Reply, now: int, ids: map<string, string>)
    requires RegisteredAs(m, ids) && OneId(ids, [rep]) && !(m.stopped && m.drainUntil < now)
    ensures Registers(m, OnReply(m, attempt, rep, now), rep) && RegisteredAs(OnReply(m, attempt, rep, now), ids)
  {
    assert rep in [rep];
    var counted := HandedBack(m, attempt);
    if Accepting(rep) {
      RegisterIds(counted, rep, ids);
      AcceptedVerdict(counted, rep, now);
    } else {
      NotAccepting(counted, rep, now);
    }
  }

  lemma RegisterIds(m: MemberState, rep: Reply, ids: map<string, string>)
    requires RegisteredAs(m, ids) && Accepting(rep) && GoodReply(rep)
    requires rep.outcome in ids && ids[rep.outcome] == rep.verdict.orderId
    ensures Registers(m, Register(m, rep), rep) && RegisteredAs(Register(m, rep), ids)
  {
    assert rep.outcome in Register(m, rep).accepted;
  }

  lemma AcceptedVerdict(m: MemberState, rep: Reply, now: int)
    requires Accepting(rep) && (rep.outcome in m.accepted ==> m.accepted[rep.outcome].orderId == rep.verdict.orderId)
    ensures var n := OnFreshReply(m, rep, now);
            n.accepted == Register(m, rep).accepted && n.registered == Register(m, rep).registered
  {}

  lemma NotAccepting(m: MemberState, rep: Reply, now: int)
    requires !Accepting(rep)
    ensures var n := OnFreshReply(m, rep, now); n.accepted == m.accepted && n.registered == m.registered
  {}

  /** n is m with the accepting replies' orders registered, each under its one id, and the
      earliest of their times. */
  ghost predicate RegisteredBy(m: MemberState, n: MemberState, replies: seq<Reply>, ids: map<string, string>) {
    && RegisteredAs(n, ids)
    && (forall o :: o in n.accepted <==> o in m.accepted || Carried(replies, o))
    && Earliest(n.registered, m.registered, replies)
  }

  lemma NothingRegisters(k: Knock, t: Timed, i: nat)
    requires HasLegs(k) && i < |k.members| && !Counts(k, i, t.at, t.event)
    ensures var m, n := k.members[i], Step(k, t.at, t.event).members[i];
            n.accepted == m.accepted && n.registered == m.registered
  {}

  /** What a member has registered after any run, and when: exactly what the accepting
      replies that counted carried, with slots, timers, give-ups and other members' events
      anywhere between them. */
  lemma {:induction false} RepliesRegister(k: Knock, clock: int, events: seq<Timed>, i: nat, ids: map<string, string>)
    requires HasLegs(k) && Run(k, clock, events) && i < |k.members|
    requires RegisteredAs(k.members[i], ids) && OneId(ids, Counting(k, events, i))
    ensures RegisteredBy(k.members[i], After(k, events).members[i], Counting(k, events, i), ids)
    decreases |events|
  {
    if events != [] {
      var t := events[0];
      var m, next := k.members[i], Step(k, t.at, t.event);
      var rest := Counting(next, events[1..], i);
      if Counts(k, i, t.at, t.event) {
        var rep := t.event.reply;
        assert Counting(k, events, i) == [rep] + rest;
        OneIdFirst(ids, rep, rest);
        AcceptingReply(m, t.event.attempt, rep, t.at, ids);
        RepliesRegister(next, t.at, events[1..], i, ids);
        OneMoreRegistered(m, next.members[i], After(k, events).members[i], rep, rest, ids);
      } else {
        assert Counting(k, events, i) == rest;
        NothingRegisters(k, t, i);
        RepliesRegister(next, t.at, events[1..], i, ids);
      }
    }
  }

  lemma OneMoreRegistered(m: MemberState, n: MemberState, o: MemberState, rep: Reply, rest: seq<Reply>,
                          ids: map<string, string>)
    requires Registers(m, n, rep) && RegisteredBy(n, o, rest, ids) && 0 < rep.returned && 0 <= m.registered
    ensures RegisteredBy(m, o, [rep] + rest, ids)
  {
    CarriedFirst(rep, rest);
    EarliestFirst(o.registered, n.registered, m.registered, rep, rest);
  }

  lemma OneIdFirst(ids: map<string, string>, rep: Reply, rest: seq<Reply>)
    requires OneId(ids, [rep] + rest)
    ensures OneId(ids, [rep]) && OneId(ids, rest) && GoodReply(rep)
  {
    assert ([rep] + rest)[0] == rep;
    assert forall x <- rest :: x in [rep] + rest;
  }

  lemma CarriedFirst(rep: Reply, rest: seq<Reply>)
    ensures forall o :: Carried([rep] + rest, o) <==> (Accepting(rep) && rep.outcome == o) || Carried(rest, o)
  {
    forall o
      ensures Carried([rep] + rest, o) <==> (Accepting(rep) && rep.outcome == o) || Carried(rest, o)
    {
      assert ([rep] + rest)[0] == rep;
      assert forall x <- rest :: x in [rep] + rest;
    }
  }

  lemma EarliestFirst(time: int, middle: int, earlier: int, rep: Reply, rest: seq<Reply>)
    requires 0 < rep.returned && 0 <= earlier
    requires middle == (if Accepting(rep) && (earlier == 0 || rep.returned < earlier) then rep.returned else earlier)
    requires Earliest(time, middle, rest)
    ensures Earliest(time, earlier, [rep] + rest)
  {
    var all := [rep] + rest;
    assert all[0] == rep;
    assert forall x <- rest :: x in all;
    assert forall x <- all :: x == rep || x in rest;
  }

  /** Two runs from one moment in which the same replies of a member count, in whatever
      order and amid whatever else: it registers the same orders under the same ids at the
      same time. */
  lemma {:induction false} ReplyOrderDoesNotMatter(k: Knock, clock: int, a: seq<Timed>, b: seq<Timed>, i: nat,
                                                   ids: map<string, string>)
    requires HasLegs(k) && Run(k, clock, a) && Run(k, clock, b) && i < |k.members|
    requires RegisteredAs(k.members[i], ids) && OneId(ids, Counting(k, a, i))
    requires forall rep :: rep in Counting(k, a, i) <==> rep in Counting(k, b, i)
    ensures var n, o := After(k, a).members[i], After(k, b).members[i];
            && n.accepted.Keys == o.accepted.Keys
            && (forall leg <- n.accepted.Keys :: leg in ids && n.accepted[leg].orderId == o.accepted[leg].orderId == ids[leg])
            && n.registered == o.registered
  {
    RepliesRegister(k, clock, a, i, ids);
    RepliesRegister(k, clock, b, i, ids);
    SameRegistration(k.members[i], After(k, a).members[i], After(k, b).members[i], Counting(k, a, i), Counting(k, b, i), ids);
  }

  lemma SameRegistration(m: MemberState, n: MemberState, o: MemberState, a: seq<Reply>, b: seq<Reply>, ids: map<string, string>)
    requires RegisteredBy(m, n, a, ids) && RegisteredBy(m, o, b, ids) && forall rep :: rep in a <==> rep in b
    ensures n.accepted.Keys == o.accepted.Keys && n.registered == o.registered
  {
    forall leg
      ensures leg in n.accepted <==> leg in o.accepted
    {
      assert Carried(a, leg) <==> Carried(b, leg);
    }
    EarliestUnique(n.registered, o.registered, m.registered, a, b);
  }

  lemma EarliestUnique(s: int, t: int, earlier: int, a: seq<Reply>, b: seq<Reply>)
    requires Earliest(s, earlier, a) && Earliest(t, earlier, b)
    requires forall rep :: rep in a <==> rep in b
    ensures s == t
  {}

  // ----- How the slots are spent

  /** A slot that finds member i still sending, with room for a request or without. */
  predicate Spends(k: Knock, t: Timed, i: nat, room: bool)
    requires i < |k.members|
  {
    && t.event == SlotDue(i) && !k.members[i].stopped && !Past(k.knockUntil, k.marketEnd, t.at)
    && (room <==> k.members[i].inFlight < IN_FLIGHT_CAP)
  }

  function Spent(k: Knock, events: seq<Timed>, i: nat, room: bool): nat
    requires HasLegs(k) && i < |k.members|
    decreases |events|
  {
    if events == [] then 0
    else (if Spends(k, events[0], i, room) then 1 else 0)
         + Spent(Step(k, events[0].at, events[0].event), events[1..], i, room)
  }

  /** Every slot of a member still sending is a send, or held back if its share of the
      streams is taken; nothing else counts as either. */
  lemma {:induction false} SlotsAccountedFor(k: Knock, events: seq<Timed>, i: nat)
    requires HasLegs(k) && i < |k.members|
    ensures After(k, events).members[i].attempts == k.members[i].attempts + Spent(k, events, i, true)
    ensures After(k, events).members[i].heldBack == k.members[i].heldBack + Spent(k, events, i, false)
    decreases |events|
  {
    if events != [] {
      var t := events[0];
      EventSpends(k, t, i);
      SlotsAccountedFor(Step(k, t.at, t.event), events[1..], i);
    }
  }

  lemma EventSpends(k: Knock, t: Timed, i: nat)
    requires HasLegs(k) && i < |k.members|
    ensures var m, n := k.members[i], Step(k, t.at, t.event).members[i];
            && n.attempts == m.attempts + (if Spends(k, t, i, true) then 1 else 0)
            && n.heldBack == m.heldBack + (if Spends(k, t, i, false) then 1 else 0)
            && n.sent == m.sent + (if Spends(k, t, i, true) then [Choice(m).outcome] else [])
  {}

  // ----- The legs take turns

  /** The n sends from attempt number from on, going round the legs. */
  function Rotation(legs: seq<Leg>, from: nat, n: nat): seq<string>
    requires legs != []
  {
    seq(n, d requires 0 <= d < n => legs[(from + d) % |legs|].outcome)
  }

  lemma CandidatesSame(m: MemberState, n: MemberState)
    requires m.legs == n.legs && m.accepted.Keys == n.accepted.Keys
    ensures Candidates(m) == Candidates(n)
  {
    RemainingSame(m.legs, m.accepted, n.accepted);
  }

  lemma {:induction false} RemainingSame(legs: seq<Leg>, a: map<string, AcceptedOrder>, b: map<string, AcceptedOrder>)
    requires a.Keys == b.Keys
    ensures Remaining(legs, a) == Remaining(legs, b)
  {
    if legs != [] {
      RemainingSame(legs[1..], a, b);
      assert legs[0].outcome in a <==> legs[0].outcome in b;
    }
  }

  /** While nothing new registers, whatever else happens, a member's sends go round its
      unregistered legs in plan order. */
  lemma {:induction false} LegsInRotation(k: Knock, clock: int, events: seq<Timed>, i: nat)
    requires HasLegs(k) && AllSound(k) && Run(k, clock, events) && i < |k.members|
    requires After(k, events).members[i].accepted.Keys == k.members[i].accepted.Keys
    ensures var m, n := k.members[i], After(k, events).members[i];
            n.sent == m.sent + Rotation(Candidates(m), m.attempts, Spent(k, events, i, true))
    decreases |events|
  {
    if events != [] {
      var t := events[0];
      var m, next := k.members[i], Step(k, t.at, t.event);
      NothingNewYet(k, clock, events, i);
      EventSpends(k, t, i);
      LegsInRotation(next, t.at, events[1..], i);
      RotationStep(m.sent, Candidates(m), m.attempts, Spent(next, events[1..], i, true), Spends(k, t, i, true));
    }
  }

  lemma {:induction false} NothingNewYet(k: Knock, clock: int, events: seq<Timed>, i: nat)
    requires HasLegs(k) && AllSound(k) && Run(k, clock, events) && i < |k.members| && events != []
    requires After(k, events).members[i].accepted.Keys == k.members[i].accepted.Keys
    ensures var next := Step(k, events[0].at, events[0].event);
            && AllSound(next) && next.members[i].accepted.Keys == k.members[i].accepted.Keys
            && Candidates(next.members[i]) == Candidates(k.members[i])
  {
    var next := Step(k, events[0].at, events[0].event);
    StepSound(k, events[0].at, events[0].event);
    EventFollows(k.members[i], i, k, events[0].at, events[0].event);
    RunFollows(next, events[0].at, events[1..], i);
    KeysBetween(k.members[i], next.members[i], After(next, events[1..]).members[i]);
    CandidatesSame(k.members[i], next.members[i]);
  }

  lemma KeysBetween(m: MemberState, n: MemberState, o: MemberState)
    requires Follows(m, n) && Follows(n, o) && o.accepted.Keys == m.accepted.Keys
    ensures n.accepted.Keys == m.accepted.Keys
  {
    assert m.accepted.Keys <= n.accepted.Keys <= o.accepted.Keys;
  }

  lemma RotationStep(sent: seq<string>, legs: seq<Leg>, from: nat, n: nat, sends: bool)
    requires legs != []
    ensures if sends
            then (sent + [legs[from % |legs|].outcome]) + Rotation(legs, from + 1, n) == sent + Rotation(legs, from, 1 + n)
            else (sent + []) + Rotation(legs, from, n) == sent + Rotation(legs, from, 0 + n)
  {
    if sends {
      var whole, parts := Rotation(legs, from, 1 + n), [legs[from % |legs|].outcome] + Rotation(legs, from + 1, n);
      forall d | 0 <= d < 1 + n
        ensures whole[d] == parts[d]
      {
        if 0 < d { assert from + d == from + 1 + (d - 1); }
      }
      assert whole == parts;
    }
  }

  /** In one round of as many sends as there are legs, every leg goes out, and no leg
      twice. */
  lemma RotationCoversOnce(legs: seq<Leg>, from: nat)
    requires legs != [] && DistinctOutcomes(legs)
    ensures forall j :: 0 <= j < |legs| ==> legs[j].outcome in Rotation(legs, from, |legs|)
    ensures forall d, e :: 0 <= d < e < |legs| ==> Rotation(legs, from, |legs|)[d] != Rotation(legs, from, |legs|)[e]
  {
    var n := |legs|;
    var round := Rotation(legs, from, n);
    forall j | 0 <= j < n
      ensures legs[j].outcome in round
    {
      var d := (j - from) % n;
      TurnOf(from, d, j, n);
      assert round[d] == legs[j].outcome;
    }
    forall d, e | 0 <= d < e < n
      ensures round[d] != round[e]
    {
      TurnsDiffer(from, d, e, n);
    }
  }

  lemma TurnOf(from: int, d: int, j: int, n: int)
    requires 0 < n && 0 <= j < n && d == (j - from) % n
    ensures 0 <= d < n && (from + d) % n == j
  {
    var q := (j - from) / n;
    assert from + d == j - q * n;
    ModUnique(from + d, -q, j, n);
  }

  lemma TurnsDiffer(from: int, d: int, e: int, n: int)
    requires 0 < n && d < e < d + n
    ensures (from + d) % n != (from + e) % n
  {
    var p, q := (from + d) / n, (from + e) / n;
    assert from + d == p * n + (from + d) % n;
    assert from + e == q * n + (from + e) % n;
    if (from + d) % n == (from + e) % n {
      assert e - d == q * n - p * n;
      if q <= p { MulMonotone(q, p, n); } else { MulMonotone(p + 1, q, n); }
    }
  }

  // ----- The result

  /** What a member has registered, listed as its legs are. */
  function InLegOrder(legs: seq<Leg>, accepted: map<string, AcceptedOrder>): seq<AcceptedOrder> {
    if legs == [] then []
    else (if legs[0].outcome in accepted then [accepted[legs[0].outcome]] else []) + InLegOrder(legs[1..], accepted)
  }

  /** The result reports every registered order, each once, and nothing else. */
  lemma ResultReportsEveryOrder(m: MemberState, marketEnd: int)
    requires Sound(m, marketEnd)
    ensures var list := InLegOrder(m.legs, m.accepted);
            && (forall order <- list :: order.outcome in m.accepted && m.accepted[order.outcome] == order)
            && (forall o <- m.accepted.Keys :: m.accepted[o] in list)
            && |list| == |m.accepted|
  {
    InLegOrderListed(m.legs, m.accepted);
    InLegOrderCount(m.legs, m.accepted);
    forall o | o in m.accepted.Keys
      ensures m.accepted[o] in InLegOrder(m.legs, m.accepted)
    {
      assert o in Outcomes(m.legs);
    }
    assert Chosen(m.legs, m.accepted) == m.accepted.Keys;
    assert |m.accepted| == |m.accepted.Keys|;
  }

  lemma {:induction false} InLegOrderListed(legs: seq<Leg>, accepted: map<string, AcceptedOrder>)
    ensures forall leg <- legs :: leg.outcome in accepted ==> accepted[leg.outcome] in InLegOrder(legs, accepted)
    ensures forall order <- InLegOrder(legs, accepted) :: exists o <- accepted.Keys :: accepted[o] == order
  {
    if legs != [] {
      InLegOrderListed(legs[1..], accepted);
      assert legs == [legs[0]] + legs[1..];
    }
  }

  /** The outcomes of the legs that are registered. */
  function Chosen(legs: seq<Leg>, accepted: map<string, AcceptedOrder>): set<string> {
    set o <- Outcomes(legs) | o in accepted
  }

  lemma {:induction false} InLegOrderCount(legs: seq<Leg>, accepted: map<string, AcceptedOrder>)
    requires DistinctOutcomes(legs)
    ensures |InLegOrder(legs, accepted)| == |Chosen(legs, accepted)|
  {
    if legs == [] {
      assert Chosen(legs, accepted) == {};
    } else {
      InLegOrderCount(legs[1..], accepted);
      ChosenFirst(legs, accepted);
    }
  }

  lemma ChosenFirst(legs: seq<Leg>, accepted: map<string, AcceptedOrder>)
    requires legs != [] && DistinctOutcomes(legs)
    ensures var o, rest := legs[0].outcome, Chosen(legs[1..], accepted);
            o !in rest && Chosen(legs, accepted) == if o in accepted then rest + {o} else rest
  {
    var o := legs[0].outcome;
    assert legs == [legs[0]] + legs[1..];
    assert Outcomes(legs) == {o} + Outcomes(legs[1..]);
    assert forall leg <- legs[1..] :: leg.outcome != o;
  }
}
