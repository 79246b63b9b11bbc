/** The connections the sends go out on (knocker/internal/venue/lanes.go), and a whole
    knock on them: the accounts' caps and the choice of connection together. */
module Lanes {
  import opened Arithmetic
  import opened KnockModel
  import opened KnockRuns

  // ----- The choice of connection

  /** The scan of Pick from lane i on: the first with a stream to spare, or else the least
      loaded seen. */
  function PickFrom(counts: seq<int>, i: nat, chosen: nat): (lane: nat)
    requires i <= |counts| && chosen < |counts|
    ensures lane < |counts|
    decreases |counts| - i
  {
    if i == |counts| then chosen
    else if counts[i] < STREAMS_PER_LANE then i
    else PickFrom(counts, i + 1, if counts[i] < counts[chosen] then i else chosen)
  }

  function PickOf(counts: seq<int>): (lane: nat)
    requires counts != []
    ensures lane < |counts|
  {
    PickFrom(counts, 0, 0)
  }

  /** The first connection with a stream to spare if there is one; otherwise the first of
      the least loaded. */
  lemma {:induction false} PickFromExactly(counts: seq<int>, i: nat, chosen: nat)
    requires i <= |counts| && chosen < |counts| && (chosen < i || i == chosen == 0)
    requires forall j :: 0 <= j < i ==> STREAMS_PER_LANE <= counts[j]
    requires forall j :: 0 <= j < i ==> counts[chosen] <= counts[j] && (j < chosen ==> counts[chosen] < counts[j])
    ensures var lane := PickFrom(counts, i, chosen);
            if exists j :: 0 <= j < |counts| && counts[j] < STREAMS_PER_LANE
            then counts[lane] < STREAMS_PER_LANE && forall j :: 0 <= j < lane ==> STREAMS_PER_LANE <= counts[j]
            else forall j :: 0 <= j < |counts| ==>
                   counts[lane] <= counts[j] && (j < lane ==> counts[lane] < counts[j])
    decreases |counts| - i
  {
    if i < |counts| && STREAMS_PER_LANE <= counts[i] {
      PickFromExactly(counts, i + 1, if counts[i] < counts[chosen] then i else chosen);
    }
  }

  class Venue {
    const inFlight: array<int>

    constructor ()
      ensures fresh(inFlight) && inFlight[..] == seq(LANES, _ => 0)
    {
      inFlight := new int[LANES](_ => 0);
    }

    method Pick() returns (lane: nat)
      requires inFlight.Length == LANES
      modifies inFlight
      ensures lane == PickOf(old(inFlight[..]))
      ensures inFlight[..] == old(inFlight[..])[lane := old(inFlight[lane]) + 1]
    {
      lane := 0;
      for i := 0 to inFlight.Length
        invariant lane < inFlight.Length && inFlight[..] == old(inFlight[..])
        invariant PickFrom(inFlight[..], i, lane) == PickOf(inFlight[..])
      {
        if inFlight[i] < STREAMS_PER_LANE {
          lane := i;
          break;
        }
        if inFlight[i] < inFlight[lane] { lane := i; }
      }
      inFlight[lane] := inFlight[lane] + 1;
    }

    /** What SendOrder does to its connection's count on the way out, however the send ended. */
    method Release(lane: nat)
      requires lane < inFlight.Length
      modifies inFlight
      ensures inFlight[..] == old(inFlight[..])[lane := old(inFlight[lane]) - 1]
    {
      inFlight[lane] := inFlight[lane] - 1;
    }
  }

  // ----- A knock on the connections

  /** The coordinator's state, the requests each connection carries, and how many of each
      member's are on a connection: sent, and the stream not yet given back. */
  datatype Wire = Wire(knock: Knock, lanes: seq<int>, carried: seq<int>)

  datatype Act = Take(turn: Timed) | GiveBack(member: nat, lane: nat)

  function Sum(s: seq<int>): int {
    if s == [] then 0 else Sum(s[..|s| - 1]) + s[|s| - 1]
  }

  predicate Shaped(w: Wire) {
    HasLegs(w.knock) && |w.lanes| == LANES && |w.carried| == |w.knock.members|
  }

  predicate Sends(w: Wire, t: Timed)
    requires Shaped(w)
  {
    t.event.SlotDue? && t.event.member < |w.knock.members| && Spends(w.knock, t, t.event.member, true)
  }

  /** A slot that sends takes a stream; the coordinator's other events touch none. */
  function Next(w: Wire, a: Act): (next: Wire)
    requires Shaped(w) && CanHappen(w, a)
    ensures Shaped(next)
  {
    match a
    case Take(t) =>
      var knock := Step(w.knock, t.at, t.event);
      if Sends(w, t) then
        var lane, i := PickOf(w.lanes), t.event.member;
        Wire(knock, w.lanes[lane := w.lanes[lane] + 1], w.carried[i := w.carried[i] + 1])
      else w.(knock := knock)
    case GiveBack(i, lane) =>
      w.(lanes := w.lanes[lane := w.lanes[lane] - 1], carried := w.carried[i := w.carried[i] - 1])
  }

  /** A send gives its stream back before its reply reaches the coordinator, and once. */
  predicate CanHappen(w: Wire, a: Act)
    requires Shaped(w)
  {
    match a
    case Take(t) =>
      && Possible(w.knock, t.event)
      && (t.event.ReplyIn? ==> w.carried[t.event.member] < w.knock.members[t.event.member].inFlight)
    case GiveBack(i, lane) => i < |w.carried| && lane < LANES && 0 < w.carried[i] && 0 < w.lanes[lane]
  }

  ghost predicate Acts(w: Wire, acts: seq<Act>)
    requires Shaped(w)
    decreases |acts|
  {
    acts == [] || (CanHappen(w, acts[0]) && Acts(Next(w, acts[0]), acts[1..]))
  }

  function End(w: Wire, acts: seq<Act>): (end: Wire)
    requires Shaped(w) && Acts(w, acts)
    ensures Shaped(end)
    decreases |acts|
  {
    if acts == [] then w else End(Next(w, acts[0]), acts[1..])
  }

  ghost predicate WithinStreams(w: Wire) {
    forall i :: 0 <= i < |w.lanes| ==> 0 <= w.lanes[i] <= STREAMS_PER_LANE
  }

  ghost predicate Balanced(w: Wire) {
    Shaped(w) && AllSound(w.knock) && Tallied(w.lanes, w.carried, w.knock)
  }

  lemma {:induction false} SumUpdate(s: seq<int>, i: nat, x: int)
    requires i < |s|
    ensures Sum(s[i := x]) == Sum(s) - s[i] + x
  {
    var n := |s| - 1;
    if i < n {
      SumUpdate(s[..n], i, x);
      assert s[i := x][..n] == s[..n][i := x];
    } else {
      assert s[i := x][..n] == s[..n];
    }
  }

  lemma {:induction false} SumBelow(s: seq<int>, most: int)
    requires forall i :: 0 <= i < |s| ==> s[i] <= most
    ensures Sum(s) <= |s| * most
  {
    if s != [] { SumBelow(s[..|s| - 1], most); }
  }

  lemma {:induction false} SumAbove(s: seq<int>, least: int)
    requires forall i :: 0 <= i < |s| ==> least <= s[i]
    ensures |s| * least <= Sum(s)
  {
    if s != [] { SumAbove(s[..|s| - 1], least); }
  }

  /** A stream for every request on a connection, and no more such requests than the
      account has in flight. */
  ghost predicate Tallied(lanes: seq<int>, carried: seq<int>, k: Knock) {
    && |carried| == |k.members|
    && Sum(lanes) == Sum(carried)
    && (forall i :: 0 <= i < |carried| ==> 0 <= carried[i] <= k.members[i].inFlight)
  }

  lemma NextBalanced(w: Wire, a: Act)
    requires Balanced(w) && CanHappen(w, a)
    ensures Balanced(Next(w, a))
  {
    match a
    case GiveBack(i, lane) => GiveBackTallied(w, i, lane);
    case Take(t) =>
      StepSound(w.knock, t.at, t.event);
      TakeTallied(w, t);
  }

  lemma GiveBackTallied(w: Wire, i: nat, lane: nat)
    requires Shaped(w) && Tallied(w.lanes, w.carried, w.knock) && CanHappen(w, GiveBack(i, lane))
    ensures var n := Next(w, GiveBack(i, lane)); Tallied(n.lanes, n.carried, n.knock)
  {
    SumUpdate(w.lanes, lane, w.lanes[lane] - 1);
    SumUpdate(w.carried, i, w.carried[i] - 1);
  }

  lemma TakeTallied(w: Wire, t: Timed)
    requires Shaped(w) && Tallied(w.lanes, w.carried, w.knock) && CanHappen(w, Take(t))
    ensures var n := Next(w, Take(t)); Tallied(n.lanes, n.carried, n.knock)
  {
    var n := Next(w, Take(t));
    forall i | 0 <= i < |w.carried|
      ensures 0 <= n.carried[i] <= n.knock.members[i].inFlight
    {
      EventInFlight(w.knock, t, i);
    }
    if Sends(w, t) {
      var lane := PickOf(w.lanes);
      SumUpdate(w.lanes, lane, w.lanes[lane] + 1);
      SumUpdate(w.carried, t.event.member, w.carried[t.event.member] + 1);
    }
  }

  lemma EventInFlight(k: Knock, t: Timed, i: nat)
    requires HasLegs(k) && i < |k.members|
    ensures Step(k, t.at, t.event).members[i].inFlight == k.members[i].inFlight
              + (if Spends(k, t, i, true) then 1 else 0)
              - (if t.event.ReplyIn? && t.event.member == i then 1 else 0)
  {
    if t.event.ReplyIn? && t.event.member == i {
      FreshReplyInFlight(HandedBack(k.members[i], t.event.attempt), t.event.reply, t.at);
    }
  }

  lemma FreshReplyInFlight(m: MemberState, rep: Reply, now: int)
    ensures OnFreshReply(m, rep, now).inFlight == m.inFlight
  {}

  /** Five accounts within their shares, one of them with room, have fewer requests out than
      the connections have streams. */
  lemma {:induction false} ShareLeavesRoom(carried: seq<int>, i: nat)
    requires |carried| <= 5 && i < |carried| && carried[i] < 300
    requires forall j :: 0 <= j < |carried| ==> carried[j] <= 300
    ensures Sum(carried) < 1500
  {
    SumUpdate(carried, i, carried[i] + 1);
    SumBelow(carried[i := carried[i] + 1], 300);
    MulMonotone(|carried|, 5, 300);
  }

  /** With at most five accounts, while a send is still to come some connection has room. */
  lemma {:induction false} RoomForASend(lanes: seq<int>, carried: seq<int>, i: nat)
    requires |lanes| == LANES && |carried| <= FLEET_ACCOUNTS && i < |carried|
    requires Sum(lanes) == Sum(carried) && carried[i] < IN_FLIGHT_CAP
    requires forall j :: 0 <= j < |carried| ==> carried[j] <= IN_FLIGHT_CAP
    ensures lanes[PickOf(lanes)] < STREAMS_PER_LANE
  {
    assert IN_FLIGHT_CAP == 300;
    ShareLeavesRoom(carried, i);
    if forall j :: 0 <= j < LANES ==> STREAMS_PER_LANE <= lanes[j] { SumAbove(lanes, STREAMS_PER_LANE); }
    PickFromExactly(lanes, 0, 0);
  }

  lemma NextWithinStreams(w: Wire, a: Act)
    requires Balanced(w) && CanHappen(w, a) && WithinStreams(w) && |w.knock.members| <= FLEET_ACCOUNTS
    ensures WithinStreams(Next(w, a))
  {
    if a.Take? && Sends(w, a.turn) {
      forall j | 0 <= j < |w.carried|
        ensures w.carried[j] <= IN_FLIGHT_CAP
      {
        assert Sound(w.knock.members[j], w.knock.marketEnd);
      }
      RoomForASend(w.lanes, w.carried, a.turn.event.member);
    }
  }

  lemma {:induction false} FleetWithinStreams(w: Wire, acts: seq<Act>)
    requires Balanced(w) && WithinStreams(w) && |w.knock.members| <= FLEET_ACCOUNTS && Acts(w, acts)
    ensures WithinStreams(End(w, acts))
    decreases |acts|
  {
    if acts != [] {
      NextBalanced(w, acts[0]);
      NextWithinStreams(w, acts[0]);
      FleetWithinStreams(Next(w, acts[0]), acts[1..]);
    }
  }

  // ----- From idle connections

  /** n accounts with the same legs, idle connections. */
  function Idle(n: nat, legs: seq<Leg>, knockUntil: int, marketEnd: int): (w: Wire)
    requires legs != []
    ensures Shaped(w)
  {
    Wire(Knock(seq(n, _ => Start(legs)), knockUntil, marketEnd), seq(LANES, _ => 0), seq(n, _ => 0))
  }

  lemma {:induction false} SumZero(n: nat)
    ensures Sum(seq(n, _ => 0)) == 0
  {
    if 0 < n {
      SumZero(n - 1);
      assert seq(n, _ => 0)[..n - 1] == seq(n - 1, _ => 0);
    }
  }

  lemma IdleBalanced(n: nat, legs: seq<Leg>, knockUntil: int, marketEnd: int)
    requires legs != [] && DistinctOutcomes(legs)
    ensures Balanced(Idle(n, legs, knockUntil, marketEnd))
  {
    StartSound(legs, marketEnd);
    SumZero(n);
    SumZero(LANES);
  }

  /** The cadence, in nanoseconds. */
  const PACE := 25_000_000

  /** Events come in time order, and each member's slots at least a cadence apart. */
  predicate Paced(acts: seq<Act>, last: seq<int>, clock: int)
    decreases |acts|
  {
    acts == [] ||
    match acts[0]
    case GiveBack(_, _) => Paced(acts[1..], last, clock)
    case Take(t) =>
      && clock <= t.looked <= t.at
      && (t.event.SlotDue? ==> t.event.member < |last| && last[t.event.member] + PACE <= t.at)
      && Paced(acts[1..], if t.event.SlotDue? then last[t.event.member := t.at] else last, t.at)
  }

  function Filling(x: int, most: nat): int {
    if x < 0 then 0 else if x < most then x else most
  }

  /** After t sends, the accounts taking turns, the connections fill one by one: round
      rounds are over and turn accounts have had theirs in the next. */
  ghost predicate Filled(w: Wire, t: nat, round: nat, turn: nat) {
    && Shaped(w)
    && (forall j :: 0 <= j < LANES ==> w.lanes[j] == Filling(t - 100 * j, 100))
    && (forall i :: 0 <= i < |w.knock.members| ==>
          !w.knock.members[i].stopped && w.knock.members[i].inFlight == round + (if i < turn then 1 else 0))
  }

  /** Member i's part of a cadence, in even steps. */
  function Offset(i: nat, step: nat): nat { i * step }

  /** Where the turns stand: each member may send once its own part of its cadence is up. */
  ghost predicate Turns(last: seq<int>, base: int, step: nat, turn: nat) {
    forall i :: 0 <= i < |last| ==> last[i] + PACE <= base + Offset(i, step) + (if i < turn then PACE else 0)
  }

  lemma FillsOneLane(lanes: seq<int>, t: nat)
    requires |lanes| == LANES && t < 1500
    requires forall j :: 0 <= j < LANES ==> lanes[j] == Filling(t - 100 * j, 100)
    ensures forall j :: 0 <= j < LANES ==>
              lanes[PickOf(lanes) := lanes[PickOf(lanes)] + 1][j] == Filling(t + 1 - 100 * j, 100)
  {
    PickFromExactly(lanes, 0, 0);
    assert lanes[t / 100] < STREAMS_PER_LANE;
  }

  lemma SlotKeepsSending(k: Knock, now: int, j: nat, i: nat)
    requires HasLegs(k) && i < |k.members| && j < |k.members| && !k.members[i].stopped
    requires !Past(k.knockUntil, k.marketEnd, now) && k.members[j].inFlight < IN_FLIGHT_CAP
    ensures var n := Step(k, now, SlotDue(j)).members[i];
            !n.stopped && n.inFlight == k.members[i].inFlight + (if i == j then 1 else 0)
  {}

  lemma FillOne(w: Wire, t: nat, round: nat, turn: nat, at: int)
    requires Filled(w, t, round, turn) && t < 1500 && turn < |w.knock.members| && round <= 250
    requires !Past(w.knock.knockUntil, w.knock.marketEnd, at)
    ensures var a := Take(Timed(at, at, SlotDue(turn)));
            && CanHappen(w, a) && Filled(Next(w, a), t + 1, round, turn + 1)
            && Next(w, a).knock.knockUntil == w.knock.knockUntil && Next(w, a).knock.marketEnd == w.knock.marketEnd
            && |Next(w, a).knock.members| == |w.knock.members|
  {
    assert IN_FLIGHT_CAP == 300;
    FillsOneLane(w.lanes, t);
    var n := Step(w.knock, at, SlotDue(turn));
    forall i | 0 <= i < |w.knock.members|
      ensures !n.members[i].stopped && n.members[i].inFlight == round + (if i < turn + 1 then 1 else 0)
    {
      SlotKeepsSending(w.knock, at, turn, i);
    }
  }

  lemma RoundIsOver(w: Wire, t: nat, round: nat)
    requires Filled(w, t, round, |w.knock.members|)
    ensures Filled(w, t, round + 1, 0)
  {}

  lemma OneTooMany(w: Wire, round: nat, turn: nat, at: int)
    requires Filled(w, 1500, round, turn) && turn < |w.knock.members| && round <= 250
    requires !Past(w.knock.knockUntil, w.knock.marketEnd, at)
    ensures var a := Take(Timed(at, at, SlotDue(turn)));
            CanHappen(w, a) && !WithinStreams(Next(w, a))
  {
    var a := Take(Timed(at, at, SlotDue(turn)));
    assert IN_FLIGHT_CAP == 300;
    assert Sends(w, a.turn);
    assert Next(w, a).lanes[PickOf(w.lanes)] == 101;
  }

  /** How far the sends have come: after t of them, six accounts or more are at most 250
      rounds in, and within 6.25 seconds. */
  lemma SoonEnough(n: nat, t: nat, round: nat, turn: nat, step: nat)
    requires 6 <= n && t <= 1500 && t == round * n + turn && turn < n && Offset(n, step) <= PACE
    ensures round <= 250
    ensures Offset(turn, step) <= Offset(turn + 1, step) <= PACE
    ensures 25_000_000 * round + Offset(turn, step) <= 6_250_000_000
  {
    MulMonotone(6, n, round);
    MulMonotone(turn + 1, n, step);
    MulMonotone(turn, turn + 1, step);
    if round == 250 { assert round * n == 250 * n; }
  }

  /** From there the accounts' slots, taken in turn on their cadence, go on to put one
      request too many on a connection. */
  lemma {:induction false} FillOn(w: Wire, t: nat, round: nat, turn: nat, step: nat, last: seq<int>, clock: int)
    returns (acts: seq<Act>)
    requires Filled(w, t, round, turn) && t <= 1500
    requires var n := |w.knock.members|;
             6 <= n == |last| && t == round * n + turn && turn < n && Offset(n, step) <= PACE
    requires 6_250 < w.knock.knockUntil && 6_250 < w.knock.marketEnd
    requires Turns(last, 25_000_000 * round, step, turn) && clock <= 25_000_000 * round + Offset(turn, step)
    ensures Acts(w, acts) && Paced(acts, last, clock) && !WithinStreams(End(w, acts))
    decreases 1500 - t
  {
    var n := |w.knock.members|;
    var at := 25_000_000 * round + Offset(turn, step);
    SoonEnough(n, t, round, turn, step);
    var a := Take(Timed(at, at, SlotDue(turn)));
    assert !Past(w.knock.knockUntil, w.knock.marketEnd, at);
    var rest: seq<Act>;
    if t == 1500 {
      OneTooMany(w, round, turn, at);
      rest := [];
    } else {
      FillOne(w, t, round, turn, at);
      var lastNow := last[turn := at];
      if turn + 1 < n {
        rest := FillOn(Next(w, a), t + 1, round, turn + 1, step, lastNow, at);
      } else {
        RoundIsOver(Next(w, a), t + 1, round);
        NextRound(n, round, turn);
        rest := FillOn(Next(w, a), t + 1, round + 1, 0, step, lastNow, at);
      }
    }
    acts := [a] + rest;
    assert acts[0] == a && acts[1..] == rest;
  }

  lemma NextRound(n: nat, round: nat, turn: nat)
    requires turn + 1 == n
    ensures round * n + turn + 1 == (round + 1) * n + 0
  {}

  lemma EvenSteps(n: nat)
    requires 0 < n
    ensures Offset(n, PACE / n) <= PACE
  {
    assert n * (PACE / n) <= PACE;
  }

  /** In a knock that starts with idle connections and has 6.25 seconds or more to go, no
      order of sends, replies and released streams puts more than 100 requests on one
      connection, exactly when the fleet has at most five accounts; and it takes no more
      than five to keep it so when every account's slots are a whole cadence of 25 ms apart. */
  lemma FiveAccountsExactly(n: nat, legs: seq<Leg>, knockUntil: int, marketEnd: int)
    requires legs != [] && DistinctOutcomes(legs) && 6_250 < knockUntil && 6_250 < marketEnd
    ensures n <= FLEET_ACCOUNTS <==>
            forall acts :: Acts(Idle(n, legs, knockUntil, marketEnd), acts) ==>
              WithinStreams(End(Idle(n, legs, knockUntil, marketEnd), acts))
    ensures n <= FLEET_ACCOUNTS <==>
            forall acts :: Acts(Idle(n, legs, knockUntil, marketEnd), acts) && Paced(acts, seq(n, _ => -PACE), 0) ==>
              WithinStreams(End(Idle(n, legs, knockUntil, marketEnd), acts))
  {
    var idle := Idle(n, legs, knockUntil, marketEnd);
    if n <= FLEET_ACCOUNTS {
      IdleBalanced(n, legs, knockUntil, marketEnd);
      forall acts | Acts(idle, acts)
        ensures WithinStreams(End(idle, acts))
      {
        FleetWithinStreams(idle, acts);
      }
    } else {
      EvenSteps(n);
      var acts := FillOn(idle, 0, 0, 0, PACE / n, seq(n, _ => -PACE), 0);
    }
  }
}
