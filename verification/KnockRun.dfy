/** One knock as the program runs it (knocker/internal/knock/knock.go): members whose
    fields the coordinator alone updates, one method per thing it does, and its loop. Each
    method is held to the value it must leave behind (KnockModel). */
module KnockRun {
  import opened Options
  import opened KnockModel
  import opened KnockRuns

  class Member {
    const legs: seq<Leg>
    var attempts: nat
    var heldBack: nat
    var inFlight: int
    var accepted: map<string, AcceptedOrder>
    var registered: int
    var errors: Items
    var ambiguous: Items
    var stopped: bool
    var gaveUp: bool
    var drainUntil: int
    // Shared with the timing thread, which hands no slot to a member whose flag is down.
    var sending: bool
    // The sends in the network's hands: the leg of each attempt, and the attempts whose
    // reply has been handed back.
    ghost var sent: seq<string>
    ghost var answered: set<nat>

    constructor (legs: seq<Leg>)
      requires legs != []
      ensures View() == Start(legs)
    {
      this.legs := legs;
      attempts, heldBack, inFlight, registered, drainUntil := 0, 0, 0, 0, 0;
      accepted, errors, ambiguous := map[], NO_ITEMS, NO_ITEMS;
      stopped, gaveUp, sending := false, false, true;
      sent, answered := [], {};
    }

    ghost function View(): MemberState
      reads this
    {
      MemberState(legs, attempts, heldBack, inFlight, accepted, registered, errors, ambiguous,
                  stopped, gaveUp, drainUntil, sending, sent, answered)
    }
  }

  class Run {
    const members: seq<Member>
    const marketEnd: int
    var knockUntil: int

    ghost predicate Valid()
      reads members
    {
      && (forall i, j :: 0 <= i < j < |members| ==> members[i] != members[j])
      && (forall i :: 0 <= i < |members| ==> members[i].legs != [])
    }

    ghost function View(): Knock
      reads this, members
    {
      Knock(seq(|members|, i requires 0 <= i < |members| reads members => members[i].View()), knockUntil, marketEnd)
    }

    constructor (members: seq<Member>, knockUntil: int, marketEnd: int)
      requires forall i, j :: 0 <= i < j < |members| ==> members[i] != members[j]
      requires forall i :: 0 <= i < |members| ==> members[i].legs != []
      ensures Valid() && this.members == members && this.knockUntil == knockUntil && this.marketEnd == marketEnd
    {
      this.members := members;
      this.knockUntil := knockUntil;
      this.marketEnd := marketEnd;
    }

    /** Finished, or the earliest moment some member has to be looked at. */
    method Pending(now: int) returns (wake: Option<int>, finished: bool)
      requires Valid()
      ensures wake == Wake(View(), now, |members|)
      ensures finished <==> Finished(View(), now)
      ensures finished <==> wake.None?
    {
      finished := true;
      wake := None;
      for i := 0 to |members|
        invariant wake == Wake(View(), now, i)
        invariant finished <==> wake.None?
      {
        var m := members[i];
        var due: int;
        if !m.stopped {
          due := Least(knockUntil, marketEnd) * NANOS_PER_MS;
        } else if 0 < m.inFlight && now < m.drainUntil {
          due := m.drainUntil;
        } else {
          continue;
        }
        finished := false;
        if wake.None? || due < wake.value { wake := Some(due); }
      }
      WakeIsEarliest(View(), now, |members|);
    }

    method Stop(m: Member, now: int)
      modifies m
      ensures m.View() == KnockModel.Stop(old(m.View()), now)
    {
      if m.stopped { return; }
      m.stopped := true;
      m.sending := false;
      m.drainUntil := now + DRAIN_TIME;
    }

    method PastDeadline(m: Member, now: int) returns (past: bool)
      modifies m
      ensures past <==> Past(knockUntil, marketEnd, now)
      ensures m.View() == KnockModel.PastDeadline(old(m.View()), knockUntil, marketEnd, now)
    {
      var wall := Wall(now);
      if marketEnd <= wall {
        m.errors := m.errors.AddText(MARKET_ENDED_ERROR);
        Stop(m, now);
        return true;
      }
      if knockUntil <= wall {
        m.errors := m.errors.AddText(KNOCK_BUDGET_ERROR);
        m.gaveUp := true;
        Stop(m, now);
        return true;
      }
      return false;
    }

    /** One slot: a send, unless the member has stopped, is past its deadline or has its
        share of the streams in flight. */
    method OnSlot(index: nat, now: int)
      requires Valid() && index < |members|
      modifies members[index]
      ensures members[index].View() == KnockModel.OnSlot(old(members[index].View()), knockUntil, marketEnd, now)
    {
      var m := members[index];
      if m.stopped { return; }
      var past := PastDeadline(m, now);
      if past { return; }
      if IN_FLIGHT_CAP <= m.inFlight {
        m.heldBack := m.heldBack + 1;
        return;
      }
      var remaining := RemainingLegs(m.legs, m.accepted);
      if |remaining| == 0 { remaining := m.legs; }
      var leg := remaining[m.attempts % |remaining|];
      m.attempts := m.attempts + 1;
      m.inFlight := m.inFlight + 1;
      m.sent := m.sent + [leg.outcome];
    }

    method OnReply(index: nat, attempt: nat, rep: Reply, now: int)
      requires Valid() && index < |members|
      modifies members[index]
      ensures members[index].View() == KnockModel.OnReply(old(members[index].View()), attempt, rep, now)
    {
      var m := members[index];
      m.inFlight := m.inFlight - 1;
      m.answered := m.answered + {attempt};
      assert m.View() == HandedBack(old(m.View()), attempt);
      if m.stopped && m.drainUntil < now { return; }
      if rep.local.Some? {
        m.ambiguous := m.ambiguous.AddText(rep.local.value);
        Stop(m, now);
        return;
      }
      if rep.verdict.transient {
        m.ambiguous := m.ambiguous.FirstOf(rep.status, rep.body);
        return;
      }
      OnVerdict(m, rep, now);
    }

    /** The part of OnReply that judges a verdict. */
    method OnVerdict(m: Member, rep: Reply, now: int)
      modifies m
      ensures m.View() == KnockModel.OnVerdict(old(m.View()), rep, now)
    {
      if rep.verdict.accepted {
        if rep.outcome in m.accepted && m.accepted[rep.outcome].orderId != rep.verdict.orderId {
          m.ambiguous := m.ambiguous.AddText(
            Conflict(rep.outcome, m.accepted[rep.outcome].orderId, rep.verdict.orderId));
          Stop(m, now);
        } else {
          m.accepted := m.accepted[rep.outcome := AcceptedOrder(rep.outcome, rep.verdict.orderId, rep.status, rep.body)];
          if m.registered == 0 || rep.returned < m.registered { m.registered := rep.returned; }
          assert m.View() == Register(old(m.View()), rep);
        }
      } else {
        m.errors := m.errors.AddReply(rep.status, rep.body);
      }
      if |m.accepted| == |m.legs| {
        Stop(m, now);
        return;
      }
      if !rep.verdict.accepted && !rep.verdict.notReady { Stop(m, now); }
    }

    /** What a failure, a stop or the timer does to every member still sending. */
    method OnEveryMember(now: int, e: Event)
      requires Valid() && (e.Failed? || e.Stopping? || e.TimerFired?)
      modifies members
      ensures Valid() && View() == Step(old(View()), now, e)
    {
      for i := 0 to |members|
        invariant Valid()
        invariant forall j :: 0 <= j < i ==>
                    members[j].View() == OnEvent(old(members[j].View()), j, knockUntil, marketEnd, now, e)
        invariant forall j :: i <= j < |members| ==> members[j].View() == old(members[j].View())
      {
        if !members[i].stopped { EndSending(members[i], now, e); }
      }
    }

    method EndSending(m: Member, now: int, e: Event)
      requires !m.stopped && m.legs != [] && (e.Failed? || e.Stopping? || e.TimerFired?)
      modifies m
      ensures m.View() == OnEvent(old(m.View()), 0, knockUntil, marketEnd, now, e)
    {
      match e {
        case Failed(error) =>
          m.ambiguous := m.ambiguous.AddText("knock failed: " + error);
          Stop(m, now);
        case Stopping =>
          m.errors := m.errors.AddText(STOPPED_ERROR);
          Stop(m, now);
        case TimerFired =>
          var _ := PastDeadline(m, now);
      }
    }

    method Handle(now: int, e: Event)
      requires Valid() && Possible(View(), e)
      modifies this`knockUntil, members
      ensures Valid() && View() == Step(old(View()), now, e)
    {
      match e {
        case SlotDue(j) => OnSlot(j, now);
        case ReplyIn(j, attempt, rep) => OnReply(j, attempt, rep, now);
        case GiveUp(until) => knockUntil := Least(knockUntil, until);
        case _ => OnEveryMember(now, e);
      }
    }

    /** The coordinator's loop: takes events up until a look finds the knock finished, or
        the events run out. */
    method Coordinate(events: seq<Timed>, ghost clock: int) returns (taken: nat)
      requires Valid() && KnockModel.Run(View(), clock, events)
      modifies this`knockUntil, members
      ensures Valid() && taken == KnockRuns.Coordinate(old(View()), events)
      ensures View() == After(old(View()), events[..taken])
    {
      taken := 0;
      ghost var now := clock;
      while taken < |events|
        invariant taken <= |events| && Valid() && KnockModel.Run(View(), now, events[taken..])
        invariant View() == After(old(View()), events[..taken])
        invariant taken + KnockRuns.Coordinate(View(), events[taken..]) == KnockRuns.Coordinate(old(View()), events)
      {
        var t := events[taken];
        var _, finished := Pending(t.looked);
        if finished { return; }
        ghost var was := View();
        Handle(t.at, t.event);
        AfterOneMore(old(View()), events, taken);
        assert events[taken..][1..] == events[taken + 1..];
        now := t.at;
        taken := taken + 1;
      }
    }
  }

  method RemainingLegs(legs: seq<Leg>, accepted: map<string, AcceptedOrder>) returns (remaining: seq<Leg>)
    ensures remaining == Remaining(legs, accepted)
  {
    remaining := [];
    for i := 0 to |legs|
      invariant remaining + Remaining(legs[i..], accepted) == Remaining(legs, accepted)
    {
      assert legs[i..][0] == legs[i] && legs[i..][1..] == legs[i + 1..];
      ghost var rest := Remaining(legs[i + 1..], accepted);
      if legs[i].outcome !in accepted {
        assert remaining + ([legs[i]] + rest) == remaining + [legs[i]] + rest;
        remaining := remaining + [legs[i]];
      } else {
        assert [] + rest == rest;
      }
    }
    assert legs[|legs|..] == [];
  }

  lemma {:induction false} AfterOneMore(k: Knock, events: seq<Timed>, n: nat)
    requires HasLegs(k) && n < |events|
    ensures After(k, events[..n + 1]) == Step(After(k, events[..n]), events[n].at, events[n].event)
    decreases n
  {
    if n == 0 {
      assert events[..1][1..] == [];
    } else {
      var next := Step(k, events[0].at, events[0].event);
      assert events[..n + 1][1..] == events[1..][..n] && events[..n][1..] == events[1..][..n - 1];
      AfterOneMore(next, events[1..], n - 1);
    }
  }

  /** A member's part of the result: its registered orders, in leg order. */
  method AcceptedList(legs: seq<Leg>, accepted: map<string, AcceptedOrder>) returns (list: seq<AcceptedOrder>)
    ensures list == InLegOrder(legs, accepted)
  {
    list := [];
    for i := 0 to |legs|
      invariant list + InLegOrder(legs[i..], accepted) == InLegOrder(legs, accepted)
    {
      assert legs[i..][0] == legs[i] && legs[i..][1..] == legs[i + 1..];
      ghost var rest := InLegOrder(legs[i + 1..], accepted);
      if legs[i].outcome in accepted {
        assert list + ([accepted[legs[i].outcome]] + rest) == list + [accepted[legs[i].outcome]] + rest;
        list := list + [accepted[legs[i].outcome]];
      } else {
        assert [] + rest == rest;
      }
    }
    assert legs[|legs|..] == [];
  }
}
