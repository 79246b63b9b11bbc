/** What a fleet makes of its members' knocks (polymarket_bot/fleet.py): which member's
    order it keeps, what becomes of the others', and what the whole came to. */
module FleetSettlement {
  import opened Options

  datatype Status = Reported(name: string) | Cancelled | CancelRequested | TerminalUnknown

  datatype Order = Order(id: string, outcome: string, account: string, status: Status)

  /** What one account's placement came to. */
  datatype Result = Result(orders: seq<Order>, failed: bool, retryable: bool, gaveUp: bool, registeredMs: Option<int>,
                           expected: nat)
  {
    predicate Complete() { !failed && |orders| == expected }
  }

  datatype Member = Member(name: string, result: Option<Result>) {
    predicate Registered() { result.Some? && result.value.Complete() }

    function Orders(): seq<Order> { if result.Some? then result.value.orders else [] }
  }

  predicate NamesDiffer(members: seq<Member>) {
    forall i, j :: 0 <= i < j < |members| ==> members[i].name != members[j].name
  }

  // ----- Whose order is kept

  /** A time to be compared, a missing one after every other. */
  datatype Key = Key(missing: bool, at: int)

  predicate Before(a: Key, b: Key) {
    (!a.missing && b.missing) || (a.missing == b.missing && a.at < b.at)
  }

  type Clock = string -> Option<int>

  /** The earliest the venue registered any of the orders, once it has stamped them all. */
  function Stamp(clock: Clock, orders: seq<Order>): (r: Option<int>)
    ensures r.Some? <==> orders != [] && forall i :: 0 <= i < |orders| ==> clock(orders[i].id).Some?
    ensures r.Some? ==> forall i :: 0 <= i < |orders| ==> r.value <= clock(orders[i].id).value
    ensures r.Some? ==> exists i :: 0 <= i < |orders| && r.value == clock(orders[i].id).value
  {
    if orders == [] then None
    else
      var last, rest := clock(orders[|orders| - 1].id), orders[..|orders| - 1];
      if rest == [] then last
      else
        var before := Stamp(clock, rest);
        if last.None? || before.None? then None else Some(if last.value < before.value then last.value else before.value)
  }

  predicate AllStamped(clock: Clock, members: seq<Member>) {
    forall i :: 0 <= i < |members| && members[i].Registered() ==> Stamp(clock, members[i].Orders()).Some?
  }

  /** The polls of the venue's clock, until one has every stamp or the wait is over. */
  method VenueStamps(polls: seq<Clock>, members: seq<Member>) returns (clock: Option<Clock>)
    ensures clock.None? <==> forall i :: 0 <= i < |polls| ==> !AllStamped(polls[i], members)
    ensures clock.Some? ==> exists i :: 0 <= i < |polls| && clock.value == polls[i] && AllStamped(polls[i], members)
                                        && forall j :: 0 <= j < i ==> !AllStamped(polls[j], members)
  {
    for i := 0 to |polls|
      invariant forall j :: 0 <= j < i ==> !AllStamped(polls[j], members)
    {
      var stamped := true;
      for m := 0 to |members|
        invariant stamped <==> forall k :: 0 <= k < m && members[k].Registered() ==> Stamp(polls[i], members[k].Orders()).Some?
      {
        if members[m].Registered() && Stamp(polls[i], members[m].Orders()).None? {
          stamped := false;
        }
      }
      if stamped {
        return Some(polls[i]);
      }
    }
    return None;
  }

  function VenueKey(clock: Clock, m: Member): Key
    requires Stamp(clock, m.Orders()).Some?
  {
    Key(false, Stamp(clock, m.Orders()).value)
  }

  function ReplyKey(m: Member): Key
    requires m.result.Some?
  {
    var at := m.result.value.registeredMs;
    Key(at.None?, if at.Some? then at.value else 0)
  }

  /** One clock for all: the venue's when it stamped every registered member, else the
      replies'. */
  function KeyOf(clock: Option<Clock>, members: seq<Member>, i: nat): Key
    requires i < |members| && members[i].Registered()
    requires clock.Some? ==> AllStamped(clock.value, members)
  {
    if clock.Some? then VenueKey(clock.value, members[i]) else ReplyKey(members[i])
  }

  /** The registered member of least key, the first of equals. */
  function Choose(clock: Option<Clock>, members: seq<Member>, upTo: nat): (r: Option<nat>)
    requires upTo <= |members| && (clock.Some? ==> AllStamped(clock.value, members))
    ensures r.Some? ==> r.value < upTo && members[r.value].Registered()
  {
    if upTo == 0 then None
    else
      var before, i := Choose(clock, members, upTo - 1), upTo - 1;
      if !members[i].Registered() then before
      else if before.None? || Before(KeyOf(clock, members, i), KeyOf(clock, members, before.value)) then Some(i)
      else before
  }

  ghost predicate LeastUpTo(clock: Option<Clock>, members: seq<Member>, upTo: nat, r: nat)
    requires r < upTo <= |members| && members[r].Registered() && (clock.Some? ==> AllStamped(clock.value, members))
  {
    forall i :: 0 <= i < upTo && members[i].Registered() ==>
      && !Before(KeyOf(clock, members, i), KeyOf(clock, members, r))
      && (i < r ==> Before(KeyOf(clock, members, r), KeyOf(clock, members, i)))
  }

  /** One is kept when any registered: none before it on the one clock used, and the first
      of those at its time. */
  lemma {:induction false} KeptIsLeast(clock: Option<Clock>, members: seq<Member>, upTo: nat)
    requires upTo <= |members| && (clock.Some? ==> AllStamped(clock.value, members))
    ensures var r := Choose(clock, members, upTo);
            && (r.None? <==> forall i :: 0 <= i < upTo ==> !members[i].Registered())
            && (r.Some? ==> LeastUpTo(clock, members, upTo, r.value))
  {
    if upTo > 0 {
      var last := upTo - 1;
      KeptIsLeast(clock, members, last);
      var before := Choose(clock, members, last);
      if before.Some? && members[last].Registered() {
        LeastExtends(clock, members, last, before.value);
      }
    }
  }

  lemma LeastExtends(clock: Option<Clock>, members: seq<Member>, last: nat, r: nat)
    requires r < last < |members| && members[r].Registered() && members[last].Registered()
    requires (clock.Some? ==> AllStamped(clock.value, members)) && LeastUpTo(clock, members, last, r)
    ensures if Before(KeyOf(clock, members, last), KeyOf(clock, members, r)) then LeastUpTo(clock, members, last + 1, last)
            else LeastUpTo(clock, members, last + 1, r)
  {
    forall i | 0 <= i < last && members[i].Registered()
      ensures Before(KeyOf(clock, members, last), KeyOf(clock, members, r)) ==>
                Before(KeyOf(clock, members, last), KeyOf(clock, members, i))
    {
      assert !Before(KeyOf(clock, members, i), KeyOf(clock, members, r));
    }
  }

  lemma {:induction false} ChosenIsFirst(clock: Option<Clock>, members: seq<Member>, r: nat, i: nat)
    requires (clock.Some? ==> AllStamped(clock.value, members)) && Choose(clock, members, |members|) == Some(r)
    requires i < |members| && members[i].Registered()
    ensures r < |members| && members[r].Registered()
    ensures if i < r then Before(KeyOf(clock, members, r), KeyOf(clock, members, i))
            else !Before(KeyOf(clock, members, i), KeyOf(clock, members, r))
  {
    KeptIsLeast(clock, members, |members|);
  }

  /** By the venue's clock, where it stamped every registered member, the kept one
      registered no later than any other; of equals it is the first. */
  lemma {:induction false} KeptByVenueTime(venue: Clock, members: seq<Member>, r: nat, i: nat)
    requires AllStamped(venue, members) && Choose(Some(venue), members, |members|) == Some(r)
    requires i < |members| && members[i].Registered()
    ensures r < |members| && members[r].Registered()
    ensures var best, other := Stamp(venue, members[r].Orders()).value, Stamp(venue, members[i].Orders()).value;
            best < other || (best == other && r <= i)
  {
    ChosenIsFirst(Some(venue), members, r, i);
  }

  /** And by the members' own replies otherwise, one that came to no time counting as last. */
  lemma {:induction false} KeptByReplyTime(members: seq<Member>, r: nat, i: nat)
    requires Choose(None, members, |members|) == Some(r) && i < |members| && members[i].Registered()
    ensures r < |members| && members[r].Registered()
    ensures var best, other := members[r].result.value.registeredMs, members[i].result.value.registeredMs;
            if best.Some? && other.Some? then best.value < other.value || (best == other && r <= i)
            else best.Some? || (other.None? && r <= i)
  {
    ChosenIsFirst(None, members, r, i);
  }

  // ----- What becomes of the orders

  /** What a member's account answers the cancellation of its orders with. */
  datatype Answer = Raised | Answered(canceled: seq<string>, terminal: seq<string>)

  function Stamped(m: Member): seq<Order> {
    seq(|m.Orders()|, i requires 0 <= i < |m.Orders()| => m.Orders()[i].(account := m.name))
  }

  predicate Laggard(m: Member, kept: Option<string>, keepBest: bool) {
    keepBest && kept.Some? && m.name != kept.value && m.Registered()
  }

  function Outcome(answer: Answer, id: string): Status {
    match answer
    case Raised => CancelRequested
    case Answered(canceled, terminal) =>
      if id in canceled then Cancelled else if id in terminal then TerminalUnknown else CancelRequested
  }

  function SettledOrder(m: Member, o: Order, kept: Option<string>, keepBest: bool, answer: Answer): Order {
    if Laggard(m, kept, keepBest) then o.(account := m.name, status := Outcome(answer, o.id)) else o.(account := m.name)
  }

  function SettledOf(m: Member, kept: Option<string>, keepBest: bool, answer: Answer): seq<Order> {
    seq(|m.Orders()|, i requires 0 <= i < |m.Orders()| => SettledOrder(m, m.Orders()[i], kept, keepBest, answer))
  }

  function SettledBy(members: seq<Member>, kept: Option<string>, keepBest: bool, answers: string -> Answer): seq<Order> {
    if members == [] then []
    else
      var m := members[|members| - 1];
      SettledBy(members[..|members| - 1], kept, keepBest, answers) + SettledOf(m, kept, keepBest, answers(m.name))
  }

  /** The ids reported cancelled, in order. */
  function CancelledIds(orders: seq<Order>): seq<string> {
    if orders == [] then []
    else
      var o, before := orders[|orders| - 1], CancelledIds(orders[..|orders| - 1]);
      if o.status.Cancelled? then before + [o.id] else before
  }

  function Failures(members: seq<Member>, kept: Option<string>, keepBest: bool, answers: string -> Answer): seq<string> {
    if members == [] then []
    else
      var m, before := members[|members| - 1], Failures(members[..|members| - 1], kept, keepBest, answers);
      if m.Orders() != [] && Laggard(m, kept, keepBest) && answers(m.name).Raised? then before + [m.name] else before
  }

  class Fleet {
    const keepBest: bool

    constructor (keepBest: bool)
      ensures this.keepBest == keepBest
    {
      this.keepBest := keepBest;
    }

    /** Cancels a laggard's orders, as far as its account answers. */
    method CancelLaggard(m: Member, answer: Answer) returns (orders: seq<Order>, cancelled: seq<string>)
      ensures |orders| == |m.Orders()|
      ensures forall i :: 0 <= i < |orders| ==>
                orders[i] == m.Orders()[i].(account := m.name, status := Outcome(answer, m.Orders()[i].id))
      ensures cancelled == CancelledIds(orders)
    {
      orders, cancelled := [], [];
      var stamped := Stamped(m);
      for k := 0 to |stamped|
        invariant |orders| == k && cancelled == CancelledIds(orders)
        invariant forall i :: 0 <= i < k ==> orders[i] == stamped[i].(status := Outcome(answer, stamped[i].id))
      {
        var status := Outcome(answer, stamped[k].id);
        if status.Cancelled? {
          cancelled := cancelled + [stamped[k].id];
        }
        ghost var shorter := orders;
        orders := orders + [stamped[k].(status := status)];
        assert orders[..k] == shorter;
      }
    }

    /** One member's orders, cancelled if it registered and another was kept. */
    method SettleMember(m: Member, kept: Option<string>, answer: Answer)
      returns (orders: seq<Order>, cancelled: seq<string>, failed: bool)
      requires forall o <- m.Orders() :: o.status.Reported?
      ensures orders == SettledOf(m, kept, keepBest, answer)
      ensures cancelled == CancelledIds(orders)
      ensures failed <==> m.Orders() != [] && Laggard(m, kept, keepBest) && answer.Raised?
    {
      orders, cancelled, failed := Stamped(m), [], false;
      if m.Orders() == [] || !Laggard(m, kept, keepBest) {
        NoneCancelled(orders);
        return;
      }
      failed := answer.Raised?;
      orders, cancelled := CancelLaggard(m, answer);
    }

    /** Collects every member's orders, the registered members not kept cancelled. */
    method Settle(members: seq<Member>, kept: Option<string>, answers: string -> Answer)
      returns (orders: seq<Order>, cancelled: seq<string>, errors: seq<string>)
      requires forall m <- members, o <- m.Orders() :: o.status.Reported?
      ensures orders == SettledBy(members, kept, keepBest, answers)
      ensures cancelled == CancelledIds(orders)
      ensures errors == Failures(members, kept, keepBest, answers)
    {
      orders, cancelled, errors := [], [], [];
      for i := 0 to |members|
        invariant orders == SettledBy(members[..i], kept, keepBest, answers)
        invariant cancelled == CancelledIds(orders)
        invariant errors == Failures(members[..i], kept, keepBest, answers)
      {
        var m := members[i];
        assert members[..i + 1][..i] == members[..i] && m in members;
        var more, ids, failed := SettleMember(m, kept, answers(m.name));
        if failed {
          errors := errors + [m.name];
        }
        CancelledIdsAppend(orders, more);
        orders, cancelled := orders + more, cancelled + ids;
      }
      assert members[..|members|] == members;
    }
  }

  lemma {:induction false} NoneCancelled(orders: seq<Order>)
    requires forall i :: 0 <= i < |orders| ==> !orders[i].status.Cancelled?
    ensures CancelledIds(orders) == []
  {
    if orders != [] { NoneCancelled(orders[..|orders| - 1]); }
  }

  lemma {:induction false} CancelledIdsAppend(a: seq<Order>, b: seq<Order>)
    ensures CancelledIds(a + b) == CancelledIds(a) + CancelledIds(b)
  {
    if b == [] {
      assert a + b == a;
    } else {
      assert (a + b)[..|a + b| - 1] == a + b[..|b| - 1];
      CancelledIdsAppend(a, b[..|b| - 1]);
    }
  }

  // ----- Nothing is lost, and one is kept

  function Bare(orders: seq<Order>): seq<Order> {
    seq(|orders|, i requires 0 <= i < |orders| => orders[i].(status := CancelRequested))
  }

  function Reports(members: seq<Member>): seq<Order> {
    if members == [] then [] else Reports(members[..|members| - 1]) + Stamped(members[|members| - 1])
  }

  lemma BareAppend(a: seq<Order>, b: seq<Order>)
    ensures Bare(a + b) == Bare(a) + Bare(b)
  {}

  /** Every order any member reported comes out once, in the members' order, with its
      account written in; settling changes nothing but statuses. */
  lemma {:induction false} OrdersConserved(members: seq<Member>, kept: Option<string>, keepBest: bool,
                                           answers: string -> Answer)
    ensures Bare(SettledBy(members, kept, keepBest, answers)) == Bare(Reports(members))
  {
    if members != [] {
      var rest, m := members[..|members| - 1], members[|members| - 1];
      OrdersConserved(rest, kept, keepBest, answers);
      SettlingChangesStatusOnly(m, kept, keepBest, answers(m.name));
      BareAppend(SettledBy(rest, kept, keepBest, answers), SettledOf(m, kept, keepBest, answers(m.name)));
      BareAppend(Reports(rest), Stamped(m));
    }
  }

  lemma SettlingChangesStatusOnly(m: Member, kept: Option<string>, keepBest: bool, answer: Answer)
    ensures Bare(SettledOf(m, kept, keepBest, answer)) == Bare(Stamped(m))
  {}

  /** The status its account's answer leaves a laggard's order in: cancelled exactly when
      the answer says so, known to be over when it says that, else still to be cancelled,
      as when there was no answer. */
  predicate AsAnswered(answer: Answer, o: Order) {
    && (o.status.Cancelled? <==> answer.Answered? && o.id in answer.canceled)
    && (o.status.TerminalUnknown? <==> answer.Answered? && o.id !in answer.canceled && o.id in answer.terminal)
    && (o.status.CancelRequested? <==> answer.Raised? || (o.id !in answer.canceled && o.id !in answer.terminal))
  }

  /** What became of an order is what its account's part called for: as reported, or, of an
      account that registered while another was kept, as its cancellation was answered. */
  ghost predicate Fair(members: seq<Member>, kept: Option<string>, keepBest: bool, answers: string -> Answer, o: Order) {
    exists i :: 0 <= i < |members| && members[i].name == o.account &&
      if Laggard(members[i], kept, keepBest) then AsAnswered(answers(o.account), o) else o in Stamped(members[i])
  }

  lemma {:induction false} OnlyLaggardsAreCancelled(members: seq<Member>, kept: Option<string>, keepBest: bool,
                                                    answers: string -> Answer)
    ensures forall o <- SettledBy(members, kept, keepBest, answers) :: Fair(members, kept, keepBest, answers, o)
  {
    if members != [] {
      var n := |members| - 1;
      var m := members[n];
      OnlyLaggardsAreCancelled(members[..n], kept, keepBest, answers);
      var before, settled := SettledBy(members[..n], kept, keepBest, answers), SettledOf(m, kept, keepBest, answers(m.name));
      forall o <- before + settled ensures Fair(members, kept, keepBest, answers, o) {
        if o in before {
          assert Fair(members[..n], kept, keepBest, answers, o);
        } else {
          var k :| 0 <= k < |settled| && settled[k] == o;
          if !Laggard(m, kept, keepBest) { assert o == Stamped(m)[k]; }
          assert members[n].name == o.account;
        }
      }
    }
  }

  /** The ids reported cancelled are those of the orders that ended so, and an account is
      named as failed exactly when it had orders to cancel and raised. */
  lemma {:induction false} CancellationsReported(members: seq<Member>, kept: Option<string>, keepBest: bool,
                                                 answers: string -> Answer)
    ensures var orders := SettledBy(members, kept, keepBest, answers);
            forall id :: id in CancelledIds(orders) <==> exists o <- orders :: o.id == id && o.status.Cancelled?
    ensures forall name :: name in Failures(members, kept, keepBest, answers) <==>
              exists m <- members :: m.name == name && m.Orders() != [] && Laggard(m, kept, keepBest) && answers(name).Raised?
  {
    CancelledIdsMembers(SettledBy(members, kept, keepBest, answers));
    FailuresMembers(members, kept, keepBest, answers);
  }

  lemma {:induction false} CancelledIdsMembers(orders: seq<Order>)
    ensures forall id :: id in CancelledIds(orders) <==> exists o <- orders :: o.id == id && o.status.Cancelled?
  {
    if orders != [] {
      var n := |orders| - 1;
      CancelledIdsMembers(orders[..n]);
      assert orders == orders[..n] + [orders[n]];
    }
  }

  lemma {:induction false} FailuresMembers(members: seq<Member>, kept: Option<string>, keepBest: bool,
                                           answers: string -> Answer)
    ensures forall name :: name in Failures(members, kept, keepBest, answers) <==>
              exists m <- members :: m.name == name && m.Orders() != [] && Laggard(m, kept, keepBest) && answers(name).Raised?
  {
    if members != [] {
      var n := |members| - 1;
      FailuresMembers(members[..n], kept, keepBest, answers);
      assert members == members[..n] + [members[n]];
    }
  }

  /** With keep_best, of all the members that registered only the kept one is left with
      orders standing as the venue reported them. */
  lemma {:induction false} OneMemberExposed(members: seq<Member>, kept: string, answers: string -> Answer, o: Order,
                                            j: nat)
    requires NamesDiffer(members) && o in SettledBy(members, Some(kept), true, answers)
    requires j < |members| && members[j].name == o.account && members[j].Registered() && members[j].name != kept
    ensures !o.status.Reported?
  {
    OnlyLaggardsAreCancelled(members, Some(kept), true, answers);
    assert Fair(members, Some(kept), true, answers, o);
    assert Laggard(members[j], Some(kept), true);
  }

  /** Everyone else's orders stand as reported: the kept member's, those of a member that
      did not register, and all of them when none is kept or the fleet keeps every one. */
  lemma {:induction false} OthersStand(members: seq<Member>, kept: Option<string>, keepBest: bool,
                                       answers: string -> Answer, o: Order, j: nat)
    requires NamesDiffer(members) && o in SettledBy(members, kept, keepBest, answers)
    requires j < |members| && members[j].name == o.account
    requires !keepBest || kept == None || kept == Some(o.account) || !members[j].Registered()
    ensures exists r <- members[j].Orders() :: o == r.(account := members[j].name)
  {
    OnlyLaggardsAreCancelled(members, kept, keepBest, answers);
    assert Fair(members, kept, keepBest, answers, o);
    var i :| 0 <= i < |Stamped(members[j])| && Stamped(members[j])[i] == o;
    assert members[j].Orders()[i] in members[j].Orders();
  }

  // ----- What the whole came to

  predicate Retryable(members: seq<Member>, kept: Option<nat>) {
    kept.None? && forall i :: 0 <= i < |members| ==>
      members[i].result.Some? && members[i].result.value.retryable && members[i].result.value.orders == []
  }

  predicate GaveUp(members: seq<Member>, kept: Option<nat>) {
    kept.None? && forall i :: 0 <= i < |members| ==>
      members[i].result.Some? && members[i].result.value.gaveUp && members[i].result.value.orders == []
  }

  /** A placement that may be retried, or gave up, recorded no order. */
  lemma {:induction false} NothingRestsWhenItMayBeRetried(members: seq<Member>, kept: Option<nat>, name: Option<string>,
                                                          keepBest: bool, answers: string -> Answer)
    requires Retryable(members, kept) || GaveUp(members, kept)
    ensures SettledBy(members, name, keepBest, answers) == []
  {
    if members != [] { NothingRestsWhenItMayBeRetried(members[..|members| - 1], kept, name, keepBest, answers); }
  }

  // ----- One account's knock

  /** What the knock reports of one account: the accepted legs, whether some send never got
      a verdict, and whether it gave up. */
  datatype Knocked = Knocked(accepted: seq<Order>, ambiguous: bool, gaveUp: bool, registeredMs: Option<int>)

  /** None when it is not known whether an order rests. */
  function SettleEntry(knocked: Knocked, expected: nat): Option<Result> {
    var n := |knocked.accepted|;
    if knocked.ambiguous && n == 0 then None
    else if n == expected then Some(Result(knocked.accepted, false, false, false, knocked.registeredMs, expected))
    else if n > 0 then Some(Result(knocked.accepted, true, false, false, knocked.registeredMs, expected))
    else Some(Result([], true, false, knocked.gaveUp, None, expected))
  }

  /** What a preparation comes to when signing has to wait for the venue. */
  const SIGNING_NOT_READY := Result([], true, true, false, None, 2)

  /** A member's placement as the fleet makes it: prepared in vain, knocked, or failed. */
  ghost predicate Made(m: Member) {
    m.result.None? || m.result.value == SIGNING_NOT_READY ||
    exists k: Knocked, expected: nat :: 0 < expected && SettleEntry(k, expected) == m.result
  }

  /** What a settled knock says is never mixed: it registered whole, or holds some orders
      and failed, or has none and may have given up; it is never itself retryable. */
  lemma SettledOneWay(k: Knocked, expected: nat)
    requires 0 < expected
    ensures var r := SettleEntry(k, expected);
            && (r.None? <==> k.ambiguous && k.accepted == [])
            && (r.Some? ==> !r.value.retryable && r.value.orders == k.accepted
                            && (r.value.Complete() <==> |k.accepted| == expected)
                            && (k.accepted != [] ==> r.value.registeredMs == k.registeredMs)
                            && (r.value.gaveUp <==> k.gaveUp && k.accepted == []))
  {}

  /** For members so made, kept, retryable and gave up exclude one another, exactly when
      there is a member at all. */
  lemma {:induction false} OneVerdictExactly(members: seq<Member>, clock: Option<Clock>)
    requires (clock.Some? ==> AllStamped(clock.value, members)) && forall i :: 0 <= i < |members| ==> Made(members[i])
    ensures var kept := Choose(clock, members, |members|);
            && !(kept.Some? && Retryable(members, kept)) && !(kept.Some? && GaveUp(members, kept))
            && (Retryable(members, kept) && GaveUp(members, kept) <==> members == [])
  {
    if members != [] {
      var m := members[0];
      assert Made(m);
      if m.result.Some? && m.result.value != SIGNING_NOT_READY {
        var k: Knocked, expected: nat :| 0 < expected && SettleEntry(k, expected) == m.result;
        SettledOneWay(k, expected);
      }
    }
  }

  /** The member's knock found no order and left none in doubt, and gave up. */
  ghost predicate KnockedInVain(m: Member) {
    exists k: Knocked, expected: nat ::
      0 < expected && SettleEntry(k, expected) == m.result && k.accepted == [] && !k.ambiguous && k.gaveUp
  }

  /** A fleet is tried again exactly when signing had to wait for every member of it, and
      gave up exactly when every member knocked in vain to its end. */
  lemma {:induction false} RetriedOrGivenUpExactly(members: seq<Member>, clock: Option<Clock>)
    requires (clock.Some? ==> AllStamped(clock.value, members)) && forall i :: 0 <= i < |members| ==> Made(members[i])
    ensures var kept := Choose(clock, members, |members|);
            && (Retryable(members, kept) <==> forall i :: 0 <= i < |members| ==> members[i].result == Some(SIGNING_NOT_READY))
            && (GaveUp(members, kept) <==> forall i :: 0 <= i < |members| ==> KnockedInVain(members[i]))
  {
    KeptIsLeast(clock, members, |members|);
    forall i | 0 <= i < |members|
      ensures members[i].result.Some? && members[i].result.value.retryable <==> members[i].result == Some(SIGNING_NOT_READY)
      ensures members[i].result.Some? && members[i].result.value.gaveUp && members[i].result.value.orders == [] <==>
              KnockedInVain(members[i])
      ensures KnockedInVain(members[i]) || members[i].result == Some(SIGNING_NOT_READY) ==> !members[i].Registered()
    {
      MadeOneWay(members[i]);
    }
  }

  lemma MadeOneWay(m: Member)
    requires Made(m)
    ensures m.result.Some? && m.result.value.retryable <==> m.result == Some(SIGNING_NOT_READY)
    ensures m.result.Some? && m.result.value.gaveUp && m.result.value.orders == [] <==> KnockedInVain(m)
    ensures KnockedInVain(m) || m.result == Some(SIGNING_NOT_READY) ==> !m.Registered()
  {
    if m.result.Some? && m.result.value != SIGNING_NOT_READY {
      var k: Knocked, expected: nat :| 0 < expected && SettleEntry(k, expected) == m.result;
      SettledOneWay(k, expected);
    }
  }
}
