/** How much of a paper order would have filled (polymarket_bot/paper.py): the closed form
    against a queue played trade by trade. */
module PaperFill {
  import opened Reals

  datatype Side = Buy | Sell

  datatype Trade = Trade(asset: string, side: Side, price: real, size: real)

  /** What a trade says about an order resting at a price: it traded through it, or at it. */
  datatype Sign = Nothing | Through | AtPrice(size: real)

  datatype Evidence = Evidence(volume: real, crossed: bool, events: seq<Trade>)

  /** Sells of the token at the order's price, and buys of the opposite token at its
      complement. */
  function SignOf(t: Trade, token: string, opposite: string, price: real): Sign {
    var direct := t.asset == token && t.side == Sell;
    var complementary := t.asset == opposite && t.side == Buy;
    if !direct && !complementary then Nothing
    else
      var threshold := if direct then price else 1.0 - price;
      if (if direct then t.price < threshold else t.price > threshold) then Through
      else if t.price == threshold then AtPrice(t.size)
      else Nothing
  }

  function VolumeOf(s: Sign): real { if s.AtPrice? then s.size else 0.0 }

  function Volume(trades: seq<Trade>, token: string, opposite: string, price: real): real {
    if trades == [] then 0.0
    else Volume(trades[..|trades| - 1], token, opposite, price) + VolumeOf(SignOf(trades[|trades| - 1], token, opposite, price))
  }

  predicate Crossed(trades: seq<Trade>, token: string, opposite: string, price: real) {
    trades != [] &&
    (Crossed(trades[..|trades| - 1], token, opposite, price) || SignOf(trades[|trades| - 1], token, opposite, price).Through?)
  }

  function Counted(trades: seq<Trade>, token: string, opposite: string, price: real): seq<Trade> {
    if trades == [] then []
    else
      var last, before := trades[|trades| - 1], Counted(trades[..|trades| - 1], token, opposite, price);
      if SignOf(last, token, opposite, price).Nothing? then before else before + [last]
  }

  /** The trade sold the token below the limit, or bought the opposite token above what
      the limit leaves of one. */
  predicate SoldBelow(t: Trade, token: string, opposite: string, limit: real) {
    || (t.side == Sell && t.asset == token && t.price < limit)
    || (t.side == Buy && t.asset == opposite && 1.0 - t.price < limit)
  }

  predicate SoldAt(t: Trade, token: string, opposite: string, limit: real) {
    || (t.side == Sell && t.asset == token && t.price == limit)
    || (t.side == Buy && t.asset == opposite && 1.0 - t.price == limit)
  }

  /** The size of each trade made at the limit itself, nothing for the others. */
  function SizesAt(trades: seq<Trade>, token: string, opposite: string, limit: real): seq<real> {
    seq(|trades|, i requires 0 <= i < |trades| => if SoldAt(trades[i], token, opposite, limit) then trades[i].size else 0.0)
  }

  /** The evidence in the trades' own terms: a bid is crossed by a sale below its price, the
      volume is what was sold at it, and both kinds of trade are kept, and no other. */
  lemma EvidenceExactly(trades: seq<Trade>, token: string, opposite: string, price: real)
    ensures Crossed(trades, token, opposite, price) <==> exists t <- trades :: SoldBelow(t, token, opposite, price)
    ensures forall t :: t in Counted(trades, token, opposite, price) <==>
                        t in trades && (SoldBelow(t, token, opposite, price) || SoldAt(t, token, opposite, price))
    ensures Volume(trades, token, opposite, price) == Sum(SizesAt(trades, token, opposite, price))
  {
    CrossedBelow(trades, token, opposite, price);
    CountedMembers(trades, token, opposite, price);
    VolumeIsTheSum(trades, token, opposite, price);
  }

  lemma {:induction false} CrossedBelow(trades: seq<Trade>, token: string, opposite: string, price: real)
    ensures Crossed(trades, token, opposite, price) <==> exists t <- trades :: SoldBelow(t, token, opposite, price)
  {
    if trades != [] {
      var n := |trades| - 1;
      CrossedBelow(trades[..n], token, opposite, price);
      assert trades[n] in trades && forall t :: t in trades <==> t in trades[..n] || t == trades[n];
    }
  }

  lemma {:induction false} CountedMembers(trades: seq<Trade>, token: string, opposite: string, price: real)
    ensures forall t :: t in Counted(trades, token, opposite, price) <==>
                        t in trades && (SoldBelow(t, token, opposite, price) || SoldAt(t, token, opposite, price))
  {
    if trades != [] {
      var n := |trades| - 1;
      CountedMembers(trades[..n], token, opposite, price);
      assert trades == trades[..n] + [trades[n]];
    }
  }

  lemma {:induction false} VolumeIsTheSum(trades: seq<Trade>, token: string, opposite: string, price: real)
    ensures Volume(trades, token, opposite, price) == Sum(SizesAt(trades, token, opposite, price))
  {
    if trades != [] {
      var n := |trades| - 1;
      VolumeIsTheSum(trades[..n], token, opposite, price);
      var sizes := SizesAt(trades, token, opposite, price);
      assert sizes == SizesAt(trades[..n], token, opposite, price) + [sizes[n]];
      SumOfMore(SizesAt(trades[..n], token, opposite, price), sizes[n]);
    }
  }

  method ExecutionEvidence(trades: seq<Trade>, token: string, opposite: string, price: real) returns (e: Evidence)
    ensures e.volume == Volume(trades, token, opposite, price)
    ensures e.crossed <==> Crossed(trades, token, opposite, price)
    ensures e.events == Counted(trades, token, opposite, price)
    ensures e.crossed <==> exists t <- trades :: SoldBelow(t, token, opposite, price)
    ensures forall t :: t in e.events <==>
                        t in trades && (SoldBelow(t, token, opposite, price) || SoldAt(t, token, opposite, price))
    ensures e.volume == Sum(SizesAt(trades, token, opposite, price))
  {
    var complement := 1.0 - price;
    var volume, crossed, events := 0.0, false, [];
    for i := 0 to |trades|
      invariant volume == Volume(trades[..i], token, opposite, price)
      invariant crossed <==> Crossed(trades[..i], token, opposite, price)
      invariant events == Counted(trades[..i], token, opposite, price)
    {
      assert trades[..i + 1][..i] == trades[..i];
      var t := trades[i];
      var direct := t.asset == token && t.side == Sell;
      var complementary := t.asset == opposite && t.side == Buy;
      if direct || complementary {
        var threshold := if direct then price else complement;
        var through := if direct then t.price < threshold else t.price > threshold;
        if through || t.price == threshold {
          if through {
            crossed := true;
          } else {
            volume := volume + t.size;
          }
          events := events + [t];
        }
      }
    }
    assert trades[..|trades|] == trades;
    EvidenceExactly(trades, token, opposite, price);
    e := Evidence(volume, crossed, events);
  }

  function FifoFill(ahead: real, size: real, volume: real, crossed: bool): real {
    if crossed then size else Min(size, Max(0.0, volume - ahead))
  }

  // ----- The queue, played step by step

  /** The orders ahead in their order, and what of ours has filled. */
  datatype Queue = Queue(ahead: seq<real>, filled: real)

  datatype Event = Traded(t: Trade) | CancelAhead(place: nat, amount: real)

  /** A trade takes from the front of the queue; what it still has left goes on. */
  function Take(ahead: seq<real>, size: real): (seq<real>, real)
    decreases |ahead|
  {
    if ahead == [] then ([], size)
    else if size < ahead[0] then ([ahead[0] - size] + ahead[1..], 0.0)
    else Take(ahead[1..], size - ahead[0])
  }

  function Play(q: Queue, e: Event, order: real, token: string, opposite: string, price: real): Queue {
    match e
    case Traded(t) => (
      match SignOf(t, token, opposite, price)
      case Nothing => q
      case Through => Queue([], order)
      case AtPrice(size) =>
        var (left, over) := Take(q.ahead, size);
        Queue(left, Min(order, q.filled + over))
    )
    case CancelAhead(place, amount) =>
      if place < |q.ahead| && 0.0 <= amount <= q.ahead[place]
      then q.(ahead := q.ahead[place := q.ahead[place] - amount])
      else q
  }

  function PlayAll(q: Queue, events: seq<Event>, order: real, token: string, opposite: string, price: real): Queue {
    if events == [] then q
    else Play(PlayAll(q, events[..|events| - 1], order, token, opposite, price), events[|events| - 1],
              order, token, opposite, price)
  }

  function Trades(events: seq<Event>): seq<Trade> {
    if events == [] then []
    else
      var before, last := Trades(events[..|events| - 1]), events[|events| - 1];
      if last.Traded? then before + [last.t] else before
  }

  predicate NonNegative(sizes: seq<real>) { forall i :: 0 <= i < |sizes| ==> 0.0 <= sizes[i] }

  ghost predicate ProperEvents(events: seq<Event>) {
    forall e <- events :: e.Traded? ==> 0.0 <= e.t.size
  }

  lemma {:induction false} TakeExactly(ahead: seq<real>, size: real)
    requires NonNegative(ahead) && 0.0 <= size
    ensures var (left, over) := Take(ahead, size);
            NonNegative(left) && Sum(left) == Max(0.0, Sum(ahead) - size) && over == Max(0.0, size - Sum(ahead))
    decreases |ahead|
  {
    if ahead != [] {
      SumNonNegative(ahead[1..]);
      if size < ahead[0] {
        assert ([ahead[0] - size] + ahead[1..])[1..] == ahead[1..];
      } else {
        TakeExactly(ahead[1..], size - ahead[0]);
      }
    }
  }

  lemma {:induction false} CancelLessens(sizes: seq<real>, place: nat, amount: real)
    requires place < |sizes|
    ensures Sum(sizes[place := sizes[place] - amount]) == Sum(sizes) - amount
  {
    var less := sizes[place := sizes[place] - amount];
    if place == 0 {
      assert less[1..] == sizes[1..];
    } else {
      assert less[1..] == sizes[1..][place - 1 := sizes[1..][place - 1] - amount];
      CancelLessens(sizes[1..], place - 1, amount);
    }
  }

  /** Where the queue stands: at least as far along as the volume alone says, and exactly
      there as long as nobody ahead has cancelled. */
  ghost predicate Abreast(q: Queue, exact: bool, ahead: real, order: real, volume: real, crossed: bool) {
    && NonNegative(q.ahead) && 0.0 <= q.filled <= order && 0.0 <= Sum(q.ahead)
    && (crossed ==> q.ahead == [] && q.filled == order)
    && (!crossed ==>
          && Sum(q.ahead) <= Max(0.0, ahead - volume)
          && FifoFill(ahead, order, volume, false) <= q.filled
          && (exact ==> Sum(q.ahead) == Max(0.0, ahead - volume) && q.filled == FifoFill(ahead, order, volume, false)))
  }

  lemma {:induction false} TradeKeepsAbreast(q: Queue, exact: bool, ahead: real, order: real, volume: real, size: real)
    requires Abreast(q, exact, ahead, order, volume, false) && 0.0 <= size && 0.0 <= volume
    ensures var (left, over) := Take(q.ahead, size);
            Abreast(Queue(left, Min(order, q.filled + over)), exact, ahead, order, volume + size, false)
  {
    TakeExactly(q.ahead, size);
    SumNonNegative(Take(q.ahead, size).0);
  }

  lemma CancelKeepsAbreast(q: Queue, ahead: real, order: real, volume: real, crossed: bool, place: nat, amount: real)
    requires Abreast(q, false, ahead, order, volume, crossed) && place < |q.ahead| && 0.0 <= amount <= q.ahead[place]
    ensures Abreast(q.(ahead := q.ahead[place := q.ahead[place] - amount]), false, ahead, order, volume, crossed)
  {
    CancelLessens(q.ahead, place, amount);
    SumNonNegative(q.ahead[place := q.ahead[place] - amount]);
  }

  predicate NobodyCancels(events: seq<Event>) { forall e <- events :: e.Traded? }

  lemma {:induction false} VolumeNonNegative(trades: seq<Trade>, token: string, opposite: string, price: real)
    requires forall t <- trades :: 0.0 <= t.size
    ensures 0.0 <= Volume(trades, token, opposite, price)
  {
    if trades != [] { VolumeNonNegative(trades[..|trades| - 1], token, opposite, price); }
  }

  lemma {:induction false} TradesMembers(events: seq<Event>)
    ensures forall t <- Trades(events) :: Traded(t) in events
  {
    if events != [] {
      TradesMembers(events[..|events| - 1]);
      assert events == events[..|events| - 1] + [events[|events| - 1]];
    }
  }

  lemma PlayKeepsAbreast(q: Queue, e: Event, exact: bool, ahead: real, order: real, volume: real, crossed: bool,
                         token: string, opposite: string, price: real)
    requires Abreast(q, exact, ahead, order, volume, crossed) && (e.Traded? ==> 0.0 <= e.t.size) && 0.0 <= volume
    ensures var s := if e.Traded? then SignOf(e.t, token, opposite, price) else Nothing;
            Abreast(Play(q, e, order, token, opposite, price), exact && e.Traded?, ahead, order,
                    volume + VolumeOf(s), crossed || s.Through?)
  {
    if e.CancelAhead? {
      if e.place < |q.ahead| && 0.0 <= e.amount <= q.ahead[e.place] {
        CancelKeepsAbreast(q, ahead, order, volume, crossed, e.place, e.amount);
      }
    } else {
      var s := SignOf(e.t, token, opposite, price);
      if s.AtPrice? {
        TakeExactly(q.ahead, s.size);
        if !crossed { TradeKeepsAbreast(q, exact, ahead, order, volume, s.size); }
      }
    }
  }

  lemma {:induction false} QueueStaysAbreast(ahead: seq<real>, events: seq<Event>, order: real,
                                             token: string, opposite: string, price: real)
    requires NonNegative(ahead) && 0.0 <= order && ProperEvents(events)
    ensures Abreast(PlayAll(Queue(ahead, 0.0), events, order, token, opposite, price), NobodyCancels(events), Sum(ahead), order,
                    Volume(Trades(events), token, opposite, price), Crossed(Trades(events), token, opposite, price))
  {
    SumNonNegative(ahead);
    if events != [] {
      var n := |events| - 1;
      var e, before := events[n], Trades(events[..n]);
      QueueStaysAbreast(ahead, events[..n], order, token, opposite, price);
      TradesMembers(events[..n]);
      VolumeNonNegative(before, token, opposite, price);
      PlayKeepsAbreast(PlayAll(Queue(ahead, 0.0), events[..n], order, token, opposite, price), e, NobodyCancels(events[..n]),
                       Sum(ahead), order, Volume(before, token, opposite, price), Crossed(before, token, opposite, price),
                       token, opposite, price);
      assert e in events;
      if e.Traded? { assert (before + [e.t])[..|before|] == before; }
      NobodyCancelsSoFar(events);
    }
  }

  lemma NobodyCancelsSoFar(events: seq<Event>)
    requires events != []
    ensures NobodyCancels(events) <==> NobodyCancels(events[..|events| - 1]) && events[|events| - 1].Traded?
  {
    assert events == events[..|events| - 1] + [events[|events| - 1]];
  }

  /** The closed form is what the queue played trade by trade fills, when nobody ahead
      cancels. */
  lemma {:induction false} FillIsThePlayedQueue(ahead: seq<real>, events: seq<Event>, order: real, token: string,
                                                opposite: string, price: real)
    requires NonNegative(ahead) && 0.0 <= order && ProperEvents(events) && NobodyCancels(events)
    ensures PlayAll(Queue(ahead, 0.0), events, order, token, opposite, price).filled ==
            FifoFill(Sum(ahead), order, Volume(Trades(events), token, opposite, price),
                     Crossed(Trades(events), token, opposite, price))
  {
    QueueStaysAbreast(ahead, events, order, token, opposite, price);
  }

  /** And never more than it, however cancellations ahead fall between the trades. */
  lemma {:induction false} FillIsALowerBound(ahead: seq<real>, events: seq<Event>, order: real, token: string,
                                             opposite: string, price: real)
    requires NonNegative(ahead) && 0.0 <= order && ProperEvents(events)
    ensures FifoFill(Sum(ahead), order, Volume(Trades(events), token, opposite, price),
                     Crossed(Trades(events), token, opposite, price)) <=
            PlayAll(Queue(ahead, 0.0), events, order, token, opposite, price).filled <= order
  {
    QueueStaysAbreast(ahead, events, order, token, opposite, price);
  }

  /** It can be less: with the one order ahead cancelled, our order fills from the whole of
      the next trade at its price, where the closed form still waits for what was ahead. */
  lemma {:induction false} CancellationsMoveTheQueueUp(ahead: real, t: Trade, order: real, token: string,
                                                       opposite: string,
                                                      price: real)
    requires 0.0 <= ahead && 0.0 <= t.size && 0.0 <= order && SoldAt(t, token, opposite, price)
    ensures var events := [CancelAhead(0, ahead), Traded(t)];
            && PlayAll(Queue([ahead], 0.0), events, order, token, opposite, price).filled == Min(order, t.size)
            && FifoFill(ahead, order, Volume(Trades(events), token, opposite, price),
                        Crossed(Trades(events), token, opposite, price)) == Min(order, Max(0.0, t.size - ahead))
  {
    var events := [CancelAhead(0, ahead), Traded(t)];
    var q := Play(Queue([ahead], 0.0), events[0], order, token, opposite, price);
    assert events[..1] == [events[0]] && [events[0]][..0] == [];
    assert q == Queue([0.0], 0.0);
    assert PlayAll(Queue([ahead], 0.0), [events[0]], order, token, opposite, price) == q;
    assert Sum([0.0]) == 0.0 by { assert [0.0][1..] == []; }
    TakeExactly([0.0], t.size);
    assert Trades([events[0]]) == [] && Trades(events) == [t];
    assert [t][..0] == [];
    assert SignOf(t, token, opposite, price) == AtPrice(t.size);
    assert Volume([t], token, opposite, price) == Volume([], token, opposite, price) + t.size;
  }

  // ----- The order of the trades

  lemma {:induction false} VolumeWithout(trades: seq<Trade>, i: nat, token: string, opposite: string, price: real)
    requires i < |trades|
    ensures Volume(trades, token, opposite, price) ==
            Volume(trades[..i] + trades[i + 1..], token, opposite, price) + VolumeOf(SignOf(trades[i], token, opposite, price))
  {
    var n := |trades| - 1;
    var rest := trades[..i] + trades[i + 1..];
    if i == n {
      assert rest == trades[..n];
    } else {
      assert rest[..n - 1] == trades[..n][..i] + trades[..n][i + 1..];
      VolumeWithout(trades[..n], i, token, opposite, price);
    }
  }

  lemma MultisetWithout(trades: seq<Trade>, i: nat)
    requires i < |trades|
    ensures multiset(trades[..i] + trades[i + 1..]) == multiset(trades) - multiset{trades[i]}
  {
    assert trades == trades[..i] + [trades[i]] + trades[i + 1..];
  }

  /** The first of one list is somewhere in the other, and without it they still agree. */
  lemma WithoutOne(a: seq<Trade>, b: seq<Trade>) returns (i: nat)
    requires a != [] && multiset(a) == multiset(b)
    ensures i < |b| && b[i] == a[0] && multiset(a[..0] + a[1..]) == multiset(b[..i] + b[i + 1..])
  {
    assert a[0] in multiset(b);
    i :| 0 <= i < |b| && b[i] == a[0];
    MultisetWithout(a, 0);
    MultisetWithout(b, i);
  }

  lemma {:induction false} VolumeAnyOrder(a: seq<Trade>, b: seq<Trade>, token: string, opposite: string, price: real)
    requires multiset(a) == multiset(b)
    ensures Volume(a, token, opposite, price) == Volume(b, token, opposite, price)
    decreases |a|
  {
    if a == [] {
      assert |multiset(b)| == 0;
    } else {
      var i := WithoutOne(a, b);
      VolumeWithout(a, 0, token, opposite, price);
      VolumeWithout(b, i, token, opposite, price);
      VolumeAnyOrder(a[..0] + a[1..], b[..i] + b[i + 1..], token, opposite, price);
    }
  }

  lemma {:induction false} CrossedExactly(trades: seq<Trade>, token: string, opposite: string, price: real)
    ensures Crossed(trades, token, opposite, price) <==>
            exists t :: t in multiset(trades) && SignOf(t, token, opposite, price).Through?
  {
    if trades != [] {
      var n := |trades| - 1;
      CrossedExactly(trades[..n], token, opposite, price);
      assert trades == trades[..n] + [trades[n]];
    }
  }

  /** The fill does not depend on the order the trades are listed in. */
  lemma {:induction false} FillAnyOrder(a: seq<Trade>, b: seq<Trade>, token: string, opposite: string, price: real,
                                        ahead: real, order: real)
    requires multiset(a) == multiset(b)
    ensures FifoFill(ahead, order, Volume(a, token, opposite, price), Crossed(a, token, opposite, price)) ==
            FifoFill(ahead, order, Volume(b, token, opposite, price), Crossed(b, token, opposite, price))
  {
    VolumeAnyOrder(a, b, token, opposite, price);
    CrossedExactly(a, token, opposite, price);
    CrossedExactly(b, token, opposite, price);
  }

  /** A buy of the opposite token is the sell it mirrors. */
  lemma MirroredTradesAreEqual(t: Trade, token: string, opposite: string, price: real)
    requires token != opposite && t.asset == opposite && t.side == Buy
    ensures SignOf(t, token, opposite, price) == SignOf(Trade(token, Sell, 1.0 - t.price, t.size), token, opposite, price)
  {}

  /** No trade tells for the order on both outcomes. */
  lemma NoTradeCountsTwice(t: Trade, up: string, down: string, price: real)
    requires up != down
    ensures SignOf(t, up, down, price).Nothing? || SignOf(t, down, up, price).Nothing?
  {}
}
