/** The most that paper orders ever held in reserve at once (polymarket_bot/paper.py):
    one sweep over the placements and releases against the maximum over all times. */
module PaperReserve {
  import opened Reals

  const MARKET_SECONDS := 300

  /** A market of the table: when its order was placed, if it was, and when it ends. */
  datatype Row = Row(snapshotMs: int, placed: bool, endTs: int, price: real, size: real)

  function Reserve(r: Row): real { r.price * r.size * 2.0 }

  /** Seconds, rounded down. */
  function PlacedTs(r: Row): int { r.snapshotMs / 1000 }

  datatype Event = Event(at: int, delta: real)

  function EventsOf(rows: seq<Row>): seq<Event> {
    if rows == [] then []
    else
      var last, before := rows[|rows| - 1], EventsOf(rows[..|rows| - 1]);
      if last.placed then before + [Event(PlacedTs(last), Reserve(last)), Event(last.endTs, -Reserve(last))] else before
  }

  /** By time, and at one time whatever does not add before whatever does. */
  predicate InOrder(a: Event, b: Event) {
    a.at < b.at || (a.at == b.at && (a.delta > 0.0 ==> b.delta > 0.0))
  }

  function Insert(sorted: seq<Event>, e: Event): (r: seq<Event>)
    ensures |r| == |sorted| + 1
  {
    if sorted == [] || InOrder(sorted[|sorted| - 1], e) then sorted + [e]
    else Insert(sorted[..|sorted| - 1], e) + [sorted[|sorted| - 1]]
  }

  function Sorted(events: seq<Event>): seq<Event> {
    if events == [] then [] else Insert(Sorted(events[..|events| - 1]), events[|events| - 1])
  }

  function Running(events: seq<Event>): real {
    if events == [] then 0.0 else Running(events[..|events| - 1]) + events[|events| - 1].delta
  }

  function Peak(events: seq<Event>): real {
    if events == [] then 0.0 else Max(Peak(events[..|events| - 1]), Running(events))
  }

  function ActiveAt(rows: seq<Row>, t: int): real {
    if rows == [] then 0.0
    else
      var last := rows[|rows| - 1];
      ActiveAt(rows[..|rows| - 1], t) + (if last.placed && PlacedTs(last) <= t < last.endTs then Reserve(last) else 0.0)
  }

  /** What status() works out: the reserve active now, and its peak. */
  method Status(rows: seq<Row>, now: int) returns (active: real, peak: real)
    ensures active == ActiveAt(rows, now)
    ensures peak == Peak(Sorted(EventsOf(rows)))
  {
    var events := [];
    active := 0.0;
    for i := 0 to |rows|
      invariant events == EventsOf(rows[..i])
      invariant active == ActiveAt(rows[..i], now)
    {
      assert rows[..i + 1][..i] == rows[..i];
      var r := rows[i];
      if r.placed {
        var reserve := Reserve(r);
        var placedTs := PlacedTs(r);
        events := events + [Event(placedTs, reserve), Event(r.endTs, -reserve)];
        if placedTs <= now < r.endTs {
          active := active + reserve;
        }
      }
    }
    assert rows[..|rows|] == rows;

    peak := 0.0;
    var running := 0.0;
    var sorted := Sorted(events);
    for i := 0 to |sorted|
      invariant running == Running(sorted[..i]) && peak == Peak(sorted[..i])
    {
      assert sorted[..i + 1][..i] == sorted[..i];
      running := running + sorted[i].delta;
      peak := Max(peak, running);
    }
    assert sorted[..|sorted|] == sorted;
  }

  /** What the entry orders resting at the time would cost: two to a market, one an outcome. */
  function CostsAt(rows: seq<Row>, t: int): seq<real> {
    if rows == [] then []
    else
      var r, before := rows[|rows| - 1], CostsAt(rows[..|rows| - 1], t);
      if r.placed && r.snapshotMs < (t + 1) * 1000 && t < r.endTs then before + [r.price * r.size, r.price * r.size] else before
  }

  /** What is active is the cost of every order placed by the end of the second whose
      market has not ended. */
  lemma {:induction false} ActiveIsTheCost(rows: seq<Row>, t: int)
    ensures ActiveAt(rows, t) == Sum(CostsAt(rows, t))
  {
    if rows != [] {
      var r, before := rows[|rows| - 1], CostsAt(rows[..|rows| - 1], t);
      var cost := r.price * r.size;
      ActiveIsTheCost(rows[..|rows| - 1], t);
      SumOfMore(before, cost);
      SumOfMore(before + [cost], cost);
      assert before + [cost] + [cost] == before + [cost, cost];
      InSeconds(r.snapshotMs, t);
      assert Reserve(r) == cost * 2.0 == cost + cost;
    }
  }

  lemma InSeconds(ms: int, t: int)
    ensures ms / 1000 <= t <==> ms < (t + 1) * 1000
  {}

  // ----- Sorting

  ghost predicate Ordered(events: seq<Event>) {
    forall i, j :: 0 <= i < j < |events| ==> InOrder(events[i], events[j])
  }

  lemma {:induction false} InsertKeepsOrder(sorted: seq<Event>, e: Event)
    requires Ordered(sorted)
    ensures Ordered(Insert(sorted, e))
    ensures forall x <- Insert(sorted, e) :: x == e || x in sorted
  {
    if sorted != [] && !InOrder(sorted[|sorted| - 1], e) {
      var n := |sorted| - 1;
      InsertKeepsOrder(sorted[..n], e);
      var r := Insert(sorted[..n], e);
      forall i | 0 <= i < |r| ensures InOrder(r[i], sorted[n]) {
        assert r[i] in r;
        if r[i] != e {
          var k :| 0 <= k < n && sorted[k] == r[i];
        }
      }
    }
  }

  lemma {:induction false} SortedIsOrdered(events: seq<Event>)
    ensures Ordered(Sorted(events))
  {
    if events != [] {
      SortedIsOrdered(events[..|events| - 1]);
      InsertKeepsOrder(Sorted(events[..|events| - 1]), events[|events| - 1]);
    }
  }

  // ----- What has happened by a time

  /** The sum of what happened no later than a time. */
  function ByTime(events: seq<Event>, t: int): real {
    if events == [] then 0.0
    else ByTime(events[..|events| - 1], t) + (if events[|events| - 1].at <= t then events[|events| - 1].delta else 0.0)
  }

  lemma {:induction false} InsertByTime(sorted: seq<Event>, e: Event, t: int)
    ensures ByTime(Insert(sorted, e), t) == ByTime(sorted, t) + (if e.at <= t then e.delta else 0.0)
  {
    if sorted == [] || InOrder(sorted[|sorted| - 1], e) {
      assert (sorted + [e])[..|sorted|] == sorted;
    } else {
      var n := |sorted| - 1;
      InsertByTime(sorted[..n], e, t);
      assert (Insert(sorted[..n], e) + [sorted[n]])[..n + 1] == Insert(sorted[..n], e);
    }
  }

  lemma {:induction false} SortedByTime(events: seq<Event>, t: int)
    ensures ByTime(Sorted(events), t) == ByTime(events, t)
  {
    if events != [] {
      SortedByTime(events[..|events| - 1], t);
      InsertByTime(Sorted(events[..|events| - 1]), events[|events| - 1], t);
    }
  }

  function NetOf(r: Row, t: int): real {
    if !r.placed then 0.0
    else (if PlacedTs(r) <= t then Reserve(r) else 0.0) - (if r.endTs <= t then Reserve(r) else 0.0)
  }

  /** What was placed less what was released by a time, whichever of a row's two came first. */
  function Net(rows: seq<Row>, t: int): real {
    if rows == [] then 0.0 else Net(rows[..|rows| - 1], t) + NetOf(rows[|rows| - 1], t)
  }

  lemma {:induction false} ByTimeIsNet(rows: seq<Row>, t: int)
    ensures ByTime(EventsOf(rows), t) == Net(rows, t)
  {
    if rows != [] {
      var n := |rows| - 1;
      ByTimeIsNet(rows[..n], t);
      if rows[n].placed {
        var before := EventsOf(rows[..n]);
        var a, b := Event(PlacedTs(rows[n]), Reserve(rows[n])), Event(rows[n].endTs, -Reserve(rows[n]));
        assert (before + [a, b])[..|before| + 1] == before + [a] && (before + [a])[..|before|] == before;
      }
    }
  }

  // ----- The sweep and the maximum over time

  ghost predicate AllBy(events: seq<Event>, t: int) { forall i :: 0 <= i < |events| ==> events[i].at <= t }

  ghost predicate AllAfter(events: seq<Event>, t: int) { forall i :: 0 <= i < |events| ==> t < events[i].at }

  lemma {:induction false} ByTimeAppend(a: seq<Event>, b: seq<Event>, t: int)
    ensures ByTime(a + b, t) == ByTime(a, t) + ByTime(b, t)
  {
    if b == [] {
      assert a + b == a;
    } else {
      assert (a + b)[..|a + b| - 1] == a + b[..|b| - 1];
      ByTimeAppend(a, b[..|b| - 1], t);
    }
  }

  lemma {:induction false} AllByIsRunning(events: seq<Event>, t: int)
    requires AllBy(events, t)
    ensures ByTime(events, t) == Running(events)
  {
    if events != [] { AllByIsRunning(events[..|events| - 1], t); }
  }

  lemma {:induction false} AllAfterIsNothing(events: seq<Event>, t: int)
    requires AllAfter(events, t)
    ensures ByTime(events, t) == 0.0
  {
    if events != [] { AllAfterIsNothing(events[..|events| - 1], t); }
  }

  lemma {:induction false} AddingByTime(events: seq<Event>, t: int)
    requires forall i :: 0 <= i < |events| && events[i].at <= t ==> 0.0 <= events[i].delta
    ensures 0.0 <= ByTime(events, t)
  {
    if events != [] { AddingByTime(events[..|events| - 1], t); }
  }

  lemma {:induction false} LateOnesDoNotAdd(events: seq<Event>, t: int)
    requires forall i :: 0 <= i < |events| && t < events[i].at ==> events[i].delta <= 0.0
    ensures Running(events) <= ByTime(events, t)
  {
    if events != [] { LateOnesDoNotAdd(events[..|events| - 1], t); }
  }

  lemma {:induction false} NothingLaterTakes(before: seq<Event>, after: seq<Event>, t: int)
    requires AllBy(before, t) && forall i :: 0 <= i < |after| && after[i].at <= t ==> 0.0 <= after[i].delta
    ensures Running(before) <= ByTime(before + after, t)
  {
    ByTimeAppend(before, after, t);
    AllByIsRunning(before, t);
    AddingByTime(after, t);
  }

  lemma {:induction false} NothingLateAdds(before: seq<Event>, after: seq<Event>, t: int)
    requires AllAfter(after, t) && forall i :: 0 <= i < |before| && t < before[i].at ==> before[i].delta <= 0.0
    ensures Running(before) <= ByTime(before + after, t)
  {
    ByTimeAppend(before, after, t);
    LateOnesDoNotAdd(before, t);
    AllAfterIsNothing(after, t);
  }

  /** Of the events around the k-th: none before it is later, none after it is earlier, and
      at its time those before it add only if it does, and those after it if it does. */
  lemma AroundAnEvent(events: seq<Event>, k: nat, i: nat)
    requires Ordered(events) && 0 < k <= |events| && i < |events|
    ensures var e := events[k - 1];
            if i < k then events[i].at <= e.at && (events[i].at == e.at && e.delta <= 0.0 ==> events[i].delta <= 0.0)
            else e.at <= events[i].at && (events[i].at == e.at && 0.0 < e.delta ==> 0.0 < events[i].delta)
  {
    if i < k - 1 {
      assert InOrder(events[i], events[k - 1]);
    } else if k <= i {
      assert InOrder(events[k - 1], events[i]);
    }
  }

  /** Whatever the sweep reaches is reached at some time: at that of the event just swept
      if it adds, and just before it otherwise. */
  lemma {:induction false} SweptWithinTime(events: seq<Event>, k: nat)
    requires Ordered(events) && 0 < k <= |events|
    ensures var e := events[k - 1];
            Running(events[..k]) <= ByTime(events, if e.delta > 0.0 then e.at else e.at - 1)
  {
    var e, before, after := events[k - 1], events[..k], events[k..];
    assert before + after == events;
    forall i | 0 <= i < |before|
      ensures before[i].at <= e.at && (before[i].at == e.at && e.delta <= 0.0 ==> before[i].delta <= 0.0)
    {
      AroundAnEvent(events, k, i);
    }
    forall i | 0 <= i < |after|
      ensures e.at <= after[i].at && (after[i].at == e.at && 0.0 < e.delta ==> 0.0 < after[i].delta)
    {
      AroundAnEvent(events, k, k + i);
    }
    if e.delta > 0.0 {
      NothingLaterTakes(before, after, e.at);
    } else {
      NothingLateAdds(before, after, e.at - 1);
    }
  }

  /** How many of the events had happened by a time. */
  function Count(events: seq<Event>, t: int): (k: nat)
    ensures k <= |events|
  {
    if events == [] then 0
    else if events[|events| - 1].at <= t then |events|
    else Count(events[..|events| - 1], t)
  }

  lemma {:induction false} CountSplits(events: seq<Event>, t: int)
    requires Ordered(events)
    ensures var k := Count(events, t);
            AllBy(events[..k], t) && AllAfter(events[k..], t)
  {
    if events != [] {
      var n := |events| - 1;
      if events[n].at <= t {
        forall i | 0 <= i < n ensures events[i].at <= t { assert InOrder(events[i], events[n]); }
      } else {
        CountSplits(events[..n], t);
        var k := Count(events[..n], t);
        assert events[k..] == events[..n][k..] + [events[n]] && events[..k] == events[..n][..k];
      }
    }
  }

  lemma {:induction false} PeakBounds(events: seq<Event>, k: nat)
    requires k <= |events|
    ensures Running(events[..k]) <= Peak(events)
  {
    if events != [] {
      var n := |events| - 1;
      if k == |events| {
        assert events[..k] == events;
      } else {
        PeakBounds(events[..n], k);
        assert events[..n][..k] == events[..k];
      }
    }
  }

  lemma {:induction false} PeakReached(events: seq<Event>) returns (k: nat)
    ensures k <= |events| && Running(events[..k]) == Peak(events)
  {
    if events == [] {
      k := 0;
    } else {
      var n := |events| - 1;
      k := PeakReached(events[..n]);
      assert events[..n][..k] == events[..k];
      if Peak(events[..n]) < Running(events) {
        k := |events|;
        assert events[..k] == events;
      }
    }
  }

  lemma {:induction false} NetWithinPeak(rows: seq<Row>, t: int)
    ensures Net(rows, t) <= Peak(Sorted(EventsOf(rows)))
  {
    var events := Sorted(EventsOf(rows));
    SortedIsOrdered(EventsOf(rows));
    var k := Count(events, t);
    CountSplits(events, t);
    assert events[..k] + events[k..] == events;
    ByTimeAppend(events[..k], events[k..], t);
    AllByIsRunning(events[..k], t);
    AllAfterIsNothing(events[k..], t);
    SweptIsNet(rows, t);
    PeakBounds(events, k);
  }

  /** The peak is no more than the net at some time. */
  lemma PeakWithinNet(rows: seq<Row>) returns (t: int)
    ensures Peak(Sorted(EventsOf(rows))) <= Net(rows, t)
  {
    var events := Sorted(EventsOf(rows));
    SortedIsOrdered(EventsOf(rows));
    var k := PeakReached(events);
    if k == 0 {
      t := BeforeAll(rows);
    } else {
      SweptWithinTime(events, k);
      t := if events[k - 1].delta > 0.0 then events[k - 1].at else events[k - 1].at - 1;
      SweptIsNet(rows, t);
    }
  }

  lemma {:induction false} SweptIsNet(rows: seq<Row>, t: int)
    ensures ByTime(Sorted(EventsOf(rows)), t) == Net(rows, t)
  {
    SortedByTime(EventsOf(rows), t);
    ByTimeIsNet(rows, t);
  }

  lemma {:induction false} BeforeAll(rows: seq<Row>) returns (t: int)
    ensures forall s :: s <= t ==> Net(rows, s) == 0.0
  {
    t := 0;
    if rows != [] {
      var n := |rows| - 1;
      t := BeforeAll(rows[..n]);
      if PlacedTs(rows[n]) <= t { t := PlacedTs(rows[n]) - 1; }
      if rows[n].endTs <= t { t := rows[n].endTs - 1; }
    }
  }

  /** The sweep's peak is the most in reserve at any time. */
  ghost predicate Exact(rows: seq<Row>) {
    && (forall t :: ActiveAt(rows, t) <= Peak(Sorted(EventsOf(rows))))
    && (exists t :: ActiveAt(rows, t) == Peak(Sorted(EventsOf(rows))))
  }

  ghost predicate ReservesProper(rows: seq<Row>) {
    forall i :: 0 <= i < |rows| ==> 0.0 <= Reserve(rows[i])
  }

  lemma {:induction false} NetWithinActive(rows: seq<Row>, t: int)
    requires ReservesProper(rows)
    ensures Net(rows, t) <= ActiveAt(rows, t)
  {
    if rows != [] { NetWithinActive(rows[..|rows| - 1], t); }
  }

  ghost predicate PlacedBeforeEnd(rows: seq<Row>) {
    forall i :: 0 <= i < |rows| && rows[i].placed ==> PlacedTs(rows[i]) <= rows[i].endTs
  }

  lemma {:induction false} NetIsActive(rows: seq<Row>, t: int)
    requires PlacedBeforeEnd(rows)
    ensures Net(rows, t) == ActiveAt(rows, t)
  {
    if rows != [] { NetIsActive(rows[..|rows| - 1], t); }
  }

  /** When no row is placed after its end the peak is exactly the most in reserve at any
      time, whenever the rows end. */
  lemma {:induction false} PeakIsTheMaximumOverTime(rows: seq<Row>)
    requires PlacedBeforeEnd(rows) && ReservesProper(rows)
    ensures Exact(rows)
  {
    forall t ensures ActiveAt(rows, t) <= Peak(Sorted(EventsOf(rows))) {
      NetIsActive(rows, t);
      NetWithinPeak(rows, t);
    }
    var t := PeakWithinNet(rows);
    NetIsActive(rows, t);
    assert ActiveAt(rows, t) == Peak(Sorted(EventsOf(rows)));
  }

  // ----- Rows placed late

  /** Five-minute markets: all ends a whole number of markets apart. */
  ghost predicate FiveMinuteEnds(rows: seq<Row>, end: int) {
    forall i :: 0 <= i < |rows| ==> (rows[i].endTs - end) % MARKET_SECONDS == 0
  }

  /** Nobody is placed as late as the next market's end. */
  ghost predicate PlacedBeforeNextEnd(rows: seq<Row>) {
    forall i :: 0 <= i < |rows| && rows[i].placed ==> PlacedTs(rows[i]) < rows[i].endTs + MARKET_SECONDS
  }

  /** The last second before the next end. */
  function JustBeforeAnEnd(end: int, t: int): int { t + (MARKET_SECONDS - 1 - (t - end) % MARKET_SECONDS) }

  lemma RowJustBeforeAnEnd(r: Row, end: int, t: int)
    requires (r.endTs - end) % MARKET_SECONDS == 0 && (r.placed ==> PlacedTs(r) < r.endTs + MARKET_SECONDS)
    ensures var u := JustBeforeAnEnd(end, t);
            t <= u && (r.endTs <= u ==> r.endTs <= t && (r.placed ==> PlacedTs(r) <= u))
  {}

  /** By then every late row's reserve is back, and whatever is active at a time still is. */
  lemma {:induction false} NetJustBeforeAnEnd(rows: seq<Row>, end: int, t: int)
    requires FiveMinuteEnds(rows, end) && PlacedBeforeNextEnd(rows) && ReservesProper(rows)
    ensures ActiveAt(rows, t) <= Net(rows, JustBeforeAnEnd(end, t))
  {
    if rows != [] {
      var n := |rows| - 1;
      NetJustBeforeAnEnd(rows[..n], end, t);
      RowJustBeforeAnEnd(rows[n], end, t);
    }
  }

  /** Of five-minute markets the peak is exact however many rows are placed after their own
      end, as long as each is before the next market's. */
  lemma {:induction false} LatePlacementsDoNotShow(rows: seq<Row>, end: int)
    requires FiveMinuteEnds(rows, end) && PlacedBeforeNextEnd(rows) && ReservesProper(rows)
    ensures Exact(rows)
  {
    forall t ensures ActiveAt(rows, t) <= Peak(Sorted(EventsOf(rows))) {
      NetJustBeforeAnEnd(rows, end, t);
      NetWithinPeak(rows, JustBeforeAnEnd(end, t));
    }
    var t := PeakWithinNet(rows);
    NetWithinActive(rows, t);
    assert ActiveAt(rows, t) == Peak(Sorted(EventsOf(rows)));
  }

  /** A market's worth late, a row's early release hides what the next market holds alone. */
  lemma PlacedTooLateHidesThePeak(r: Row, o: Row)
    requires r.placed && 0.0 < Reserve(r) && r.endTs + MARKET_SECONDS <= PlacedTs(r)
    requires o == Row(r.endTs * 1000, true, r.endTs + MARKET_SECONDS, r.price, r.size)
    ensures Peak(Sorted(EventsOf([o, r]))) <= 0.0 < ActiveAt([o, r], r.endTs)
  {
    assert [o, r][..1] == [o] && [o][..0] == [];
    var t := PeakWithinNet([o, r]);
    assert Net([o], t) == Net([], t) + NetOf(o, t);
    assert ActiveAt([o], r.endTs) == ActiveAt([], r.endTs) + Reserve(o);
  }

  /** Among five-minute markets placed in time, one more row leaves the peak exact, whatever
      the others are, exactly when it is placed before the next market's end. */
  lemma LatePlacementExactly(r: Row)
    requires r.placed && 0.0 < Reserve(r)
    ensures PlacedTs(r) < r.endTs + MARKET_SECONDS <==>
            forall others: seq<Row> ::
              FiveMinuteEnds(others, r.endTs) && PlacedBeforeNextEnd(others) && ReservesProper(others) ==>
                Exact(others + [r])
  {
    if PlacedTs(r) < r.endTs + MARKET_SECONDS {
      forall others: seq<Row> | FiveMinuteEnds(others, r.endTs) && PlacedBeforeNextEnd(others) && ReservesProper(others)
        ensures Exact(others + [r])
      {
        LatePlacementsDoNotShow(others + [r], r.endTs);
      }
    } else {
      var o := Row(r.endTs * 1000, true, r.endTs + MARKET_SECONDS, r.price, r.size);
      PlacedTooLateHidesThePeak(r, o);
      assert [o] + [r] == [o, r];
      assert FiveMinuteEnds([o], r.endTs) && PlacedBeforeNextEnd([o]) && ReservesProper([o]);
      assert !Exact([o] + [r]);
    }
  }
}
