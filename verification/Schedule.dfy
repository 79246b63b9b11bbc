/** The slot arithmetic of one member's timetable (knocker/internal/knock/schedule.go).

    All moments are whole nanoseconds of one clock. The code is stated first; then a
    plain description of which moments are slots; then that the code finds exactly those. */
module Schedule {
  import opened Arithmetic

  const GRID_TOLERANCE := 1000

  // ----- Go's division, which truncates toward zero

  function TruncDiv(a: int, b: int): int
    requires 0 < b
  {
    if 0 <= a then a / b else -((-a) / b)
  }

  function TruncMod(a: int, b: int): int
    requires 0 < b
  {
    a - b * TruncDiv(a, b)
  }

  function CeilDiv(a: int, b: int): (q: int)
    requires 0 < b
  {
    var q := TruncDiv(a, b);
    if TruncMod(a, b) != 0 && 0 < a then q + 1 else q
  }

  function Max(a: int, b: int): int { if a < b then b else a }

  function Min(a: int, b: int): int { if a < b then a else b }

  function SlotAtOrAfter(moment: int, origin: int, phase: int, interval: int): int
    requires 0 < interval
  {
    var offset := moment - origin - phase - GRID_TOLERANCE;
    origin + phase + CeilDiv(offset, interval) * interval
  }

  /** A run of slots: start + phase + k*interval, before end. */
  datatype Stretch = Stretch(start: int, end: int, phase: int, interval: int)

  /** A member's slots: some stretches first, and one grid without end after them. */
  datatype Timetable = Timetable(bursts: seq<Stretch>, origin: int, phase: int, interval: int)
  {
    /** Nothing the arithmetic divides by is zero or negative. */
    predicate Divides() {
      0 < interval && forall b <- bursts :: 0 < b.interval
    }

    /** The slot to wait for at a moment. */
    function At(moment: int): int
      requires Divides()
    {
      AtFrom(0, moment)
    }

    /** The scan of At from burst i on. */
    function AtFrom(i: nat, moment: int): int
      requires Divides() && i <= |bursts|
      decreases |bursts| - i
    {
      if i == |bursts| then
        SlotAtOrAfter(Max(moment, origin), origin, phase, interval)
      else
        var b := bursts[i];
        if b.end <= moment then AtFrom(i + 1, moment)
        else
          var slot := SlotAtOrAfter(Max(moment, b.start), b.start, b.phase, b.interval);
          if slot < b.end then slot else AtFrom(i + 1, moment)
    }

    /** The slot to wait for once the one at slot is used. */
    function After(slot: int): int
      requires Divides()
    {
      At(slot + GRID_TOLERANCE + 1)
    }
  }

  // ----- The description the code is held to

  /** s is first, first + interval, first + 2*interval, ... */
  predicate OnGrid(s: int, first: int, interval: int)
    requires 0 < interval
  {
    first <= s && (s - first) % interval == 0
  }

  predicate InStretch(b: Stretch, s: int)
    requires 0 < b.interval
  {
    OnGrid(s, b.start + b.phase, b.interval) && s < b.end
  }

  /** Group i is burst i, or the cadence when i is the number of bursts. */
  predicate InGroup(t: Timetable, i: nat, s: int)
    requires t.Divides() && i <= |t.bursts|
  {
    if i == |t.bursts| then OnGrid(s, t.origin + t.phase, t.interval)
    else InStretch(t.bursts[i], s)
  }

  ghost predicate IsSlot(t: Timetable, s: int)
    requires t.Divides()
  {
    exists i: nat :: i <= |t.bursts| && InGroup(t, i, s)
  }

  /** A slot of group i still counts at moment: it is at most the tolerance in the
      past, and its burst is not over. */
  predicate Open(t: Timetable, i: nat, s: int, moment: int)
    requires i <= |t.bursts|
  {
    moment - GRID_TOLERANCE <= s && (i < |t.bursts| ==> moment < t.bursts[i].end)
  }

  /** A phase that starts its grid at the grid's own beginning. */
  predicate GoodPhase(phase: int, interval: int) {
    0 <= phase && phase + GRID_TOLERANCE < interval
  }

  /** Bursts follow one another, each longer than the tolerance, and end by the
      cadence's origin; every phase is good. */
  predicate WellFormed(t: Timetable) {
    && t.Divides()
    && GoodPhase(t.phase, t.interval)
    && (forall b <- t.bursts :: GoodPhase(b.phase, b.interval) && b.start + GRID_TOLERANCE < b.end)
    && (forall i, j :: 0 <= i < j < |t.bursts| ==> t.bursts[i].end <= t.bursts[j].start)
    && (forall b <- t.bursts :: b.end <= t.origin)
  }

  // ----- One grid

  /** Go's truncating division and its adjustment make the exact ceiling, for
      negative operands too. */
  lemma CeilDivIsCeiling(a: int, b: int)
    requires 0 < b
    ensures a <= CeilDiv(a, b) * b < a + b
  {
    if 0 <= a {
      var q := a / b;
      assert a == b * q + a % b;
      assert CeilDiv(a, b) == if a == b * q then q else q + 1;
    } else {
      var q := (-a) / b;
      assert -a == b * q + (-a) % b;
      assert CeilDiv(a, b) == -q;
    }
  }

  lemma CeilDivUnique(a: int, b: int, q: int)
    requires 0 < b && a <= q * b < a + b
    ensures CeilDiv(a, b) == q
  {
    CeilDivIsCeiling(a, b);
    OneCeiling(a, b, CeilDiv(a, b), q);
  }

  lemma OneCeiling(a: int, b: int, d: int, q: int)
    requires 0 < b && a <= d * b < a + b && a <= q * b < a + b
    ensures d == q
  {
    if d < q { MulMonotone(d + 1, q, b); }
    if q < d { MulMonotone(q + 1, d, b); }
  }

  lemma MultipleMod(k: int, n: int)
    requires 0 < n
    ensures (k * n) % n == 0
  {
    var q, r := (k * n) / n, (k * n) % n;
    assert k * n == n * q + r;
    if q < k { MulMonotone(q + 1, k, n); } else if k < q { MulMonotone(k + 1, q, n); }
  }

  /** Two members of one grid differ by a multiple of its interval. */
  lemma GridStep(s: int, u: int, first: int, interval: int)
    requires 0 < interval && OnGrid(s, first, interval) && OnGrid(u, first, interval) && s < u
    ensures s + interval <= u
  {
    var j, k := (s - first) / interval, (u - first) / interval;
    assert s - first == interval * j && u - first == interval * k;
    if k <= j { MulMonotone(k, j, interval); }
    MulMonotone(j + 1, k, interval);
  }

  /** With a good phase and from the origin on, what is returned for a moment is the least
      grid member no more than the tolerance before it. */
  lemma SlotIsLeast(moment: int, origin: int, phase: int, interval: int)
    requires 0 < interval && GoodPhase(phase, interval) && origin <= moment
    ensures var s := SlotAtOrAfter(moment, origin, phase, interval);
            && OnGrid(s, origin + phase, interval)
            && moment - GRID_TOLERANCE <= s < moment - GRID_TOLERANCE + interval
  {
    var offset := moment - origin - phase - GRID_TOLERANCE;
    CeilDivIsCeiling(offset, interval);
    var q := CeilDiv(offset, interval);
    if q < 0 { MulMonotone(q, -1, interval); }
    MulMonotone(0, q, interval);
    MultipleMod(q, interval);
  }

  /** A grid keeps to its own beginning exactly when its phase is good: a phase too
      close to the interval puts the first slot one interval too early. */
  lemma GoodPhaseExactly(origin: int, phase: int, interval: int)
    requires 0 < interval && 0 <= phase
    ensures SlotAtOrAfter(origin, origin, phase, interval) == origin + phase
            <==> GoodPhase(phase, interval)
  {
    var offset := -phase - GRID_TOLERANCE;
    if GoodPhase(phase, interval) {
      CeilDivUnique(offset, interval, 0);
    } else {
      CeilDivIsCeiling(offset, interval);
      var q := CeilDiv(offset, interval);
      if 0 <= q { MulMonotone(0, q, interval); }
      MulMonotone(q, -1, interval);
    }
  }

  // ----- The whole timetable

  /** Slots of a later group come after slots of an earlier one, and at or after the
      end of the earlier burst. */
  lemma GroupsInOrder(t: Timetable, i: nat, j: nat, s: int, u: int)
    requires WellFormed(t) && i < j <= |t.bursts| && InGroup(t, i, s) && InGroup(t, j, u)
    ensures s < t.bursts[i].end <= u
  {
    var b := t.bursts[i];
    assert b in t.bursts;
    if j < |t.bursts| {
      var c := t.bursts[j];
      assert c in t.bursts;
      assert c.start + c.phase <= u;
    } else {
      assert t.origin + t.phase <= u;
    }
  }

  /** A grid member less than an interval past a floor is before none that is not below it. */
  lemma LeastAbove(s: int, u: int, first: int, interval: int, floor: int)
    requires 0 < interval && OnGrid(s, first, interval) && OnGrid(u, first, interval)
    requires s < floor + interval && floor <= u
    ensures s <= u
  {
    if u < s { GridStep(u, s, first, interval); }
  }

  /** The slot a group's own grid gives for a moment. */
  function OwnSlot(t: Timetable, i: nat, moment: int): int
    requires t.Divides() && i <= |t.bursts|
  {
    if i == |t.bursts| then SlotAtOrAfter(Max(moment, t.origin), t.origin, t.phase, t.interval)
    else
      var b := t.bursts[i];
      SlotAtOrAfter(Max(moment, b.start), b.start, b.phase, b.interval)
  }

  /** It is the least the group has open, and the group has none open when it is past the
      end of the burst. */
  lemma OwnSlotLeast(t: Timetable, i: nat, moment: int)
    requires WellFormed(t) && i <= |t.bursts|
    ensures forall u :: InGroup(t, i, u) && Open(t, i, u, moment) ==> OwnSlot(t, i, moment) <= u
    ensures moment - GRID_TOLERANCE <= OwnSlot(t, i, moment)
    ensures i == |t.bursts| || OwnSlot(t, i, moment) < t.bursts[i].end ==> InGroup(t, i, OwnSlot(t, i, moment))
  {
    if i < |t.bursts| { assert t.bursts[i] in t.bursts; }
    var start := if i == |t.bursts| then t.origin else t.bursts[i].start;
    var phase := if i == |t.bursts| then t.phase else t.bursts[i].phase;
    var interval := if i == |t.bursts| then t.interval else t.bursts[i].interval;
    SlotIsLeast(Max(moment, start), start, phase, interval);
    forall u | InGroup(t, i, u) && Open(t, i, u, moment)
      ensures OwnSlot(t, i, moment) <= u
    {
      LeastAbove(OwnSlot(t, i, moment), u, start + phase, interval, Max(moment, start) - GRID_TOLERANCE);
    }
  }

  /** What the scan returns: an open slot of its own group, and the least open one of
      all the groups from i on. */
  lemma {:induction false} AtFromIsLeast(t: Timetable, i: nat, moment: int) returns (g: nat)
    requires WellFormed(t) && i <= |t.bursts|
    ensures i <= g <= |t.bursts|
    ensures InGroup(t, g, t.AtFrom(i, moment)) && Open(t, g, t.AtFrom(i, moment), moment)
    ensures forall j: nat, u ::
              i <= j <= |t.bursts| && InGroup(t, j, u) && Open(t, j, u, moment) ==> t.AtFrom(i, moment) <= u
    decreases |t.bursts| - i
  {
    OwnSlotLeast(t, i, moment);
    g := i;
    if i < |t.bursts| {
      if moment < t.bursts[i].end && OwnSlot(t, i, moment) < t.bursts[i].end {
        forall j: nat, u | i < j <= |t.bursts| && InGroup(t, j, u)
          ensures t.AtFrom(i, moment) <= u
        {
          GroupsInOrder(t, i, j, t.AtFrom(i, moment), u);
        }
      } else {
        g := AtFromIsLeast(t, i + 1, moment);
      }
    }
  }

  /** Every moment has a first open slot, and At is it. */
  lemma AtIsFirstOpen(t: Timetable, moment: int) returns (g: nat)
    requires WellFormed(t)
    ensures g <= |t.bursts| && InGroup(t, g, t.At(moment)) && Open(t, g, t.At(moment), moment)
    ensures IsSlot(t, t.At(moment))
    ensures forall j: nat, u ::
              j <= |t.bursts| && InGroup(t, j, u) && Open(t, j, u, moment) ==> t.At(moment) <= u
  {
    g := AtFromIsLeast(t, 0, moment);
  }

  lemma AtMonotone(t: Timetable, earlier: int, later: int)
    requires WellFormed(t) && earlier <= later
    ensures t.At(earlier) <= t.At(later)
    ensures later - GRID_TOLERANCE <= t.At(later)
  {
    var _ := AtIsFirstOpen(t, earlier);
    var g := AtIsFirstOpen(t, later);
    assert Open(t, g, t.At(later), earlier);
  }

  /** A slot the scan passes over is one already gone: nothing at or after the moment
      asked for is ever skipped. */
  lemma AtSkipsOnlyThePast(t: Timetable, moment: int, s: int)
    requires WellFormed(t) && IsSlot(t, s) && s < t.At(moment)
    ensures s < moment
  {
    var _ := AtIsFirstOpen(t, moment);
    var i: nat :| i <= |t.bursts| && InGroup(t, i, s);
    assert !Open(t, i, s, moment);
  }

  /** A later slot is still open just past the tolerance after an earlier one. */
  lemma LaterStaysOpen(t: Timetable, i: nat, s: int, j: nat, u: int)
    requires WellFormed(t) && i <= |t.bursts| && j <= |t.bursts|
    requires InGroup(t, i, s) && InGroup(t, j, u) && s < u
    ensures Open(t, j, u, s + GRID_TOLERANCE + 1)
  {
    if j < i { GroupsInOrder(t, j, i, u, s); }
    if j < |t.bursts| {
      var c := t.bursts[j];
      assert c in t.bursts;
      if i == j {
        GridStep(s, u, c.start + c.phase, c.interval);
      } else {
        GroupsInOrder(t, i, j, s, u);
        assert t.bursts[i].end <= c.start;
      }
    }
  }

  /** After is the successor in the set of slots: a slot, strictly later, with no slot
      in between. */
  lemma AfterIsSuccessor(t: Timetable, s: int)
    requires WellFormed(t) && IsSlot(t, s)
    ensures IsSlot(t, t.After(s)) && s < t.After(s)
    ensures forall u :: IsSlot(t, u) && s < u ==> t.After(s) <= u
  {
    var g := AtIsFirstOpen(t, s + GRID_TOLERANCE + 1);
    var i: nat :| i <= |t.bursts| && InGroup(t, i, s);
    forall u | IsSlot(t, u) && s < u
      ensures t.After(s) <= u
    {
      var j: nat :| j <= |t.bursts| && InGroup(t, j, u);
      LaterStaysOpen(t, i, s, j, u);
    }
  }

  /** The n-th slot from moment on: At once, then After n times. */
  function Nth(t: Timetable, moment: int, n: nat): int
    requires t.Divides()
  {
    if n == 0 then t.At(moment) else t.After(Nth(t, moment, n - 1))
  }

  lemma {:induction false} NthIsSlot(t: Timetable, moment: int, n: nat)
    requires WellFormed(t)
    ensures IsSlot(t, Nth(t, moment, n))
    ensures 0 < n ==> Nth(t, moment, n - 1) < Nth(t, moment, n)
  {
    if n == 0 {
      var _ := AtIsFirstOpen(t, moment);
    } else {
      NthIsSlot(t, moment, n - 1);
      AfterIsSuccessor(t, Nth(t, moment, n - 1));
    }
  }

  /** None repeated. */
  lemma {:induction false} NthIncreases(t: Timetable, moment: int, m: nat, n: nat)
    requires WellFormed(t) && m < n
    ensures Nth(t, moment, m) < Nth(t, moment, n)
    decreases n
  {
    NthIsSlot(t, moment, n);
    if m < n - 1 { NthIncreases(t, moment, m, n - 1); }
  }

  /** None skipped: iterating After reaches every slot from At(moment) on. */
  lemma {:induction false} NthReaches(t: Timetable, moment: int, s: int, m: nat) returns (n: nat)
    requires WellFormed(t) && IsSlot(t, s) && Nth(t, moment, m) <= s
    ensures m <= n && Nth(t, moment, n) == s
    decreases s - Nth(t, moment, m)
  {
    NthIsSlot(t, moment, m);
    if Nth(t, moment, m) == s {
      n := m;
    } else {
      AfterIsSuccessor(t, Nth(t, moment, m));
      n := NthReaches(t, moment, s, m + 1);
    }
  }

  /** s comes up when After is iterated from At(moment). */
  ghost predicate Listed(t: Timetable, moment: int, s: int)
    requires t.Divides()
  {
    exists n: nat :: Nth(t, moment, n) == s
  }

  lemma ListedExactly(t: Timetable, moment: int, s: int)
    requires WellFormed(t)
    ensures Listed(t, moment, s) <==> IsSlot(t, s) && t.At(moment) <= s
  {
    if Listed(t, moment, s) {
      var n: nat :| Nth(t, moment, n) == s;
      NthIsSlot(t, moment, n);
      if 0 < n { NthIncreases(t, moment, 0, n); }
    }
    if IsSlot(t, s) && t.At(moment) <= s {
      var n := NthReaches(t, moment, s, 0);
    }
  }

  /** Iterating After lists exactly the slots that are not before At(moment), in order
      and once each, whichever side of the origin the moment lies. */
  lemma {:induction false} IterationListsTheSlots(t: Timetable, moment: int)
    requires WellFormed(t)
    ensures forall s :: Listed(t, moment, s) <==> IsSlot(t, s) && t.At(moment) <= s
    ensures forall m: nat, n: nat :: m < n ==> Nth(t, moment, m) < Nth(t, moment, n)
  {
    forall s
      ensures Listed(t, moment, s) <==> IsSlot(t, s) && t.At(moment) <= s
    {
      ListedExactly(t, moment, s);
    }
    forall m: nat, n: nat | m < n
      ensures Nth(t, moment, m) < Nth(t, moment, n)
    {
      NthIncreases(t, moment, m, n);
    }
  }

  /** From before everything, the list starts at the very first slot of all. */
  lemma StartsAtTheFirstSlot(t: Timetable, moment: int, s: int)
    requires WellFormed(t) && IsSlot(t, s)
    requires moment <= t.origin && forall b <- t.bursts :: moment <= b.start
    ensures t.At(moment) <= s
  {
    var _ := AtIsFirstOpen(t, moment);
    var i: nat :| i <= |t.bursts| && InGroup(t, i, s);
    if i < |t.bursts| { assert t.bursts[i] in t.bursts; }
    assert Open(t, i, s, moment);
  }

  // ----- Machine integers

  const INT64_LIMIT := 0x8000_0000_0000_0000

  predicate FitsInt64(x: int) { -INT64_LIMIT <= x < INT64_LIMIT }

  /** With moments, phases and intervals below 2^60 ns (36 years) in size, no step of
      the slot arithmetic leaves the range of Go's int64. */
  lemma SlotArithmeticFitsInt64(moment: int, origin: int, phase: int, interval: int)
    requires 0 < interval
    requires forall x <- [moment, origin, phase, interval] :: -0x1000_0000_0000_0000 <= x <= 0x1000_0000_0000_0000
    ensures var offset := moment - origin - phase - GRID_TOLERANCE;
            && FitsInt64(offset) && FitsInt64(CeilDiv(offset, interval))
            && FitsInt64(CeilDiv(offset, interval) * interval)
            && FitsInt64(SlotAtOrAfter(moment, origin, phase, interval))
  {
    var args := [moment, origin, phase, interval];
    assert args[0] in args && args[1] in args && args[2] in args && args[3] in args;
    var offset := moment - origin - phase - GRID_TOLERANCE;
    CeilDivIsCeiling(offset, interval);
    var q := CeilDiv(offset, interval);
    if 0 <= q { MulMonotone(1, interval, q); } else { MulMonotone(1, interval, -q); }
  }
}
