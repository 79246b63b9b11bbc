/** The bursts that follow a market's preview (knocker/internal/knock/preview.go) and the
    fleet's phases on them (polymarket_bot/fleet.py): how far apart the members stay, and
    how many requests one account can send in any stretch of time.

    Milliseconds that the program holds as floats are exact reals here, and the ratios it
    takes of whole nanoseconds are exact. */
module Preview {
  import opened Arithmetic
  import opened Options
  import opened Schedule

  datatype Burst = Burst(fromMs: real, untilMs: real, intervalMs: real)

  datatype Plan = Plan(url: string, pollMs: real, bursts: seq<Burst>, giveUpMs: real)

  datatype Verdict = Accepted | NoUrl | BadPoll | BadGiveUp | BadBursts

  // ----- Go's math.Round and math.Mod(x, 1)

  function Round(x: real): int {
    if 0.0 <= x then (x + 0.5).Floor else -((-x + 0.5).Floor)
  }

  /** a / b rounded the same way, for a ratio the program computes as a float. */
  function RoundDiv(a: int, b: int): int
    requires 0 < b
  {
    if 0 <= a then (2 * a + b) / (2 * b) else -((-2 * a + b) / (2 * b))
  }

  function Nanos(ms: real): int { Round(ms * 1000000.0) }

  lemma RoundMonotone(x: real, y: real)
    requires x <= y
    ensures Round(x) <= Round(y)
  {}

  lemma RoundDivNear(a: int, b: int)
    requires 0 < b && 0 <= a
    ensures 0 <= RoundDiv(a, b)
    ensures 2 * a - b < 2 * (b * RoundDiv(a, b)) <= 2 * a + b
  {
    var q := RoundDiv(a, b);
    assert 2 * a + b == 2 * b * q + (2 * a + b) % (2 * b);
    assert 2 * b * q == 2 * (b * q);
  }

  lemma RoundDivMonotone(a: int, c: int, b: int)
    requires 0 < b && 0 <= a <= c
    ensures RoundDiv(a, b) <= RoundDiv(c, b)
  {
    RoundDivNear(a, b);
    RoundDivNear(c, b);
    var x, y := RoundDiv(a, b), RoundDiv(c, b);
    if y < x { MulMonotone(y + 1, x, b); }
  }

  // ----- What check accepts

  /** Each burst is a proper stretch of time with an interval, and none starts before
      the one listed before it ends. */
  ghost predicate ProperBursts(bursts: seq<Burst>) {
    && (forall b <- bursts :: 0.0 < b.intervalMs && b.fromMs < b.untilMs)
    && (forall i :: 0 < i < |bursts| ==> bursts[i - 1].untilMs <= bursts[i].fromMs)
  }

  method Check(p: Plan) returns (v: Verdict)
    ensures v == Accepted <==>
            p.url != "" && 0.0 < p.pollMs && 0.0 < p.giveUpMs && ProperBursts(p.bursts)
    ensures v == NoUrl <==> p.url == ""
    ensures v == BadPoll <==> p.url != "" && p.pollMs <= 0.0
    ensures v == BadGiveUp <==> p.url != "" && 0.0 < p.pollMs && p.giveUpMs <= 0.0
  {
    if p.url == "" { return NoUrl; }
    if !(0.0 < p.pollMs) { return BadPoll; }
    if !(0.0 < p.giveUpMs) { return BadGiveUp; }
    for i := 0 to |p.bursts|
      invariant ProperBursts(p.bursts[..i])
    {
      var b := p.bursts[i];
      if !(0.0 < b.intervalMs) || !(b.fromMs < b.untilMs) || (0 < i && b.fromMs < p.bursts[i - 1].untilMs) {
        assert p.bursts[i] in p.bursts;
        return BadBursts;
      }
      assert p.bursts[..i + 1] == p.bursts[..i] + [b];
    }
    assert p.bursts[..|p.bursts|] == p.bursts;
    return Accepted;
  }

  /** Neighbours in order means all in order. */
  lemma {:induction false} ProperInOrder(bursts: seq<Burst>, i: nat, j: nat)
    requires ProperBursts(bursts) && i < j < |bursts|
    ensures bursts[i].untilMs <= bursts[j].fromMs
    decreases j
  {
    if i < j - 1 {
      ProperInOrder(bursts, i, j - 1);
      assert bursts[j - 1] in bursts;
    }
  }

  // ----- Laying the bursts out

  /** The phase inside a burst: the member's share of the cadence, phase modulo interval
      over interval, taken of the burst's own interval. */
  function BurstPhase(phase: int, interval: int, every: int): int
    requires 0 < interval
  {
    RoundDiv(TruncMod(phase, interval) * every, interval)
  }

  function LaidOut(b: Burst, anchor: int, phase: int, interval: int): Stretch
    requires 0 < interval
  {
    var every := Nanos(b.intervalMs);
    Stretch(anchor + Nanos(b.fromMs), anchor + Nanos(b.untilMs), BurstPhase(phase, interval, every), every)
  }

  function CadenceOrigin(bursts: seq<Burst>, anchor: int): int {
    if bursts == [] then anchor else anchor + Nanos(bursts[|bursts| - 1].untilMs)
  }

  function BurstTable(t: Timetable, bursts: seq<Burst>, anchor: int, phase: int, interval: int): Timetable
    requires 0 < interval
  {
    t.(bursts := seq(|bursts|, k requires 0 <= k < |bursts| => LaidOut(bursts[k], anchor, phase, interval)),
       origin := CadenceOrigin(bursts, anchor))
  }

  /** Rewrites every member's timetable in place. */
  method TimeBursts(tables: array<Timetable>, phases: seq<int>, interval: int, bursts: seq<Burst>, anchor: int)
    requires 0 < interval && |phases| == tables.Length
    modifies tables
    ensures forall i :: 0 <= i < tables.Length ==>
              tables[i] == BurstTable(old(tables[i]), bursts, anchor, phases[i], interval)
  {
    for i := 0 to tables.Length
      invariant forall j :: 0 <= j < i ==>
                  tables[j] == BurstTable(old(tables[j]), bursts, anchor, phases[j], interval)
      invariant forall j :: i <= j < tables.Length ==> tables[j] == old(tables[j])
    {
      var laid: seq<Stretch> := [];
      for k := 0 to |bursts|
        invariant laid == seq(k, n requires 0 <= n < k <= |bursts| => LaidOut(bursts[n], anchor, phases[i], interval))
        invariant forall j :: 0 <= j < i ==>
                    tables[j] == BurstTable(old(tables[j]), bursts, anchor, phases[j], interval)
        invariant forall j :: i <= j < tables.Length ==> tables[j] == old(tables[j])
      {
        laid := laid + [LaidOut(bursts[k], anchor, phases[i], interval)];
      }
      var origin := anchor;
      if 0 < |bursts| { origin := anchor + Nanos(bursts[|bursts| - 1].untilMs); }
      tables[i] := tables[i].(bursts := laid, origin := origin);
    }
  }

  /** Bursts that check accepts stay in order once rounded to nanoseconds, and the
      cadence takes over where the last one ends. */
  lemma LaidOutInOrder(t: Timetable, bursts: seq<Burst>, anchor: int, phase: int, interval: int)
    requires 0 < interval && ProperBursts(bursts)
    ensures var laid := BurstTable(t, bursts, anchor, phase, interval);
            && (forall i, j :: 0 <= i < j < |bursts| ==> laid.bursts[i].end <= laid.bursts[j].start)
            && (forall b <- laid.bursts :: b.start <= b.end <= laid.origin)
  {
    var laid := BurstTable(t, bursts, anchor, phase, interval);
    forall i, j | 0 <= i < j < |bursts|
      ensures laid.bursts[i].end <= laid.bursts[j].start
    {
      ProperInOrder(bursts, i, j);
      RoundMonotone(bursts[i].untilMs * 1000000.0, bursts[j].fromMs * 1000000.0);
    }
    forall i | 0 <= i < |bursts|
      ensures laid.bursts[i].start <= laid.bursts[i].end <= laid.origin
    {
      assert bursts[i] in bursts;
      RoundMonotone(bursts[i].fromMs * 1000000.0, bursts[i].untilMs * 1000000.0);
      var last := |bursts| - 1;
      assert bursts[last] in bursts;
      if i < last { ProperInOrder(bursts, i, last); }
      RoundMonotone(bursts[i].untilMs * 1000000.0, bursts[last].untilMs * 1000000.0);
    }
  }

  // ----- Members on one grid

  function Gap(s: int, u: int): int { if s < u then u - s else s - u }

  /** Slots of two grids with one interval are never closer than the distance between
      their phases around the circle. */
  lemma GridsApart(s: int, u: int, origin: int, p: int, q: int, interval: int)
    requires 0 < interval && p <= q
    requires OnGrid(s, origin + p, interval) && OnGrid(u, origin + q, interval)
    ensures Min(q - p, interval - (q - p)) <= Gap(s, u)
  {
    var j, k := (s - origin - p) / interval, (u - origin - q) / interval;
    assert s - origin - p == interval * j && u - origin - q == interval * k;
    if j <= k { MulMonotone(j, k, interval); } else { MulMonotone(k + 1, j, interval); }
  }

  /** Member i of n: i/n of the cadence late. */
  function EvenPhase(interval: int, n: nat, i: nat): int
    requires 0 < n
  {
    RoundDiv(interval * i, n)
  }

  /** p is a/b to the nearest whole number. */
  predicate Nearest(p: int, a: int, b: int) {
    2 * a - b < 2 * (b * p) <= 2 * a + b
  }

  /** The phases are in order, and the gap to a later member, and around to the first
      again, is the even share less a nanosecond of rounding. */
  lemma EvenPhases(interval: int, n: nat, i: nat, j: nat)
    requires 0 < interval && i < j < n
    ensures var p, q := EvenPhase(interval, n, i), EvenPhase(interval, n, j);
            && 0 <= p <= q <= interval
            && interval < n * (q - p + 1)
            && interval < n * (interval - (q - p) + 1)
  {
    MulMonotone(0, i, interval);
    MulMonotone(0, j, interval);
    RoundDivNear(interval * i, n);
    RoundDivNear(interval * j, n);
    NearestEvenly(interval, n, i, j, EvenPhase(interval, n, i), EvenPhase(interval, n, j));
  }

  lemma NearestEvenly(interval: int, n: nat, i: nat, j: nat, p: int, q: int)
    requires 0 < interval && i < j < n && Nearest(p, interval * i, n) && Nearest(q, interval * j, n)
    ensures p <= q <= interval
    ensures interval < n * (q - p + 1)
    ensures interval < n * (interval - (q - p) + 1)
  {
    MulMonotone(i + 1, j, interval);
    NearestApart(interval, n, interval * i, interval * j, p, q);
    MulMonotone(j + 1, n, interval);
    MulMonotone(0, i, interval);
    AroundApart(interval, n, interval * i, interval * j, p, q);
  }

  lemma AroundApart(interval: int, n: nat, a: int, b: int, p: int, q: int)
    requires 0 < interval && 0 < n && 0 <= a && b + interval <= n * interval
    requires Nearest(q, b, n) && n * (q - p) < b - a + n
    ensures q <= interval && interval < n * (interval - (q - p) + 1)
  {
    assert n * (interval - (q - p) + 1) == n * interval - n * (q - p) + n;
    if interval < q { MulMonotone(interval + 1, q, n); }
  }

  /** Rounding two ratios at least gap apart keeps them gap apart, less one. */
  lemma NearestApart(gap: int, n: nat, a: int, b: int, p: int, q: int)
    requires 0 < n && 0 <= gap && Nearest(p, a, n) && Nearest(q, b, n) && a + gap <= b
    ensures p <= q
    ensures gap < n * (q - p + 1)
    ensures n * (q - p) < b - a + n
  {
    assert n * (q - p + 1) == n * q - n * p + n;
    assert n * (q - p) == n * q - n * p;
    if q < p { MulMonotone(q + 1, p, n); }
  }

  /** Evenly phased members never send within one even share of each other, less a
      nanosecond; nor within the even share itself when it is a whole number. */
  lemma CadenceSpacing(interval: int, n: nat, i: nat, j: nat, origin: int, s: int, u: int)
    requires 0 < interval && i < j < n
    requires OnGrid(s, origin + EvenPhase(interval, n, i), interval)
    requires OnGrid(u, origin + EvenPhase(interval, n, j), interval)
    ensures interval < n * (Gap(s, u) + 1)
    ensures interval % n == 0 ==> interval / n <= Gap(s, u)
  {
    EvenPhases(interval, n, i, j);
    var p, q := EvenPhase(interval, n, i), EvenPhase(interval, n, j);
    GridsApart(s, u, origin, p, q, interval);
    WiderGap(interval, n, p, q, Gap(s, u));
  }

  lemma WiderGap(interval: int, n: nat, p: int, q: int, gap: int)
    requires 0 < n && interval < n * (q - p + 1) && interval < n * (interval - (q - p) + 1)
    requires Min(q - p, interval - (q - p)) <= gap
    ensures interval < n * (gap + 1)
    ensures interval % n == 0 ==> interval / n <= gap
  {
    MulMonotone(Min(q - p, interval - (q - p)) + 1, gap + 1, n);
    var share := interval / n;
    assert interval == n * share + interval % n;
    if gap < share { MulMonotone(gap + 1, share, n); }
  }

  lemma TruncModSmall(phase: int, interval: int)
    requires 0 < interval && 0 <= phase < interval
    ensures TruncMod(phase, interval) == phase
  {
    MulMonotone(0, 0, interval);
    assert phase / interval == 0;
  }

  lemma BurstPhases(p: int, q: int, interval: int, every: int)
    requires 0 < interval && 0 <= p <= q < interval && 0 < every
    ensures 0 <= BurstPhase(p, interval, every) <= BurstPhase(q, interval, every)
    ensures Nearest(BurstPhase(p, interval, every), p * every, interval)
    ensures Nearest(BurstPhase(q, interval, every), q * every, interval)
  {
    TruncModSmall(p, interval);
    TruncModSmall(q, interval);
    MulMonotone(0, p, every);
    MulMonotone(p, q, every);
    RoundDivNear(p * every, interval);
    RoundDivNear(q * every, interval);
    RoundDivMonotone(p * every, q * every, interval);
  }

  /** Only a phase's part of its cadence counts: one a whole cadence later is the same
      inside a burst, and comes before the burst's interval is over. */
  lemma BurstPhaseWraps(phase: int, interval: int, every: int)
    requires 0 < interval && 0 <= phase && 0 < every
    ensures BurstPhase(phase + interval, interval, every) == BurstPhase(phase, interval, every)
    ensures 0 <= BurstPhase(phase, interval, every) <= every
  {
    var q, r := phase / interval, phase % interval;
    assert phase == q * interval + r && phase + interval == (q + 1) * interval + r;
    ModUnique(phase + interval, q + 1, r, interval);
    TruncModOf(phase, q, r, interval);
    TruncModOf(phase + interval, q + 1, r, interval);
    BurstPhases(r, r, interval, every);
    TruncModSmall(r, interval);
    MulMonotone(r, interval, every);
    RoundDivMonotone(r * every, interval * every, interval);
    RoundDivNear(interval * every, interval);
    RoundWhole(interval, every);
  }

  lemma TruncModOf(a: int, q: int, r: int, interval: int)
    requires 0 <= a && 0 <= r < interval && a == q * interval + r
    ensures TruncMod(a, interval) == r
  {
    ModUnique(a, q, r, interval);
    assert a == interval * (a / interval) + a % interval;
  }

  lemma RoundWhole(a: int, b: int)
    requires 0 < a && 0 <= b
    ensures RoundDiv(a * b, a) == b
  {
    var q := RoundDiv(a * b, a);
    MulMonotone(0, b, a);
    RoundDivNear(a * b, a);
    if q < b { MulMonotone(q + 1, b, a); } else if b < q { MulMonotone(b + 1, q, a); }
  }

  /** Inside a burst the members keep the order of their cadence phases p <= q, and two of
      their sends are never closer than the distance of the phases around the cadence,
      scaled to the burst's interval, less a nanosecond. */
  lemma BurstSpacing(b: Burst, anchor: int, p: int, q: int, interval: int, s: int, u: int)
    requires 0 < interval && 0 <= p <= q < interval && 0 < Nanos(b.intervalMs)
    requires InStretch(LaidOut(b, anchor, p, interval), s)
    requires InStretch(LaidOut(b, anchor, q, interval), u)
    ensures LaidOut(b, anchor, p, interval).phase <= LaidOut(b, anchor, q, interval).phase
    ensures Min(q - p, interval - (q - p)) * Nanos(b.intervalMs) < interval * (Gap(s, u) + 1)
  {
    var every := Nanos(b.intervalMs);
    var x, y := BurstPhase(p, interval, every), BurstPhase(q, interval, every);
    BurstPhases(p, q, interval, every);
    GridsApart(s, u, anchor + Nanos(b.fromMs), x, y, every);
    ScaledGap(p, q, interval, every, x, y, Gap(s, u));
  }

  lemma ScaledGap(p: int, q: int, interval: int, every: int, x: int, y: int, gap: int)
    requires 0 < interval && 0 < every
    requires Nearest(x, p * every, interval) && Nearest(y, q * every, interval)
    requires Min(y - x, every - (y - x)) <= gap
    ensures Min(q - p, interval - (q - p)) * every < interval * (gap + 1)
  {
    ScaledDirect(p, q, interval, every, x, y);
    ScaledAround(p, q, interval, every, x, y);
    ScaledLesser(q - p, y - x, interval, every, gap);
  }

  lemma ScaledLesser(d: int, e: int, interval: int, every: int, gap: int)
    requires 0 <= every && 0 <= interval && Min(e, every - e) <= gap
    requires d * every < interval * (e + 1) && (interval - d) * every < interval * (every - e + 1)
    ensures Min(d, interval - d) * every < interval * (gap + 1)
  {
    if e <= gap {
      MulMonotone(Min(d, interval - d), d, every);
      MulMonotone(e + 1, gap + 1, interval);
    } else {
      MulMonotone(Min(d, interval - d), interval - d, every);
      MulMonotone(every - e + 1, gap + 1, interval);
    }
  }

  lemma ScaledDirect(p: int, q: int, interval: int, every: int, x: int, y: int)
    requires Nearest(x, p * every, interval) && Nearest(y, q * every, interval)
    ensures (q - p) * every < interval * (y - x + 1)
  {
    assert (q - p) * every == q * every - p * every;
    assert interval * (y - x + 1) == interval * y - interval * x + interval;
  }

  lemma ScaledAround(p: int, q: int, interval: int, every: int, x: int, y: int)
    requires Nearest(x, p * every, interval) && Nearest(y, q * every, interval)
    ensures (interval - (q - p)) * every < interval * (every - (y - x) + 1)
  {
    assert (interval - (q - p)) * every == interval * every - q * every + p * every;
    assert interval * (every - (y - x) + 1) == interval * every - interval * y + interval * x + interval;
  }

  // ----- An evenly phased fleet inside a burst

  lemma EvenPhaseBelow(interval: int, n: nat, i: nat)
    requires i < n <= interval
    ensures 0 <= EvenPhase(interval, n, i) < interval
    ensures Nearest(EvenPhase(interval, n, i), interval * i, n)
  {
    MulMonotone(0, i, interval);
    RoundDivNear(interval * i, n);
    MulMonotone(i, n - 1, interval);
    var p := EvenPhase(interval, n, i);
    if interval <= p { MulMonotone(interval, p, n); }
  }

  /** Members i < j of an evenly phased fleet, inside a burst no slower than the cadence:
      in order, and never within one even share of the burst's interval of each other, less
      the two nanoseconds that rounding the phase twice can cost. */
  lemma FleetBurstSpacing(b: Burst, anchor: int, interval: int, n: nat, i: nat, j: nat, s: int, u: int)
    requires i < j < n <= interval && 0 < Nanos(b.intervalMs) <= interval
    requires InStretch(LaidOut(b, anchor, EvenPhase(interval, n, i), interval), s)
    requires InStretch(LaidOut(b, anchor, EvenPhase(interval, n, j), interval), u)
    ensures LaidOut(b, anchor, EvenPhase(interval, n, i), interval).phase <=
            LaidOut(b, anchor, EvenPhase(interval, n, j), interval).phase
    ensures Nanos(b.intervalMs) < n * (Gap(s, u) + 2)
  {
    var p, q := EvenPhase(interval, n, i), EvenPhase(interval, n, j);
    EvenPhaseBelow(interval, n, i);
    EvenPhaseBelow(interval, n, j);
    EvenPhases(interval, n, i, j);
    BurstSpacing(b, anchor, p, q, interval, s, u);
    TwoRoundings(interval, n, Min(q - p, interval - (q - p)), Nanos(b.intervalMs), Gap(s, u));
  }

  lemma TwoRoundings(interval: int, n: nat, d: int, every: int, gap: int)
    requires 0 < every <= interval && interval < n * (d + 1) && d * every < interval * (gap + 1)
    ensures every < n * (gap + 2)
  {
    if n * (gap + 2) <= every {
      MulMonotone(n * (gap + 2), every, interval);
      MulMonotone(interval, n * (d + 1), every);
      MulMonotone(d * every, interval * (gap + 1), n);
      MulMonotone(every, interval, n);
      Spread(interval, n, d, every, gap);
    }
  }

  lemma Spread(interval: int, n: int, d: int, every: int, gap: int)
    ensures n * (gap + 2) * interval == interval * (gap + 1) * n + interval * n
    ensures n * (d + 1) * every == d * every * n + every * n
  {}

  /** When the members share the cadence out to the nanosecond, only one is lost, whatever
      the burst's interval. */
  lemma WholeShareBurstSpacing(interval: int, n: nat, every: int, start: int, i: nat, j: nat, s: int, u: int)
    requires i < j < n <= interval && interval % n == 0 && 0 < every
    requires OnGrid(s, start + BurstPhase(EvenPhase(interval, n, i), interval, every), every)
    requires OnGrid(u, start + BurstPhase(EvenPhase(interval, n, j), interval, every), every)
    ensures every < n * (Gap(s, u) + 1)
  {
    var p, q := EvenPhase(interval, n, i), EvenPhase(interval, n, j);
    EvenPhaseBelow(interval, n, i);
    EvenPhaseBelow(interval, n, j);
    EvenPhases(interval, n, i, j);
    BurstPhases(p, q, interval, every);
    var x, y := BurstPhase(p, interval, every), BurstPhase(q, interval, every);
    GridsApart(s, u, start, x, y, every);
    ScaledGap(p, q, interval, every, x, y, Gap(s, u));
    OneRounding(interval, n, Min(q - p, interval - (q - p)), every, Gap(s, u));
  }

  lemma OneRounding(interval: int, n: nat, d: int, every: int, gap: int)
    requires 0 < n <= interval && interval % n == 0 && interval < n * (d + 1)
    requires 0 < every && d * every < interval * (gap + 1)
    ensures every < n * (gap + 1)
  {
    var share := interval / n;
    assert interval == n * share;
    if d < share { MulMonotone(d + 1, share, n); }
    OneRoundingOf(share, n, d, every, gap);
  }

  lemma OneRoundingOf(share: int, n: nat, d: int, every: int, gap: int)
    requires 0 <= share <= d && d * every < n * share * (gap + 1) && 0 < every
    ensures every < n * (gap + 1)
  {
    MulMonotone(share, d, every);
    assert n * share * (gap + 1) == n * (gap + 1) * share;
    if n * (gap + 1) <= every { MulMonotone(n * (gap + 1), every, share); }
  }

  /** In every burst, of whatever interval, members stay an even share of it apart, less
      one nanosecond. */
  ghost predicate SharesKept(interval: int, n: nat)
    requires 0 < n <= interval
  {
    forall every: int, i: nat, j: nat, s: int, u: int ::
      0 < every && i < j < n
      && OnGrid(s, BurstPhase(EvenPhase(interval, n, i), interval, every), every)
      && OnGrid(u, BurstPhase(EvenPhase(interval, n, j), interval, every), every)
      ==> every < n * (Gap(s, u) + 1)
  }

  /** That holds exactly when the members share the cadence out to the nanosecond. */
  lemma SharesKeptExactly(interval: int, n: nat)
    requires 0 < n <= interval
    ensures SharesKept(interval, n) <==> interval % n == 0
  {
    if interval % n == 0 {
      forall every: int, i: nat, j: nat, s: int, u: int |
        0 < every && i < j < n
        && OnGrid(s, BurstPhase(EvenPhase(interval, n, i), interval, every), every)
        && OnGrid(u, BurstPhase(EvenPhase(interval, n, j), interval, every), every)
        ensures every < n * (Gap(s, u) + 1)
      {
        WholeShareBurstSpacing(interval, n, every, 0, i, j, s, u);
      }
    }
    if SharesKept(interval, n) && 1 < n {
      StepsWide(interval, n, n - 1);
      AroundWide(interval, n);
      WideAllAround(interval, n, EvenPhase(interval, n, n - 1));
    }
  }

  lemma WideAllAround(interval: int, n: nat, last: int)
    requires 0 < n && (n - 1) * interval <= n * last && interval <= n * (interval - last)
    ensures interval % n == 0
  {
    assert n * (interval - last) == n * interval - n * last;
    assert (n - 1) * interval == n * interval - interval;
    ModUnique(interval, interval - last, 0, n);
  }

  /** In a burst n times as slow as the cadence a phase is scaled exactly. */
  lemma ScaledExactly(interval: int, n: nat, i: nat)
    requires i < n <= interval
    ensures BurstPhase(EvenPhase(interval, n, i), interval, n * interval) == n * EvenPhase(interval, n, i)
  {
    var p, every := EvenPhase(interval, n, i), n * interval;
    EvenPhaseBelow(interval, n, i);
    MulMonotone(1, interval, n);
    BurstPhases(p, p, interval, every);
    Reorder(p, n, interval);
    NearestExact(BurstPhase(p, interval, every), n * p, interval);
  }

  lemma Reorder(p: int, n: int, interval: int)
    ensures p * (n * interval) == interval * (n * p)
  {}

  lemma NearestExact(x: int, y: int, b: int)
    requires 0 < b && Nearest(x, b * y, b)
    ensures x == y
  {
    if x < y { MulMonotone(x + 1, y, b); }
    if y < x { MulMonotone(y + 1, x, b); }
  }

  lemma Wide(interval: int, n: nat, g: int)
    requires n * interval < n * (n * g + 1)
    ensures interval <= n * g
  {
    if n * g + 1 <= interval { MulMonotone(n * g + 1, interval, n); }
  }

  /** s and u are slots of members i < j in the burst n times as slow as the cadence. */
  lemma KeptApart(interval: int, n: nat, i: nat, j: nat, s: int, u: int)
    requires i < j < n <= interval && SharesKept(interval, n)
    requires OnGrid(s, n * EvenPhase(interval, n, i), n * interval)
    requires OnGrid(u, n * EvenPhase(interval, n, j), n * interval)
    ensures n * interval < n * (Gap(s, u) + 1)
  {
    ScaledExactly(interval, n, i);
    ScaledExactly(interval, n, j);
    MulMonotone(1, interval, n);
  }

  lemma StepWide(interval: int, n: nat, i: nat)
    requires i + 1 < n <= interval && SharesKept(interval, n)
    ensures interval <= n * (EvenPhase(interval, n, i + 1) - EvenPhase(interval, n, i))
  {
    var p, q := EvenPhase(interval, n, i), EvenPhase(interval, n, i + 1);
    EvenPhases(interval, n, i, i + 1);
    MulMonotone(1, interval, n);
    OnOwnGrid(n * p, n * interval);
    OnOwnGrid(n * q, n * interval);
    KeptApart(interval, n, i, i + 1, n * p, n * q);
    GapOfMultiples(n, p, q);
    Wide(interval, n, q - p);
  }

  lemma GapOfMultiples(n: nat, p: int, q: int)
    requires p <= q
    ensures Gap(n * p, n * q) == Gap(n * q, n * p) == n * (q - p)
  {
    MulMonotone(p, q, n);
  }

  lemma AroundWide(interval: int, n: nat)
    requires 1 < n <= interval && SharesKept(interval, n)
    ensures interval <= n * (interval - EvenPhase(interval, n, n - 1))
  {
    var q := EvenPhase(interval, n, n - 1);
    EvenPhaseBelow(interval, n, n - 1);
    FirstPhase(interval, n);
    MulMonotone(1, interval, n);
    OnOwnGrid(n * q, n * interval);
    MultipleMod(1, n * interval);
    KeptApart(interval, n, 0, n - 1, n * interval, n * q);
    GapOfMultiples(n, q, interval);
    Wide(interval, n, interval - q);
  }

  lemma FirstPhase(interval: int, n: nat)
    requires 0 < n
    ensures EvenPhase(interval, n, 0) == 0
  {
    RoundDivNear(0, n);
    var p := EvenPhase(interval, n, 0);
    if p < 0 { MulMonotone(p, -1, n); }
    if 0 < p { MulMonotone(1, p, n); }
  }

  lemma OnOwnGrid(first: int, interval: int)
    requires 0 < interval
    ensures OnGrid(first, first, interval)
  {}

  lemma {:induction false} StepsWide(interval: int, n: nat, m: nat)
    requires m < n <= interval && SharesKept(interval, n)
    ensures m * interval <= n * EvenPhase(interval, n, m)
  {
    if m == 0 {
      FirstPhase(interval, n);
    } else {
      StepsWide(interval, n, m - 1);
      StepWide(interval, n, m - 1);
      var p, q := EvenPhase(interval, n, m - 1), EvenPhase(interval, n, m);
      assert n * q == n * p + n * (q - p);
      assert m * interval == (m - 1) * interval + interval;
    }
  }

  /** In the bot's own last burst thirteen members on a 25 ms cadence fall short of it: two
      of them send within their share less one nanosecond. */
  lemma ThirteenFallShort(anchor: int)
    ensures var cadence, every := 25_000_000, 16_000_000;
            var s, u := anchor + 450_000_000 + 7_384_616, anchor + 450_000_000 + 8_615_384;
            && Nanos(PREVIEW_BURSTS[2].intervalMs) == every
            && InStretch(LaidOut(PREVIEW_BURSTS[2], anchor, EvenPhase(cadence, 13, 6), cadence), s)
            && InStretch(LaidOut(PREVIEW_BURSTS[2], anchor, EvenPhase(cadence, 13, 7), cadence), u)
            && 13 * (Gap(s, u) + 1) < every
  {
    assert EvenPhase(25_000_000, 13, 6) == 11_538_462 && EvenPhase(25_000_000, 13, 7) == 13_461_538;
    assert BurstPhase(11_538_462, 25_000_000, 16_000_000) == 7_384_616;
    assert BurstPhase(13_461_538, 25_000_000, 16_000_000) == 8_615_384;
    OnOwnGrid(anchor + 450_000_000 + 7_384_616, 16_000_000);
    OnOwnGrid(anchor + 450_000_000 + 8_615_384, 16_000_000);
  }

  // ----- How many slots a stretch of time can hold

  /** Members of one grid inside [from, to): one more costs a whole interval. */
  lemma {:induction false} GridHolds(slots: set<int>, first: int, interval: int, from: int, to: int)
    requires 0 < interval && slots != {}
    requires forall s <- slots :: OnGrid(s, first, interval) && from <= s < to
    ensures (|slots| - 1) * interval < to - from
    decreases |slots|
  {
    var last := Latest(slots);
    var rest := slots - {last};
    if rest != {} {
      forall s <- rest
        ensures s < last - interval + 1
      {
        GridStep(s, last, first, interval);
      }
      GridHolds(rest, first, interval, from, last - interval + 1);
      assert |slots| == |rest| + 1;
      assert |rest| * interval == (|rest| - 1) * interval + interval;
    } else {
      assert slots == {last};
    }
  }

  lemma {:induction false} Latest(slots: set<int>) returns (last: int)
    requires slots != {}
    ensures last in slots && forall s <- slots :: s <= last
    decreases |slots|
  {
    assert (forall s :: s !in slots) ==> slots == {};
    var one :| one in slots;
    var rest := slots - {one};
    assert slots == {one} + rest;
    if rest == {} {
      assert slots == {one};
      last := one;
    } else {
      var other := Latest(rest);
      last := if one < other then other else one;
    }
  }

  /** The most slots a burst can hold. */
  function Capacity(b: Stretch): int
    requires 0 < b.interval
  {
    CeilDiv(b.end - b.start, b.interval)
  }

  lemma BurstHolds(b: Stretch, slots: set<int>)
    requires 0 < b.interval && 0 <= b.phase && b.start <= b.end
    requires forall s <- slots :: InStretch(b, s)
    ensures |slots| <= Capacity(b)
  {
    CeilDivIsCeiling(b.end - b.start, b.interval);
    if slots == {} {
      if Capacity(b) < 0 { MulMonotone(Capacity(b), -1, b.interval); }
    } else {
      GridHolds(slots, b.start + b.phase, b.interval, b.start, b.end);
      if Capacity(b) <= |slots| - 1 { MulMonotone(Capacity(b), |slots| - 1, b.interval); }
    }
  }

  function CapacityFrom(t: Timetable, i: nat): int
    requires t.Divides() && i <= |t.bursts|
    decreases |t.bursts| - i
  {
    if i == |t.bursts| then 0 else Capacity(t.bursts[i]) + CapacityFrom(t, i + 1)
  }

  ghost predicate InGroupsFrom(t: Timetable, i: nat, s: int)
    requires t.Divides()
  {
    exists g: nat :: i <= g <= |t.bursts| && InGroup(t, g, s)
  }

  /** Slots of the groups from i on inside [from, to): at most the bursts' capacities and
      what the cadence fits. */
  lemma {:induction false} GroupsHold(t: Timetable, i: nat, slots: set<int>, from: int, to: int) returns (cadence: int)
    requires t.Divides() && i <= |t.bursts| && from <= to
    requires forall b <- t.bursts :: 0 <= b.phase && b.start <= b.end
    requires forall s <- slots :: from <= s < to && InGroupsFrom(t, i, s)
    ensures |slots| <= CapacityFrom(t, i) + cadence
    ensures 0 <= cadence && (cadence - 1) * t.interval < to - from
    decreases |t.bursts| - i
  {
    if i == |t.bursts| {
      cadence := |slots|;
      if slots != {} {
        GridHolds(slots, t.origin + t.phase, t.interval, from, to);
      }
    } else {
      var here, rest := SplitOff(t, i, slots);
      assert t.bursts[i] in t.bursts;
      BurstHolds(t.bursts[i], here);
      cadence := GroupsHold(t, i + 1, rest, from, to);
    }
  }

  lemma SplitOff(t: Timetable, i: nat, slots: set<int>) returns (here: set<int>, rest: set<int>)
    requires t.Divides() && i < |t.bursts|
    requires forall s <- slots :: InGroupsFrom(t, i, s)
    ensures |slots| == |here| + |rest| && rest <= slots
    ensures forall s <- here :: InStretch(t.bursts[i], s)
    ensures forall s <- rest :: InGroupsFrom(t, i + 1, s)
  {
    here := set s <- slots | InStretch(t.bursts[i], s);
    rest := slots - here;
    assert slots == here + rest;
    forall s <- rest
      ensures InGroupsFrom(t, i + 1, s)
    {
      var g: nat :| i <= g <= |t.bursts| && InGroup(t, g, s);
    }
  }

  // ----- The bursts the bot knocks in

  /** PREVIEW_BURSTS: from, until and interval in ms after startDate. */
  const PREVIEW_BURSTS := [Burst(262.0, 330.0, 3.0), Burst(330.0, 450.0, 8.0), Burst(450.0, 650.0, 16.0)]

  /** One member's timetable in a knock on the preview. */
  function PreviewTable(anchor: int, phase: int, interval: int): Timetable
    requires 0 < interval
  {
    BurstTable(Timetable([], anchor, phase, interval), PREVIEW_BURSTS, anchor, phase, interval)
  }

  lemma PreviewStretches(anchor: int, phase: int, interval: int)
    requires 0 < interval
    ensures PreviewTable(anchor, phase, interval) == Timetable([
              Stretch(anchor + 262_000_000, anchor + 330_000_000, BurstPhase(phase, interval, 3_000_000), 3_000_000),
              Stretch(anchor + 330_000_000, anchor + 450_000_000, BurstPhase(phase, interval, 8_000_000), 8_000_000),
              Stretch(anchor + 450_000_000, anchor + 650_000_000, BurstPhase(phase, interval, 16_000_000), 16_000_000)],
              anchor + 650_000_000, phase, interval)
  {
    var t := PreviewTable(anchor, phase, interval);
    assert t.bursts[0] == LaidOut(Burst(262.0, 330.0, 3.0), anchor, phase, interval);
    assert t.bursts[1] == LaidOut(Burst(330.0, 450.0, 8.0), anchor, phase, interval);
    assert t.bursts[2] == LaidOut(Burst(450.0, 650.0, 16.0), anchor, phase, interval);
    assert t.bursts == [t.bursts[0], t.bursts[1], t.bursts[2]];
  }

  /** A phase an n-th part short of the interval stays short of the burst's interval when
      scaled to it. */
  lemma ShortPhase(phase: int, interval: int, n: nat, every: int, r: int)
    requires 1_000_000 <= interval && 1_000_000 <= every <= 16_000_000 && 0 < n <= 500
    requires Nearest(r, phase * every, interval)
    requires 2 * interval - n <= 2 * (n * (interval - phase))
    ensures r + GRID_TOLERANCE < every
  {
    var short := interval - phase;
    if every - GRID_TOLERANCE <= r {
      MulMonotone(every - GRID_TOLERANCE, r, interval);
      assert phase * every == interval * every - short * every;
      var part := short * every;
      assert 2 * part <= 2001 * interval;
      PartTooSmall(short, n, every, part, interval);
    }
  }

  lemma PartTooSmall(short: int, n: nat, every: int, part: int, interval: int)
    requires part == short * every && 0 < n <= 500 && 1_000_000 <= every && 1_000_000 <= interval
    requires 2 * interval - n <= 2 * (n * short)
    ensures 2001 * interval < 2 * part
  {
    if 2 * part <= 2001 * interval {
      MulMonotone(2 * part, 2001 * interval, n);
      MulMonotone(n, 500, 2001 * interval);
      MulMonotone(2 * interval - n, 2 * (n * short), every);
      MulMonotone(1_000_000, every, 2 * interval - n);
      Regroup(n, short, every);
    }
  }

  lemma Regroup(a: int, b: int, c: int)
    ensures 2 * (a * b) * c == 2 * (b * c) * a
  {}

  /** Every member of an evenly phased fleet of up to 500 accounts on a cadence of at
      least a millisecond has a timetable the slot arithmetic is exact on. */
  lemma PreviewTableWellFormed(anchor: int, interval: int, n: nat, i: nat)
    requires 1_000_000 <= interval && i < n <= 500
    ensures WellFormed(PreviewTable(anchor, EvenPhase(interval, n, i), interval))
  {
    var phase := EvenPhase(interval, n, i);
    MulMonotone(0, i, interval);
    RoundDivNear(interval * i, n);
    EvenPhaseShort(interval, n, i, phase);
    PreviewStretches(anchor, phase, interval);
    BurstPhases(phase, phase, interval, 3_000_000);
    BurstPhases(phase, phase, interval, 8_000_000);
    BurstPhases(phase, phase, interval, 16_000_000);
    ShortPhase(phase, interval, n, 3_000_000, BurstPhase(phase, interval, 3_000_000));
    ShortPhase(phase, interval, n, 8_000_000, BurstPhase(phase, interval, 8_000_000));
    ShortPhase(phase, interval, n, 16_000_000, BurstPhase(phase, interval, 16_000_000));
  }

  lemma EvenPhaseShort(interval: int, n: nat, i: nat, phase: int)
    requires 1_000_000 <= interval && i < n <= 500 && Nearest(phase, interval * i, n)
    ensures 2 * interval - n <= 2 * (n * (interval - phase))
    ensures phase + GRID_TOLERANCE < interval
  {
    MulMonotone(i + 1, n, interval);
    assert n * (interval - phase) == n * interval - n * phase;
    if interval - GRID_TOLERANCE <= phase {
      MulMonotone(interval - phase, GRID_TOLERANCE, n);
    }
  }

  /** Where the bursts start, on the clock the slots are on: at the date the record carries,
      if there is one and it had passed when the record was seen active, and else at that
      sighting. wallNow and now are the two clocks read together. */
  function Anchor(seen: int, startDate: Option<int>, wallNow: int, now: int): int {
    var wall := match startDate
                case None => seen
                case Some(start) => Min(start, seen);
    now + (wall - wallNow)
  }

  lemma AtWithinAnInterval(t: Timetable, moment: int)
    requires WellFormed(t)
    ensures t.At(moment) < Max(moment, t.origin) + t.interval
  {
    var from := Max(moment, t.origin);
    var s := SlotAtOrAfter(from, t.origin, t.phase, t.interval);
    SlotIsLeast(from, t.origin, t.phase, t.interval);
    var _ := AtIsFirstOpen(t, moment);
    assert InGroup(t, |t.bursts|, s) && Open(t, |t.bursts|, s, moment);
  }

  /** Whatever date a turned record carries, the anchor is never ahead of the clock, and
      so a member's next slot is never further off than the last burst's end and one
      interval of the cadence. */
  lemma NeverWaitsForADate(seen: int, startDate: Option<int>, wallNow: int, now: int, interval: int, n: nat, i: nat)
    requires seen <= wallNow && 1_000_000 <= interval && i < n <= 500
    ensures var anchor := Anchor(seen, startDate, wallNow, now);
            && anchor <= now
            && now - anchor == (if startDate.Some? && startDate.value <= seen then wallNow - startDate.value else wallNow - seen)
            && PreviewTable(anchor, EvenPhase(interval, n, i), interval).At(now) < now + 650_000_000 + interval
  {
    var anchor := Anchor(seen, startDate, wallNow, now);
    var phase := EvenPhase(interval, n, i);
    PreviewTableWellFormed(anchor, interval, n, i);
    PreviewStretches(anchor, phase, interval);
    AtWithinAnInterval(PreviewTable(anchor, phase, interval), now);
  }

  /** slots are slots of the preview timetable inside a window of the given length. */
  ghost predicate SlotsInWindow(anchor: int, phase: int, interval: int, slots: set<int>, from: int, length: int)
    requires 0 < interval
  {
    var t := PreviewTable(anchor, phase, interval);
    && t.Divides()
    && forall s <- slots :: IsSlot(t, s) && from <= s < from + length
  }

  /** The venue's meter: 60 tokens at most, 40 more a second. */
  predicate WithinBudget(count: int, length: int) {
    count * 1_000_000_000 <= 60 * 1_000_000_000 + 40 * length
  }

  /** On a cadence of 25 ms or slower no stretch of a knock, however placed, holds more
      slots of one member than its meter allows. */
  lemma PreviewWithinBudget(anchor: int, phase: int, interval: int, slots: set<int>, from: int, length: int)
    requires 25_000_000 <= interval && 0 <= phase < interval && 0 <= length
    requires SlotsInWindow(anchor, phase, interval, slots, from, length)
    ensures WithinBudget(|slots|, length)
  {
    var t := PreviewTable(anchor, phase, interval);
    PreviewStretches(anchor, phase, interval);
    BurstPhases(phase, phase, interval, 3_000_000);
    BurstPhases(phase, phase, interval, 8_000_000);
    BurstPhases(phase, phase, interval, 16_000_000);
    forall s <- slots
      ensures from <= s < from + length && InGroupsFrom(t, 0, s)
    {
      assert IsSlot(t, s);
    }
    var cadence := GroupsHold(t, 0, slots, from, from + length);
    PreviewCapacity(t);
    if 1 <= cadence { MulMonotone(25_000_000, interval, cadence - 1); }
  }

  /** 23, 15 and 13 slots: 51 in the three bursts together. */
  lemma {:induction false} PreviewCapacity(t: Timetable)
    requires t.Divides() && |t.bursts| == 3
    requires forall i :: 0 <= i < 3 ==>
               && t.bursts[i].interval == [3_000_000, 8_000_000, 16_000_000][i]
               && t.bursts[i].end - t.bursts[i].start == [68_000_000, 120_000_000, 200_000_000][i]
    ensures CapacityFrom(t, 0) == 51
  {
    CeilDivUnique(68_000_000, 3_000_000, 23);
    CeilDivUnique(120_000_000, 8_000_000, 15);
    CeilDivUnique(200_000_000, 16_000_000, 13);
    assert CapacityFrom(t, 3) == 0;
    assert CapacityFrom(t, 2) == 13;
    assert CapacityFrom(t, 1) == 28;
  }

  /** n slots of the cadence in a row. */
  lemma {:induction false} CadenceRun(t: Timetable, n: nat) returns (slots: set<int>)
    requires t.Divides()
    ensures |slots| == n
    ensures forall s <- slots :: IsSlot(t, s) && t.origin + t.phase <= s < t.origin + t.phase + n * t.interval
    ensures 0 < n ==> t.origin + t.phase + (n - 1) * t.interval in slots
  {
    if n == 0 {
      slots := {};
    } else {
      var earlier := CadenceRun(t, n - 1);
      var s := t.origin + t.phase + (n - 1) * t.interval;
      MultipleMod(n - 1, t.interval);
      MulMonotone(0, n - 1, t.interval);
      assert InGroup(t, |t.bursts|, s);
      assert n * t.interval == (n - 1) * t.interval + t.interval;
      slots := earlier + {s};
    }
  }

  /** The budget is kept by every stretch of every knock exactly when the cadence is 25 ms
      or slower: on a faster one some long enough stretch breaks it. */
  lemma BudgetKeptExactly(anchor: int, phase: int, interval: int)
    requires 0 < interval && 0 <= phase < interval
    ensures 25_000_000 <= interval <==>
            forall slots, from, length ::
              0 <= length && SlotsInWindow(anchor, phase, interval, slots, from, length) ==> WithinBudget(|slots|, length)
  {
    if 25_000_000 <= interval {
      forall slots, from, length | 0 <= length && SlotsInWindow(anchor, phase, interval, slots, from, length)
        ensures WithinBudget(|slots|, length)
      {
        PreviewWithinBudget(anchor, phase, interval, slots, from, length);
      }
    } else {
      var t := PreviewTable(anchor, phase, interval);
      PreviewStretches(anchor, phase, interval);
      var n := 2_000_000_000;
      var slots := CadenceRun(t, n);
      assert SlotsInWindow(anchor, phase, interval, slots, t.origin + t.phase, n * interval);
      assert !WithinBudget(|slots|, n * interval);
    }
  }
}
