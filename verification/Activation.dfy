/** The market activation worker (polymarket_bot/market_activation.py): one thread finds
    markets and registers them as candidates, another asks the venue about each candidate
    and announces those it knows. Every step below is what one thread does between two
    moments the other can run. */
module Activation {
  import opened Options

  const MARKET_SECONDS := 300

  datatype Market = Market(slug: string, startTs: nat, endTs: int, upToken: string, downToken: string)

  datatype Candidate = Candidate(market: Market, discoveredMs: int)

  datatype Update = Update(market: Market, discoveredMs: int, detectedMs: int)

  /** What the venue answered about a market. */
  datatype Look = Look(market: Market, tokens: set<string>) {
    predicate Lists() { market.upToken in tokens && market.downToken in tokens }
  }

  /** Where the asking thread is: between polls, asking about the first of the candidates
      it read, about to claim one it found listed, or about to announce one it claimed. */
  datatype Poll =
    | Idle
    | Asking(rest: seq<Candidate>)
    | Claiming(c: Candidate, rest: seq<Candidate>)
    | Announcing(u: Update, rest: seq<Candidate>)

  /** candidates in the order they came; ended: the slugs dropped because their market was
      over; looks: the venue's answers so far; first: where the discovery cursor began. */
  datatype State = State(candidates: seq<Candidate>, handled: set<string>, announced: seq<Update>, poll: Poll,
                         first: Option<nat>, next: Option<nat>, ended: set<string>, looks: seq<Look>)

  predicate Has(candidates: seq<Candidate>, slug: string) { exists c <- candidates :: c.market.slug == slug }

  function Drop(candidates: seq<Candidate>, slug: string): seq<Candidate> {
    if candidates == [] then []
    else
      var last, before := candidates[|candidates| - 1], Drop(candidates[..|candidates| - 1], slug);
      if last.market.slug == slug then before else before + [last]
  }

  // ----- The discovery thread

  function Register(s: State, m: Market, at: int, now: int): State {
    if m.slug in s.handled then s
    else if m.endTs <= now then
      s.(handled := s.handled + {m.slug}, candidates := Drop(s.candidates, m.slug), ended := s.ended + {m.slug})
    else if Has(s.candidates, m.slug) then s
    else s.(candidates := s.candidates + [Candidate(m, at)])
  }

  function RegisterAll(s: State, markets: seq<Market>, at: int, now: int): State {
    if markets == [] then s
    else Register(RegisterAll(s, markets[..|markets| - 1], at, now), markets[|markets| - 1], at, now)
  }

  function Digits(n: nat): string {
    var last := ['0', '1', '2', '3', '4', '5', '6', '7', '8', '9'][n % 10];
    if n < 10 then [last] else Digits(n / 10) + [last]
  }

  function SlugAt(start: nat): string { "btc-updown-5m-" + Digits(start) }

  /** The market of a slug, as its record is read: the slug says when it starts and ends. */
  function MarketAt(record: Market, start: nat): Market {
    record.(slug := SlugAt(start), startTs := start, endTs := start + MARKET_SECONDS)
  }

  function Latest(markets: seq<Market>): (start: nat)
    requires markets != []
    ensures forall m <- markets :: m.startTs <= start
    ensures exists m <- markets :: m.startTs == start
  {
    var last, rest := markets[|markets| - 1].startTs, markets[..|markets| - 1];
    assert markets == rest + [markets[|markets| - 1]];
    if rest == [] then last
    else
      var before := Latest(rest);
      if before < last then last else before
  }

  // ----- The asking thread

  function Expired(candidates: seq<Candidate>, now: int): set<string> {
    set c | c in candidates && c.market.endTs <= now :: c.market.slug
  }

  function Unexpired(candidates: seq<Candidate>, now: int): seq<Candidate> {
    if candidates == [] then []
    else
      var last, before := candidates[|candidates| - 1], Unexpired(candidates[..|candidates| - 1], now);
      if last.market.endTs <= now then before else before + [last]
  }

  // ----- The steps

  datatype Event =
    | Seeded(markets: seq<Market>, seedOnly: bool, at: int, now: int)
    | Found(record: Option<Market>, at: int, now: int)
    | Polled(now: int)
    | Asked(tokens: Option<set<string>>)
    | AskFailed
    | Claimed(detectedMs: int)
    | Announced

  function StartPoll(s: State, now: int): State {
    var gone, left := Expired(s.candidates, now), Unexpired(s.candidates, now);
    s.(candidates := left, handled := s.handled + gone, ended := s.ended + gone,
       poll := NextOf(left))
  }

  function NextOf(rest: seq<Candidate>): Poll { if rest == [] then Idle else Asking(rest) }

  function Ask(s: State, tokens: Option<set<string>>): State
    requires s.poll.Asking? && s.poll.rest != []
  {
    var c, rest := s.poll.rest[0], s.poll.rest[1..];
    if tokens.None? then s.(poll := NextOf(rest))
    else
      var look := Look(c.market, tokens.value);
      s.(looks := s.looks + [look], poll := if look.Lists() then Claiming(c, rest) else NextOf(rest))
  }

  function Claim(s: State, detectedMs: int): State
    requires s.poll.Claiming?
  {
    var c, rest := s.poll.c, s.poll.rest;
    if !Has(s.candidates, c.market.slug) then s.(poll := NextOf(rest))
    else s.(candidates := Drop(s.candidates, c.market.slug), handled := s.handled + {c.market.slug},
            poll := Announcing(Update(c.market, c.discoveredMs, detectedMs), rest))
  }

  function Step(s: State, e: Event): State {
    match e
    case Seeded(markets, seedOnly, at, now) =>
      if s.next.Some? || markets == [] then s
      else
        var begun := Some(Latest(markets) + MARKET_SECONDS);
        (if seedOnly then s else RegisterAll(s, markets, at, now)).(first := begun, next := begun)
    case Found(record, at, now) =>
      if s.next.None? || record.None? then s
      else Register(s, MarketAt(record.value, s.next.value), at, now).(next := Some(s.next.value + MARKET_SECONDS))
    case Polled(now) => if s.poll.Idle? then StartPoll(s, now) else s
    case Asked(tokens) => if s.poll.Asking? && s.poll.rest != [] then Ask(s, tokens) else s
    case AskFailed => if s.poll.Asking? then s.(poll := Idle) else s
    case Claimed(detectedMs) => if s.poll.Claiming? then Claim(s, detectedMs) else s
    case Announced =>
      if s.poll.Announcing? then s.(announced := s.announced + [s.poll.u], poll := NextOf(s.poll.rest)) else s
  }

  const START := State([], {}, [], Idle, None, None, {}, [])

  function After(s: State, events: seq<Event>): State
    decreases |events|
  {
    if events == [] then s else After(Step(s, events[0]), events[1..])
  }

  // ----- The worker

  class MarketActivationWorker {
    var candidates: seq<Candidate>
    var handled: set<string>
    var announced: seq<Update>
    var poll: Poll
    var nextStart: Option<nat>
    ghost var first: Option<nat>
    ghost var ended: set<string>
    ghost var looks: seq<Look>

    ghost function View(): State
      reads this
    {
      State(candidates, handled, announced, poll, first, nextStart, ended, looks)
    }

    constructor ()
      ensures View() == START
    {
      candidates, handled, announced, poll, nextStart := [], {}, [], Idle, None;
      first, ended, looks := None, {}, [];
    }

    method Pop(slug: string) returns (found: bool)
      modifies this`candidates
      ensures found == Has(old(candidates), slug)
      ensures candidates == Drop(old(candidates), slug)
    {
      found := false;
      var kept := [];
      for i := 0 to |candidates|
        invariant candidates == old(candidates)
        invariant kept == Drop(candidates[..i], slug) && (found <==> Has(candidates[..i], slug))
      {
        assert candidates[..i + 1][..i] == candidates[..i] && candidates[..i + 1] == candidates[..i] + [candidates[i]];
        if candidates[i].market.slug == slug {
          found := true;
        } else {
          kept := kept + [candidates[i]];
        }
      }
      assert candidates[..|candidates|] == candidates;
      candidates := kept;
    }

    /** Under the candidate lock. */
    method RegisterCandidates(markets: seq<Market>, at: int, now: int)
      modifies this
      ensures View() == RegisterAll(old(View()), markets, at, now)
    {
      for i := 0 to |markets|
        invariant View() == RegisterAll(old(View()), markets[..i], at, now)
      {
        assert markets[..i + 1][..i] == markets[..i];
        var m := markets[i];
        if m.slug !in handled {
          if m.endTs <= now {
            handled := handled + {m.slug};
            var _ := Pop(m.slug);
            ended := ended + {m.slug};
          } else if !Has(candidates, m.slug) {
            candidates := candidates + [Candidate(m, at)];
          }
        }
      }
      assert markets[..|markets|] == markets;
    }

    /** The first look for markets, from which the cursor starts. */
    method SeedDiscovery(markets: seq<Market>, seedOnly: bool, at: int, now: int)
      modifies this
      ensures View() == Step(old(View()), Seeded(markets, seedOnly, at, now))
    {
      if nextStart.Some? || markets == [] {
        return;
      }
      if !seedOnly {
        RegisterCandidates(markets, at, now);
      }
      nextStart := Some(Latest(markets) + MARKET_SECONDS);
      first := nextStart;
    }

    /** One look for the market at the cursor. */
    method PollDiscovery(record: Option<Market>, at: int, now: int)
      modifies this
      ensures View() == Step(old(View()), Found(record, at, now))
    {
      if nextStart.None? || record.None? {
        return;
      }
      var found := [MarketAt(record.value, nextStart.value)];
      RegisterCandidates(found, at, now);
      assert found[..0] == [];
      nextStart := Some(nextStart.value + MARKET_SECONDS);
    }

    method PopExpired(now: int) returns (gone: set<string>)
      modifies this`candidates
      ensures gone == Expired(old(candidates), now) && candidates == Unexpired(old(candidates), now)
    {
      gone := {};
      var kept := [];
      for i := 0 to |candidates|
        invariant candidates == old(candidates)
        invariant kept == Unexpired(candidates[..i], now) && gone == Expired(candidates[..i], now)
      {
        assert candidates[..i + 1][..i] == candidates[..i] && candidates[..i + 1] == candidates[..i] + [candidates[i]];
        if candidates[i].market.endTs <= now {
          gone := gone + {candidates[i].market.slug};
        } else {
          kept := kept + [candidates[i]];
        }
      }
      assert candidates[..|candidates|] == candidates;
      candidates := kept;
    }

    /** Under the candidate lock: drops what has ended and reads the rest. */
    method BeginPoll(now: int)
      requires poll.Idle?
      modifies this
      ensures View() == Step(old(View()), Polled(now))
    {
      var gone := PopExpired(now);
      handled := handled + gone;
      ended := ended + gone;
      poll := NextOf(candidates);
    }

    method AskVenue(tokens: Option<set<string>>)
      requires poll.Asking? && poll.rest != []
      modifies this
      ensures View() == Step(old(View()), Asked(tokens))
    {
      var c, rest := poll.rest[0], poll.rest[1..];
      if tokens.None? {
        poll := NextOf(rest);
        return;
      }
      looks := looks + [Look(c.market, tokens.value)];
      if {c.market.upToken, c.market.downToken} <= tokens.value {
        poll := Claiming(c, rest);
      } else {
        poll := NextOf(rest);
      }
    }

    /** Under the candidate lock: takes the candidate, if the other thread has not. */
    method ClaimCandidate(detectedMs: int)
      requires poll.Claiming?
      modifies this
      ensures View() == Step(old(View()), Claimed(detectedMs))
    {
      var c, rest := poll.c, poll.rest;
      var had := Pop(c.market.slug);
      if had {
        handled := handled + {c.market.slug};
        poll := Announcing(Update(c.market, c.discoveredMs, detectedMs), rest);
      } else {
        DropAbsent(old(candidates), c.market.slug);
        poll := NextOf(rest);
      }
    }

    method Emit()
      requires poll.Announcing?
      modifies this
      ensures View() == Step(old(View()), Announced)
    {
      announced := announced + [poll.u];
      poll := NextOf(poll.rest);
    }
  }

  lemma {:induction false} DropAbsent(candidates: seq<Candidate>, slug: string)
    requires !Has(candidates, slug)
    ensures Drop(candidates, slug) == candidates
  {
    if candidates != [] {
      var n := |candidates| - 1;
      assert candidates == candidates[..n] + [candidates[n]];
      DropAbsent(candidates[..n], slug);
    }
  }

  // ----- What every interleaving keeps

  ghost predicate SlugsDiffer(candidates: seq<Candidate>) {
    forall i, j :: 0 <= i < j < |candidates| ==> candidates[i].market.slug != candidates[j].market.slug
  }

  function Current(p: Poll): seq<Candidate> {
    match p
    case Idle => []
    case Asking(rest) => rest
    case Claiming(c, rest) => [c] + rest
    case Announcing(_, rest) => rest
  }

  ghost predicate SeenListed(s: State, m: Market) { exists l <- s.looks :: l.market == m && l.Lists() }

  /** The candidates: one a slug, none handled; and those the asking thread is still to ask
      about are candidates as they were registered, or handled since. */
  ghost predicate CandidatesApart(s: State) {
    && SlugsDiffer(s.candidates)
    && (forall c <- s.candidates :: c.market.slug !in s.handled)
    && (forall c <- Current(s.poll) :: c in s.candidates || c.market.slug in s.handled)
  }

  /** The announcements: one a slug, each of a market handled and seen with both tokens. */
  ghost predicate AnnouncedOnce(s: State) {
    && (forall i, j :: 0 <= i < j < |s.announced| ==> s.announced[i].market.slug != s.announced[j].market.slug)
    && (forall u <- s.announced :: u.market.slug in s.handled && SeenListed(s, u.market))
    && (s.poll.Announcing? ==>
          && s.poll.u.market.slug in s.handled && SeenListed(s, s.poll.u.market)
          && forall u <- s.announced :: u.market.slug != s.poll.u.market.slug)
    && (s.poll.Claiming? ==> SeenListed(s, s.poll.c.market))
  }

  /** Whatever was handled was announced, is about to be, or was over. */
  ghost predicate NoneLost(s: State) {
    forall slug <- s.handled ::
      || slug in s.ended
      || (s.poll.Announcing? && s.poll.u.market.slug == slug)
      || exists u <- s.announced :: u.market.slug == slug
  }

  ghost predicate Kept(s: State) { CandidatesApart(s) && AnnouncedOnce(s) && NoneLost(s) }

  lemma {:induction false} DropExactly(candidates: seq<Candidate>, slug: string)
    ensures forall c :: c in Drop(candidates, slug) <==> c in candidates && c.market.slug != slug
    ensures SlugsDiffer(candidates) ==> SlugsDiffer(Drop(candidates, slug))
  {
    if candidates != [] {
      var n := |candidates| - 1;
      assert candidates == candidates[..n] + [candidates[n]];
      DropExactly(candidates[..n], slug);
      if SlugsDiffer(candidates) { AppendDiffers(Drop(candidates[..n], slug), candidates[n], candidates[..n]); }
    }
  }

  lemma AppendDiffers(kept: seq<Candidate>, c: Candidate, all: seq<Candidate>)
    requires SlugsDiffer(all + [c]) && SlugsDiffer(kept) && forall x <- kept :: x in all
    ensures SlugsDiffer(kept + [c])
  {
    forall i | 0 <= i < |kept| ensures kept[i].market.slug != c.market.slug {
      assert kept[i] in all;
      var k :| 0 <= k < |all| && all[k] == kept[i];
      assert (all + [c])[k] == kept[i] && (all + [c])[|all|] == c;
    }
  }

  lemma {:induction false} UnexpiredExactly(candidates: seq<Candidate>, now: int)
    ensures forall c :: c in Unexpired(candidates, now) <==> c in candidates && now < c.market.endTs
    ensures SlugsDiffer(candidates) ==> SlugsDiffer(Unexpired(candidates, now))
  {
    if candidates != [] {
      var n := |candidates| - 1;
      assert candidates == candidates[..n] + [candidates[n]];
      UnexpiredExactly(candidates[..n], now);
      if SlugsDiffer(candidates) { AppendDiffers(Unexpired(candidates[..n], now), candidates[n], candidates[..n]); }
    }
  }

  lemma RegisterKeeps(s: State, m: Market, at: int, now: int)
    requires Kept(s)
    ensures Kept(Register(s, m, at, now))
  {
    var t := Register(s, m, at, now);
    DropExactly(s.candidates, m.slug);
    assert AnnouncedOnce(t);
  }

  lemma {:induction false} RegisterAllKeeps(s: State, markets: seq<Market>, at: int, now: int)
    requires Kept(s)
    ensures Kept(RegisterAll(s, markets, at, now))
  {
    if markets != [] {
      RegisterAllKeeps(s, markets[..|markets| - 1], at, now);
      RegisterKeeps(RegisterAll(s, markets[..|markets| - 1], at, now), markets[|markets| - 1], at, now);
    }
  }

  lemma SameSlugSameCandidate(candidates: seq<Candidate>, a: Candidate, b: Candidate)
    requires SlugsDiffer(candidates) && a in candidates && b in candidates
    ensures a.market.slug == b.market.slug ==> a == b
  {
    var i :| 0 <= i < |candidates| && candidates[i] == a;
    var j :| 0 <= j < |candidates| && candidates[j] == b;
  }

  lemma StartPollKeeps(s: State, now: int)
    requires Kept(s) && s.poll.Idle?
    ensures Kept(StartPoll(s, now))
  {
    UnexpiredExactly(s.candidates, now);
    var t := StartPoll(s, now);
    forall c, d | c in t.candidates && d in s.candidates && d.market.endTs <= now
      ensures c.market.slug != d.market.slug
    {
      SameSlugSameCandidate(s.candidates, c, d);
    }
  }

  lemma AskKeeps(s: State, tokens: Option<set<string>>)
    requires Kept(s) && s.poll.Asking? && s.poll.rest != []
    ensures Kept(Ask(s, tokens))
  {
    var t := Ask(s, tokens);
    var c := s.poll.rest[0];
    assert forall x <- Current(t.poll) :: x in Current(s.poll);
    assert forall m :: SeenListed(s, m) ==> SeenListed(t, m);
    if t.poll.Claiming? {
      assert Look(c.market, tokens.value) in t.looks;
      assert SeenListed(t, c.market);
    }
  }

  lemma ClaimKeeps(s: State, detectedMs: int)
    requires Kept(s) && s.poll.Claiming?
    ensures Kept(Claim(s, detectedMs))
  {
    var t := Claim(s, detectedMs);
    var c := s.poll.c;
    DropExactly(s.candidates, c.market.slug);
    assert c in Current(s.poll) && forall x <- Current(t.poll) :: x in Current(s.poll);
    if Has(s.candidates, c.market.slug) {
      var d :| d in s.candidates && d.market.slug == c.market.slug;
      assert d.market.slug !in s.handled;
      forall x <- Current(t.poll) ensures x in t.candidates || x.market.slug in t.handled {}
    }
  }

  lemma StepKeeps(s: State, e: Event)
    requires Kept(s)
    ensures Kept(Step(s, e))
  {
    var t := Step(s, e);
    match e {
      case Seeded(markets, seedOnly, at, now) => RegisterAllKeeps(s, markets, at, now);
      case Found(record, at, now) =>
        if s.next.Some? && record.Some? { RegisterKeeps(s, MarketAt(record.value, s.next.value), at, now); }
      case Polled(now) => if s.poll.Idle? { StartPollKeeps(s, now); }
      case Asked(tokens) => if s.poll.Asking? && s.poll.rest != [] { AskKeeps(s, tokens); }
      case AskFailed =>
      case Claimed(detectedMs) => if s.poll.Claiming? { ClaimKeeps(s, detectedMs); }
      case Announced => if s.poll.Announcing? { AnnounceKeeps(s); }
    }
  }

  lemma AnnounceKeeps(s: State)
    requires Kept(s) && s.poll.Announcing?
    ensures Kept(Step(s, Announced))
  {
    var t := Step(s, Announced);
    assert t.announced[|s.announced|] == s.poll.u;
    forall slug <- t.handled
      ensures slug in t.ended || (t.poll.Announcing? && t.poll.u.market.slug == slug)
              || exists u <- t.announced :: u.market.slug == slug
    {
      if s.poll.u.market.slug == slug { assert s.poll.u in t.announced; }
    }
  }

  lemma {:induction false} RunKeeps(s: State, events: seq<Event>)
    requires Kept(s)
    ensures Kept(After(s, events))
    decreases |events|
  {
    if events != [] {
      StepKeeps(s, events[0]);
      RunKeeps(Step(s, events[0]), events[1..]);
    }
  }

  /** Over every interleaving: no slug is a candidate and handled, none is announced twice,
      and each announced was seen by the venue with both its tokens. */
  lemma {:induction false} AnnouncedExactlyOnce(events: seq<Event>)
    ensures var s := After(START, events);
            && (forall c <- s.candidates :: c.market.slug !in s.handled)
            && (forall i, j :: 0 <= i < j < |s.announced| ==> s.announced[i].market.slug != s.announced[j].market.slug)
            && (forall u <- s.announced :: u.market.slug in s.handled && SeenListed(s, u.market))
            && NoneLost(s)
  {
    RunKeeps(START, events);
  }

  // ----- What is listed is announced

  /** Discovery runs between any two steps of the asking thread. */
  predicate Discovers(e: Event) { e.Seeded? || e.Found? }

  lemma {:induction false} RegisterAllKeepsPoll(s: State, markets: seq<Market>, at: int, now: int)
    ensures var t := RegisterAll(s, markets, at, now);
            t.poll == s.poll && t.announced == s.announced && t.looks == s.looks
  {
    if markets != [] { RegisterAllKeepsPoll(s, markets[..|markets| - 1], at, now); }
  }

  lemma {:induction false} DiscoveryKeepsPoll(s: State, events: seq<Event>)
    requires forall e <- events :: Discovers(e)
    ensures After(s, events).poll == s.poll && After(s, events).announced == s.announced
    decreases |events|
  {
    if events != [] {
      var e := events[0];
      assert Discovers(e);
      if e.Seeded? { RegisterAllKeepsPoll(s, e.markets, e.at, e.now); }
      DiscoveryKeepsPoll(Step(s, e), events[1..]);
    }
  }

  lemma {:induction false} AfterBoth(s: State, a: seq<Event>, b: seq<Event>)
    ensures After(s, a + b) == After(After(s, a), b)
    decreases |a|
  {
    if a == [] {
      assert a + b == b;
    } else {
      assert (a + b)[1..] == a[1..] + b;
      AfterBoth(Step(s, a[0]), a[1..], b);
    }
  }

  /** Whatever the discovery thread does meanwhile, a candidate asked about is announced,
      as it was registered, exactly when the venue lists both its tokens and it is still
      held when it is claimed. */
  lemma {:induction false} ListedIsAnnouncedExactly(s: State, tokens: set<string>, asked: seq<Event>, detectedMs: int,
                                                    claimed: seq<Event>)
    requires s.poll.Asking? && s.poll.rest != []
    requires (forall e <- asked :: Discovers(e)) && forall e <- claimed :: Discovers(e)
    ensures var c := s.poll.rest[0];
            var held := After(Step(s, Asked(Some(tokens))), asked);
            var done := Step(After(Step(held, Claimed(detectedMs)), claimed), Announced);
            done.announced ==
              if c.market.upToken in tokens && c.market.downToken in tokens && Has(held.candidates, c.market.slug)
              then s.announced + [Update(c.market, c.discoveredMs, detectedMs)] else s.announced
  {
    DiscoveryKeepsPoll(Step(s, Asked(Some(tokens))), asked);
    var held := After(Step(s, Asked(Some(tokens))), asked);
    DiscoveryKeepsPoll(Step(held, Claimed(detectedMs)), claimed);
  }

  /** What the venue answers about a candidate during one poll: None when it does not know
      the market, else its tokens and the moment they were seen. */
  type Answers = Candidate -> Option<(set<string>, int)>

  predicate Listed(c: Candidate, answers: Answers) {
    answers(c).Some? && c.market.upToken in answers(c).value.0 && c.market.downToken in answers(c).value.0
  }

  /** The asking thread's steps about one candidate. */
  function StepsFor(c: Candidate, answers: Answers): seq<Event> {
    if Listed(c, answers) then [Asked(Some(answers(c).value.0)), Claimed(answers(c).value.1), Announced]
    else [Asked(if answers(c).Some? then Some(answers(c).value.0) else None)]
  }

  function UpdatesFor(c: Candidate, answers: Answers): seq<Update> {
    if Listed(c, answers) then [Update(c.market, c.discoveredMs, answers(c).value.1)] else []
  }

  function PollSteps(rest: seq<Candidate>, answers: Answers): seq<Event>
    decreases |rest|
  {
    if rest == [] then [] else StepsFor(rest[0], answers) + PollSteps(rest[1..], answers)
  }

  function Updates(rest: seq<Candidate>, answers: Answers): seq<Update>
    decreases |rest|
  {
    if rest == [] then [] else UpdatesFor(rest[0], answers) + Updates(rest[1..], answers)
  }

  /** After a candidate's steps the rest are candidates still, and it was announced if it
      was listed. */
  ghost predicate DealtWith(s: State, t: State, rest: seq<Candidate>, answers: Answers)
    requires rest != []
  {
    && t.poll == NextOf(rest[1..]) && t.announced == s.announced + UpdatesFor(rest[0], answers)
    && forall c <- rest[1..] :: c in t.candidates
  }

  lemma {:induction false} ListedDealtWith(s: State, rest: seq<Candidate>, answers: Answers)
    requires rest != [] && s.poll == Asking(rest) && SlugsDiffer(rest) && Listed(rest[0], answers)
    requires forall c <- rest :: c in s.candidates
    ensures DealtWith(s, After(s, StepsFor(rest[0], answers)), rest, answers)
  {
    var c := rest[0];
    AfterThree(s, Asked(Some(answers(c).value.0)), Claimed(answers(c).value.1), Announced);
    DropExactly(s.candidates, c.market.slug);
    assert c in s.candidates && forall d <- rest[1..] :: d.market.slug != c.market.slug;
  }

  lemma {:induction false} UnlistedDealtWith(s: State, rest: seq<Candidate>, answers: Answers)
    requires rest != [] && s.poll == Asking(rest) && !Listed(rest[0], answers)
    requires forall c <- rest :: c in s.candidates
    ensures DealtWith(s, After(s, StepsFor(rest[0], answers)), rest, answers)
  {
    var steps := StepsFor(rest[0], answers);
    assert steps[1..] == [] && After(s, steps) == Step(s, steps[0]);
  }

  lemma {:induction false} AfterOne(s: State, events: seq<Event>)
    requires events != []
    ensures After(s, events) == After(Step(s, events[0]), events[1..])
  {}

  lemma {:induction false} AfterThree(s: State, a: Event, b: Event, c: Event)
    ensures After(s, [a, b, c]) == Step(Step(Step(s, a), b), c)
  {
    AfterOne(s, [a, b, c]);
    assert [a, b, c][1..] == [b, c];
    AfterOne(Step(s, a), [b, c]);
    assert [b, c][1..] == [c];
    AfterOne(Step(Step(s, a), b), [c]);
    assert [c][1..] == [];
  }

  lemma Joined(a: seq<Update>, b: seq<Update>, c: seq<Update>)
    ensures a + b + c == a + (b + c)
  {}

  lemma {:induction false} PollStepsAnnounce(s: State, rest: seq<Candidate>, answers: Answers)
    requires s.poll == NextOf(rest) && SlugsDiffer(rest) && forall c <- rest :: c in s.candidates
    ensures var t := After(s, PollSteps(rest, answers));
            t.poll.Idle? && t.announced == s.announced + Updates(rest, answers)
    decreases |rest|
  {
    if rest != [] {
      var first := After(s, StepsFor(rest[0], answers));
      if Listed(rest[0], answers) { ListedDealtWith(s, rest, answers); } else { UnlistedDealtWith(s, rest, answers); }
      AfterBoth(s, StepsFor(rest[0], answers), PollSteps(rest[1..], answers));
      PollStepsAnnounce(first, rest[1..], answers);
      Joined(s.announced, UpdatesFor(rest[0], answers), Updates(rest[1..], answers));
    }
  }

  /** A whole poll asks about every candidate that has not ended, in the order they came,
      and announces exactly those the venue lists, each with when it was found and seen. */
  lemma {:induction false} PollAnnouncesExactly(s: State, now: int, answers: Answers)
    requires Kept(s) && s.poll.Idle?
    ensures var live := Unexpired(s.candidates, now);
            && (forall c :: c in live <==> c in s.candidates && now < c.market.endTs)
            && var t := After(s, [Polled(now)] + PollSteps(live, answers));
               t.poll.Idle? && t.announced == s.announced + Updates(live, answers)
  {
    var live := Unexpired(s.candidates, now);
    UnexpiredExactly(s.candidates, now);
    assert ([Polled(now)] + PollSteps(live, answers))[1..] == PollSteps(live, answers);
    PollStepsAnnounce(Step(s, Polled(now)), live, answers);
  }

  /** A poll broken off by a failed question leaves every candidate to the next one. */
  lemma FailedPollStartsOver(s: State, now: int)
    requires s.poll.Asking?
    ensures Step(Step(s, AskFailed), Polled(now)).poll == NextOf(Unexpired(s.candidates, now))
  {}

  /** The event finds the market, which was not over and not handled before. */
  ghost predicate Finds(s: State, e: Event, c: Candidate) {
    match e
    case Seeded(markets, _, at, now) =>
      c.market in markets && c.discoveredMs == at && now < c.market.endTs && c.market.slug !in s.handled
    case Found(record, at, now) =>
      && s.next.Some? && record.Some? && c == Candidate(MarketAt(record.value, s.next.value), at)
      && now < c.market.endTs && c.market.slug !in s.handled
    case _ => false
  }

  lemma {:induction false} RegisterAllFinds(s: State, markets: seq<Market>, at: int, now: int, c: Candidate)
    requires c in RegisterAll(s, markets, at, now).candidates
    ensures c in s.candidates ||
            (c.market in markets && c.discoveredMs == at && now < c.market.endTs && c.market.slug !in s.handled)
    ensures s.handled <= RegisterAll(s, markets, at, now).handled
  {
    if markets != [] {
      var rest, last := markets[..|markets| - 1], markets[|markets| - 1];
      var t := RegisterAll(s, rest, at, now);
      RegisterAllGrows(s, rest, at, now);
      DropExactly(t.candidates, last.slug);
      assert markets == rest + [last];
      if c in t.candidates { RegisterAllFinds(s, rest, at, now, c); }
    }
  }

  /** A new candidate is a market as it was found, with when it was found. */
  lemma {:induction false} CandidatesAreFound(s: State, e: Event, c: Candidate)
    requires c in Step(s, e).candidates
    ensures c in s.candidates || Finds(s, e, c)
  {
    match e
    case Seeded(markets, seedOnly, at, now) =>
      if c in RegisterAll(s, markets, at, now).candidates { RegisterAllFinds(s, markets, at, now, c); }
    case Found(record, at, now) =>
      if s.next.Some? && record.Some? { DropExactly(s.candidates, SlugAt(s.next.value)); }
    case Polled(now) => UnexpiredExactly(s.candidates, now);
    case Claimed(_) => if s.poll.Claiming? { DropExactly(s.candidates, s.poll.c.market.slug); }
    case _ =>
  }

  /** The market was over at the moment the event happened. */
  ghost predicate OverBy(s: State, e: Event, slug: string) {
    match e
    case Seeded(markets, _, _, now) => exists m <- markets :: m.slug == slug && m.endTs <= now
    case Found(record, _, now) => s.next.Some? && slug == SlugAt(s.next.value) && s.next.value + MARKET_SECONDS <= now
    case Polled(now) => exists c <- s.candidates :: c.market.slug == slug && c.market.endTs <= now
    case _ => false
  }

  lemma {:induction false} RegisterAllEnds(s: State, markets: seq<Market>, at: int, now: int, slug: string)
    ensures slug in RegisterAll(s, markets, at, now).ended ==> slug in s.ended || exists m <- markets :: m.slug == slug && m.endTs <= now
  {
    if markets != [] {
      var rest, last := markets[..|markets| - 1], markets[|markets| - 1];
      RegisterAllEnds(s, rest, at, now, slug);
      assert markets == rest + [last];
      assert last in markets;
    }
  }

  /** No market is dropped as ended before its end. */
  lemma EndedWasOver(s: State, e: Event, slug: string)
    requires slug in Step(s, e).ended
    ensures slug in s.ended || OverBy(s, e, slug)
  {
    if e.Seeded? { RegisterAllEnds(s, e.markets, e.at, e.now, slug); }
  }

  // ----- Handled for good, and the cursor

  ghost predicate Known(s: State, slug: string) { slug in s.handled || Has(s.candidates, slug) }

  /** Nothing known is forgotten, nothing handled becomes unhandled, and what was announced
      stays announced. */
  ghost predicate Grows(s: State, t: State) {
    s.handled <= t.handled && s.announced <= t.announced && forall slug :: Known(s, slug) ==> Known(t, slug)
  }

  lemma RegisterGrows(s: State, m: Market, at: int, now: int)
    ensures Grows(s, Register(s, m, at, now)) && Known(Register(s, m, at, now), m.slug)
  {
    var t := Register(s, m, at, now);
    DropExactly(s.candidates, m.slug);
    forall slug | Known(s, slug) ensures Known(t, slug) {
      if slug !in s.handled {
        var c :| c in s.candidates && c.market.slug == slug;
        assert slug in t.handled || c in t.candidates;
      }
    }
    if m.slug !in t.handled && !Has(s.candidates, m.slug) { assert Candidate(m, at) in t.candidates; }
  }

  lemma {:induction false} RegisterAllGrows(s: State, markets: seq<Market>, at: int, now: int)
    ensures Grows(s, RegisterAll(s, markets, at, now))
    ensures forall m <- markets :: Known(RegisterAll(s, markets, at, now), m.slug)
  {
    if markets != [] {
      assert markets == markets[..|markets| - 1] + [markets[|markets| - 1]];
      RegisterAllGrows(s, markets[..|markets| - 1], at, now);
      RegisterGrows(RegisterAll(s, markets[..|markets| - 1], at, now), markets[|markets| - 1], at, now);
    }
  }

  lemma StepGrows(s: State, e: Event)
    ensures Grows(s, Step(s, e))
  {
    var t := Step(s, e);
    match e {
      case Seeded(markets, seedOnly, at, now) => RegisterAllGrows(s, markets, at, now);
      case Found(record, at, now) =>
        if s.next.Some? && record.Some? { RegisterGrows(s, MarketAt(record.value, s.next.value), at, now); }
      case Polled(now) =>
        UnexpiredExactly(s.candidates, now);
        forall slug | Known(s, slug) ensures Known(t, slug) {
          if slug !in s.handled {
            var c :| c in s.candidates && c.market.slug == slug;
            if s.poll.Idle? { assert slug in t.handled || c in t.candidates; }
          }
        }
      case Claimed(detectedMs) =>
        if s.poll.Claiming? { DropExactly(s.candidates, s.poll.c.market.slug); }
        forall slug | Known(s, slug) ensures Known(t, slug) {
          if slug !in s.handled {
            var c :| c in s.candidates && c.market.slug == slug;
            assert slug in t.handled || c in t.candidates;
          }
        }
      case _ =>
    }
  }

  /** Once handled a slug is handled for good, and so never a candidate again. */
  lemma {:induction false} HandledForGood(s: State, events: seq<Event>, slug: string)
    requires Kept(s) && slug in s.handled
    ensures var t := After(s, events);
            slug in t.handled && !Has(t.candidates, slug) && s.announced <= t.announced
    decreases |events|
  {
    if events != [] {
      StepKeeps(s, events[0]);
      StepGrows(s, events[0]);
      HandledForGood(Step(s, events[0]), events[1..], slug);
    }
  }

  /** Every start the cursor has passed, five minutes apart from where it began, is known. */
  ghost predicate CursorComplete(s: State) {
    match s.first
    case None => s.next.None?
    case Some(first) =>
      s.next.Some? && exists k: nat :: s.next.value == StartAfter(first, k) && PassedKnown(s, first, k)
  }

  ghost predicate PassedKnown(s: State, first: nat, k: nat) {
    forall j: nat :: j < k ==> Known(s, SlugAt(StartAfter(first, j)))
  }

  function StartAfter(first: nat, k: nat): nat { first + MARKET_SECONDS * k }

  lemma FoundKeepsCursor(s: State, m: Market, at: int, now: int, k: nat)
    requires s.first.Some? && s.next.Some? && s.next.value == StartAfter(s.first.value, k) && PassedKnown(s, s.first.value, k)
    ensures CursorComplete(Step(s, Found(Some(m), at, now)))
  {
    var t := Step(s, Found(Some(m), at, now));
    StepGrows(s, Found(Some(m), at, now));
    RegisterGrows(s, MarketAt(m, s.next.value), at, now);
    assert t.next.value == StartAfter(t.first.value, k + 1);
    assert PassedKnown(t, t.first.value, k + 1);
  }

  lemma StepKeepsCursor(s: State, e: Event)
    requires CursorComplete(s)
    ensures CursorComplete(Step(s, e))
  {
    var t := Step(s, e);
    StepGrows(s, e);
    if s.first.Some? {
      var first := s.first.value;
      var k: nat :| s.next.value == StartAfter(first, k) && PassedKnown(s, first, k);
      if e.Found? && e.record.Some? {
        FoundKeepsCursor(s, e.record.value, e.at, e.now, k);
      } else {
        assert PassedKnown(t, first, k) && t.next == s.next;
      }
    } else if t.first.Some? {
      assert PassedKnown(t, t.first.value, 0) && t.next.value == StartAfter(t.first.value, 0);
    }
  }

  /** The cursor begins one market after the latest one found, all of them known unless
      only the cursor was asked for. */
  lemma CursorBegins(s: State, markets: seq<Market>, seedOnly: bool, at: int, now: int)
    requires s.next.None? && markets != []
    ensures var t := Step(s, Seeded(markets, seedOnly, at, now));
            && t.next.Some? && t.first == t.next
            && (exists m <- markets :: m.startTs + MARKET_SECONDS == t.next.value)
            && (forall m <- markets :: m.startTs + MARKET_SECONDS <= t.next.value)
            && (!seedOnly ==> forall m <- markets :: Known(t, m.slug))
  {
    RegisterAllGrows(s, markets, at, now);
    forall m <- markets | !seedOnly ensures Known(Step(s, Seeded(markets, seedOnly, at, now)), m.slug) {
      assert Known(RegisterAll(s, markets, at, now), m.slug);
    }
  }

  /** Over every interleaving the discovery cursor skips no market. */
  lemma {:induction false} CursorSkipsNone(s: State, events: seq<Event>)
    requires CursorComplete(s)
    ensures CursorComplete(After(s, events))
    decreases |events|
  {
    if events != [] {
      StepKeepsCursor(s, events[0]);
      CursorSkipsNone(Step(s, events[0]), events[1..]);
    }
  }
}
