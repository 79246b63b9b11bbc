/** The timing thread of one knock (knocker/internal/knock/knock.go, tick): it merges the
    members' timetables and hands each slot over when it is due.

    The clock, the members dropping out and the knock ending are inputs: one Round holds
    what one turn of the loop observes. Stalls are rounds whose clock has run ahead. */
module TimingLoop {
  import opened Schedule

  const PRECISE_STRETCH := 1_500_000

  /** What one turn of the loop sees. */
  datatype Round = Round(
    sending: seq<bool>,   // the members' flags when the due one is chosen
    before: int,          // the clock when the wait is computed
    endsWaiting: bool,    // the knock is over before the wait is
    stillSending: bool,   // the due member's flag after the wait
    endsAsleep: bool,     // the knock is over when the sleep is, or before the slot is taken
    after: int)           // the clock once the slot is handed over

  /** A slot handed to the coordinator: whose, the moment planned, and the clock right after. */
  datatype Handed = Handed(member: nat, planned: int, seen: int)

  /** The loop's variables, the accounts' shared first slots, and what was handed over. */
  datatype State = State(next: seq<int>, stored: map<string, int>, handed: seq<Handed>)

  /** Go's map read: a missing account reads as 0. */
  function Stored(stored: map<string, int>, account: string): int {
    if account in stored then stored[account] else 0
  }

  /** The timetables the slot arithmetic is exact on (see Preview.PreviewTableWellFormed). */
  type Table = t: Timetable | WellFormed(t) witness Timetable([], 0, 0, GRID_TOLERANCE + 1)

  predicate Fits(tables: seq<Table>, accounts: seq<string>) {
    |tables| == |accounts|
  }

  /** The next slot to use after the one at planned, read at the moment seen. */
  function Resume(t: Table, planned: int, seen: int): int
  {
    t.At(Max(planned + GRID_TOLERANCE + 1, seen))
  }

  function Begin(tables: seq<Table>, accounts: seq<string>, start: int, stored: map<string, int>): State
    requires Fits(tables, accounts)
  {
    State(seq(|tables|, i requires 0 <= i < |tables| => tables[i].At(Max(start, Stored(stored, accounts[i])))),
          stored, [])
  }

  /** The scan for the due member over the first k: the earliest next slot among those
      sending, the first of equals; -1 when none is sending. */
  function Due(next: seq<int>, sending: seq<bool>, k: nat): (due: int)
    requires k <= |next| == |sending|
    ensures -1 <= due < k && (0 <= due ==> sending[due])
  {
    if k == 0 then -1
    else
      var due := Due(next, sending, k - 1);
      if sending[k - 1] && (due < 0 || next[k - 1] < next[due]) then k - 1 else due
  }

  lemma {:induction false} DueIsEarliest(next: seq<int>, sending: seq<bool>, k: nat, i: nat)
    requires i < k <= |next| == |sending| && sending[i]
    ensures var due := Due(next, sending, k);
            0 <= due && next[due] <= next[i] && (next[due] == next[i] ==> due <= i)
  {
    if i < k - 1 { DueIsEarliest(next, sending, k - 1, i); }
  }

  datatype Turned = Ended(state: State) | Goes(state: State)

  predicate Shaped(tables: seq<Table>, accounts: seq<string>, s: State) {
    Fits(tables, accounts) && |s.next| == |tables|
  }

  /** A slot goes to the coordinator, and its member to the slot its timetable resumes on:
      the one after, never one already gone. */
  function HandOver(tables: seq<Table>, accounts: seq<string>, s: State, due: nat, seen: int): State
    requires Shaped(tables, accounts, s) && due < |tables|
  {
    var after := Resume(tables[due], s.next[due], seen);
    State(s.next[due := after], s.stored[accounts[due] := after], s.handed + [Handed(due, s.next[due], seen)])
  }

  /** One turn of the loop. */
  function Turn(tables: seq<Table>, accounts: seq<string>, s: State, r: Round): (t: Turned)
    requires Shaped(tables, accounts, s) && |r.sending| == |tables|
    ensures Shaped(tables, accounts, t.state)
  {
    var due := Due(s.next, r.sending, |s.next|);
    if due < 0 then Ended(s)
    else
      var waits := 0 < s.next[due] - r.before - PRECISE_STRETCH;
      if waits && r.endsWaiting then Ended(s)
      else if waits && !r.stillSending then Goes(s)
      else if r.endsAsleep then Ended(s)
      else
        Goes(HandOver(tables, accounts, s, due, r.after))
  }

  /** The loop over any rounds, until it returns or the rounds run out. */
  function Run(tables: seq<Table>, accounts: seq<string>, s: State, rounds: seq<Round>): (end: State)
    requires Shaped(tables, accounts, s) && forall r <- rounds :: |r.sending| == |tables|
    ensures Shaped(tables, accounts, end)
    decreases |rounds|
  {
    if rounds == [] then s
    else match Turn(tables, accounts, s, rounds[0])
      case Ended(e) => e
      case Goes(g) => Run(tables, accounts, g, rounds[1..])
  }

  // ----- The loop as the program runs it

  class NextSlots {
    var stored: map<string, int>

    constructor ()
      ensures stored == map[]
    {
      stored := map[];
    }
  }

  class TimingThread {
    const tables: seq<Table>
    const accounts: seq<string>
    const shared: NextSlots
    const next: array<int>
    ghost var handed: seq<Handed>

    ghost predicate Valid()
      reads this
    {
      Fits(tables, accounts) && next.Length == |tables|
    }

    ghost function View(): State
      reads this, shared, next
    {
      State(next[..], shared.stored, handed)
    }

    constructor (tables: seq<Table>, accounts: seq<string>, shared: NextSlots, start: int)
      requires Fits(tables, accounts)
      ensures Valid() && fresh(next) && this.tables == tables && this.accounts == accounts && this.shared == shared
      ensures View() == Begin(tables, accounts, start, shared.stored)
    {
      this.tables := tables;
      this.accounts := accounts;
      this.shared := shared;
      this.handed := [];
      var slots := new int[|tables|];
      for i := 0 to |tables|
        invariant forall j :: 0 <= j < i ==> slots[j] == tables[j].At(Max(start, Stored(shared.stored, accounts[j])))
      {
        slots[i] := tables[i].At(Max(start, Stored(shared.stored, accounts[i])));
      }
      this.next := slots;
    }

    /** The member whose slot is due next among those sending. */
    method DueMember(sending: seq<bool>) returns (due: int)
      requires |sending| == next.Length
      ensures due == Due(next[..], sending, next.Length)
    {
      due := -1;
      for i := 0 to next.Length
        invariant due == Due(next[..], sending, i)
      {
        if sending[i] && (due < 0 || next[i] < next[due]) { due := i; }
      }
    }

    /** Hands the member's slot over and moves the member on, in the shared map too. */
    method HandSlotOver(due: nat, seen: int)
      requires Valid() && due < |tables|
      modifies this, shared, next
      ensures Valid() && View() == HandOver(tables, accounts, old(View()), due, seen)
    {
      handed := handed + [Handed(due, next[due], seen)];
      var after := tables[due].At(Max(next[due] + GRID_TOLERANCE + 1, seen));
      next[due] := after;
      shared.stored := shared.stored[accounts[due] := after];
    }

    method Tick(rounds: seq<Round>)
      requires Valid() && forall r <- rounds :: |r.sending| == |tables|
      modifies this, shared, next
      ensures Valid() && View() == Run(tables, accounts, old(View()), rounds)
    {
      var k := 0;
      while k < |rounds|
        invariant k <= |rounds| && Valid()
        invariant Run(tables, accounts, View(), rounds[k..]) == Run(tables, accounts, old(View()), rounds)
      {
        var r := rounds[k];
        assert r in rounds && rounds[k..][0] == r && rounds[k..][1..] == rounds[k + 1..];
        var due := DueMember(r.sending);
        if due < 0 { return; }
        if 0 < next[due] - r.before - PRECISE_STRETCH {
          if r.endsWaiting { return; }
          if !r.stillSending {
            k := k + 1;
            continue;
          }
        }
        if r.endsAsleep { return; }
        HandSlotOver(due, r.after);
        k := k + 1;
      }
    }
  }

  // ----- What every run keeps

  /** Members only ever drop out. */
  predicate Dropped(before: seq<bool>, after: seq<bool>) {
    |before| == |after| && forall i :: 0 <= i < |before| && after[i] ==> before[i]
  }

  predicate OnlyDropping(sending: seq<bool>, rounds: seq<Round>)
    decreases |rounds|
  {
    rounds == [] || (Dropped(sending, rounds[0].sending) && OnlyDropping(rounds[0].sending, rounds[1..]))
  }

  ghost predicate OnTimetables(tables: seq<Table>, s: State)
  {
    && |s.next| == |tables|
    && (forall i :: 0 <= i < |tables| ==> IsSlot(tables[i], s.next[i]))
    && (forall h <- s.handed :: h.member < |tables| && IsSlot(tables[h.member], h.planned))
  }

  /** Slots were handed over in time order, a member's strictly so, and what is to come
      is later still. */
  ghost predicate InOrder(s: State, sending: seq<bool>) {
    && |s.next| == |sending|
    && (forall a, b :: 0 <= a < b < |s.handed| ==> Before(s.handed[a], s.handed[b]))
    && (forall a :: 0 <= a < |s.handed| ==> ComesBefore(s.handed[a], s.next, sending))
  }

  predicate Before(h: Handed, k: Handed) {
    h.planned <= k.planned && (h.member == k.member ==> h.planned < k.planned)
  }

  /** Every slot still to come is at or after h, and h's own member's is after it. */
  predicate ComesBefore(h: Handed, next: seq<int>, sending: seq<bool>)
    requires |next| == |sending|
  {
    && h.member < |next| && h.planned < next[h.member]
    && forall i :: 0 <= i < |next| && sending[i] ==> h.planned <= next[i]
  }

  /** b is the member's next slot handed over after a. */
  predicate Consecutive(handed: seq<Handed>, a: nat, b: nat) {
    && a < b < |handed| && handed[a].member == handed[b].member
    && forall c :: a < c < b ==> handed[c].member != handed[a].member
  }

  predicate LastOfMember(handed: seq<Handed>, a: nat) {
    a < |handed| && forall c :: a < c < |handed| ==> handed[c].member != handed[a].member
  }

  /** What follows the a-th slot handed over, for its member: the next one it was handed,
      or the one it waits for. */
  ghost predicate Followed(s: State, a: nat, planned: int)
    requires a < |s.handed| && s.handed[a].member < |s.next|
  {
    && (forall b: nat :: Consecutive(s.handed, a, b) ==> s.handed[b].planned == planned)
    && (LastOfMember(s.handed, a) ==> s.next[s.handed[a].member] == planned)
  }

  /** Each slot handed over is followed by the one its member's timetable resumes on. */
  ghost predicate Resumes(tables: seq<Table>, s: State)
  {
    && |s.next| == |tables|
    && (forall a: nat :: a < |s.handed| ==> s.handed[a].member < |tables|)
    && (forall a: nat :: a < |s.handed| ==>
          Followed(s, a, Resume(tables[s.handed[a].member], s.handed[a].planned, s.handed[a].seen)))
  }

  /** Every account that has sent finds its next slot in the shared map. */
  ghost predicate Remembered(accounts: seq<string>, s: State) {
    |s.next| == |accounts| &&
    forall h <- s.handed :: h.member < |accounts| && Stored(s.stored, accounts[h.member]) == s.next[h.member]
  }

  predicate DistinctAccounts(accounts: seq<string>) {
    forall i, j :: 0 <= i < j < |accounts| ==> accounts[i] != accounts[j]
  }

  ghost predicate Kept(tables: seq<Table>, accounts: seq<string>, s: State, sending: seq<bool>)
    requires Fits(tables, accounts)
  {
    OnTimetables(tables, s) && InOrder(s, sending) && Resumes(tables, s) && Remembered(accounts, s)
  }

  lemma ResumeLater(t: Table, planned: int, seen: int)
    ensures IsSlot(t, Resume(t, planned, seen)) && planned < Resume(t, planned, seen)
  {
    var moment := Max(planned + GRID_TOLERANCE + 1, seen);
    var _ := AtIsFirstOpen(t, moment);
  }

  lemma BeginKept(tables: seq<Table>, accounts: seq<string>, start: int, stored: map<string, int>, sending: seq<bool>)
    requires Fits(tables, accounts) && |sending| == |tables|
    ensures Kept(tables, accounts, Begin(tables, accounts, start, stored), sending)
  {
    forall i | 0 <= i < |tables|
      ensures IsSlot(tables[i], Begin(tables, accounts, start, stored).next[i])
    {
      var _ := AtIsFirstOpen(tables[i], Max(start, Stored(stored, accounts[i])));
    }
  }

  lemma {:induction false} HandingOver(tables: seq<Table>, accounts: seq<string>, s: State, sending: seq<bool>,
                                       due: nat, seen: int)
    requires Fits(tables, accounts) && DistinctAccounts(accounts) && Kept(tables, accounts, s, sending)
    requires due == Due(s.next, sending, |s.next|)
    ensures Kept(tables, accounts, HandOver(tables, accounts, s, due, seen), sending)
  {
    ResumeLater(tables[due], s.next[due], seen);
    TimetablesAppended(tables, accounts, s, due, seen);
    RememberedAppended(tables, accounts, s, due, seen);
    OrderAppended(s, sending, due, HandOver(tables, accounts, s, due, seen));
    ResumesAppended(tables, s, due, seen, HandOver(tables, accounts, s, due, seen));
  }

  lemma TimetablesAppended(tables: seq<Table>, accounts: seq<string>, s: State, due: nat, seen: int)
    requires Fits(tables, accounts) && OnTimetables(tables, s) && due < |tables|
    ensures OnTimetables(tables, HandOver(tables, accounts, s, due, seen))
  {
    var t := HandOver(tables, accounts, s, due, seen);
    ResumeLater(tables[due], s.next[due], seen);
    assert forall h <- t.handed :: h in s.handed || h == Handed(due, s.next[due], seen);
  }

  lemma RememberedAppended(tables: seq<Table>, accounts: seq<string>, s: State, due: nat, seen: int)
    requires Fits(tables, accounts) && DistinctAccounts(accounts) && Remembered(accounts, s) && due < |tables|
    ensures Remembered(accounts, HandOver(tables, accounts, s, due, seen))
  {
    var t := HandOver(tables, accounts, s, due, seen);
    assert forall h <- t.handed :: h in s.handed || h == Handed(due, s.next[due], seen);
  }

  lemma {:induction false} OrderAppended(s: State, sending: seq<bool>, due: nat, t: State)
    requires InOrder(s, sending) && due == Due(s.next, sending, |s.next|)
    requires |t.next| == |s.next| && s.next[due] < t.next[due] && t.next == s.next[due := t.next[due]]
    requires |t.handed| == |s.handed| + 1 && t.handed[..|s.handed|] == s.handed
    requires t.handed[|s.handed|].member == due && t.handed[|s.handed|].planned == s.next[due]
    ensures InOrder(t, sending)
  {
    var n := |s.handed|;
    forall i | 0 <= i < |s.next| && sending[i]
      ensures s.next[due] <= s.next[i] && s.next[due] <= t.next[i]
    {
      DueIsEarliest(s.next, sending, |s.next|, i);
    }
    forall a | 0 <= a < n
      ensures t.handed[a] == s.handed[a] && Before(s.handed[a], t.handed[n]) && ComesBefore(s.handed[a], t.next, sending)
    {
      assert t.handed[a] == t.handed[..n][a];
      assert ComesBefore(s.handed[a], s.next, sending);
    }
  }

  lemma ResumesAppended(tables: seq<Table>, s: State, due: nat, seen: int, t: State)
    requires Resumes(tables, s) && due < |tables|
    requires t.next == s.next[due := Resume(tables[due], s.next[due], seen)]
    requires t.handed == s.handed + [Handed(due, s.next[due], seen)]
    ensures Resumes(tables, t)
  {
    forall a: nat | a < |t.handed|
      ensures t.handed[a].member < |tables|
      ensures Followed(t, a, Resume(tables[t.handed[a].member], t.handed[a].planned, t.handed[a].seen))
    {
      if a < |s.handed| {
        FollowedStill(s, a, Resume(tables[s.handed[a].member], s.handed[a].planned, s.handed[a].seen), due, t);
      }
    }
  }

  lemma FollowedStill(s: State, a: nat, planned: int, due: nat, t: State)
    requires a < |s.handed| && s.handed[a].member < |s.next| && Followed(s, a, planned)
    requires due < |s.next| == |t.next| && forall i :: 0 <= i < |s.next| && i != due ==> t.next[i] == s.next[i]
    requires |t.handed| == |s.handed| + 1 && t.handed[..|s.handed|] == s.handed
    requires t.handed[|s.handed|].member == due && t.handed[|s.handed|].planned == s.next[due]
    ensures t.handed[a] == s.handed[a] && Followed(t, a, planned)
  {
    var n := |s.handed|;
    forall c | 0 <= c < n
      ensures t.handed[c] == s.handed[c]
    {
      assert t.handed[c] == t.handed[..n][c];
    }
    forall b: nat | Consecutive(t.handed, a, b)
      ensures t.handed[b].planned == planned
    {
      if b < n { assert Consecutive(s.handed, a, b); } else { assert LastOfMember(s.handed, a); }
    }
    if LastOfMember(t.handed, a) {
      assert t.handed[n].member != t.handed[a].member;
      assert LastOfMember(s.handed, a);
    }
  }

  lemma DroppedKept(tables: seq<Table>, accounts: seq<string>, s: State, before: seq<bool>, after: seq<bool>)
    requires Fits(tables, accounts) && Kept(tables, accounts, s, before) && Dropped(before, after)
    ensures Kept(tables, accounts, s, after)
  {}

  /** Whatever the rounds bring, the loop keeps all four promises. */
  lemma {:induction false} RunKeeps(tables: seq<Table>, accounts: seq<string>, s: State, sending: seq<bool>,
                                    rounds: seq<Round>)
    returns (left: seq<bool>)
    requires Fits(tables, accounts) && DistinctAccounts(accounts) && Kept(tables, accounts, s, sending)
    requires OnlyDropping(sending, rounds) && forall r <- rounds :: |r.sending| == |tables|
    ensures |left| == |tables| && Kept(tables, accounts, Run(tables, accounts, s, rounds), left)
    ensures left == sending || exists r <- rounds :: left == r.sending
    decreases |rounds|
  {
    left := sending;
    if rounds != [] {
      var r := rounds[0];
      left := r.sending;
      DroppedKept(tables, accounts, s, sending, r.sending);
      TurnKeeps(tables, accounts, s, r);
      match Turn(tables, accounts, s, r)
      case Ended(_) =>
      case Goes(g) => left := RunKeeps(tables, accounts, g, r.sending, rounds[1..]);
    }
  }

  lemma TurnKeeps(tables: seq<Table>, accounts: seq<string>, s: State, r: Round)
    requires Fits(tables, accounts) && DistinctAccounts(accounts) && Kept(tables, accounts, s, r.sending)
    ensures Kept(tables, accounts, Turn(tables, accounts, s, r).state, r.sending)
  {
    var due := Due(s.next, r.sending, |s.next|);
    if 0 <= due { HandingOver(tables, accounts, s, r.sending, due, r.after); }
  }

  /** A knock's handed slots: in non-decreasing planned time across members, strictly
      increasing and on its own timetable for each, whatever stalls and drop-outs. */
  lemma {:induction false} SlotsInTimeOrder(tables: seq<Table>, accounts: seq<string>, start: int, stored: map<string,
                                            int>,
                         sending: seq<bool>, rounds: seq<Round>)
    requires Fits(tables, accounts) && DistinctAccounts(accounts) && |sending| == |tables|
    requires OnlyDropping(sending, rounds) && forall r <- rounds :: |r.sending| == |tables|
    ensures var handed := Run(tables, accounts, Begin(tables, accounts, start, stored), rounds).handed;
            && (forall h <- handed :: h.member < |tables| && IsSlot(tables[h.member], h.planned))
            && (forall a, b :: 0 <= a < b < |handed| ==> Before(handed[a], handed[b]))
  {
    BeginKept(tables, accounts, start, stored, sending);
    var _ := RunKeeps(tables, accounts, Begin(tables, accounts, start, stored), sending, rounds);
  }

  /** A stall costs a member only the slots that passed while it lasted: any slot of its
      timetable between two handed over was already gone when the loop looked. */
  lemma {:induction false} StallsSkipOnlyThePast(tables: seq<Table>, accounts: seq<string>, start: int,
                                                 stored: map<string, int>,
                              sending: seq<bool>, rounds: seq<Round>, a: nat, b: nat, slot: int)
    requires Fits(tables, accounts) && DistinctAccounts(accounts) && |sending| == |tables|
    requires OnlyDropping(sending, rounds) && forall r <- rounds :: |r.sending| == |tables|
    requires var handed := Run(tables, accounts, Begin(tables, accounts, start, stored), rounds).handed;
             && Consecutive(handed, a, b) && handed[a].member < |tables|
             && IsSlot(tables[handed[a].member], slot) && handed[a].planned < slot < handed[b].planned
    ensures slot < Run(tables, accounts, Begin(tables, accounts, start, stored), rounds).handed[a].seen
  {
    BeginKept(tables, accounts, start, stored, sending);
    var _ := RunKeeps(tables, accounts, Begin(tables, accounts, start, stored), sending, rounds);
    var end := Run(tables, accounts, Begin(tables, accounts, start, stored), rounds);
    var h := end.handed[a];
    assert h in end.handed;
    var t := tables[h.member];
    assert Followed(end, a, Resume(t, h.planned, h.seen));
    SkippedIsPast(t, h.planned, h.seen, slot);
  }

  lemma SkippedIsPast(t: Table, planned: int, seen: int, slot: int)
    requires IsSlot(t, planned) && IsSlot(t, slot) && planned < slot < Resume(t, planned, seen)
    ensures slot < seen
  {
    AtSkipsOnlyThePast(t, Max(planned + GRID_TOLERANCE + 1, seen), slot);
    AfterIsSuccessor(t, planned);
  }

  // ----- The loop goes on, and misses nothing

  predicate SameMembers(tables: seq<Table>, rounds: seq<Round>) { forall r <- rounds :: |r.sending| == |tables| }

  /** The earliest slot still wanted is far enough off for the loop to wait. */
  predicate Waits(s: State, r: Round)
    requires |r.sending| == |s.next|
  {
    var due := Due(s.next, r.sending, |s.next|);
    0 <= due && r.before + PRECISE_STRETCH < s.next[due]
  }

  /** The due member dropped out during the wait. */
  predicate DropsOut(s: State, r: Round)
    requires |r.sending| == |s.next|
  {
    Waits(s, r) && !r.endsWaiting && !r.stillSending
  }

  /** Nobody is sending, or the knock is over before the slot can be taken. */
  predicate Over(s: State, r: Round)
    requires |r.sending| == |s.next|
  {
    || (forall i :: 0 <= i < |r.sending| ==> !r.sending[i])
    || (Waits(s, r) && r.endsWaiting)
    || (!DropsOut(s, r) && r.endsAsleep)
  }

  lemma {:induction false} SomeoneDue(next: seq<int>, sending: seq<bool>)
    requires |next| == |sending|
    ensures 0 <= Due(next, sending, |next|) <==> exists i :: 0 <= i < |sending| && sending[i]
  {
    if i :| 0 <= i < |sending| && sending[i] { DueIsEarliest(next, sending, |next|, i); }
  }

  /** No round but the last finds the knock over. */
  ghost predicate NotOverBefore(tables: seq<Table>, accounts: seq<string>, s: State, rounds: seq<Round>, n: nat)
    requires Shaped(tables, accounts, s) && SameMembers(tables, rounds) && n <= |rounds|
  {
    forall k :: 0 <= k < n ==> !Over(Run(tables, accounts, s, rounds[..k]), rounds[k])
  }

  /** What the last round adds to a loop that is still going: nothing if the knock is over
      or the due member drops out, and else the due member's slot. */
  ghost predicate Adds(a: State, r: Round, b: State)
    requires |r.sending| == |a.next|
  {
    if Over(a, r) || DropsOut(a, r) then b == a
    else
      var due := Due(a.next, r.sending, |a.next|);
      0 <= due && b.handed == a.handed + [Handed(due, a.next[due], r.after)]
  }

  /** The first round taken, the rest are rounds of the loop from the state it leaves. */
  lemma {:induction false} FirstRound(tables: seq<Table>, accounts: seq<string>, s: State, rounds: seq<Round>, n: nat)
    requires Shaped(tables, accounts, s) && SameMembers(tables, rounds) && 0 < n <= |rounds|
    requires NotOverBefore(tables, accounts, s, rounds, n)
    ensures var g := Turn(tables, accounts, s, rounds[0]).state;
            && NotOverBefore(tables, accounts, g, rounds[1..], n - 1)
            && (forall k :: 0 <= k < n ==>
                  Run(tables, accounts, s, rounds[..k + 1]) == Run(tables, accounts, g, rounds[1..][..k]))
  {
    var g := Turn(tables, accounts, s, rounds[0]).state;
    SomeoneDue(s.next, rounds[0].sending);
    assert !Over(Run(tables, accounts, s, rounds[..0]), rounds[0]);
    forall k | 0 <= k < n
      ensures Run(tables, accounts, s, rounds[..k + 1]) == Run(tables, accounts, g, rounds[1..][..k])
    {
      assert rounds[..k + 1][1..] == rounds[1..][..k];
    }
    forall k | 0 <= k < n - 1
      ensures !Over(Run(tables, accounts, g, rounds[1..][..k]), rounds[1..][k])
    {
      assert !Over(Run(tables, accounts, s, rounds[..k + 1]), rounds[k + 1]);
    }
  }

  lemma {:induction false} LastRoundAdds(tables: seq<Table>, accounts: seq<string>, s: State, rounds: seq<Round>)
    requires Shaped(tables, accounts, s) && SameMembers(tables, rounds) && rounds != []
    requires NotOverBefore(tables, accounts, s, rounds, |rounds| - 1)
    ensures Adds(Run(tables, accounts, s, rounds[..|rounds| - 1]), rounds[|rounds| - 1], Run(tables, accounts, s, rounds))
    decreases |rounds|
  {
    var n, r := |rounds| - 1, rounds[0];
    SomeoneDue(s.next, r.sending);
    if n == 0 {
      assert rounds[1..] == [];
    } else {
      FirstRound(tables, accounts, s, rounds, n);
      LastRoundAdds(tables, accounts, Turn(tables, accounts, s, r).state, rounds[1..]);
    }
  }

  /** Once a round finds the knock over, no later one hands anything over, whatever it sees. */
  lemma {:induction false} NothingOnceOver(tables: seq<Table>, accounts: seq<string>, s: State, rounds: seq<Round>,
                                           k: nat)
    requires Shaped(tables, accounts, s) && SameMembers(tables, rounds) && k < |rounds|
    requires NotOverBefore(tables, accounts, s, rounds, k)
    requires Over(Run(tables, accounts, s, rounds[..k]), rounds[k])
    ensures Run(tables, accounts, s, rounds) == Run(tables, accounts, s, rounds[..k])
    decreases k
  {
    SomeoneDue(s.next, rounds[0].sending);
    if 0 < k {
      assert !Over(Run(tables, accounts, s, rounds[..0]), rounds[0]);
      var g := Turn(tables, accounts, s, rounds[0]).state;
      FirstRound(tables, accounts, s, rounds, k);
      NothingOnceOver(tables, accounts, g, rounds[1..], k - 1);
    }
  }

  /** Somebody is sending, and nothing says that the knock is over. */
  predicate GoesOn(r: Round) {
    !r.endsWaiting && !r.endsAsleep && exists i :: 0 <= i < |r.sending| && r.sending[i]
  }

  /** The rounds whose due member does not drop out while the loop waits for it. */
  ghost function Served(tables: seq<Table>, accounts: seq<string>, s: State, rounds: seq<Round>): nat
    requires Shaped(tables, accounts, s) && SameMembers(tables, rounds)
    decreases |rounds|
  {
    if rounds == [] then 0
    else
      var before, r := rounds[..|rounds| - 1], rounds[|rounds| - 1];
      Served(tables, accounts, s, before) + (if DropsOut(Run(tables, accounts, s, before), r) then 0 else 1)
  }

  /** While anyone is sending and the knock is not over the loop goes on, whoever drops out:
      it hands over one slot for every round whose due member stays. */
  lemma {:induction false} GoesOnWhileAnyoneSends(tables: seq<Table>, accounts: seq<string>, s: State,
                                                  rounds: seq<Round>)
    requires Shaped(tables, accounts, s) && SameMembers(tables, rounds) && forall r <- rounds :: GoesOn(r)
    ensures |Run(tables, accounts, s, rounds).handed| == |s.handed| + Served(tables, accounts, s, rounds)
    decreases |rounds|
  {
    if rounds != [] {
      GoesOnWhileAnyoneSends(tables, accounts, s, rounds[..|rounds| - 1]);
      forall k | 0 <= k < |rounds| ensures !Over(Run(tables, accounts, s, rounds[..k]), rounds[k]) {
        assert GoesOn(rounds[k]);
      }
      LastRoundAdds(tables, accounts, s, rounds);
    }
  }

  /** The slot was handed to the member, or a slot before it was, and the clock was past it
      once that was done. */
  ghost predicate Met(handed: seq<Handed>, member: nat, slot: int) {
    exists h <- handed :: h.member == member && (h.planned == slot || h.planned < slot < h.seen)
  }

  /** Every slot of the member's timetable from the floor on, and before the one it waits
      for, is met. */
  ghost predicate NoneMissed(tables: seq<Table>, s: State, member: nat, floor: int)
    requires member < |tables| == |s.next|
  {
    forall slot | IsSlot(tables[member], slot) && floor <= slot < s.next[member] :: Met(s.handed, member, slot)
  }

  lemma HandingOverMissesNone(tables: seq<Table>, accounts: seq<string>, s: State, due: nat, seen: int,
                              member: nat, floor: int)
    requires Shaped(tables, accounts, s) && due < |tables| && member < |tables| && IsSlot(tables[due], s.next[due])
    requires NoneMissed(tables, s, member, floor)
    ensures NoneMissed(tables, HandOver(tables, accounts, s, due, seen), member, floor)
  {
    var t, h := HandOver(tables, accounts, s, due, seen), Handed(due, s.next[due], seen);
    forall slot | IsSlot(tables[member], slot) && floor <= slot < t.next[member] ensures Met(t.handed, member, slot) {
      if slot < s.next[member] {
        assert Met(s.handed, member, slot);
      } else {
        assert h in t.handed;
        if s.next[due] < slot { SkippedIsPast(tables[due], s.next[due], seen, slot); }
      }
    }
  }

  lemma {:induction false} RunMissesNone(tables: seq<Table>, accounts: seq<string>, s: State, rounds: seq<Round>,
                                         member: nat, floor: int)
    requires Shaped(tables, accounts, s) && SameMembers(tables, rounds) && member < |tables|
    requires (forall i :: 0 <= i < |tables| ==> IsSlot(tables[i], s.next[i])) && NoneMissed(tables, s, member, floor)
    ensures NoneMissed(tables, Run(tables, accounts, s, rounds), member, floor)
    decreases |rounds|
  {
    if rounds != [] {
      var due := Due(s.next, rounds[0].sending, |s.next|);
      if 0 <= due {
        ResumeLater(tables[due], s.next[due], rounds[0].after);
        HandingOverMissesNone(tables, accounts, s, due, rounds[0].after, member, floor);
      }
      match Turn(tables, accounts, s, rounds[0])
      case Ended(_) =>
      case Goes(g) => RunMissesNone(tables, accounts, g, rounds[1..], member, floor);
    }
  }

  /** A member that goes on sending is handed every slot of its timetable, from the start
      and its account's stored slot on and before the last one handed to anybody, but for
      those already gone when the loop had handed it an earlier one. */
  lemma {:induction false} SendingMemberMissesNone(tables: seq<Table>, accounts: seq<string>, start: int,
                                                   stored: map<string, int>,
                                sending: seq<bool>, rounds: seq<Round>, member: nat, slot: int)
    requires Fits(tables, accounts) && DistinctAccounts(accounts) && |sending| == |tables| && member < |tables|
    requires OnlyDropping(sending, rounds) && SameMembers(tables, rounds)
    requires sending[member] && forall r <- rounds :: r.sending[member]
    requires IsSlot(tables[member], slot) && Max(start, Stored(stored, accounts[member])) <= slot
    requires var handed := Run(tables, accounts, Begin(tables, accounts, start, stored), rounds).handed;
             handed != [] && slot < handed[|handed| - 1].planned
    ensures Met(Run(tables, accounts, Begin(tables, accounts, start, stored), rounds).handed, member, slot)
  {
    var begin := Begin(tables, accounts, start, stored);
    var floor := Max(start, Stored(stored, accounts[member]));
    BeginKept(tables, accounts, start, stored, sending);
    forall x | IsSlot(tables[member], x) && x < begin.next[member] ensures x < floor {
      AtSkipsOnlyThePast(tables[member], floor, x);
    }
    RunMissesNone(tables, accounts, begin, rounds, member, floor);
    var left := RunKeeps(tables, accounts, begin, sending, rounds);
    var end := Run(tables, accounts, begin, rounds);
    assert ComesBefore(end.handed[|end.handed| - 1], end.next, left);
  }

  /** No member is handed, or left waiting for, a slot before its floor. */
  ghost predicate NotBefore(s: State, floor: seq<int>) {
    && |s.next| == |floor| && (forall i :: 0 <= i < |floor| ==> floor[i] <= s.next[i])
    && (forall h <- s.handed :: h.member < |floor| && floor[h.member] <= h.planned)
  }

  lemma {:induction false} RunNotBefore(tables: seq<Table>, accounts: seq<string>, s: State, floor: seq<int>,
                                        rounds: seq<Round>)
    requires Shaped(tables, accounts, s) && NotBefore(s, floor) && forall r <- rounds :: |r.sending| == |tables|
    ensures NotBefore(Run(tables, accounts, s, rounds), floor)
    decreases |rounds|
  {
    if rounds != [] {
      var due := Due(s.next, rounds[0].sending, |s.next|);
      if 0 <= due { ResumeLater(tables[due], s.next[due], rounds[0].after); }
      match Turn(tables, accounts, s, rounds[0])
      case Ended(_) =>
      case Goes(g) =>
        assert forall h <- g.handed :: h in s.handed || h == Handed(due, s.next[due], rounds[0].after);
        RunNotBefore(tables, accounts, g, floor, rounds[1..]);
    }
  }

  /** What a knock leaves in the shared map for an account it sent for is a slot after
      every one it used. */
  lemma {:induction false} LeavesALaterSlot(tables: seq<Table>, accounts: seq<string>, start: int, stored: map<string,
                                            int>,
                         sending: seq<bool>, rounds: seq<Round>, h: Handed)
    requires Fits(tables, accounts) && DistinctAccounts(accounts) && |sending| == |tables|
    requires OnlyDropping(sending, rounds) && forall r <- rounds :: |r.sending| == |tables|
    requires h in Run(tables, accounts, Begin(tables, accounts, start, stored), rounds).handed
    ensures h.member < |tables|
    ensures h.planned < Stored(Run(tables, accounts, Begin(tables, accounts, start, stored), rounds).stored, accounts[h.member])
  {
    BeginKept(tables, accounts, start, stored, sending);
    var left := RunKeeps(tables, accounts, Begin(tables, accounts, start, stored), sending, rounds);
    var end := Run(tables, accounts, Begin(tables, accounts, start, stored), rounds);
    var a :| 0 <= a < |end.handed| && end.handed[a] == h;
    assert ComesBefore(end.handed[a], end.next, left);
  }

  /** A knock started on that map, with any timetables: none of its slots for an account
      is earlier than the one stored, less the tolerance. */
  lemma {:induction false} LaterKnockKeepsTheSpacing(tables: seq<Table>, accounts: seq<string>, start: int,
                                                     stored: map<string, int>,
                                  rounds: seq<Round>, h: Handed)
    requires Fits(tables, accounts) && forall r <- rounds :: |r.sending| == |tables|
    requires h in Run(tables, accounts, Begin(tables, accounts, start, stored), rounds).handed
    ensures h.member < |tables| && Stored(stored, accounts[h.member]) - GRID_TOLERANCE <= h.planned
  {
    var begin := Begin(tables, accounts, start, stored);
    forall i | 0 <= i < |tables|
      ensures Stored(stored, accounts[i]) - GRID_TOLERANCE <= begin.next[i]
    {
      var moment := Max(start, Stored(stored, accounts[i]));
      AtMonotone(tables[i], moment, moment);
    }
    RunNotBefore(tables, accounts, begin, begin.next, rounds);
  }
}
