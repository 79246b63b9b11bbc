/** The signed entry orders an account holds on to between knocks
    (polymarket_bot/exchange.py): the same signed orders are sent until the venue has
    said what became of them, so a market never has two of one account's entries. */
module EntryOrders {
  import opened Options
  import opened FleetSettlement

  /** The signings held, by market with its tokens, price and size. */
  type Book = map<string, nat>

  /** What looking a market's open orders up finds: the whole set of legs, some other set
      (which is cancelled), or nothing. */
  datatype Found = Whole | Partly | Nothing(retryable: bool)

  /** One event: a knock, with the signing made if one is needed (None when signing has to
      wait for the venue) and what the knock reports (None when it failed); a look at the
      open orders, or one that failed. */
  datatype Event =
    | Knock(key: string, signing: Option<nat>, knocked: Option<Knocked>, expected: nat, cancelFails: bool)
    | Reconcile(key: string, found: Option<Found>)

  function SignedFor(b: Book, key: string, signing: Option<nat>): Option<nat> {
    if key in b then Some(b[key]) else signing
  }

  /** Whether the result leaves the signed orders with no question open. */
  predicate Verdict(r: Option<Result>, cancelFails: bool) {
    r.Some? && (r.value.Complete() || (if r.value.orders != [] then !cancelFails else !r.value.retryable))
  }

  function Step(b: Book, e: Event): Book {
    match e
    case Knock(key, signing, knocked, expected, cancelFails) =>
      var signed := SignedFor(b, key, signing);
      if signed.None? then b
      else if knocked.Some? && Verdict(SettleEntry(knocked.value, expected), cancelFails) then b - {key}
      else b[key := signed.value]
    case Reconcile(key, found) =>
      if found.None? || found == Some(Nothing(true)) then b else b - {key}
  }

  class Exchange {
    var submissions: map<string, nat>

    constructor ()
      ensures submissions == map[]
    {
      submissions := map[];
    }

    /** The signed orders kept from an earlier knock, or newly signed ones, held from now on. */
    method PrepareEntry(key: string, signing: Option<nat>) returns (signed: Option<nat>)
      modifies this
      ensures signed == SignedFor(old(submissions), key, signing)
      ensures submissions == if signed.None? then old(submissions) else old(submissions)[key := signed.value]
    {
      if key in submissions {
        signed := Some(submissions[key]);
        assert submissions[key := signed.value] == submissions;
      } else {
        signed := signing;
        if signed.Some? {
          submissions := submissions[key := signed.value];
        }
      }
    }

    /** One knock of the market; what it sent, if anything. */
    method PlaceDual(key: string, signing: Option<nat>, knocked: Option<Knocked>, expected: nat, cancelFails: bool)
      returns (sent: Option<nat>)
      modifies this
      ensures sent == Sends(old(submissions), Knock(key, signing, knocked, expected, cancelFails), key)
      ensures submissions == Step(old(submissions), Knock(key, signing, knocked, expected, cancelFails))
    {
      sent := PrepareEntry(key, signing);
      if sent.None? || knocked.None? {
        return;
      }
      var result := SettleEntry(knocked.value, expected);
      if result.None? {
        return;
      }
      if result.value.Complete() {
        submissions := submissions - {key};
      } else if result.value.orders != [] {
        if !cancelFails {
          submissions := submissions - {key};
        }
      } else if !result.value.retryable {
        submissions := submissions - {key};
      }
    }

    method ReconcileAmbiguousDual(key: string, found: Option<Found>)
      modifies this
      ensures submissions == Step(old(submissions), Reconcile(key, found))
    {
      if found.None? {
        return;
      }
      match found.value {
        case Whole => submissions := submissions - {key};
        case Partly => submissions := submissions - {key};
        case Nothing(retryable) =>
          if !retryable {
            submissions := submissions - {key};
          }
      }
    }
  }

  function After(b: Book, events: seq<Event>): Book
    decreases |events|
  {
    if events == [] then b else After(Step(b, events[0]), events[1..])
  }

  /** The event settles what became of the market's signed orders: a knock that ends in a
      verdict, or a look that finds orders or is not to be repeated. */
  predicate Settles(e: Event, key: string) {
    e.key == key &&
    match e
    case Knock(_, _, knocked, expected, cancelFails) =>
      knocked.Some? && Verdict(SettleEntry(knocked.value, expected), cancelFails)
    case Reconcile(_, found) => found.Some? && found.value != Nothing(true)
  }

  /** The signing the event sends for the market, if it sends one. */
  function Sends(b: Book, e: Event, key: string): Option<nat> {
    if e.Knock? && e.key == key then SignedFor(b, key, e.signing) else None
  }

  lemma {:induction false} AfterAppend(b: Book, events: seq<Event>, e: Event)
    ensures After(b, events + [e]) == Step(After(b, events), e)
    decreases |events|
  {
    if events == [] {
      assert ([] + [e])[1..] == [];
    } else {
      assert (events + [e])[1..] == events[1..] + [e];
      AfterAppend(Step(b, events[0]), events[1..], e);
    }
  }

  /** Once sent, a signing is held until an event settles it. */
  lemma {:induction false} HeldUntilSettled(b: Book, events: seq<Event>, key: string, i: nat, j: nat, signed: nat)
    requires i < j <= |events| && Sends(After(b, events[..i]), events[i], key) == Some(signed)
    requires forall m :: i <= m < j ==> !Settles(events[m], key)
    ensures key in After(b, events[..j]) && After(b, events[..j])[key] == signed
    decreases j
  {
    assert events[..j] == events[..j - 1] + [events[j - 1]];
    AfterAppend(b, events[..j - 1], events[j - 1]);
    if i < j - 1 { HeldUntilSettled(b, events, key, i, j - 1, signed); }
  }

  /** Over every history of knocks and looks at the open orders: between two knocks that
      send a market different signed orders, something settled what became of the first. */
  lemma {:induction false} NoSecondSigningUnsettled(b: Book, events: seq<Event>, key: string, i: nat, j: nat)
    requires i < j < |events|
    requires Sends(After(b, events[..i]), events[i], key).Some? && Sends(After(b, events[..j]), events[j], key).Some?
    requires Sends(After(b, events[..i]), events[i], key) != Sends(After(b, events[..j]), events[j], key)
    ensures exists m :: i <= m < j && Settles(events[m], key)
  {
    if forall m :: i <= m < j ==> !Settles(events[m], key) {
      HeldUntilSettled(b, events, key, i, j, Sends(After(b, events[..i]), events[i], key).value);
    }
  }

  /** A verdict is drawn exactly from a knock that found the whole entry, part of it that
      was then cancelled, or nothing with no send in doubt. */
  lemma VerdictExactly(knocked: Knocked, expected: nat, cancelFails: bool)
    requires 0 < expected
    ensures Verdict(SettleEntry(knocked, expected), cancelFails) <==>
            if knocked.accepted == [] then !knocked.ambiguous else |knocked.accepted| == expected || !cancelFails
  {}

  lemma StepHolds(b: Book, e: Event, key: string)
    ensures key in Step(b, e) <==> !Settles(e, key) && (key in b || Sends(b, e, key).Some?)
  {}

  /** The i-th event sent the market a signing that no event from then on has settled. */
  ghost predicate Unsettled(events: seq<Event>, key: string, i: nat) {
    && i < |events| && Sends(After(map[], events[..i]), events[i], key).Some?
    && forall m :: i <= m < |events| ==> !Settles(events[m], key)
  }

  /** A signing is held exactly when some knock sent it and nothing has settled it since:
      once settled, the market's next knock signs anew. */
  lemma {:induction false} HeldExactly(events: seq<Event>, key: string)
    ensures key in After(map[], events) <==> exists i :: Unsettled(events, key, i)
    decreases |events|
  {
    if events != [] {
      var n := |events| - 1;
      var before, e := events[..n], events[n];
      assert events == before + [e];
      AfterAppend(map[], before, e);
      StepHolds(After(map[], before), e, key);
      HeldExactly(before, key);
      forall i: nat | i < n ensures Unsettled(events, key, i) <==> Unsettled(before, key, i) && !Settles(e, key) {
        assert before[..i] == events[..i];
        assert forall m :: 0 <= m < n ==> before[m] == events[m];
      }
      assert Unsettled(events, key, n) <==> Sends(After(map[], before), e, key).Some? && !Settles(e, key);
      if i :| Unsettled(before, key, i) { assert Unsettled(events, key, i) <==> !Settles(e, key); }
      if i: nat :| Unsettled(events, key, i) { assert i == n || Unsettled(before, key, i); }
    }
  }
}
