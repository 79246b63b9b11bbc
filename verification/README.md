# Polymarket bot: a verified model

A bot that places one entry order per account on each new five-minute market, the moment the
venue starts to take orders, and sells what fills on a take-profit ladder. Its timing-critical
half is a Go library that *knocks*: it sends every account's signed orders again and again
until the venue registers them. The rest is Python over a SQLite database. This project models
the parts that decide what is sent, recorded, offered and kept, and proves what they promise.

`dafny verify dfyconfig.toml` checks everything.

| file | what it models |
|---|---|
| `Common.dfy` | optional values, multiples and remainders, exact reals |
| `Schedule.dfy` | the slot arithmetic of one timetable: bursts, then a cadence |
| `Preview.dfy` | laying bursts out, the spacing of a fleet's members, and the venue's meter |
| `TimingLoop.dfy` | the timing thread: merging the members' timetables, with the shared first slots |
| `KnockModel.dfy`, `KnockRuns.dfy`, `KnockRun.dfy` | the coordinator: as values, over whole runs, and as the objects it updates |
| `Lanes.dfy` | the connections, and a whole knock on them |
| `OrderTable.dfy`, `ExitLadder.dfy`, `ExitBalance.dfy` | the orders table, the exit passes over it, and a pass made twice |
| `MarketLedger.dfy` | a market's states, retries and attempts |
| `FleetSettlement.dfy`, `EntryOrders.dfy` | which account's order a fleet keeps; the signed orders an account holds on to |
| `Activation.dfy` | the two threads that find and announce markets |
| `PaperFill.dfy`, `PaperReserve.dfy` | the paper simulator's fill and its peak reserve |
| `CollectionId.dfy` | the curve-point search behind a token id |

Code that computes values is functions and lemmas. Code that changes state is classes and
loops; each of their methods is held to a function of the old state, and the promises are
proved of that function, over whole runs.

Some things one might expect turn out false of the code. Each has a lemma with the exact
condition:

- The knock does not always return by its deadline plus the drain: a give-up time that arrives
  late, already past, costs as much longer as it is late (`KnockRuns.DeadlineKeptExactly`).
- A sixth account can put a 101st request on a connection (`Lanes.FiveAccountsExactly`).
- A cadence faster than 25 ms breaks the venue's meter in some long enough stretch
  (`Preview.BudgetKeptExactly`), and a phase within the tolerance of its interval starts its
  grid a slot early (`Schedule.GoodPhaseExactly`).
- Inside a burst an evenly phased fleet can lose two nanoseconds of its even share, not one:
  the phase is rounded twice (`Preview.SharesKeptExactly`, `Preview.ThirteenFallShort`).
- A second exit pass straight after the first is not always quiet: an order cut to what was
  available and refused is offered again (`ExitBalance.SecondPassIsQuietExactly`,
  `ExitBalance.QuietWhateverTheMixExactly`, `ExitBalance.RepeatedPassIsQuietExactly`,
  `ExitBalance.ARefusedCutIsOfferedAgain`).
- The venue's word on an exit order can take a rung beyond its share when it is about an order
  already closed, as the user stream's and a late reconciliation result's may be
  (`ExitLadder.TakesNoMoreExactly`, `ExitLadder.ALateFillGoesBeyond`).
- The peak reserve can miss what is held when a row is placed as late as the next market's
  end, which takes a capture stalled for five minutes after its check for ended markets;
  a row less late than that never shows (`PaperReserve.LatePlacementExactly`).

The repository's README says (line 93) that a fleet keeps the order whose accepting reply came
first. The code keeps the one the venue registered first, and goes by the replies only when
some registered member's venue time never came (`polymarket_bot/fleet.py:327-356`). The model
follows the code.

## Model

| member | source | states |
|---|---|---|
| Schedule.CeilDivIsCeiling | knocker/internal/knock/schedule.go:49-55 | Go's truncating division and its adjustment make the exact ceiling, for negative offsets too |
| Schedule.CeilDivUnique | knocker/internal/knock/schedule.go:49-55 | it is the only number with that property |
| Schedule.SlotIsLeast | knocker/internal/knock/schedule.go:15-18 | from the origin on, the slot is on the grid, at most the tolerance in the past, and no earlier slot of the grid is |
| Schedule.GoodPhaseExactly | knocker/internal/knock/schedule.go:15-18 | a grid starts at its own origin plus phase if and only if the phase is more than the tolerance short of the interval |
| Schedule.SlotArithmeticFitsInt64 | knocker/internal/knock/schedule.go:15-18 | with inputs below 2^60 ns no step of the arithmetic overflows 64 bits |
| Schedule.AtFromIsLeast | knocker/internal/knock/schedule.go:32-42 | the scan from any burst on returns the least slot still open of the groups from there |
| Schedule.AtIsFirstOpen | knocker/internal/knock/schedule.go:32-42 | every moment has a first open slot over bursts and cadence, and at returns it |
| Schedule.AtMonotone | knocker/internal/knock/schedule.go:32-42 | a later moment never gets an earlier slot, and no slot is more than the tolerance in the past |
| Schedule.AtSkipsOnlyThePast | knocker/internal/knock/schedule.go:32-42 | every slot passed over was before the moment |
| Schedule.AfterIsSuccessor | knocker/internal/knock/schedule.go:45-47 | after gives the next slot of the whole set, across burst ends |
| Schedule.ListedExactly | knocker/internal/knock/schedule.go:32-47 | a moment comes up when after is iterated if and only if it is a slot not before the first |
| Schedule.IterationListsTheSlots | knocker/internal/knock/schedule.go:32-47 | iterating after lists exactly the slots, none skipped, none repeated, for any starting moment |
| Schedule.StartsAtTheFirstSlot | knocker/internal/knock/schedule.go:32-42 | from before everything the list starts at the very first slot |
| Preview.Check | knocker/internal/knock/preview.go:18-36 | accepts exactly the plans with a url, positive times and bursts that follow one another, and says what else is wrong in order |
| Preview.ProperInOrder | knocker/internal/knock/preview.go:28-34 | checking neighbours puts every earlier burst's end before every later one's start |
| Preview.TimeBursts | knocker/internal/knock/preview.go:146-166 | rewrites every member's timetable in place to its bursts laid out from the anchor, its phase scaled to each |
| Preview.LaidOutInOrder | knocker/internal/knock/preview.go:146-166 | accepted bursts stay in order once rounded to nanoseconds, and end by where the cadence takes over |
| Preview.BurstPhaseWraps | knocker/internal/knock/preview.go:142-158 | inside a burst a phase counts modulo the cadence, and falls within the burst's interval |
| Preview.GridsApart | knocker/internal/knock/schedule.go:8-18 | two members of one interval never have slots closer than the circular distance of their phases |
| Preview.EvenPhases | polymarket_bot/fleet.py:185-194 | evenly phased members come in order and are an even share of the interval apart, around the circle too, less a nanosecond of rounding |
| Preview.CadenceSpacing | polymarket_bot/fleet.py:185-194 | so their sends on the cadence never come closer than that, and not closer than the whole share when it is a whole number |
| Preview.BurstSpacing | knocker/internal/knock/preview.go:142-158 | inside a burst two members keep the order of their given phases and the distance of those phases, scaled to the burst, less a nanosecond |
| Preview.FleetBurstSpacing | polymarket_bot/fleet.py:185-194 | for an evenly phased fleet and a burst no slower than the cadence: in order, and an even share of the burst apart less the two nanoseconds that two roundings cost |
| Preview.WholeShareBurstSpacing | polymarket_bot/fleet.py:185-194 | less one nanosecond only, in a burst of any interval, when the cadence divides by the number of members |
| Preview.SharesKeptExactly | polymarket_bot/fleet.py:185-194 | one nanosecond is all that is lost, in bursts of every interval, if and only if the cadence divides by the number of members |
| Preview.ThirteenFallShort | polymarket_bot/exchange.py:74-81 | thirteen members at 25 ms lose more than one nanosecond in the last of the bursts |
| Preview.BurstHolds | knocker/internal/knock/schedule.go:20-21 | a burst holds at most its length over its interval, rounded up |
| Preview.PreviewCapacity | polymarket_bot/exchange.py:74-81 | the three bursts hold 51 slots together |
| Preview.PreviewTableWellFormed | polymarket_bot/exchange.py:74-81 | the bot's bursts on a cadence of a millisecond or more, for every member of an evenly phased fleet of up to 500, make a timetable all of the above is exact on |
| Preview.NeverWaitsForADate | knocker/internal/knock/preview.go:119-140 | the bursts are timed from startDate when it is no later than the answer and from the answer itself otherwise, never from ahead of the clock; so no member waits longer than the bursts and one interval |
| Preview.PreviewWithinBudget | polymarket_bot/exchange.py:74-81 | at 25 ms or slower no window of a knock holds more than 60 slots and 40 a second |
| Preview.BudgetKeptExactly | polymarket_bot/exchange.py:74-81 | every window of every knock keeps to the meter if and only if the cadence is 25 ms or slower |
| TimingLoop.DueIsEarliest | knocker/internal/knock/knock.go:239-348 | the slot waited for is the earliest of those still sending, the first of equals |
| TimingLoop.TimingThread.DueMember | knocker/internal/knock/knock.go:278-347 | the scan finds that member, or none when nobody sends |
| TimingLoop.TimingThread.constructor | knocker/internal/knock/knock.go:239-348 | every member starts on its first slot at or after both the start and its account's stored next slot |
| TimingLoop.TimingThread.HandSlotOver | knocker/internal/knock/knock.go:318-347 | hands one slot over and moves its member on, in the shared map too |
| TimingLoop.TimingThread.Tick | knocker/internal/knock/knock.go:239-348 | the loop and the map the knocks share follow the specification for any stalls, drop-outs and endings |
| TimingLoop.RunKeeps | knocker/internal/knock/knock.go:278-347 | every run keeps slots on their timetables, in order, resuming where the timetable says, and remembered in the shared map |
| TimingLoop.SlotsInTimeOrder | knocker/internal/knock/knock.go:278-347 | slots are handed over in non-decreasing planned time, each member's strictly increasing and on its own timetable |
| TimingLoop.StallsSkipOnlyThePast | knocker/internal/knock/knock.go:278-347 | a slot left out between two handed over was already gone when the loop looked |
| TimingLoop.LastRoundAdds | knocker/internal/knock/knock.go:278-347 | of a loop still going, a round hands over exactly the due member's slot, unless nobody is sending, the knock is over or that member drops out while waited for |
| TimingLoop.NothingOnceOver | knocker/internal/knock/knock.go:278-347 | once a round finds nobody sending or the knock over, no later round hands anything over |
| TimingLoop.GoesOnWhileAnyoneSends | knocker/internal/knock/knock.go:278-347 | while anyone sends and the knock is not over, the slots handed over are as many as the rounds whose due member did not drop out during its wait |
| TimingLoop.SendingMemberMissesNone | knocker/internal/knock/knock.go:278-347 | a member that goes on sending is handed every slot of its timetable from its start to the last slot handed to anybody, but for those the clock was already past when an earlier one of its own had been handed over |
| TimingLoop.LeavesALaterSlot | knocker/internal/knock/knock.go:49-55 | what a knock stores for an account is after every slot it used |
| TimingLoop.LaterKnockKeepsTheSpacing | knocker/internal/knock/knock.go:49-55 | no slot of a later knock is earlier than the stored one less the tolerance, on any timetable |
| KnockModel.SlotSendsUnregistered | knocker/internal/knock/knock.go:451-478 | a slot that sends carries a leg not registered yet: the fallback to all legs is never taken |
| KnockModel.VerdictSound | knocker/internal/knock/knock.go:559-590 | judging a reply keeps the member's invariant |
| KnockModel.EventSound | knocker/internal/knock/knock.go:362-404 | every kind of event keeps it |
| KnockModel.RunSound | knocker/internal/knock/knock.go:361-599 | over every interleaving: in flight is sends less replies, within 0 and the cap; sending is not stopped; an unstopped member has a leg to register; a stopped one is complete or says why; it gave up exactly when it says so, before the market ended |
| KnockModel.StartSound | knocker/internal/knock/knock.go:137-200 | a knock starts so |
| KnockModel.DoneWhenAllRegistered | knocker/internal/knock/knock.go:581-586 | registering every outcome stops the member if and only if its legs' outcomes differ |
| KnockModel.StopsExactly | knocker/internal/knock/knock.go:539-599 | a sending member stops if and only if the knock failed or is stopped, a deadline is seen past at its slot or the timer, or its reply is a local error, a refusal other than not open yet, a second id for a leg or the acceptance of its last leg; its drain then runs from that moment |
| KnockModel.GivesUpExactly | knocker/internal/knock/knock.go:432-449 | a member gives up exactly when its budget is seen past while it sends and the market still runs |
| KnockModel.RecordsExactly | knocker/internal/knock/knock.go:539-599 | every event leaves on a member's record exactly the doubt and the error it carries, with the reply's own status and body, once a key |
| KnockModel.RegistersExactly | knocker/internal/knock/knock.go:559-580 | the order on record for a leg is what the last accepting reply carried, of those that counted and did not name another id |
| KnockRuns.RunFollows | knocker/internal/knock/knock.go:539-599 | a registered id never changes and none is lost; once stopped, attempts and the drain's end are frozen |
| KnockRuns.DrainedIsFinal | knocker/internal/knock/knock.go:542-547 | after its drain nothing changes what a member came to |
| KnockRuns.WakeIsEarliest | knocker/internal/knock/knock.go:406-428 | there is no wake-up if and only if all are done, and else it is the earliest any member needs |
| KnockRuns.ReturnsInTime | knocker/internal/knock/knock.go:362-428 | with wake-ups served when due the last event is taken up and the knock is over by the deadline, or now if later, plus the drain, even with no slot or reply and with a give-up lowering it |
| KnockRuns.DeadlineKeptExactly | knocker/internal/knock/knock.go:380-404 | with a reply outstanding, the deadline plus the drain is kept whatever happens if and only if the deadline is not already past |
| KnockRuns.GiveUpsLowerTheDeadline | knocker/internal/knock/knock.go:380-404 | the knock goes by the earliest of the deadline it was given and all the give-ups that came in |
| KnockRuns.ReturnsOnlyWhenFinished | knocker/internal/knock/knock.go:362-378 | the coordinator returns at the first look at which every member is done, and at no other |
| KnockRuns.FinishedExactly | knocker/internal/knock/knock.go:406-428 | finished says of every member that it has stopped, and that all its sends are answered or its drain is over |
| KnockRuns.RepliesRegister | knocker/internal/knock/knock.go:559-580 | with one id per leg, what a member has registered after any run is exactly what the accepting replies that counted carried, at the earliest of their times |
| KnockRuns.ReplyOrderDoesNotMatter | knocker/internal/knock/knock.go:539-590 | two runs in which the same replies count, in any order and amid anything else, register the same ids at the same time |
| KnockRuns.SlotsAccountedFor | knocker/internal/knock/knock.go:451-478 | attempts and held-back slots are exactly the slots that found the member sending with and without room |
| KnockRuns.LegsInRotation | knocker/internal/knock/knock.go:459-476 | while nothing new registers the sends go round the unregistered legs in plan order |
| KnockRuns.RotationCoversOnce | knocker/internal/knock/knock.go:459-476 | in one round every leg goes out, none twice |
| KnockRuns.ResultReportsEveryOrder | knocker/internal/knock/knock.go:601-632 | the result lists every registered order once and nothing else |
| KnockRun.Run.Pending | knocker/internal/knock/knock.go:409-428 | finished if and only if every member is done, and else the earliest wake-up |
| KnockRun.Run.Stop | knocker/internal/knock/knock.go:592-599 | stops one member once, and no other |
| KnockRun.Run.PastDeadline | knocker/internal/knock/knock.go:432-449 | the market's end is seen before the budget's, each with its text |
| KnockRun.Run.OnSlot | knocker/internal/knock/knock.go:451-478 | one slot changes its member as specified and no other |
| KnockRun.Run.OnReply | knocker/internal/knock/knock.go:539-590 | one reply, late ones and failed sends included |
| KnockRun.Run.OnVerdict | knocker/internal/knock/knock.go:559-590 | registering, conflicting ids, completing and refusals |
| KnockRun.Run.EndSending | knocker/internal/knock/knock.go:386-400 | a stop or a failure stops every member still sending, with its text |
| KnockRun.Run.Handle | knocker/internal/knock/knock.go:380-404 | every kind of event is the specified step of the whole knock |
| KnockRun.Run.Coordinate | knocker/internal/knock/knock.go:362-404 | the loop takes exactly the events up to the first look that finds the knock finished |
| KnockRun.RemainingLegs | knocker/internal/knock/knock.go:459-470 | the unregistered legs in plan order |
| KnockRun.AcceptedList | knocker/internal/knock/knock.go:601-632 | the registered orders in leg order |
| Lanes.PickFromExactly | knocker/internal/venue/lanes.go:134-148 | the first connection with a stream to spare if there is one, and else the first of the least loaded |
| Lanes.Venue.Pick | knocker/internal/venue/lanes.go:134-148 | takes one stream on that connection and none elsewhere |
| Lanes.Venue.Release | knocker/internal/venue/lanes.go:163-165 | gives it back |
| Lanes.NextBalanced | knocker/internal/venue/lanes.go:134-165 | the connections carry as many requests as the accounts have out, and no more than each account has in flight |
| Lanes.FleetWithinStreams | knocker/internal/knock/knock.go:23-30 | up to five accounts keep every connection within 100 requests over every order of sends, replies and releases |
| Lanes.FiveAccountsExactly | knocker/internal/knock/knock.go:23-30 | from idle connections, with 6.25 s to go, that holds if and only if there are at most five accounts, and likewise with every account's slots 25 ms apart |
| OrderTable.ExitHandledSize | polymarket_bot/database.py:406-433 | the loop adds up what every exit row of the rung has taken off it |
| OrderTable.AddTotal | polymarket_bot/database.py:251-281 | writing a row raises a total by no more than that row's weight, and by exactly it when the id is new |
| OrderTable.AddedExactly | polymarket_bot/database.py:251-281 | after a write there is one row of the order's id, filled whole when reported matched or filled and else not at all, and every other row stands |
| OrderTable.WhatAnExitTakes | polymarket_bot/database.py:406-451 | what an exit takes off its rung and what it reserves, in every status |
| OrderTable.CancellingFreesTheReserve | polymarket_bot/database.py:366-372 | once all the exits that may still fill are marked cancelled, nothing is reserved |
| ExitLadder.PendingExactly | polymarket_bot/service.py:1367-1376 | pending are exactly the targets lacking a whole order, each with what it lacks, in price order |
| ExitLadder.PlacingAdds | polymarket_bot/service.py:1413-1506 | one submission raises what its own rung has taken by no more than its size, by exactly it when it rests or fails under a new id, and no other rung |
| ExitLadder.PlacingReserves | polymarket_bot/service.py:1413-1506 | it raises what is on offer of its outcome by its size if it was placed, and of nothing if it failed |
| ExitLadder.PlacingKeepsEntries | polymarket_bot/service.py:1413-1506 | and leaves the entries as they were |
| ExitLadder.Service.PlaceLadder | polymarket_bot/service.py:1398-1411 | the loop over the rungs, what is available shrinking only by what was placed |
| ExitLadder.Service.PlaceRowExits | polymarket_bot/service.py:1363-1411 | one entry's part of a pass, with every way it can be left out |
| ExitLadder.Service.PlaceMissingExits | polymarket_bot/service.py:1359-1411 | the pass over the entries read at its start, the table changing as it goes |
| ExitLadder.LadderKeeps | polymarket_bot/service.py:1398-1411 | a ladder keeps every rung of every outcome within its share, whatever is answered |
| ExitLadder.PassKeeps | polymarket_bot/service.py:1359-1411 | so does a pass, and it leaves the entries alone |
| ExitLadder.TakesNoMoreExactly | polymarket_bot/database.py:406-433 | a word on an exit order keeps every rung within its share, whatever else the table holds, if and only if the order was active (and does not come back failed and partly matched), or is not told matched further or active again |
| ExitLadder.ALateFillGoesBeyond | polymarket_bot/service.py:683-689 | a concrete late word on a cancelled order that doubles what the rung has taken |
| ExitLadder.RunKeeps | polymarket_bot/service.py:1359-1506 | over any run of entries, growing fills, words on exits, cancellations, refusals and passes, no rung takes more than its share of the fill |
| ExitLadder.TakenIsRungSum | polymarket_bot/database.py:406-433 | what all exits of an outcome have taken is the sum over the rungs, each counted once |
| ExitLadder.NeverBeyondTheFill | polymarket_bot/models.py:37-61 | over any run from an empty table everything taken by an outcome's exits is within what one entry order matched |
| ExitBalance.PassWithinBalance | polymarket_bot/service.py:1379-1411 | a pass never leaves more on offer than the larger of the balance and what was on offer before |
| ExitBalance.SettlesWhateverIsTakenExactly | polymarket_bot/service.py:1398-1411 | a ladder leaves nothing to offer whichever orders are taken if and only if no size can be cut by a whole order, decidable beforehand |
| ExitBalance.CoveredIsNeverCut | polymarket_bot/service.py:1398-1411 | a balance that covers all that is pending is one such case |
| ExitBalance.CoveredOffers | polymarket_bot/service.py:1398-1411 | with enough for all of them a ladder offers every rung whole, whichever orders are taken |
| ExitBalance.WholeSharesAreOffered | polymarket_bot/service.py:1367-1411 | with no exits yet and enough held, the pass offers every target its whole share of the fill, matched times fraction, when that makes an order |
| ExitBalance.NoShareIsLeftOut | polymarket_bot/service.py:1359-1411 | with one filled entry an outcome, every target of an open entry that the account holds enough for ends the pass with less than an order missing of matched times fraction, whichever orders are taken |
| ExitBalance.OffersNothingExactly | polymarket_bot/service.py:1363-1388 | a pass submits nothing for an entry if and only if it is closed, too little is available or nothing lacks a whole order |
| ExitBalance.SecondPassIsQuietExactly | polymarket_bot/service.py:1363-1411 | the pass made again for an entry submits nothing if and only if too little was left or no cut order was refused |
| ExitBalance.QuietWhateverTheMixExactly | polymarket_bot/service.py:1363-1411 | it is quiet whatever mix was taken and refused if and only if no rung could be cut by a whole order |
| ExitBalance.ARefusedCutIsOfferedAgain | polymarket_bot/service.py:1363-1411 | a table, a balance and a refusal for which the second pass offers again |
| ExitBalance.RepeatedPassDoesNothing | polymarket_bot/service.py:1359-1411 | when every ladder of a whole pass settled, a second pass over all entries changes nothing, even when entries share an outcome |
| ExitBalance.RepeatedPassIsQuietExactly | polymarket_bot/service.py:1359-1411 | with one filled entry an outcome, a second whole pass submits nothing if and only if the ladder of every entry still open settled |
| MarketLedger.Service.ConsiderMarket | polymarket_bot/service.py:809-874 | one market taken up, every gate in order |
| MarketLedger.Service.SkipMarket | polymarket_bot/service.py:876-889 | skipped, its retry forgotten |
| MarketLedger.Service.PlaceMarket | polymarket_bot/service.py:915-984 | the knocking budget, the open door, the row prepared only the first time |
| MarketLedger.Service.PlaceOnOneAccount | polymarket_bot/service.py:986-1104 | the four ends of one account's placement |
| MarketLedger.Service.PlaceOnFleet | polymarket_bot/service.py:1130-1230 | the five ends of a fleet's |
| MarketLedger.Service.RequeuePlacement | polymarket_bot/service.py:1232-1286 | a retry started once, then carried on |
| MarketLedger.TriedExactly | polymarket_bot/service.py:809-943 | an attempt is made if and only if everything is cleared; the rest of the batch is left if and only if a budget stands in the way of a market that could be started, and then nothing changes |
| MarketLedger.AttemptLeaves | polymarket_bot/service.py:944-1230 | active if and only if the whole entry stands, else skipped if it gave up with no order, else pending with a retry if it may be tried again and has none, else in error; the attempt is told with its orders, sends and end |
| MarketLedger.UntriedLeaves | polymarket_bot/service.py:809-943 | a market not tried is skipped if and only if the plan does not fit it or it comes too late, expires if its retry has outlived it, and is else left as it was |
| MarketLedger.OrderEndsTheTries | polymarket_bot/database.py:175-188 | a market with an order on the table, adopted ones included, is not tried again |
| MarketLedger.EveryOrderIsOnTheTable | polymarket_bot/service.py:1056-1057 | over every history, restarts included, the orders table holds every order any attempt reported, under its own market, and no others but those adopted |
| MarketLedger.AdoptedStays | polymarket_bot/service.py:477-576 | an order adopted for a market on record is on the table from then on |
| MarketLedger.AtMostOneAttemptRecords | polymarket_bot/service.py:1056-1104 | over every history, restarts included, every attempt at a market but the last recorded no order |
| MarketLedger.OneEndForAllAttempts | polymarket_bot/service.py:922-930 | of one process's attempts at a market the first knocks for its budget from when its turn came, all later ones to one end counted from when the first started; the retry counts exactly their sends |
| MarketLedger.DoneForGood | polymarket_bot/database.py:175-188 | a market in any state but pending is never tried again |
| FleetSettlement.Stamp | polymarket_bot/fleet.py:367-373 | a member's venue time is the earliest of its orders', known only when all are |
| FleetSettlement.VenueStamps | polymarket_bot/fleet.py:358-378 | the first poll at which every registered member has one, or none at all |
| FleetSettlement.KeptIsLeast | polymarket_bot/fleet.py:324-356 | one is kept if and only if any registered: the earliest on one clock used for all, the first of equals |
| FleetSettlement.KeptByVenueTime | polymarket_bot/fleet.py:324-356 | by the venue's stamps, where all registered members have one, the kept member registered no later than any other, the first of equals |
| FleetSettlement.KeptByReplyTime | polymarket_bot/fleet.py:324-356 | and by their replies otherwise, one without a time last |
| FleetSettlement.Fleet.Settle | polymarket_bot/fleet.py:380-419 | the orders, the ids cancelled and the accounts whose cancellation failed |
| FleetSettlement.OrdersConserved | polymarket_bot/fleet.py:380-419 | every order any member reported comes out once, in order, its account written in; only statuses change |
| FleetSettlement.OnlyLaggardsAreCancelled | polymarket_bot/fleet.py:380-419 | a registered member's orders, when another is kept, end as their cancellation was answered: cancelled exactly if listed so, over if listed so, else still to be cancelled, as when the account raised; everyone else's stand as reported |
| FleetSettlement.OthersStand | polymarket_bot/fleet.py:380-419 | the orders of the kept member, of one that did not register, and all when none is kept or every one is, stand as reported |
| FleetSettlement.CancellationsReported | polymarket_bot/fleet.py:380-419 | the ids and accounts reported are exactly those of the orders cancelled and of the accounts that raised with orders to cancel |
| FleetSettlement.OneMemberExposed | polymarket_bot/fleet.py:380-419 | of the registered members only the kept one has orders standing |
| FleetSettlement.NothingRestsWhenItMayBeRetried | polymarket_bot/fleet.py:84-102 | a placement that may be retried, or gave up, recorded nothing |
| FleetSettlement.SettledOneWay | polymarket_bot/exchange.py:351-423 | a knock settles as exactly one of unknown, whole, partial, given up or failed, and never as retryable |
| FleetSettlement.OneVerdictExactly | polymarket_bot/fleet.py:84-102 | kept, retryable and gave up exclude one another if and only if there is a member at all |
| FleetSettlement.RetriedOrGivenUpExactly | polymarket_bot/fleet.py:84-102 | a fleet is retried if and only if signing had to wait for every member, and gave up if and only if every member knocked in vain with nothing in doubt |
| EntryOrders.Exchange.PrepareEntry | polymarket_bot/exchange.py:281-316 | orders signed before are sent again; new ones are signed only when none are held |
| EntryOrders.Exchange.PlaceDual | polymarket_bot/exchange.py:253-279 | what a knock sends, and that it drops the signed orders exactly when it left no question about them |
| EntryOrders.Exchange.ReconcileAmbiguousDual | polymarket_bot/exchange.py:602-675 | so does a look at the open orders |
| EntryOrders.NoSecondSigningUnsettled | polymarket_bot/exchange.py:286-291 | between two knocks that send a market different signed orders, something settled what became of the first |
| EntryOrders.HeldExactly | polymarket_bot/exchange.py:281-316 | a signing is held if and only if some knock sent it and nothing has settled it since |
| EntryOrders.VerdictExactly | polymarket_bot/exchange.py:442-457 | a knock settles it if and only if it found the whole entry, part of it that was then cancelled, or nothing with no send in doubt |
| Activation.Latest | polymarket_bot/market_activation.py:139-141 | the start the cursor goes on from is no earlier than any market's found |
| Activation.MarketActivationWorker.RegisterCandidates | polymarket_bot/market_activation.py:166-188 | each market is ignored, handled as over, or kept as first registered |
| Activation.MarketActivationWorker.SeedDiscovery | polymarket_bot/market_activation.py:127-141 | the cursor starts after the latest market found |
| Activation.MarketActivationWorker.PollDiscovery | polymarket_bot/market_activation.py:143-149 | and moves on by one market for each found |
| Activation.MarketActivationWorker.BeginPoll | polymarket_bot/market_activation.py:190-203 | drops what has ended and reads the rest |
| Activation.MarketActivationWorker.AskVenue | polymarket_bot/market_activation.py:205-225 | goes on to claim only a market listed with both its tokens |
| Activation.MarketActivationWorker.ClaimCandidate | polymarket_bot/market_activation.py:227-231 | takes a candidate unless the other thread has |
| Activation.MarketActivationWorker.Emit | polymarket_bot/market_activation.py:232-238 | announces what was claimed, and goes on |
| Activation.AnnouncedExactlyOnce | polymarket_bot/market_activation.py:166-238 | over every interleaving: no slug is candidate and handled, none is announced twice, each was seen with both tokens, and every handled one was announced, is about to be, or was over |
| Activation.ListedIsAnnouncedExactly | polymarket_bot/market_activation.py:205-238 | whatever the discovery thread does meanwhile, a candidate asked about is announced if and only if both its tokens are listed and it is still held when claimed |
| Activation.PollAnnouncesExactly | polymarket_bot/market_activation.py:190-238 | a whole poll asks about every candidate not ended, in order, and announces exactly those listed, each with when it was found and seen |
| Activation.FailedPollStartsOver | polymarket_bot/market_activation.py:205-212 | a poll broken off leaves every candidate to the next |
| Activation.CandidatesAreFound | polymarket_bot/market_activation.py:166-188 | a new candidate is a market as it was found, not over and not handled, with when it was found |
| Activation.EndedWasOver | polymarket_bot/market_activation.py:166-203 | no market is dropped as ended before its end |
| Activation.HandledForGood | polymarket_bot/market_activation.py:166-238 | a handled slug never becomes a candidate again |
| Activation.CursorSkipsNone | polymarket_bot/market_activation.py:126-149 | every start the cursor has passed, five minutes apart, is known |
| Activation.CursorBegins | polymarket_bot/market_activation.py:127-141 | it begins one market after the latest found, all of them known unless only the cursor was asked for |
| PaperFill.ExecutionEvidence | polymarket_bot/paper.py:112-158 | an order is crossed if and only if some trade sold the token below its price or bought the opposite above the complement; the volume is what was traded at the price itself, and the trades kept are those two kinds |
| PaperFill.EvidenceExactly | polymarket_bot/paper.py:126-144 | what the closed form and the played queue read off the trades is that, in the trades' own fields |
| PaperFill.TakeExactly | polymarket_bot/paper.py:161-171 | a trade taken from the front of a queue of orders leaves exactly what it did not fill |
| PaperFill.FillIsThePlayedQueue | polymarket_bot/paper.py:161-171 | with no cancellations ahead the closed form is what the queue played trade by trade fills |
| PaperFill.FillIsALowerBound | polymarket_bot/paper.py:161-171 | it is never more, however cancellations ahead fall between the trades |
| PaperFill.CancellationsMoveTheQueueUp | polymarket_bot/paper.py:161-171 | and can be less: what is cancelled ahead the closed form still waits for |
| PaperFill.FillAnyOrder | polymarket_bot/paper.py:112-171 | it does not depend on the order of the trades |
| PaperFill.MirroredTradesAreEqual | polymarket_bot/paper.py:126-138 | a buy of the opposite token counts as the sell it mirrors |
| PaperFill.NoTradeCountsTwice | polymarket_bot/paper.py:187-222 | no trade counts for both outcomes |
| PaperReserve.Status | polymarket_bot/paper.py:509-533 | the reserve active now, and the sweep's peak |
| PaperReserve.ActiveIsTheCost | polymarket_bot/paper.py:509-524 | what is active is the cost of two orders for every market placed by the end of the second and not ended |
| PaperReserve.PeakIsTheMaximumOverTime | polymarket_bot/paper.py:509-533 | with no row placed after its end the peak is reached at some time and exceeded at none, now included |
| PaperReserve.LatePlacementsDoNotShow | polymarket_bot/paper.py:509-533 | so it is for five-minute markets with any number of rows placed after their ends, each before the next market's end |
| PaperReserve.PlacedTooLateHidesThePeak | polymarket_bot/paper.py:517-533 | every row placed a market's length late or more hides all that one row of the next market holds |
| PaperReserve.LatePlacementExactly | polymarket_bot/paper.py:517-533 | added to any five-minute markets placed in time, a row leaves the peak exact if and only if it is placed before the next market's end |
| CollectionId.OnePasses | polymarket_bot/conditional_tokens.py:21-26 | the candidate at x = 1 always passes |
| CollectionId.CurveExactly | polymarket_bot/conditional_tokens.py:23 | the value the search works out at x is x^3 + 3 |
| CollectionId.SearchPoint | polymarket_bot/conditional_tokens.py:21-26 | the search ends within p steps at the first x after the seed that passes |
| CollectionId.EveryPointPasses | polymarket_bot/conditional_tokens.py:21-26 | an x on the curve passes, where Fermat's theorem holds for its y |
| CollectionId.OnlyPointsPass | polymarket_bot/conditional_tokens.py:24-26 | and only an x with a point on the curve passes |
| CollectionId.CollectionIdOf | polymarket_bot/conditional_tokens.py:14-32 | the word unpacks to that x and the seed's top bit, with a y of that parity on y^2 = x^3 + 3 |
| CollectionId.PackedOnce | polymarket_bot/conditional_tokens.py:30-32 | a word is the word of exactly one x and one parity |
| CollectionId.FieldModulusInRange | polymarket_bot/conditional_tokens.py:6-8 | the field's modulus is in the range all this asks for |

## Left out

- CollectionId.CollectionIdOf: takes 2^(p-1) = 1 modulo p as given of the modulus p, which it leaves open; the field's own modulus is only shown to be in range. Hashing the seed and the final token hash are not modelled.
- ExitBalance.RepeatedPassIsQuietExactly: for tables with one filled entry an outcome, which is what one account's own placements leave; where entries share an outcome only RepeatedPassDoesNothing's direction holds, as a later entry can use up what an earlier one was left short of.
- ExitBalance.NoShareIsLeftOut: for tables with one filled entry an outcome and a balance that covers what the entry lacks; what a ladder short of balance leaves is SecondPassIsQuietExactly's and RepeatedPassIsQuietExactly's.
- ExitLadder.NeverBeyondTheFill: entry fills only grow and the words on exits satisfy TakesNoMore; user-stream words are written without a guard, and what they can then do is ALateFillGoesBeyond.
- PaperReserve.PeakIsTheMaximumOverTime: for rows placed no later than their end, whenever they end; late rows are LatePlacementExactly's, for ends a whole number of markets apart.
- Preview.SharesKeptExactly: over bursts of every interval; among bursts faster than the cadence some fleets whose cadence does not divide still lose only one nanosecond, and which ones is not characterised.
- KnockRuns.ReturnsInTime: one clock serves for deadlines and drains; the difference between the wall clock and the monotonic one is not modelled.
- TimingLoop.LaterKnockKeepsTheSpacing: about one knock after another; several knocks writing one account's slot at the same time are not interleaved.
- EntryOrders.NoSecondSigningUnsettled: a caller that asks not to retry, and whose look at the open orders finds nothing, counts as settling what became of the signing.
- Floats: phases, shares and milliseconds are exact rationals or whole nanoseconds, and money and shares are exact reals; the rounding of Go's and Python's floats and of Decimal's precision is not modelled.
- Networking, TLS, signing, header stamps, warm-up, the websocket streams, the process lock, configuration and the command line.
- Reading replies (`knocker/internal/venue/reply.go`): the class of a reply is an input, with what the code guarantees of it.
- The asking for the market's record and its counts, the holding of the burst gate and of the garbage collector: a turned record is its anchor and the give-up time it leads to.
- Replies later than the drain, which are only traced, and the trace itself.
- Minimum order sizes that are not positive: a market's is the venue's own, or five.
- Balance readings or database calls that raise: such an exit pass ends where it is, having done the part of the pass before it.
- How a submission that failed is looked up among the open orders (`polymarket_bot/exchange.py:713-758`): its answer is an input.
- The early return that drops the rest of an activation batch, the paced polls while signing, and when discovery, reconciliation and cancellation are due.
- `Fleet.place` gathering one outcome per member, health flags, status reports, event logging and the probe, which would only add easy members.
