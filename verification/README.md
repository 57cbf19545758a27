# TrickWinnerDelay, modelled in Dafny

This project models the `TrickWinnerDelay` LiveView hook of the Lora card
game's web client. The hook polls the rendered trick every 200 ms. When it
first sees a complete four-card trick with a winner card, it lights up the
winner and schedules a clear for 2000 ms later. The clear resets its counters,
fades the trick's cards and removes the highlight.

The model is functional:

- `Dom` holds elements, class-list changes (`Effect`) and their meaning on a
  map from DOM node to class set. Class changes reach the node, so they hold
  even when the page changes the node's id in between.
- `SeatId` extracts the winning seat with the unanchored regex
  `trick-card-(\d+)`: the leftmost match and the greedy digit run.
- `TrickWinnerDelay` holds the hook's state (`lastTrickCount`,
  `trickWinnerVisible`, whether the interval runs, and the scheduled clears).
  It also holds the three callbacks `Tick`, `Clear` and `Detach`, and the
  event-driven `Step`/`Run` over a trace.
- `Traces` holds the lemmas over event sequences and the scenarios.

DOM queries are inputs. A `View` carries the `[id^="trick-card-"]` elements
and the optional `.winner-card` and `.winner-highlight` elements. Timers are
events. `Poll` is one run of the interval callback; it is dropped once the
interval is cleared. `Timeout` is one run of the oldest scheduled clear; it is
a no-op when none is scheduled. `Disconnect` is the `disconnected` hook.
Scheduled clears are kept as a sequence, so "at most one is pending" is proved
rather than built in.

The code is followed where the surrounding description differs:

- The comment on line 25 speaks of going "from 3 to 4 cards", but the guard is
  `lastTrickCount < 4`, so a jump from 0, 1 or 2 straight to 4 fires too.
- Detaching does not reset `trickWinnerVisible`. The flag stays true until the
  scheduled clear runs, and that clear still runs after detach.
- The clear fades whatever cards are rendered when it runs.

## Model

| member | source | states |
|---|---|---|
| TrickWinnerDelay.Mounted | apps/lora_web/assets/js/hooks.js:5-12 | mounting starts at count 0, no winner shown, interval running, nothing scheduled; the invariant holds |
| TrickWinnerDelay.Tick | apps/lora_web/assets/js/hooks.js:16-65 | a tick fires exactly when it sees 4 cards, the last count was below 4, a winner card exists and no winner is shown; the count seen is always recorded; a firing shows the winner, schedules one clear capturing the highlight element, glows the winner, highlights the emphasis element if present and yields the extracted seat; a non-firing tick changes only the count and has no effects |
| TrickWinnerDelay.Clear | apps/lora_web/assets/js/hooks.js:45-60 | the clear resets the count to 0 and the flag to false whatever is rendered, consumes its scheduled callback, fades the cards rendered at clear time and un-highlights the captured element |
| TrickWinnerDelay.Step | apps/lora_web/assets/js/hooks.js:16-72 | a poll runs the interval callback only while the interval runs and is otherwise inert; a timeout runs the oldest scheduled clear and is inert when none is scheduled; only a detach stops polling, and only a poll while polling can fire; see Traces.StepPreservesInv, Traces.ClearRunsAfterDetach, Traces.NoFiringAfterDetach |
| TrickWinnerDelay.Detach | apps/lora_web/assets/js/hooks.js:68-73 | detaching stops the interval and leaves the counters and the scheduled clears untouched |
| Dom.ApplyEffect | apps/lora_web/assets/js/hooks.js:31-33 | adding or removing a class changes only the target node's class set, by exactly that class, whatever id the node carries |
| Dom.AddToAll | apps/lora_web/assets/js/hooks.js:52-54 | the fade-out loop yields one add per queried card, in query order |
| Dom.AddToAllClasses | apps/lora_web/assets/js/hooks.js:52-54 | after the loop every queried card's node has the class, and no other node's class set changes |
| SeatId.DigitRun | apps/lora_web/assets/js/hooks.js:38 | the greedy `\d+` consumes a run of ASCII digits that cannot be extended |
| SeatId.SeatFrom | apps/lora_web/assets/js/hooks.js:38 | scanning from a position finds nothing exactly when no match starts there or later; otherwise it finds the first match and its full digit run |
| SeatId.ExtractSeat | apps/lora_web/assets/js/hooks.js:37-42 | a seat is extracted exactly when `trick-card-` followed by a digit occurs; it is then the maximal digit run after the leftmost occurrence |
| SeatId.SeatAtUnique | apps/lora_web/assets/js/hooks.js:38-40 | at a given match position the captured seat is unique |
| SeatId.ExtractSeatIsLeftmost | apps/lora_web/assets/js/hooks.js:38-40 | any maximal digit run after the leftmost occurrence is the extracted seat |
| SeatId.SeatOfTrickCard2 | apps/lora_web/assets/js/hooks.js:37-40 | the winner card id `trick-card-2` yields seat "2" |
| SeatId.SeatIsLeftmostGreedy | apps/lora_web/assets/js/hooks.js:38-40 | in `trick-card-12/trick-card-3` the first occurrence is taken with its whole digit run, giving "12" |
| SeatId.NoSeatWithoutDigits | apps/lora_web/assets/js/hooks.js:38-39 | an id with the prefix but no digit after it yields no seat |
| Traces.StepPreservesInv | apps/lora_web/assets/js/hooks.js:26-48 | a tick fires only when no clear is scheduled; every event keeps at most one clear scheduled, exactly while a winner is shown |
| Traces.RunPreservesInv | apps/lora_web/assets/js/hooks.js:26-48 | the invariant holds after any sequence of events |
| Traces.AtMostOnePendingClear | apps/lora_web/assets/js/hooks.js:26-48 | from mounting on, at most one clear is ever pending, and one is pending exactly while a winner is shown |
| Traces.AtMostOneFiringWithoutClear | apps/lora_web/assets/js/hooks.js:26-64 | without a clear running in between, at most one tick fires, none while a winner is already shown, and a shown winner stays shown |
| Traces.FiresOnceWhileComplete | apps/lora_web/assets/js/hooks.js:26-64 | any number of consecutive ticks seeing a full trick with a winner fire exactly once, on the first tick |
| Traces.NoWinnerNoFiring | apps/lora_web/assets/js/hooks.js:26-64 | with no winner card, ticks never fire and change no class list; only the last count seen is kept |
| Traces.ClearAllowsRefire | apps/lora_web/assets/js/hooks.js:26-48 | after the clear, a tick that still sees the full trick with its winner fires again |
| Traces.FireClasses | apps/lora_web/assets/js/hooks.js:28-34 | a firing adds the glow to the winner card's node and the highlight to the emphasis element's node if present, and changes nothing else |
| Traces.ClearClasses | apps/lora_web/assets/js/hooks.js:52-59 | a clear adds fade-out to every card node rendered at clear time, removes the highlight from the node captured at firing even if its id changed since, and changes nothing else |
| Traces.DetachStopsPolling | apps/lora_web/assets/js/hooks.js:68-72 | after detaching, ticks change neither the hook nor the page |
| Traces.NoFiringAfterDetach | apps/lora_web/assets/js/hooks.js:45-72 | once the interval is cleared, no sequence of events, including a scheduled clear that still runs, fires a tick or restarts polling |
| Traces.ClearRunsAfterDetach | apps/lora_web/assets/js/hooks.js:45-72 | a clear scheduled before detaching still runs afterwards, with its full effects and reset |
| Traces.ScenarioFillingTrickWithoutWinner | apps/lora_web/assets/js/hooks.js:16-65 | ticks at 0, 1, 2 and 3 cards with no winner do nothing but leave the count at 3 |
| Traces.ScenarioTrickCompletes | apps/lora_web/assets/js/hooks.js:16-65 | going from 3 to 4 cards with winner `trick-card-2` fires, glows that card, logs seat "2" and schedules a clear |
| Traces.ScenarioNoRetrigger | apps/lora_web/assets/js/hooks.js:16-65 | two full-trick ticks in a row apply effects once; the second only records the count |

## Left out

- The DOM queries themselves (CSS attribute and class selectors) are inputs to a tick, not modelled.
- The 200 ms period and the 2000 ms delay are not modelled. Timers are `Poll` and `Timeout` events in a trace, and no wall-clock time is modelled.
- The `console.log` line is left out. Only the extracted seat is an output.
- Mounting the same hook object twice is not modelled, because the framework gives each mount a fresh hook object. Other LiveView lifecycle callbacks are not part of the hook either.
- The `if (this.timer)` test in `disconnected` always holds after mounting, because an interval id is a positive number. So `Detach` always stops the interval.
