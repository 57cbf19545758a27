/** The `TrickWinnerDelay` hook: an edge-triggered detector of a completed
    trick, polled by an interval timer, whose firing schedules a one-shot
    delayed clear.

    The DOM reads of one poll tick are its input (`View`), class-list
    changes are its output (`Effect`s), and the two timers are events:
    `Poll` is one run of the interval callback, `Timeout` one run of a
    scheduled clear callback, `Disconnect` the `disconnected` lifecycle
    hook. Wall-clock time is not modelled. */
module TrickWinnerDelay {
  import opened Wrappers
  import opened Dom
  import SeatId

  /** Number of cards in a complete trick. */
  const TrickSize: nat := 4

  const GlowClass: string := "winner-glow-active"
  const HighlightClass: string := "highlight-active"
  const FadeClass: string := "fade-out"

  /** What one poll tick reads: the `[id^="trick-card-"]` elements, the
      first `.winner-card` and the first `.winner-highlight`, if any. */
  datatype View = View(cards: seq<Element>, winner: Option<Element>, highlight: Option<Element>)

  /** A scheduled clear callback. Its closure captured the
      `.winner-highlight` element (or its absence) of the tick that fired. */
  datatype PendingClear = PendingClear(highlight: Option<Element>)

  /** The hook's fields, whether its interval is still running, and the
      clear callbacks scheduled but not yet run, oldest first. */
  datatype Hook = Hook(
    lastTrickCount: nat,
    trickWinnerVisible: bool,
    polling: bool,
    pending: seq<PendingClear>)

  /** One callback's result: the new hook, the class-list changes in the
      order they are made, whether the trick-completed action fired, and
      the seat it logged. */
  datatype Outcome = Outcome(hook: Hook, effects: seq<Effect>, fired: bool, seat: Option<string>)

  datatype Event =
    | Poll(view: View)
    | Timeout(cards: seq<Element>)
    | Disconnect

  /** At most one clear is scheduled, and one is scheduled exactly while a
      winner is shown. */
  predicate Inv(h: Hook)
  {
    && |h.pending| <= 1
    && (h.trickWinnerVisible <==> |h.pending| == 1)
  }

  /** `mounted`: fresh counters and a running interval, nothing scheduled. */
  function Mounted(): (h: Hook)
    ensures h.lastTrickCount == 0 && !h.trickWinnerVisible
    ensures h.polling && h.pending == []
    ensures Inv(h)
  {
    Hook(0, false, true, [])
  }

  /** The condition of the `if` in the interval callback. */
  predicate Completes(h: Hook, v: View)
  {
    && |v.cards| == TrickSize
    && h.lastTrickCount < TrickSize
    && v.winner.Some?
    && !h.trickWinnerVisible
  }

  /** The class-list changes of a firing tick: glow on the winner card,
      then the highlight on the emphasis element when there is one. */
  function FireEffects(winner: Element, highlight: Option<Element>): (effs: seq<Effect>)
    ensures |effs| == if highlight.Some? then 2 else 1
    ensures effs[0] == AddClass(winner, GlowClass)
  {
    [AddClass(winner, GlowClass)]
    + (if highlight.Some? then [AddClass(highlight.value, HighlightClass)] else [])
  }

  /** One run of the interval callback. */
  function Tick(h: Hook, v: View): (o: Outcome)
    ensures o.fired <==> Completes(h, v)
    ensures o.hook.lastTrickCount == |v.cards|
    ensures o.hook.polling == h.polling
    ensures o.fired ==> && o.hook.trickWinnerVisible
                        && o.hook.pending == h.pending + [PendingClear(v.highlight)]
                        && o.effects == FireEffects(v.winner.value, v.highlight)
                        && o.seat == SeatId.ExtractSeat(v.winner.value.id)
    ensures !o.fired ==> && o.hook == h.(lastTrickCount := |v.cards|)
                         && o.effects == []
                         && o.seat == None
  {
    if Completes(h, v) then
      var fired := h.(trickWinnerVisible := true, pending := h.pending + [PendingClear(v.highlight)]);
      Outcome(fired.(lastTrickCount := |v.cards|),
              FireEffects(v.winner.value, v.highlight),
              true,
              SeatId.ExtractSeat(v.winner.value.id))
    else
      Outcome(h.(lastTrickCount := |v.cards|), [], false, None)
  }

  /** The class-list changes of a clear: fade every card present now, then
      take the highlight off the element captured at firing time. */
  function ClearEffects(cards: seq<Element>, highlight: Option<Element>): (effs: seq<Effect>)
    ensures |effs| == |cards| + (if highlight.Some? then 1 else 0)
    ensures effs[..|cards|] == AddToAll(cards, FadeClass)
    ensures highlight.Some? ==> effs[|cards|] == RemoveClass(highlight.value, HighlightClass)
  {
    AddToAll(cards, FadeClass)
    + (if highlight.Some? then [RemoveClass(highlight.value, HighlightClass)] else [])
  }

  /** One run of the oldest scheduled clear callback, with `cards` the
      `[id^="trick-card-"]` elements rendered when it runs. */
  function Clear(h: Hook, cards: seq<Element>): (o: Outcome)
    requires |h.pending| > 0
    ensures o.hook.lastTrickCount == 0 && !o.hook.trickWinnerVisible
    ensures o.hook.polling == h.polling
    ensures o.hook.pending == h.pending[1..]
    ensures o.effects == ClearEffects(cards, h.pending[0].highlight)
    ensures !o.fired && o.seat == None
  {
    Outcome(Hook(0, false, h.polling, h.pending[1..]),
            ClearEffects(cards, h.pending[0].highlight), false, None)
  }

  /** `disconnected`: the interval is cleared; scheduled clears are not. */
  function Detach(h: Hook): (r: Hook)
    ensures !r.polling
    ensures r.lastTrickCount == h.lastTrickCount
    ensures r.trickWinnerVisible == h.trickWinnerVisible
    ensures r.pending == h.pending
  {
    h.(polling := false)
  }

  /** One event. A poll after the interval is cleared, or a timeout with
      no clear scheduled, does not happen, so changes nothing. A timeout
      runs the oldest scheduled clear: all clears wait the same delay. */
  function Step(h: Hook, e: Event): (o: Outcome)
    ensures e.Poll? && h.polling ==> o == Tick(h, e.view)
    ensures e.Poll? && !h.polling ==> o == Outcome(h, [], false, None)
    ensures e.Timeout? && |h.pending| > 0 ==> o == Clear(h, e.cards)
    ensures e.Timeout? && |h.pending| == 0 ==> o == Outcome(h, [], false, None)
    ensures e.Disconnect? ==> o.hook == Detach(h) && o.effects == [] && !o.fired
    ensures o.hook.polling <==> h.polling && !e.Disconnect?
    ensures o.fired ==> e.Poll? && h.polling
  {
    match e
    case Poll(v) => if h.polling then Tick(h, v) else Outcome(h, [], false, None)
    case Timeout(cards) => if |h.pending| > 0 then Clear(h, cards) else Outcome(h, [], false, None)
    case Disconnect => Outcome(Detach(h), [], false, None)
  }

  /** The result of a sequence of events: the final hook, every class-list
      change in order, and how many ticks fired. */
  datatype RunResult = RunResult(hook: Hook, effects: seq<Effect>, firings: nat)

  function Run(h: Hook, evs: seq<Event>): (r: RunResult)
    ensures |evs| == 0 ==> r == RunResult(h, [], 0)
    ensures r.firings <= |evs|
    decreases |evs|
  {
    if |evs| == 0 then RunResult(h, [], 0)
    else
      var o := Step(h, evs[0]);
      var r := Run(o.hook, evs[1..]);
      RunResult(r.hook, o.effects + r.effects, (if o.fired then 1 else 0) + r.firings)
  }

  /** The poll events for a sequence of views. */
  function Polls(views: seq<View>): (evs: seq<Event>)
    ensures |evs| == |views|
    ensures forall i :: 0 <= i < |views| ==> evs[i] == Poll(views[i])
    decreases |views|
  {
    if |views| == 0 then [] else [Poll(views[0])] + Polls(views[1..])
  }
}
