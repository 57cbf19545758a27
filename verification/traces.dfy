/** Properties of the hook over sequences of poll ticks, clear timeouts and
    detaches, and the effects of single callbacks on the page's class lists. */
module Traces {
  import opened Wrappers
  import opened Dom
  import opened TrickWinnerDelay

  predicate NoTimeouts(evs: seq<Event>)
  {
    forall i :: 0 <= i < |evs| ==> !evs[i].Timeout?
  }

  predicate AllComplete(views: seq<View>)
  {
    forall i :: 0 <= i < |views| ==> |views[i].cards| == TrickSize && views[i].winner.Some?
  }

  predicate NoWinner(views: seq<View>)
  {
    forall i :: 0 <= i < |views| ==> views[i].winner.None?
  }

  /** A tick fires only with no clear scheduled, and every event keeps at
      most one clear scheduled, scheduled exactly while a winner is shown. */
  lemma StepPreservesInv(h: Hook, e: Event)
    requires Inv(h)
    ensures Step(h, e).fired ==> h.pending == []
    ensures Inv(Step(h, e).hook)
  {
  }

  lemma {:induction false} RunPreservesInv(h: Hook, evs: seq<Event>)
    requires Inv(h)
    ensures Inv(Run(h, evs).hook)
    decreases |evs|
  {
    if |evs| > 0 {
      StepPreservesInv(h, evs[0]);
      RunPreservesInv(Step(h, evs[0]).hook, evs[1..]);
    }
  }

  /** From mounting on, whatever happens, at most one clear is ever pending. */
  lemma AtMostOnePendingClear(evs: seq<Event>)
    ensures |Run(Mounted(), evs).hook.pending| <= 1
    ensures Run(Mounted(), evs).hook.trickWinnerVisible <==> |Run(Mounted(), evs).hook.pending| == 1
  {
    RunPreservesInv(Mounted(), evs);
  }

  /** Without a clear running in between, at most one tick fires, and none
      while a winner is already shown; a winner stays shown once shown. */
  lemma {:induction false} AtMostOneFiringWithoutClear(h: Hook, evs: seq<Event>)
    requires NoTimeouts(evs)
    ensures Run(h, evs).firings + (if h.trickWinnerVisible then 1 else 0) <= 1
    ensures Run(h, evs).hook.trickWinnerVisible <==> h.trickWinnerVisible || Run(h, evs).firings == 1
    decreases |evs|
  {
    if |evs| > 0 {
      var o := Step(h, evs[0]);
      assert NoTimeouts(evs[1..]) by {
        forall i | 0 <= i < |evs[1..]| ensures !evs[1..][i].Timeout? {
          assert evs[1..][i] == evs[i + 1];
        }
      }
      AtMostOneFiringWithoutClear(o.hook, evs[1..]);
    }
  }

  /** Edge triggering: ticks that all see a full trick with a winner fire
      once, on the first of them, however many there are. */
  lemma {:induction false} FiresOnceWhileComplete(h: Hook, views: seq<View>)
    requires h.polling && !h.trickWinnerVisible && h.lastTrickCount < TrickSize
    requires 0 < |views| && AllComplete(views)
    ensures Step(h, Poll(views[0])).fired
    ensures Run(h, Polls(views)).firings == 1
    ensures Run(h, Polls(views)).hook.trickWinnerVisible
  {
    var evs := Polls(views);
    var o := Step(h, evs[0]);
    assert o.fired;
    assert NoTimeouts(evs[1..]) by {
      forall i | 0 <= i < |evs[1..]| ensures !evs[1..][i].Timeout? {
        assert evs[1..][i] == evs[i + 1];
      }
    }
    AtMostOneFiringWithoutClear(o.hook, evs[1..]);
  }

  /** With no winner card rendered, polling never fires and never touches a
      class list: it only records the last count it saw. */
  lemma {:induction false} NoWinnerNoFiring(h: Hook, views: seq<View>)
    requires h.polling && 0 < |views| && NoWinner(views)
    ensures Run(h, Polls(views))
            == RunResult(h.(lastTrickCount := |views[|views| - 1].cards|), [], 0)
    decreases |views|
  {
    var evs := Polls(views);
    var h1 := h.(lastTrickCount := |views[0].cards|);
    assert Step(h, evs[0]) == Outcome(h1, [], false, None);
    if |views| == 1 {
      assert Run(h1, evs[1..]) == RunResult(h1, [], 0);
    } else {
      assert evs[1..] == Polls(views[1..]);
      assert NoWinner(views[1..]) by {
        forall i | 0 <= i < |views[1..]| ensures views[1..][i].winner.None? {
          assert views[1..][i] == views[i + 1];
        }
      }
      NoWinnerNoFiring(h1, views[1..]);
    }
  }

  /** The clear resets regardless of what is rendered, so a tick right
      after it that still sees the full trick with its winner fires again. */
  lemma ClearAllowsRefire(h: Hook, cards: seq<Element>, v: View)
    requires h.polling && 0 < |h.pending|
    requires |v.cards| == TrickSize && v.winner.Some?
    ensures Run(h, [Timeout(cards), Poll(v)]).firings == 1
  {
  }

  /** A firing tick gives the winner card's node the glow and the emphasis
      element's node (when rendered) the highlight, and changes no other
      class list. */
  lemma FireClasses(dom: ClassLists, h: Hook, v: View)
    requires Completes(h, v)
    ensures forall n :: ClassesOf(ApplyEffects(dom, Tick(h, v).effects), n)
                        == ClassesOf(dom, n)
                           + (if n == v.winner.value.node then {GlowClass} else {})
                           + (if v.highlight.Some? && v.highlight.value.node == n then {HighlightClass} else {})
  {
  }

  /** A clear fades every card rendered when it runs, takes the highlight
      off the node captured at firing time (whatever its id is by then), and
      changes nothing else. */
  lemma ClearClasses(dom: ClassLists, h: Hook, cards: seq<Element>)
    requires 0 < |h.pending|
    ensures forall n :: ClassesOf(ApplyEffects(dom, Clear(h, cards).effects), n)
                        == (ClassesOf(dom, n) + (if n in Nodes(cards) then {FadeClass} else {}))
                           - (if h.pending[0].highlight.Some? && h.pending[0].highlight.value.node == n
                              then {HighlightClass} else {})
  {
    var hl := h.pending[0].highlight;
    var fade := AddToAll(cards, FadeClass);
    var tail := if hl.Some? then [RemoveClass(hl.value, HighlightClass)] else [];
    ApplyEffectsAppend(dom, fade, tail);
    AddToAllClasses(dom, cards, FadeClass);
    var dom1 := ApplyEffects(dom, fade);
    if hl.Some? {
      assert tail[1..] == [];
      assert ApplyEffects(dom1, tail) == ApplyEffect(dom1, RemoveClass(hl.value, HighlightClass));
    }
  }

  /** After `disconnected` no poll tick runs: the hook and the page stay
      as they are however long the view keeps rendering. */
  lemma {:induction false} DetachStopsPolling(h: Hook, views: seq<View>)
    ensures Run(Detach(h), Polls(views)) == RunResult(Detach(h), [], 0)
    decreases |views|
  {
    if |views| > 0 {
      var evs := Polls(views);
      assert evs[1..] == Polls(views[1..]);
      DetachStopsPolling(h, views[1..]);
    }
  }

  /** Once the interval is cleared nothing restarts it: whatever events
      follow, including a scheduled clear that still runs, no tick fires. */
  lemma {:induction false} NoFiringAfterDetach(h: Hook, evs: seq<Event>)
    requires !h.polling
    ensures Run(h, evs).firings == 0
    ensures !Run(h, evs).hook.polling
    decreases |evs|
  {
    if |evs| > 0 {
      NoFiringAfterDetach(Step(h, evs[0]).hook, evs[1..]);
    }
  }

  /** `disconnected` does not cancel a scheduled clear: it still runs,
      resets the counters and fades whatever cards are rendered then. */
  lemma ClearRunsAfterDetach(h: Hook, cards: seq<Element>)
    requires 0 < |h.pending|
    ensures Step(Detach(h), Timeout(cards)).effects == ClearEffects(cards, h.pending[0].highlight)
    ensures Step(Detach(h), Timeout(cards)).hook == Hook(0, false, false, h.pending[1..])
  {
  }

  /** The card element of a seat, with id `trick-card-<seat>` for seats 0 to 9. */
  function Card(seat: nat): (e: Element)
    requires seat < 10
    ensures e.node == seat
    ensures SeatId.ExtractSeat(e.id).Some?
  {
    Element(seat, "trick-card-" + ["0123456789"[seat]])
  }

  /** A view of `n` cards and no winner card or highlight. */
  function NoWinnerView(n: nat): (v: View)
    requires n <= 10
    ensures |v.cards| == n && v.winner.None? && v.highlight.None?
  {
    View(seq(n, i requires 0 <= i < n => Card(i)), None, None)
  }

  /** Ticks seeing 0, 1, 2, 3 cards and no winner after mounting: nothing
      fires, no class list changes, and the last count is 3. */
  lemma ScenarioFillingTrickWithoutWinner()
    ensures Run(Mounted(), Polls([NoWinnerView(0), NoWinnerView(1), NoWinnerView(2), NoWinnerView(3)]))
            == RunResult(Hook(3, false, true, []), [], 0)
  {
    var views := [NoWinnerView(0), NoWinnerView(1), NoWinnerView(2), NoWinnerView(3)];
    NoWinnerNoFiring(Mounted(), views);
  }

  /** A tick seeing three cards, then one seeing four with winner card
      `trick-card-2`: the second fires, glows that card, logs seat "2" and
      schedules a clear. */
  lemma ScenarioTrickCompletes()
    ensures
      var winner := Element(2, "trick-card-2");
      var full := View([Card(0), Card(1), winner, Card(3)], Some(winner), None);
      var h := Step(Mounted(), Poll(View([Card(0), Card(1), winner], None, None))).hook;
      var o := Step(h, Poll(full));
      && o.fired
      && o.effects == [AddClass(winner, GlowClass)]
      && o.seat == Some("2")
      && o.hook == Hook(4, true, true, [PendingClear(None)])
  {
    SeatId.SeatOfTrickCard2();
  }

  /** Two ticks in a row seeing the full trick with its winner: only the
      first applies effects; the second only records the count. */
  lemma ScenarioNoRetrigger(hl: Element)
    ensures
      var winner := Element(2, "trick-card-2");
      var full := View([Card(0), Card(1), winner, Card(3)], Some(winner), Some(hl));
      var r := Run(Mounted(), [Poll(full), Poll(full)]);
      && r.firings == 1
      && r.effects == [AddClass(winner, GlowClass), AddClass(hl, HighlightClass)]
      && r.hook == Hook(4, true, true, [PendingClear(Some(hl))])
  {
  }
}
