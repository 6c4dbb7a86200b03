/**
 The page's interaction state machine. The component's state hooks become the
 fields of one object; each event handler and each timer callback becomes a
 method that sees the latest state. The browser's pending one-shot timers are
 part of the state too, so that a timer callback can only run after the
 handler that scheduled it.
 */
module Valentine {
  import opened Hearts
  import opened Placement
  import opened Trail

  class ValentinePage {
    var escapeCount: nat
    var accepted: bool
    var burstHearts: seq<BurstHeart>
    var showMessage: bool
    /** The button's top-left corner; `None` while it still sits in the page flow. */
    var buttonPos: Option<Point>
    var trailHearts: seq<TrailHeart>
    /** Generated once, when the page mounts, and never changed. */
    const floatingHearts: seq<FloatingHeart>

    /** Scheduled "show the message" callbacks that have not fired yet. */
    var messageTimers: nat
    /** Scheduled "clear the burst" callbacks that have not fired yet. */
    var burstTimers: nat
    /** The id lists of the trail batches whose cleanup has not fired yet. */
    var trailTimers: multiset<seq<int>>

    /**
     The button accepts a click once it has escaped enough times. Since no
     evasion happens with the gate open, it opens exactly at the fifth escape.
     */
    predicate CanClick()
      reads this
      ensures Valid() ==> (CanClick() <==> escapeCount == MaxEscapes)
    {
      escapeCount >= MaxEscapes
    }

    /**
     The button, and with it both of its handlers, exists only before acceptance;
     while the gate is closed it is always on screen.
     */
    predicate ButtonRendered()
      reads this
      ensures Valid() && escapeCount < MaxEscapes ==> ButtonRendered()
    {
      !accepted
    }

    ghost predicate Valid()
      reads this
    {
      && escapeCount <= MaxEscapes
      // the button leaves the page flow on the first evasion, and only trails after that
      && (buttonPos == None <==> escapeCount == 0)
      && (buttonPos == None ==> trailHearts == [] && trailTimers == multiset{})
      // acceptance needs the gate open, and everything after it hangs on acceptance
      && (accepted ==> escapeCount >= MaxEscapes)
      && (showMessage ==> accepted)
      && (messageTimers > 0 ==> accepted)
      && (burstTimers > 0 ==> accepted)
      && (burstHearts != [] ==> accepted && burstTimers > 0 && IsBurst(burstHearts))
      // every trail heart still has a pending cleanup that will remove it
      && (forall h :: h in trailHearts ==> exists ids :: ids in trailTimers && h.id in ids)
      && IsFloatingSet(floatingHearts)
    }

    /** The page as it first renders. */
    constructor (draws: seq<FloatingDraw>)
      requires |draws| == FloatingCount
      requires forall i :: 0 <= i < |draws| ==> draws[i].Valid()
      ensures Valid()
      ensures escapeCount == 0 && !accepted && !showMessage && buttonPos == None
      ensures burstHearts == [] && trailHearts == []
      ensures floatingHearts == FloatingHearts(draws)
      ensures messageTimers == 0 && burstTimers == 0 && trailTimers == multiset{}
    {
      escapeCount, accepted, showMessage, buttonPos := 0, false, false, None;
      burstHearts, trailHearts := [], [];
      floatingHearts := FloatingHearts(draws);
      messageTimers, burstTimers, trailTimers := 0, 0, multiset{};
    }

    /**
     The pointer entered the button. Until the gate opens the button jumps to a
     new place drawn from `rx`, `ry`; if it had already left the page flow it
     leaves a trail batch numbered from the clock readings `clock` at its old place and schedules
     that batch's cleanup.
     */
    method YeeetButton(innerWidth: real, innerHeight: real, rx: real, ry: real,
                       clock: seq<int>, draws: seq<TrailDraw>)
      requires Valid() && ButtonRendered()
      requires IsUnit(rx) && IsUnit(ry)
      requires |clock| == TrailSize
      requires |draws| == TrailSize && forall i :: 0 <= i < |draws| ==> draws[i].Valid()
      modifies this
      ensures Valid()
      ensures old(CanClick()) ==> unchanged(this)
      ensures !old(CanClick()) ==>
        && escapeCount == old(escapeCount) + 1
        && buttonPos == Some(NextPosition(innerWidth, innerHeight, rx, ry))
        && (old(buttonPos) == None ==>
              trailHearts == old(trailHearts) && trailTimers == old(trailTimers))
        && (old(buttonPos) != None ==>
              var batch := TrailBatch(old(buttonPos).value, clock, draws);
              trailHearts == old(trailHearts) + batch
              && trailTimers == old(trailTimers) + multiset{Ids(batch)})
        && accepted == old(accepted) && showMessage == old(showMessage)
        && burstHearts == old(burstHearts)
        && messageTimers == old(messageTimers) && burstTimers == old(burstTimers)
    {
      if CanClick() {
        return;
      }
      var next := NextPosition(innerWidth, innerHeight, rx, ry);
      if buttonPos != None {
        var batch := TrailBatch(buttonPos.value, clock, draws);
        var ids := Ids(batch);
        forall h | h in batch
          ensures h.id in ids
        {
          var i :| 0 <= i < |batch| && batch[i] == h;
          assert ids[i] == h.id;
        }
        trailHearts := trailHearts + batch;
        trailTimers := trailTimers + multiset{ids};
      }
      buttonPos := Some(next);
      escapeCount := escapeCount + 1;
    }

    /**
     The button was clicked. Before the gate opens nothing happens; after it,
     the page is accepted, the burst drawn from `draws` appears, and the message
     reveal and the burst cleanup are scheduled.
     */
    method HandleClick(draws: seq<BurstDraw>)
      requires Valid() && ButtonRendered()
      requires |draws| == BurstCount && forall i :: 0 <= i < |draws| ==> draws[i].Valid()
      modifies this
      ensures Valid()
      ensures !old(CanClick()) ==> unchanged(this)
      ensures old(CanClick()) ==>
        && accepted
        && burstHearts == BurstHearts(draws)
        && messageTimers == old(messageTimers) + 1 && burstTimers == old(burstTimers) + 1
        && escapeCount == old(escapeCount) && buttonPos == old(buttonPos)
        && showMessage == old(showMessage)
        && trailHearts == old(trailHearts) && trailTimers == old(trailTimers)
    {
      if !CanClick() {
        return;
      }
      accepted := true;
      burstHearts := BurstHearts(draws);
      messageTimers := messageTimers + 1;
      burstTimers := burstTimers + 1;
    }

    /** The 600 ms timer of an accepting click fires: the message is revealed. */
    method MessageTimerFires()
      requires Valid() && messageTimers > 0
      modifies this
      ensures Valid()
      ensures showMessage && accepted
      ensures messageTimers == old(messageTimers) - 1
      ensures escapeCount == old(escapeCount) && accepted == old(accepted)
      ensures buttonPos == old(buttonPos) && burstHearts == old(burstHearts)
      ensures trailHearts == old(trailHearts) && trailTimers == old(trailTimers)
      ensures burstTimers == old(burstTimers)
    {
      showMessage := true;
      messageTimers := messageTimers - 1;
    }

    /** The 3000 ms timer of an accepting click fires: the whole burst is cleared. */
    method BurstTimerFires()
      requires Valid() && burstTimers > 0
      modifies this
      ensures Valid()
      ensures burstHearts == []
      ensures burstTimers == old(burstTimers) - 1
      ensures escapeCount == old(escapeCount) && accepted == old(accepted)
      ensures showMessage == old(showMessage) && buttonPos == old(buttonPos)
      ensures trailHearts == old(trailHearts) && trailTimers == old(trailTimers)
      ensures messageTimers == old(messageTimers)
    {
      burstHearts := [];
      burstTimers := burstTimers - 1;
    }

    /**
     The 800 ms cleanup of the trail batch with ids `batchIds` fires: every trail
     heart carrying one of those ids is dropped, the others stay in order.
     */
    method TrailTimerFires(batchIds: seq<int>)
      requires Valid() && batchIds in trailTimers
      modifies this
      ensures Valid()
      ensures trailHearts == RemoveBatch(old(trailHearts), batchIds)
      ensures trailTimers == old(trailTimers) - multiset{batchIds}
      ensures escapeCount == old(escapeCount) && accepted == old(accepted)
      ensures showMessage == old(showMessage) && buttonPos == old(buttonPos)
      ensures burstHearts == old(burstHearts)
      ensures messageTimers == old(messageTimers) && burstTimers == old(burstTimers)
    {
      var kept := RemoveBatch(trailHearts, batchIds);
      var remaining := trailTimers - multiset{batchIds};
      forall h | h in kept
        ensures exists ids :: ids in remaining && h.id in ids
      {
        var ids :| ids in trailTimers && h.id in ids;
        assert ids != batchIds;
        assert ids in remaining;
      }
      trailHearts := kept;
      trailTimers := remaining;
    }
  }

  /**
   The life of the page: five evasions open the gate, a sixth hover changes
   nothing, a click accepts, and the timers reveal the message and clear the
   burst.
   */
  method Scenario()
  {
    var still := FloatingDraw(0.5, 0.5, 0.5, 0.5, 0.5);
    var page := new ValentinePage(seq(FloatingCount, _ => still));
    var jitter := seq(TrailSize, _ => TrailDraw(0.5, 0.5, 0.0));

    page.YeeetButton(1280.0, 800.0, 0.5, 0.5, Steady(1000), jitter);
    assert page.escapeCount == 1 && page.trailHearts == [];
    page.YeeetButton(1280.0, 800.0, 0.25, 0.75, Steady(2000), jitter);
    assert |page.trailHearts| == 3;
    page.YeeetButton(1280.0, 800.0, 0.0, 0.0, Steady(3000), jitter);
    page.YeeetButton(1280.0, 800.0, 0.9, 0.1, Steady(4000), jitter);
    assert page.escapeCount == 4 && !page.CanClick();
    page.YeeetButton(1280.0, 800.0, 0.3, 0.3, Steady(5000), jitter);
    assert page.escapeCount == 5 && page.CanClick();
    var pos := page.buttonPos;
    page.YeeetButton(1280.0, 800.0, 0.7, 0.7, Steady(6000), jitter);
    assert page.escapeCount == 5 && page.buttonPos == pos;

    page.HandleClick(seq(BurstCount, _ => BurstDraw(0.5, 0.5, 0.5, 0.5, 0.5)));
    assert page.accepted && |page.burstHearts| == BurstCount && !page.showMessage;
    page.MessageTimerFires();
    assert page.showMessage;
    page.BurstTimerFires();
    assert page.burstHearts == [] && page.accepted && page.showMessage;
  }
}
