/** The scroll-sync gate of PagerFragment.

    While the user swipes between two pages the pager reports many scroll
    ticks. The first tick of a gesture that has a non-zero offset, while the
    page shows a dynamic header, posts one RequestSyncEvent asking the page
    being revealed (the receiver) to align its list with the current page (the
    performer). Posting closes the gate `shouldSync`; only the pager reaching
    the IDLE scroll state opens it again. */
module ScrollSync {
  import opened Wrappers

  /** The three scroll states a pager reports. */
  datatype ScrollState = Idle | Dragging | Settling

  /** A RequestSyncEvent: the page whose list position is copied (performer),
      the page that copies it (receiver) and the id of the posting container. */
  datatype SyncEvent = SyncEvent(performerPage: int, receiverPage: int, containerId: int)

  /** What the scroll callbacks read and write: the gate
      (mShouldSyncListStates), the pager's current item, and the fragment's
      own mContainerFragmentId. */
  datatype Coordinator = Coordinator(shouldSync: bool, currentItem: int, containerId: int)

  /** Every callback the pager delivers to its page-change listener.
      `offset` is positionOffset; only its comparison with zero matters.
      `dynamicHeader` is what isDynamicHeader() answers at that tick.
      `Selected` stands for the pager having moved its current item to `page`. */
  datatype PagerCallback =
    | Scrolled(position: int, offset: real, dynamicHeader: bool)
    | Selected(page: int)
    | StateChanged(state: ScrollState)

  /** The state after one callback, and the event it posted, if any. */
  datatype Outcome = Outcome(next: Coordinator, posted: Option<SyncEvent>)

  /** The state after a run of callbacks, and every event posted, in order. */
  datatype Trace = Trace(final: Coordinator, log: seq<SyncEvent>)

  /** A fragment starts with its gate open. */
  function Initial(currentItem: int, containerId: int): (c: Coordinator)
    ensures c.shouldSync
    ensures c.currentItem == currentItem && c.containerId == containerId
  {
    Coordinator(true, currentItem, containerId)
  }

  /** The two pages on screen while the pager is scrolled at `position` with a
      non-zero offset: the page at `position` and the one to its right. */
  function VisiblePages(position: int): (pages: set<int>)
  {
    {position, position + 1}
  }

  /** The page that should receive the list position: the right-hand visible
      page when the current item is the left-hand one, the left-hand one
      otherwise. */
  function ReceiverPage(currentItem: int, position: int): (r: int)
    ensures r in VisiblePages(position)
    ensures r == position + 1 <==> currentItem == position
  {
    if currentItem == position then position + 1 else position
  }

  /** When the current item is one of the two visible pages, performer and
      receiver are the two visible pages, and they differ. */
  lemma ReceiverIsTheOtherVisiblePage(currentItem: int, position: int)
    requires currentItem in VisiblePages(position)
    ensures ReceiverPage(currentItem, position) != currentItem
    ensures {currentItem, ReceiverPage(currentItem, position)} == VisiblePages(position)
  {
  }

  /** onPageScrolled. */
  function OnPageScrolled(c: Coordinator, position: int, offset: real, dynamicHeader: bool): (o: Outcome)
    ensures o.posted.Some? <==> c.shouldSync && offset != 0.0 && dynamicHeader
    ensures o.posted.None? ==> o.next == c
    ensures o.posted.Some? ==> o.next == c.(shouldSync := false)
    ensures o.posted.Some? ==> o.posted.value.performerPage == c.currentItem
    ensures o.posted.Some? ==> o.posted.value.containerId == c.containerId
    ensures o.posted.Some? ==> o.posted.value.receiverPage == ReceiverPage(c.currentItem, position)
  {
    if c.shouldSync && offset != 0.0 && dynamicHeader then
      var event := SyncEvent(c.currentItem, ReceiverPage(c.currentItem, position), c.containerId);
      Outcome(c.(shouldSync := false), Some(event))
    else
      Outcome(c, None)
  }

  /** onPageScrollStateChanged: reaching IDLE opens the gate; DRAGGING and
      SETTLING leave everything as it was. */
  function OnPageScrollStateChanged(c: Coordinator, state: ScrollState): (c': Coordinator)
    ensures c'.shouldSync <==> state == Idle || c.shouldSync
    ensures state != Idle ==> c' == c
    ensures c'.currentItem == c.currentItem && c'.containerId == c.containerId
  {
    if state == Idle then c.(shouldSync := true) else c
  }

  /** onPageSelected: the pager has moved its current item; the gate is not
      touched. */
  function OnPageSelected(c: Coordinator, page: int): (c': Coordinator)
    ensures c'.currentItem == page
    ensures c'.shouldSync == c.shouldSync && c'.containerId == c.containerId
  {
    c.(currentItem := page)
  }

  /** One callback of any kind. */
  function Step(c: Coordinator, cb: PagerCallback): (o: Outcome)
    ensures o.next.containerId == c.containerId
    ensures !cb.Scrolled? ==> o.posted.None?
    ensures cb != StateChanged(Idle) && !c.shouldSync ==> !o.next.shouldSync && o.posted.None?
    ensures cb == StateChanged(Idle) ==> o.next.shouldSync
  {
    match cb
    case Scrolled(position, offset, dynamicHeader) => OnPageScrolled(c, position, offset, dynamicHeader)
    case Selected(page) => Outcome(OnPageSelected(c, page), None)
    case StateChanged(state) => Outcome(OnPageScrollStateChanged(c, state), None)
  }

  /** A run of callbacks, with the log of posted events. */
  function Run(c: Coordinator, cbs: seq<PagerCallback>): (t: Trace)
    ensures t.final.containerId == c.containerId
    ensures forall i :: 0 <= i < |t.log| ==> t.log[i].containerId == c.containerId
    ensures |t.log| <= |cbs|
    decreases |cbs|
  {
    if cbs == [] then Trace(c, [])
    else
      var o := Step(c, cbs[0]);
      var rest := Run(o.next, cbs[1..]);
      match o.posted
      case Some(e) => Trace(rest.final, [e] + rest.log)
      case None => Trace(rest.final, rest.log)
  }

  /** 1 for an open gate, 0 for a closed one: the number of events the gate
      can still let through before the next IDLE. */
  function Bit(b: bool): (n: nat)
  {
    if b then 1 else 0
  }

  /** No callback in `cbs` is a transition to IDLE. */
  predicate NoIdle(cbs: seq<PagerCallback>)
  {
    forall i :: 0 <= i < |cbs| ==> cbs[i] != StateChanged(Idle)
  }

  /** The number of transitions to IDLE in `cbs`. */
  function IdleCount(cbs: seq<PagerCallback>): (n: nat)
    decreases |cbs|
  {
    if cbs == [] then 0
    else (if cbs[0] == StateChanged(Idle) then 1 else 0) + IdleCount(cbs[1..])
  }

  /** A tick that posts an event whenever the gate is open. */
  predicate Fires(cb: PagerCallback)
  {
    cb.Scrolled? && cb.offset != 0.0 && cb.dynamicHeader
  }

  /** Without an IDLE transition the gate is a single token: either it is
      still open at the end, or exactly one event was posted, and never both. */
  lemma {:induction false} GateConservation(c: Coordinator, cbs: seq<PagerCallback>)
    requires NoIdle(cbs)
    ensures |Run(c, cbs).log| + Bit(Run(c, cbs).final.shouldSync) == Bit(c.shouldSync)
    decreases |cbs|
  {
    if cbs != [] {
      var o := Step(c, cbs[0]);
      assert NoIdle(cbs[1..]) by {
        forall i | 0 <= i < |cbs[1..]|
          ensures cbs[1..][i] != StateChanged(Idle)
        {
          assert cbs[1..][i] == cbs[i + 1];
        }
      }
      GateConservation(o.next, cbs[1..]);
    }
  }

  /** At most one sync event per gesture, and none at all when the gesture
      starts with the gate closed. */
  lemma AtMostOneEventPerGesture(c: Coordinator, cbs: seq<PagerCallback>)
    requires NoIdle(cbs)
    ensures |Run(c, cbs).log| <= 1
    ensures !c.shouldSync ==> Run(c, cbs).log == []
    ensures |Run(c, cbs).log| == 1 ==> !Run(c, cbs).final.shouldSync
  {
    GateConservation(c, cbs);
  }

  /** A closed gate stays closed until a transition to IDLE. */
  lemma ClosedGateStaysClosed(c: Coordinator, cbs: seq<PagerCallback>)
    requires NoIdle(cbs) && !c.shouldSync
    ensures !Run(c, cbs).final.shouldSync
    ensures Run(c, cbs).log == []
  {
    GateConservation(c, cbs);
  }

  /** A tick with a non-zero offset on a dynamic header closes the gate for
      the rest of the gesture, whatever the state before it. */
  lemma {:induction false} FiringTickClosesGate(c: Coordinator, cbs: seq<PagerCallback>, k: nat)
    requires NoIdle(cbs)
    requires k < |cbs| && Fires(cbs[k])
    ensures !Run(c, cbs).final.shouldSync
    decreases |cbs|
  {
    var o := Step(c, cbs[0]);
    assert NoIdle(cbs[1..]) by {
      forall i | 0 <= i < |cbs[1..]|
        ensures cbs[1..][i] != StateChanged(Idle)
      {
        assert cbs[1..][i] == cbs[i + 1];
      }
    }
    if k == 0 {
      assert !o.next.shouldSync;
      ClosedGateStaysClosed(o.next, cbs[1..]);
    } else {
      assert cbs[1..][k - 1] == cbs[k];
      FiringTickClosesGate(o.next, cbs[1..], k - 1);
    }
  }

  /** A gesture that starts with the gate open and contains a tick with a
      non-zero offset on a dynamic header posts exactly one sync event. */
  lemma ExactlyOneEventPerGesture(c: Coordinator, cbs: seq<PagerCallback>, k: nat)
    requires NoIdle(cbs) && c.shouldSync
    requires k < |cbs| && Fires(cbs[k])
    ensures |Run(c, cbs).log| == 1
  {
    FiringTickClosesGate(c, cbs, k);
    GateConservation(c, cbs);
  }

  /** Over any session, the number of sync events is at most the number of
      IDLE transitions, plus one if the gate was open at the start. */
  lemma {:induction false} EventsBoundedByIdles(c: Coordinator, cbs: seq<PagerCallback>)
    ensures |Run(c, cbs).log| + Bit(Run(c, cbs).final.shouldSync) <= IdleCount(cbs) + Bit(c.shouldSync)
    decreases |cbs|
  {
    if cbs != [] {
      EventsBoundedByIdles(Step(c, cbs[0]).next, cbs[1..]);
    }
  }

  /** A session that ends with the pager at rest leaves the gate open for the
      next gesture. */
  lemma {:induction false} IdleReopensGate(c: Coordinator, cbs: seq<PagerCallback>)
    requires cbs != [] && cbs[|cbs| - 1] == StateChanged(Idle)
    ensures Run(c, cbs).final.shouldSync
    decreases |cbs|
  {
    if |cbs| > 1 {
      assert cbs[1..][|cbs[1..]| - 1] == cbs[|cbs| - 1];
      IdleReopensGate(Step(c, cbs[0]).next, cbs[1..]);
    }
  }

  /** Four ticks: a forward drag from the current page 2 asks page 3 to
      follow, a backward drag asks page 1, and a static header or a zero
      offset posts nothing. */
  lemma SwipeScenarios()
    ensures OnPageScrolled(Coordinator(true, 2, 7), 2, 0.3, true)
            == Outcome(Coordinator(false, 2, 7), Some(SyncEvent(2, 3, 7)))
    ensures OnPageScrolled(Coordinator(true, 2, 7), 1, 0.6, true).posted
            == Some(SyncEvent(2, 1, 7))
    ensures OnPageScrolled(Coordinator(true, 2, 7), 2, 0.3, false).posted == None
    ensures OnPageScrolled(Coordinator(true, 2, 7), 2, 0.0, true).posted == None
  {
  }
}
