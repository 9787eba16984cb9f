/** The decisions PagerFragment takes on the events it receives from the
    event bus: which AnimateEvents it plays, which ResultsEvents it passes on
    to its subclass, and how a change of the sliding panel moves the page
    selector. */
module EventFilters {
  import opened Wrappers

  /** An AnimateEvent: the container and page it is meant for, and the play
      time to animate to. */
  datatype AnimateEvent = AnimateEvent(containerId: int, page: int, playTime: int)

  /** A ResultsEvent: the id of the finished request and its data. */
  datatype ResultsEvent<D> = ResultsEvent(requestId: string, data: D)

  /** The states of the sliding panel. `Other` is any further state of the
      panel library, which the switch does not list. */
  datatype SlideState = Collapsed | Expanded | Hidden | Other

  /** Whether the player panel is on screen. */
  datatype PanelVisibility = PanelShown | PanelHidden

  /** onEventMainThread(AnimateEvent): the play time to animate to, when the
      event names this container and the page currently shown. `pagerItem` is
      the pager's current item, None while the pager is not set up. */
  function OnAnimateEvent(containerId: int, pagerItem: Option<int>, e: AnimateEvent): (r: Option<int>)
    ensures r.Some? <==> e.containerId == containerId && pagerItem == Some(e.page)
    ensures r.Some? ==> r.value == e.playTime
  {
    if containerId == e.containerId && pagerItem.Some? && e.page == pagerItem.value then
      Some(e.playTime)
    else
      None
  }

  /** One fragment as the animate filter sees it. */
  datatype Container = Container(id: int, pagerItem: Option<int>)

  /** Of several containers with distinct ids, at most one plays a given
      AnimateEvent: the one the event names, and only if it shows the page. */
  lemma AtMostOneContainerAnimates(cs: seq<Container>, e: AnimateEvent, i: int)
    requires forall a, b :: 0 <= a < b < |cs| ==> cs[a].id != cs[b].id
    requires 0 <= i < |cs|
    requires OnAnimateEvent(cs[i].id, cs[i].pagerItem, e).Some?
    ensures cs[i].id == e.containerId
    ensures forall j :: 0 <= j < |cs| && j != i ==> OnAnimateEvent(cs[j].id, cs[j].pagerItem, e).None?
  {
    forall j | 0 <= j < |cs| && j != i
      ensures OnAnimateEvent(cs[j].id, cs[j].pagerItem, e).None?
    {
      if j < i {
        assert cs[j].id != cs[i].id;
      } else {
        assert cs[i].id != cs[j].id;
      }
    }
  }

  /** onEventMainThread(ResultsEvent): whether the results are passed on,
      which is when this fragment asked for them. */
  predicate ForwardsResults<D>(requestIds: set<string>, e: ResultsEvent<D>)
  {
    e.requestId in requestIds
  }

  /** A ResultsEvent as it reaches the fragment, with the fragment's set of
      outstanding request ids at that moment (subclasses add to the set
      between events). */
  datatype Arrival<D> = Arrival(requestIds: set<string>, event: ResultsEvent<D>)

  /** The results a fragment passes on from a stream of arrivals, in order. */
  function ForwardedResults<D>(arrivals: seq<Arrival<D>>): (r: seq<ResultsEvent<D>>)
    ensures |r| <= |arrivals|
    ensures forall k :: 0 <= k < |r| ==> exists a :: a in arrivals && a.event == r[k] && ForwardsResults(a.requestIds, a.event)
    ensures forall k :: 0 <= k < |arrivals| && ForwardsResults(arrivals[k].requestIds, arrivals[k].event)
                        ==> arrivals[k].event in r
    decreases |arrivals|
  {
    if arrivals == [] then []
    else
      var rest := ForwardedResults(arrivals[1..]);
      assert forall i :: 0 <= i < |arrivals[1..]| ==> arrivals[1..][i] in arrivals;
      var a := arrivals[0];
      if ForwardsResults(a.requestIds, a.event) then [a.event] + rest else rest
  }

  /** One arrival is passed on, once, exactly when its request id is
      outstanding at that moment. */
  lemma ForwardOne<D>(a: Arrival<D>)
    ensures ForwardedResults([a]) == if ForwardsResults(a.requestIds, a.event) then [a.event] else []
  {
    assert [a][1..] == [];
  }

  /** Forwarding keeps arrival order: the results of two stretches of the
      stream are the results of the first followed by those of the second.
      With ForwardOne this fixes the result for every stream, including its
      order and how often each event is passed on. */
  lemma {:induction false} ForwardConcat<D>(xs: seq<Arrival<D>>, ys: seq<Arrival<D>>)
    ensures ForwardedResults(xs + ys) == ForwardedResults(xs) + ForwardedResults(ys)
    decreases |xs|
  {
    if xs == [] {
      assert xs + ys == ys;
    } else {
      assert (xs + ys)[0] == xs[0];
      assert (xs + ys)[1..] == xs[1..] + ys;
      ForwardConcat(xs[1..], ys);
    }
  }

  /** onEventMainThread(SlidingLayoutChangedEvent): collapsed and expanded
      mean the panel is shown, hidden means hidden, any other state is
      ignored. */
  function OnSlidingLayoutChanged(s: SlideState): (r: Option<PanelVisibility>)
    ensures r == Some(PanelShown) <==> s == Collapsed || s == Expanded
    ensures r == Some(PanelHidden) <==> s == Hidden
    ensures r.None? <==> s == Other
  {
    match s
    case Collapsed => Some(PanelShown)
    case Expanded => Some(PanelShown)
    case Hidden => Some(PanelHidden)
    case Other => None
  }

  /** onSlidingLayoutShown / onSlidingLayoutHidden: the selector's new
      bottom margin. With the panel shown the selector sits a panel height
      above the bottom (a negative margin); with it hidden it sits at the
      bottom. Without a view or a selector nothing changes. */
  function SelectorBottomMargin(v: PanelVisibility, panelHeight: int, selectorAttached: bool, margin: int): (r: int)
    ensures !selectorAttached ==> r == margin
    ensures selectorAttached && v == PanelShown ==> r == -panelHeight
    ensures selectorAttached && v == PanelHidden ==> r == 0
  {
    if !selectorAttached then margin
    else match v
      case PanelShown => -panelHeight
      case PanelHidden => 0
  }

  /** Only the last visibility change matters: the margin does not depend on
      what came before, so repeating a change is harmless. Without a view or
      a selector both sides leave the margin as it was. */
  lemma LastVisibilityWins(v1: PanelVisibility, v2: PanelVisibility, panelHeight: int, attached: bool, margin: int)
    ensures SelectorBottomMargin(v2, panelHeight, attached, SelectorBottomMargin(v1, panelHeight, attached, margin))
            == SelectorBottomMargin(v2, panelHeight, attached, margin)
  {
  }
}
