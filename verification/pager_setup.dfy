/** PagerFragment.setupPager: picks the shown entry of every page, decides
    which page the pager is asked to show, and places the selector for the
    panel's current visibility. */
module PagerSetup {
  import opened Wrappers
  import opened FragmentInfoLists
  import opened EventFilters

  /** What setupPager hands to the pager and the selector: the entry shown on
      each page, the page the pager is asked to show (None: no request), and
      the panel visibility the selector is placed for. */
  datatype Setup<T> = Setup(pageInfos: seq<T>, requestedPage: Option<int>, visibility: PanelVisibility)

  /** The current entry of every list, in order; the first list whose
      cursor cannot be read makes the whole call throw with its error. */
  method CollectCurrentInfos<T>(lists: seq<FragmentInfoList<T>>) returns (r: Result<seq<T>, ListError>)
    ensures r.Success? <==> forall i :: 0 <= i < |lists| ==> GetCurrentFragmentInfo(lists[i]).Success?
    ensures r.Success? ==> |r.value| == |lists|
    ensures r.Success? ==> forall i :: 0 <= i < |lists| ==> r.value[i] == GetCurrentFragmentInfo(lists[i]).value
    ensures r.Failure? ==> exists i :: 0 <= i < |lists|
                                       && (forall j :: 0 <= j < i ==> GetCurrentFragmentInfo(lists[j]).Success?)
                                       && GetCurrentFragmentInfo(lists[i]) == Failure(r.error)
  {
    var infos: seq<T> := [];
    var n := 0;
    while n < |lists|
      invariant 0 <= n <= |lists|
      invariant |infos| == n
      invariant forall j :: 0 <= j < n ==> GetCurrentFragmentInfo(lists[j]).Success?
      invariant forall j :: 0 <= j < n ==> infos[j] == GetCurrentFragmentInfo(lists[j]).value
    {
      var info := GetCurrentFragmentInfo(lists[n]);
      if info.Failure? {
        return Failure(info.error);
      }
      infos := infos + [info.value];
      n := n + 1;
    }
    return Success(infos);
  }

  /** The page the pager is asked to show: the given initial page when it
      is not negative, else the pager's own current item, and no request at
      all when that is negative too. */
  function RequestedPage(initialPage: int, pagerItem: int): (r: Option<int>)
    ensures initialPage >= 0 ==> r == Some(initialPage)
    ensures initialPage < 0 ==> (r.Some? <==> pagerItem >= 0)
    ensures r.Some? ==> r.value >= 0 && (r.value == initialPage || r.value == pagerItem)
  {
    var page := if initialPage < 0 then pagerItem else initialPage;
    if page >= 0 then Some(page) else None
  }

  /** The visibility the selector is placed for at setup time. */
  function InitialVisibility(panelHidden: bool): (v: PanelVisibility)
    ensures v == PanelHidden <==> panelHidden
  {
    if panelHidden then PanelHidden else PanelShown
  }

  /** Setup places the selector exactly as a later slide event reporting the
      same panel state would. */
  lemma SetupAgreesWithSlideEvents(panelHidden: bool, s: SlideState)
    requires s != Other
    requires panelHidden <==> s == Hidden
    ensures OnSlidingLayoutChanged(s) == Some(InitialVisibility(panelHidden))
  {
  }

  /** setupPager. Fails exactly when some list's current entry cannot be
      read. */
  method SetupPager<T>(lists: seq<FragmentInfoList<T>>, initialPage: int, pagerItem: int, panelHidden: bool)
    returns (r: Result<Setup<T>, ListError>)
    ensures r.Success? <==> forall i :: 0 <= i < |lists| ==> GetCurrentFragmentInfo(lists[i]).Success?
    ensures r.Success? ==> |r.value.pageInfos| == |lists|
    ensures r.Success? ==> forall i :: 0 <= i < |lists| ==> r.value.pageInfos[i] == GetCurrentFragmentInfo(lists[i]).value
    ensures r.Success? ==> r.value.requestedPage == RequestedPage(initialPage, pagerItem)
    ensures r.Success? ==> (r.value.visibility == PanelHidden <==> panelHidden)
  {
    var infos := CollectCurrentInfos(lists);
    match infos
    case Failure(e) =>
      return Failure(e);
    case Success(xs) =>
      return Success(Setup(xs, RequestedPage(initialPage, pagerItem), InitialVisibility(panelHidden)));
  }
}
