# PagerFragment scroll-sync and event filters, in Dafny

This project models the decision logic of Tomahawk Player's `PagerFragment`. That is the
Android container that hosts several swipeable pages under one collapsible header. Most of
the class is widget wiring. Four pieces take real decisions, and they are modelled here:

- **The scroll-sync gate** (`ScrollSync`, `scroll_sync.dfy`). The first scroll tick of a
  swipe with a non-zero offset, while the page shows a dynamic header, posts one
  `RequestSyncEvent`. The event names the performer page (the pager's current item), the
  receiver page (`position + 1` when the current item is `position`, otherwise `position`)
  and the container id. The receiver is the other visible page only while the current item
  is on screen. During a smooth jump across several pages the current item already names
  the target, so the performer can be off screen. Posting closes the gate
  `mShouldSyncListStates`. Only the pager reaching the IDLE scroll state reopens it. The
  callbacks are pure step functions returning the next state and the posted event, if any.
  `Run` folds them over a session into a log of posted events. The lemmas show:
  - within one gesture (no IDLE) at most one event is posted;
  - exactly one is posted when the gate was open and some tick fires;
  - over a whole session, events never outnumber IDLE transitions plus the initial open gate.
- **`FragmentInfoList`** (`FragmentInfoLists`, `fragment_info_list.dfy`). This is a list
  that stays null until the first add, plus a cursor that is never bounds-checked. The
  Java exceptions (NullPointerException, IndexOutOfBoundsException) are `Failure` results.
- **The event filters** (`EventFilters`, `event_filters.dfy`). They cover the three
  `onEventMainThread` overloads and the selector margin that the panel's visibility
  selects.
- **`setupPager`** (`PagerSetup`, `pager_setup.dfy`). It collects every list's current
  entry and applies the `initialPage < 0` default. It also places the selector for the
  panel's visibility at setup time.

`Wrappers` (`wrappers.dfy`) holds `Option` (a nullable reference) and `Result` (a call
that may throw).

Two points of the code are easy to misread:
- The code never checks whether a swipe changes the page. Its only page comparison
  (`PagerFragment.java:158`) picks the receiver. It posts on the first qualifying tick of a
  gesture, whichever way the swipe ends.
- The Javadoc of `onPageScrolled` (`PagerFragment.java:145`) gives `positionOffset` the range
  [0, 1). The code only compares it with zero, so the model takes any real number.

## Model

| member | source | states |
|---|---|---|
| ScrollSync.Initial | src/org/tomahawk/tomahawk_android/fragments/PagerFragment.java:56 | a fragment starts with the sync gate open |
| ScrollSync.ReceiverPage | src/org/tomahawk/tomahawk_android/fragments/PagerFragment.java:158-165 | the receiver is one of the two visible pages `position` and `position + 1`, and it is the right-hand one exactly when the current item is `position` |
| ScrollSync.ReceiverIsTheOtherVisiblePage | src/org/tomahawk/tomahawk_android/fragments/PagerFragment.java:158-166 | when the current item is on screen, performer and receiver are distinct and are together the two visible pages |
| ScrollSync.OnPageScrolled | src/org/tomahawk/tomahawk_android/fragments/PagerFragment.java:150-170 | an event is posted iff the gate is open, the offset is non-zero and the header is dynamic; if nothing is posted the state is unchanged; if an event is posted the gate closes and the event carries the current item as performer, the receiver page and the own container id |
| ScrollSync.OnPageScrollStateChanged | src/org/tomahawk/tomahawk_android/fragments/PagerFragment.java:196-204 | after the change the gate is open iff the new state is IDLE or it was open before; DRAGGING and SETTLING change nothing |
| ScrollSync.OnPageSelected | src/org/tomahawk/tomahawk_android/fragments/PagerFragment.java:179-183 | a page selection moves the current item and leaves the gate alone |
| ScrollSync.Step | src/org/tomahawk/tomahawk_android/fragments/PagerFragment.java:150-204 | only scroll ticks post events; a closed gate stays closed and posts nothing under any callback but IDLE; IDLE always leaves it open |
| ScrollSync.Run | src/org/tomahawk/tomahawk_android/fragments/PagerFragment.java:155-168 | every event posted over a session carries the fragment's own container id, and there is at most one per callback |
| ScrollSync.GateConservation | src/org/tomahawk/tomahawk_android/fragments/PagerFragment.java:155-156 | with no IDLE transition, the number of posted events plus "gate still open" equals "gate open at the start" |
| ScrollSync.AtMostOneEventPerGesture | src/org/tomahawk/tomahawk_android/fragments/PagerFragment.java:155-203 | a gesture (no IDLE) posts at most one event, none if it starts with the gate closed, and a posted event leaves the gate closed |
| ScrollSync.ClosedGateStaysClosed | src/org/tomahawk/tomahawk_android/fragments/PagerFragment.java:155-203 | a closed gate stays closed and posts nothing until an IDLE transition |
| ScrollSync.FiringTickClosesGate | src/org/tomahawk/tomahawk_android/fragments/PagerFragment.java:155-156 | one non-zero-offset tick on a dynamic header anywhere in a gesture leaves the gate closed at its end |
| ScrollSync.ExactlyOneEventPerGesture | src/org/tomahawk/tomahawk_android/fragments/PagerFragment.java:155-168 | a gesture starting with the gate open that contains such a tick posts exactly one event |
| ScrollSync.EventsBoundedByIdles | src/org/tomahawk/tomahawk_android/fragments/PagerFragment.java:155-203 | over any session, events posted (plus a still-open gate) never exceed the IDLE transitions plus the gate open at the start |
| ScrollSync.IdleReopensGate | src/org/tomahawk/tomahawk_android/fragments/PagerFragment.java:201-203 | a session that ends with an IDLE transition leaves the gate open for the next gesture |
| ScrollSync.SwipeScenarios | src/org/tomahawk/tomahawk_android/fragments/PagerFragment.java:155-168 | forward drag from page 2 asks page 3, backward drag asks page 1, a static header or zero offset posts nothing |
| FragmentInfoLists.Empty | src/org/tomahawk/tomahawk_android/fragments/PagerFragment.java:62-64 | a new list has no backing list and its cursor at 0 |
| FragmentInfoLists.AddFragmentInfo | src/org/tomahawk/tomahawk_android/fragments/PagerFragment.java:66-71 | after an add the backing list exists, is one longer, ends with the new entry and keeps all earlier entries; the cursor does not move |
| FragmentInfoLists.SetCurrent | src/org/tomahawk/tomahawk_android/fragments/PagerFragment.java:81-83 | any index is stored as the cursor, unchecked, and the entries are untouched |
| FragmentInfoLists.Size | src/org/tomahawk/tomahawk_android/fragments/PagerFragment.java:85-87 | the number of entries, or a null-reference failure while nothing was ever added |
| FragmentInfoLists.GetCurrentFragmentInfo | src/org/tomahawk/tomahawk_android/fragments/PagerFragment.java:77-79 | succeeds iff the list exists and `0 <= cursor < size`, with the entry under the cursor; otherwise the null-reference or out-of-bounds failure |
| FragmentInfoLists.AddAllAppends | src/org/tomahawk/tomahawk_android/fragments/PagerFragment.java:66-71 | adding a sequence of entries appends them in order; the list stays null only when it was null and nothing was added |
| FragmentInfoLists.SelectAfterFill | src/org/tomahawk/tomahawk_android/fragments/PagerFragment.java:66-87 | filling a new list with `xs` and setting the cursor to `i` returns `xs[i]` for every valid `i`, the matching failure otherwise, and size `|xs|` |
| EventFilters.OnAnimateEvent | src/org/tomahawk/tomahawk_android/fragments/PagerFragment.java:91-97 | an animation is played iff the event's container id is the fragment's and its page is the pager's current item (never without a pager), with the event's play time |
| EventFilters.AtMostOneContainerAnimates | src/org/tomahawk/tomahawk_android/fragments/PagerFragment.java:92-94 | among containers with distinct ids, only the one the event names can play it |
| EventFilters.ForwardedResults | src/org/tomahawk/tomahawk_android/fragments/PagerFragment.java:100-104 | every event passed on arrived while its request id was outstanding, and every such arrival is passed on |
| EventFilters.ForwardOne | src/org/tomahawk/tomahawk_android/fragments/PagerFragment.java:101-102 | one arrival is passed on once exactly when its request id is in the fragment's set at that moment, otherwise dropped |
| EventFilters.ForwardConcat | src/org/tomahawk/tomahawk_android/fragments/PagerFragment.java:100-104 | forwarding keeps arrival order: two stretches of a stream give their results one after the other, which together with the one-arrival law fixes order and multiplicity |
| EventFilters.OnSlidingLayoutChanged | src/org/tomahawk/tomahawk_android/fragments/PagerFragment.java:107-117 | COLLAPSED and EXPANDED mean shown, HIDDEN means hidden, any other state is ignored |
| EventFilters.SelectorBottomMargin | src/org/tomahawk/tomahawk_android/fragments/PagerFragment.java:260-284 | shown puts the selector's bottom margin at minus the panel height, hidden at 0, and without a view or selector the margin is unchanged |
| EventFilters.LastVisibilityWins | src/org/tomahawk/tomahawk_android/fragments/PagerFragment.java:260-284 | the margin depends only on the latest visibility, so repeated or superseded changes do not accumulate; without a view or selector both changes leave it as it was |
| PagerSetup.CollectCurrentInfos | src/org/tomahawk/tomahawk_android/fragments/PagerFragment.java:208-211 | the current entry of every list in order, or the error of the first list whose cursor cannot be read |
| PagerSetup.RequestedPage | src/org/tomahawk/tomahawk_android/fragments/PagerFragment.java:216-231 | a non-negative initial page is requested as given; a negative one falls back to the pager's current item, and nothing is requested if that is negative too |
| PagerSetup.InitialVisibility | src/org/tomahawk/tomahawk_android/fragments/PagerFragment.java:232-236 | the selector is placed for a hidden panel iff the panel is hidden at setup time |
| PagerSetup.SetupAgreesWithSlideEvents | src/org/tomahawk/tomahawk_android/fragments/PagerFragment.java:232-236 | setup places the selector as a later slide event reporting the same panel state would |
| PagerSetup.SetupPager | src/org/tomahawk/tomahawk_android/fragments/PagerFragment.java:206-237 | setup fails iff some list's current entry cannot be read; otherwise it yields one entry per page, the requested page and the panel visibility |

## Left out

- View inflation (`onCreateView`), `findViewById` lookups and layout-parameter objects are Android framework I/O. The selector's margin is modelled as a single integer.
- EventBus `register`/`unregister` in `onStart`/`onStop` is left out, because it is lifecycle wiring. Posting an event is modelled as appending to the log that `ScrollSync.Run` returns.
- Forwarding scroll, selection and state callbacks to `PageIndicator` is left out. It is purely presentational, and that class is not part of this model.
- `TomahawkPagerAdapter` construction, the reflective `getClass()` argument, `setAdapter` and the page-indicator `setup` call are left out. `PagerSetup.SetupPager` returns what it would hand to them instead.
- `ViewPager.setCurrentItem` clamps the page to the adapter's range. The pager is not part of this model, so `PagerSetup.RequestedPage` is the page requested, not the page reached.
- `getChildFragmentBundle`, `showFancyDropDown` and `showContentHeader` are thin wrappers over Android `Bundle` and superclass methods.
- `positionOffsetPixels` is never used in a decision. `positionOffset` is a real number compared with zero, so a float NaN offset (which Java counts as non-zero) has no counterpart.
- `animate`, `onInfoSystemResultsReported`, `isDynamicHeader` and `getPanelHeight` belong to the superclass, a subclass or the activity. Their results are inputs, and their effects are the values the filters return.
- `getFragmentInfos` returns the backing list. The model reads it as a value, the `infos` field of `FragmentInfoLists.FragmentInfoList`. See the aliasing line below.
- The pager's current item changes inside the pager widget. `ScrollSync.OnPageSelected` stands for the pager having moved it, since the fragment's own `onPageSelected` only forwards to the indicator.
- Calling `onPageScrolled` before `setupPager` would dereference a null pager. The pager calls this listener only after setup, so the model always has a current item.
- ScrollSync.ReceiverPage: `position + 1` is unbounded here, while Java's `int` would wrap at 2^31 - 1. Pager page indices stay far below that.
- EventFilters.SelectorBottomMargin: `-panelHeight` is unbounded here, while Java's `getPanelHeight() * -1` leaves the `int` minimum unchanged. Panel heights in pixels stay far from 2^31.
- FragmentInfoLists.Size: assumes the list changes only through `addFragmentInfo`. `getFragmentInfos` returns the live `ArrayList`, and a caller that changed it directly would change later `size()` and `getCurrentFragmentInfo()` results. Callers only read that list, so this does not arise.
- EventFilters.OnSlidingLayoutChanged: a null slide state, which would make the Java `switch` throw a NullPointerException, has no counterpart. The activity always posts the event with a state.
