/** PagerFragment.FragmentInfoList: the entries of one pager page (the
    alternatives a selector switches between) and a cursor naming the one
    shown. The backing list stays null until the first entry is added, and
    the cursor is never checked against the list's bounds. */
module FragmentInfoLists {
  import opened Wrappers

  /** What the Java collection calls throw: a NullPointerException on the
      never-filled list, an IndexOutOfBoundsException on a bad cursor. */
  datatype ListError = NullList | IndexOutOfBounds(index: int, size: nat)

  /** `infos` is mFragmentInfos (None while it is null); `current` is
      mCurrent. */
  datatype FragmentInfoList<T> = FragmentInfoList(infos: Option<seq<T>>, current: int)

  /** A new list: no backing list yet, cursor at 0. */
  function Empty<T>(): (l: FragmentInfoList<T>)
    ensures l.infos.None? && l.current == 0
  {
    FragmentInfoList(None, 0)
  }

  /** The entries held, reading a null list as holding none. */
  function Entries<T>(l: FragmentInfoList<T>): (entries: seq<T>)
  {
    match l.infos
    case None => []
    case Some(xs) => xs
  }

  /** addFragmentInfo: creates the backing list on first use, then appends. */
  function AddFragmentInfo<T>(l: FragmentInfoList<T>, info: T): (r: FragmentInfoList<T>)
    ensures r.infos.Some?
    ensures |Entries(r)| == |Entries(l)| + 1
    ensures Entries(r)[|Entries(l)|] == info
    ensures forall i :: 0 <= i < |Entries(l)| ==> Entries(r)[i] == Entries(l)[i]
    ensures r.current == l.current
  {
    match l.infos
    case None => FragmentInfoList(Some([info]), l.current)
    case Some(xs) => FragmentInfoList(Some(xs + [info]), l.current)
  }

  /** setCurrent: stores any index at all; nothing is checked here. */
  function SetCurrent<T>(l: FragmentInfoList<T>, current: int): (r: FragmentInfoList<T>)
    ensures r.current == current
    ensures r.infos == l.infos
  {
    l.(current := current)
  }

  /** size: throws on the never-filled list. */
  function Size<T>(l: FragmentInfoList<T>): (r: Result<nat, ListError>)
    ensures r.Success? <==> l.infos.Some?
    ensures r.Failure? ==> r.error == NullList
    ensures r.Success? ==> r.value == |Entries(l)|
  {
    match l.infos
    case None => Failure(NullList)
    case Some(xs) => Success(|xs|)
  }

  /** getCurrentFragmentInfo: the entry under the cursor; throws on the
      never-filled list and on a cursor outside the list. */
  function GetCurrentFragmentInfo<T>(l: FragmentInfoList<T>): (r: Result<T, ListError>)
    ensures r.Success? <==> l.infos.Some? && 0 <= l.current < |Entries(l)|
    ensures r.Success? ==> r.value == Entries(l)[l.current]
    ensures l.infos.None? ==> r == Failure(NullList)
    ensures l.infos.Some? && r.Failure? ==> r.error == IndexOutOfBounds(l.current, |Entries(l)|)
  {
    match l.infos
    case None => Failure(NullList)
    case Some(xs) =>
      if 0 <= l.current < |xs| then Success(xs[l.current])
      else Failure(IndexOutOfBounds(l.current, |xs|))
  }

  /** Adds every element of `xs`, in order. */
  function AddAll<T>(l: FragmentInfoList<T>, xs: seq<T>): (r: FragmentInfoList<T>)
    decreases |xs|
  {
    if xs == [] then l else AddAll(AddFragmentInfo(l, xs[0]), xs[1..])
  }

  /** Adding appends: the entries after AddAll are the old ones followed by
      `xs`; the list stays null only if it was null and nothing was added;
      the cursor does not move. */
  lemma {:induction false} AddAllAppends<T>(l: FragmentInfoList<T>, xs: seq<T>)
    ensures Entries(AddAll(l, xs)) == Entries(l) + xs
    ensures AddAll(l, xs).infos.None? <==> l.infos.None? && xs == []
    ensures AddAll(l, xs).current == l.current
    decreases |xs|
  {
    if xs != [] {
      var l' := AddFragmentInfo(l, xs[0]);
      AddAllAppends(l', xs[1..]);
      assert Entries(l') == Entries(l) + [xs[0]];
      assert Entries(l) + [xs[0]] + xs[1..] == Entries(l) + xs;
    }
  }

  /** Filling a new list with `xs` and pointing the cursor at `i` gives back
      xs[i] for every valid `i`, and the matching exception otherwise. */
  lemma SelectAfterFill<T>(xs: seq<T>, i: int)
    ensures xs == [] ==> GetCurrentFragmentInfo(SetCurrent(AddAll(Empty<T>(), xs), i)) == Failure(NullList)
    ensures 0 <= i < |xs| ==> GetCurrentFragmentInfo(SetCurrent(AddAll(Empty<T>(), xs), i)) == Success(xs[i])
    ensures xs != [] && !(0 <= i < |xs|) ==>
      GetCurrentFragmentInfo(SetCurrent(AddAll(Empty<T>(), xs), i)) == Failure(IndexOutOfBounds(i, |xs|))
    ensures xs != [] ==> Size(AddAll(Empty<T>(), xs)) == Success(|xs|)
  {
    AddAllAppends(Empty<T>(), xs);
  }
}
