/** Chapter selection on the manga screen (`MangaController`): a click in
    selection mode toggles a chapter, a long click selects the run of
    chapters between the last clicked one and the clicked one, and the
    stack of clicked positions remembers where the next run starts. The
    action menu's "mark previous as read" and the download menu's choices
    end selection mode. The chapter list adapter is reduced to its items and
    its set of selected positions; opening the reader, the presenter's
    database and download work and the views are outside the model, and
    the methods return what they would hand to them. */
module MangaSelection {
  import opened Text
  import opened Sorting

  /** A chapter row of the list. */
  datatype ChapterItem = ChapterItem(id: int, read: bool)

  /** The download menu's entries. */
  datatype DownloadChoice = DownloadNext | DownloadNext5 | DownloadNext10 | DownloadCustom
                          | DownloadUnread | DownloadAll | OtherChoice

  /** `ArrayDeque.remove(x)`: the sequence without the first occurrence of `x`. */
  function RemoveFirst(s: seq<int>, x: int): (r: seq<int>)
    ensures x !in s ==> r == s
    ensures x in s ==> |r| == |s| - 1
    ensures multiset(r) == multiset(s) - multiset{x}
  {
    if s == [] then []
    else if s[0] == x then
      assert s == [s[0]] + s[1..];
      s[1..]
    else
      assert s == [s[0]] + s[1..];
      [s[0]] + RemoveFirst(s[1..], x)
  }

  /** A click-position stack holds the -1 mark, and otherwise positions. */
  predicate MarkedStack(s: seq<int>)
  {
    && -1 in s
    && forall k :: 0 <= k < |s| ==> s[k] >= -1
  }

  /** Removing a clicked position keeps the -1 mark and adds nothing, and
      pushing a position keeps the stack marked. */
  lemma {:induction false} RemoveFirstKeepsMark(s: seq<int>, x: int)
    requires x >= 0 && MarkedStack(s)
    ensures MarkedStack(RemoveFirst(s, x))
    ensures MarkedStack([x] + RemoveFirst(s, x)) && MarkedStack([x] + s)
  {
    RemoveFirstKeeps(s, x);
    var r := RemoveFirst(s, x);
    assert -1 in r;
    forall k | 0 <= k < |r| ensures r[k] >= -1 {
      var v := r[k];
      assert v in s;
      var j :| 0 <= j < |s| && s[j] == v;
    }
    assert MarkedStack(r);
    PushKeepsMark(r, x);
    PushKeepsMark(s, x);
  }

  /** Pushing a position onto a marked stack keeps it marked. */
  lemma PushKeepsMark(s: seq<int>, x: int)
    requires x >= 0 && MarkedStack(s)
    ensures MarkedStack([x] + s)
  {
    assert forall k :: 1 <= k < |[x] + s| ==> ([x] + s)[k] == s[k - 1];
    assert -1 in [x] + s;
  }

  /** Removing the first `x` keeps every other value and adds none. */
  lemma {:induction false} RemoveFirstKeeps(s: seq<int>, x: int)
    ensures forall k :: 0 <= k < |RemoveFirst(s, x)| ==> RemoveFirst(s, x)[k] in s
    ensures forall y :: y in s && y != x ==> y in RemoveFirst(s, x)
  {
    if s != [] && s[0] != x {
      RemoveFirstKeeps(s[1..], x);
      var r := RemoveFirst(s, x);
      assert r == [s[0]] + RemoveFirst(s[1..], x);
      forall y | y in s && y != x ensures y in r {
        if y != s[0] { assert y in s[1..]; }
      }
      forall k | 0 <= k < |r| ensures r[k] in s {
        if k > 0 { assert r[k] == RemoveFirst(s[1..], x)[k - 1]; }
      }
    }
  }

  /** The stack after a long click at `position`: unchanged when the
      position is already on top, otherwise the position moved to the top
      from wherever it was below. */
  function MovedToTop(s: seq<int>, position: int): (r: seq<int>)
    requires MarkedStack(s) && position >= 0
    ensures MarkedStack(r) && r[0] == position
    ensures position in s ==> |r| == |s|
    ensures position !in s ==> r == [position] + s
  {
    RemoveFirstKeepsMark(s, position);
    if s[0] == position then s else [position] + RemoveFirst(s, position)
  }

  /** The positions `onItemLongClick` selects, as a half-open range
      `[lo, hi)`: the clicked one alone when nothing was clicked before (-1)
      or it was the last one clicked; otherwise from the clicked position up
      to, not including, the last one, or from just after the last one up to
      the clicked one. */
  function LongClickRange(last: int, position: int): (r: (int, int))
    ensures r.0 < r.1
  {
    if last == -1 then (position, position + 1)
    else if last > position then (position, last)
    else if last < position then (last + 1, position + 1)
    else (position, position + 1)
  }

  /** The range always holds the clicked position, never the last clicked
      one unless they are the same, and never -1: the run stops before the
      anchor on either side. */
  lemma LongClickRangeSpan(last: int, position: int)
    requires last >= -1 && position >= 0
    ensures var (lo, hi) := LongClickRange(last, position);
      lo <= position < hi && 0 <= lo
    ensures var (lo, hi) := LongClickRange(last, position);
      last != position ==> !(lo <= last < hi)
    ensures var (lo, hi) := LongClickRange(last, position);
      last != -1 && last > position ==> hi - lo == last - position
    ensures var (lo, hi) := LongClickRange(last, position);
      last != -1 && last < position ==> hi - lo == position - last
  {
  }

  /** The positions of `[lo, hi)` that hold an item, when the adapter is there. */
  function Selectable(ready: bool, count: int, lo: int, hi: int): (r: set<int>)
    ensures forall j :: j in r <==> ready && lo <= j < hi && 0 <= j < count
    decreases hi - lo
  {
    if hi <= lo then {}
    else Selectable(ready, count, lo, hi - 1) + (if ready && 0 <= hi - 1 < count then {hi - 1} else {})
  }

  /** The positions `getSelectedChapters` reads, below `upTo`: the selected
      positions that hold an item, in ascending order (the adapter keeps its
      selection sorted). */
  function SelectedPositions(count: int, selected: set<int>, upTo: nat): (r: seq<int>)
    ensures forall j :: j in r <==> 0 <= j < upTo && j < count && j in selected
    ensures forall k :: 0 <= k < |r| ==> 0 <= r[k] < upTo && r[k] < count
    ensures forall k, l :: 0 <= k < l < |r| ==> r[k] < r[l]
    decreases upTo
  {
    if upTo == 0 then []
    else
      var init := SelectedPositions(count, selected, upTo - 1);
      if upTo - 1 < count && upTo - 1 in selected then init + [upTo - 1] else init
  }

  /** `getSelectedChapters`: the item at each position of
      `SelectedPositions`, one per position and in that order; positions
      without an item are dropped. */
  function SelectedItems(items: seq<ChapterItem>, selected: set<int>, upTo: nat): (r: seq<ChapterItem>)
    ensures var ps := SelectedPositions(|items|, selected, upTo);
      |r| == |ps| && forall k :: 0 <= k < |r| ==> 0 <= ps[k] < |items| && r[k] == items[ps[k]]
    ensures forall k :: 0 <= k < |r| ==> r[k] in items
    ensures forall j :: 0 <= j < upTo && j < |items| && j in selected ==> items[j] in r
  {
    var ps := SelectedPositions(|items|, selected, upTo);
    var r := seq(|ps|, k requires 0 <= k < |ps| => items[ps[k]]);
    assert forall j :: 0 <= j < upTo && j < |items| && j in selected ==> items[j] in r by {
      forall j | 0 <= j < upTo && j < |items| && j in selected ensures items[j] in r {
        var k :| 0 <= k < |ps| && ps[k] == j;
        assert r[k] == items[j];
      }
    }
    r
  }

  /** `indexOf`: the first position of `x`, or -1. */
  function IndexOf(s: seq<ChapterItem>, x: ChapterItem): (r: int)
    ensures -1 <= r < |s|
    ensures r == -1 <==> x !in s
    ensures r >= 0 ==> s[r] == x && x !in s[..r]
  {
    if s == [] then -1
    else if s[0] == x then 0
    else
      var i := IndexOf(s[1..], x);
      assert s == [s[0]] + s[1..];
      if i == -1 then -1
      else
        assert s[..i + 1] == [s[0]] + s[1..][..i];
        i + 1
  }

  function Reversed(s: seq<ChapterItem>): (r: seq<ChapterItem>)
    ensures |r| == |s|
    ensures forall k :: 0 <= k < |s| ==> r[k] == s[|s| - 1 - k]
  {
    if s == [] then [] else Reversed(s[1..]) + [s[0]]
  }

  /** The chapters "mark previous as read" marks: those strictly before the
      first occurrence of the last selected chapter, in display order read
      from the oldest; nothing when no chapter is selected or it is not in
      the list. */
  function PreviousChapters(items: seq<ChapterItem>, sortDescending: bool,
                            chapters: seq<ChapterItem>): (r: Option<seq<ChapterItem>>)
    ensures chapters == [] ==> r.None?
    ensures r.Some? ==>
      var prev := if sortDescending then Reversed(items) else items;
      |r.value| < |prev| && r.value == prev[..|r.value|] && prev[|r.value|] == chapters[|chapters| - 1] &&
      chapters[|chapters| - 1] !in r.value
    ensures chapters != [] && chapters[|chapters| - 1] in items ==> r.Some?
  {
    var prev := if sortDescending then Reversed(items) else items;
    if chapters == [] then None
    else
      var last := chapters[|chapters| - 1];
      assert last in items ==> last in prev by {
        if last in items && sortDescending {
          var k :| 0 <= k < |items| && items[k] == last;
          assert prev[|items| - 1 - k] == last;
        }
      }
      var pos := IndexOf(prev, last);
      if pos != -1 then Some(prev[..pos]) else None
  }

  /** What a download menu choice downloads, or `None` for "custom", which
      opens a dialog instead. */
  function ChaptersToDownload(choice: DownloadChoice, unreadSorted: seq<ChapterItem>,
                              allChapters: seq<ChapterItem>): (r: Option<seq<ChapterItem>>)
    ensures r.None? <==> choice == DownloadCustom
    ensures choice == DownloadNext ==> r == Some(Take(unreadSorted, 1))
    ensures choice == DownloadNext5 ==> r == Some(Take(unreadSorted, 5))
    ensures choice == DownloadNext10 ==> r == Some(Take(unreadSorted, 10))
    ensures choice == DownloadUnread ==>
      r.Some? && forall k :: 0 <= k < |r.value| ==> !r.value[k].read && r.value[k] in allChapters
    ensures choice == DownloadUnread ==>
      forall c :: c in allChapters && !c.read ==> c in r.value
    ensures choice == DownloadAll ==> r == Some(allChapters)
    ensures choice == OtherChoice ==> r == Some([])
  {
    match choice
    case DownloadNext => Some(Take(unreadSorted, 1))
    case DownloadNext5 => Some(Take(unreadSorted, 5))
    case DownloadNext10 => Some(Take(unreadSorted, 10))
    case DownloadCustom => None
    case DownloadUnread =>
      var unread := Filter(allChapters, IsUnread());
      FilterMembers(allChapters, IsUnread());
      assert forall k :: 0 <= k < |unread| ==> unread[k] in unread;
      Some(unread)
    case DownloadAll => Some(allChapters)
    case OtherChoice => Some([])
  }

  function IsUnread(): ChapterItem -> bool
  {
    (c: ChapterItem) => !c.read
  }

  /** The next n unread chapters: at most n of them, the first ones of the
      sorted unread list. */
  lemma DownloadNextTakes(choice: DownloadChoice, unreadSorted: seq<ChapterItem>,
                          allChapters: seq<ChapterItem>)
    requires choice in {DownloadNext, DownloadNext5, DownloadNext10}
    ensures var n := if choice == DownloadNext then 1 else if choice == DownloadNext5 then 5 else 10;
      var r := ChaptersToDownload(choice, unreadSorted, allChapters).value;
      |r| == (if |unreadSorted| < n then |unreadSorted| else n) && r == unreadSorted[..|r|]
  {
  }

  class ChapterSelection {
    /** The adapter's items, and whether the adapter exists yet. */
    var items: seq<ChapterItem>
    var adapterReady: bool
    /** The adapter's selected positions. */
    var selected: set<int>
    /** The selected chapters, kept to restore the selection. */
    var selectedChapters: set<ChapterItem>
    /** The clicked positions, most recent first; -1 marks "no anchor". */
    var lastClickPositionStack: seq<int>
    /** Whether the selection action mode is on. */
    var actionMode: bool
    /** Whether the adapter is in multi-selection mode. */
    var multiMode: bool

    /** The -1 mark is never removed, so the stack is never empty; every
        other entry is a clicked position. */
    predicate Valid()
      reads this`lastClickPositionStack
    {
      MarkedStack(lastClickPositionStack)
    }

    constructor(items: seq<ChapterItem>, adapterReady: bool)
      ensures Valid()
      ensures this.items == items && this.adapterReady == adapterReady
      ensures lastClickPositionStack == [-1] && selected == {} && selectedChapters == {}
      ensures !actionMode && !multiMode
    {
      this.items := items;
      this.adapterReady := adapterReady;
      selected := {};
      selectedChapters := {};
      lastClickPositionStack := [-1];
      actionMode := false;
      multiMode := false;
    }

    /** `setSelection`: selects an unselected position that holds an item;
        otherwise nothing changes, so selecting twice is selecting once. Its
        `actionMode?.invalidate()` then finds something selected and only
        refreshes the toolbar, which is not modelled. */
    method SetSelection(position: int)
      modifies this`selected, this`selectedChapters
      ensures adapterReady && 0 <= position < |items| && position !in old(selected) ==>
        selected == old(selected) + {position} &&
        selectedChapters == old(selectedChapters) + {items[position]}
      ensures !(adapterReady && 0 <= position < |items| && position !in old(selected)) ==>
        selected == old(selected) && selectedChapters == old(selectedChapters)
    {
      if !adapterReady || !(0 <= position < |items|) {
        return;
      }
      var item := items[position];
      if position !in selected {
        selected := selected + {position};
        selectedChapters := selectedChapters + {item};
      }
    }

    /** `toggleSelection`: flips the position's selection and makes its
        chapter selected exactly when the position now is; then
        `actionMode?.invalidate()` ends selection mode when that left
        nothing selected. */
    method ToggleSelection(position: int)
      modifies this`selected, this`selectedChapters, this`lastClickPositionStack
      modifies this`actionMode, this`multiMode
      ensures !(adapterReady && 0 <= position < |items|) ==>
        unchanged(this`selected, this`selectedChapters, this`lastClickPositionStack) &&
        actionMode == old(actionMode) && multiMode == old(multiMode)
      ensures adapterReady && 0 <= position < |items| ==>
        var flipped := if position in old(selected) then old(selected) - {position}
                       else old(selected) + {position};
        if old(actionMode) && flipped == {} then
          Closed()
        else
          && selected == flipped
          && (items[position] in selectedChapters <==> position in selected)
          && selectedChapters - {items[position]} == old(selectedChapters) - {items[position]}
          && lastClickPositionStack == old(lastClickPositionStack)
          && actionMode == old(actionMode) && multiMode == old(multiMode)
    {
      if !adapterReady || !(0 <= position < |items|) {
        return;
      }
      var item := items[position];
      if position in selected {
        selected := selected - {position};
      } else {
        selected := selected + {position};
      }
      if position in selected {
        selectedChapters := selectedChapters + {item};
      } else {
        selectedChapters := selectedChapters - {item};
      }
      InvalidateActionMode();
    }

    /** Selection mode has ended: the stack holds the -1 mark alone, nothing
        is selected and the adapter is back in single-selection mode. */
    predicate Closed()
      reads this`selected, this`selectedChapters, this`lastClickPositionStack
      reads this`actionMode, this`multiMode
    {
      && lastClickPositionStack == [-1] && selected == {} && selectedChapters == {}
      && !actionMode && !multiMode
    }

    /** `actionMode?.invalidate()`, which runs `onPrepareActionMode`: with
        nothing selected (or no adapter) the action mode is destroyed;
        otherwise only the toolbar is refreshed. */
    method InvalidateActionMode()
      modifies this`selected, this`selectedChapters, this`lastClickPositionStack
      modifies this`actionMode, this`multiMode
      ensures old(actionMode) && (!adapterReady || old(selected) == {}) ==> Closed()
      ensures !(old(actionMode) && (!adapterReady || old(selected) == {})) ==>
        unchanged(this`selected, this`selectedChapters, this`lastClickPositionStack) &&
        actionMode == old(actionMode) && multiMode == old(multiMode)
    {
      if actionMode && (!adapterReady || selected == {}) {
        DestroyActionModeIfNeeded();
      }
    }

    /** `onItemClick`: in selection mode a selected position leaves the
        stack and an unselected one is pushed, then its selection flips;
        otherwise the chapter is opened. */
    method OnItemClick(position: int) returns (handled: bool, toOpen: Option<ChapterItem>)
      requires Valid()
      modifies this`selected, this`selectedChapters, this`lastClickPositionStack
      modifies this`actionMode, this`multiMode
      ensures Valid()
      ensures handled <==> old(adapterReady && 0 <= position < |items| && actionMode && multiMode)
      ensures toOpen == if old(adapterReady && 0 <= position < |items| && !(actionMode && multiMode))
                        then Some(items[position]) else None
      ensures !handled ==>
        unchanged(this`selected, this`selectedChapters, this`lastClickPositionStack) &&
        actionMode == old(actionMode) && multiMode == old(multiMode)
      ensures handled ==>
        ClickedInSelectionMode(old(selected), old(selectedChapters), old(lastClickPositionStack), position)
    {
      if !adapterReady || !(0 <= position < |items|) {
        return false, None;
      }
      if actionMode && multiMode {
        ClickInSelectionMode(position);
        return true, None;
      }
      return false, Some(items[position]);
    }

    /** After a click at `position` in selection mode, from the selection
        `sel0`, `chapters0` and stack `stack0`: deselecting the only selected
        position ends selection mode; otherwise the position's selection and
        its chapter's are flipped and nothing else is, a deselected position
        has left the stack and a newly selected one is on top of it. */
    ghost predicate ClickedInSelectionMode(sel0: set<int>, chapters0: set<ChapterItem>, stack0: seq<int>,
                                           position: int)
      requires 0 <= position < |items|
      reads this`selected, this`selectedChapters, this`lastClickPositionStack, this`items
      reads this`actionMode, this`multiMode
    {
      if sel0 == {position} then
        Closed()
      else
        && actionMode && multiMode
        && selected - {position} == sel0 - {position}
        && selectedChapters - {items[position]} == chapters0 - {items[position]}
        && (position in sel0 ==>
              lastClickPositionStack == RemoveFirst(stack0, position) &&
              position !in selected && items[position] !in selectedChapters)
        && (position !in sel0 ==>
              lastClickPositionStack == [position] + stack0 &&
              position in selected && items[position] in selectedChapters)
    }

    /** The selection-mode branch of `onItemClick` for a position that holds
        an item. */
    method ClickInSelectionMode(position: int)
      requires Valid() && adapterReady && 0 <= position < |items| && actionMode && multiMode
      modifies this`selected, this`selectedChapters, this`lastClickPositionStack
      modifies this`actionMode, this`multiMode
      ensures Valid()
      ensures ClickedInSelectionMode(old(selected), old(selectedChapters), old(lastClickPositionStack), position)
    {
      ghost var sel0 := selected;
      MoveClickedPosition(position, position in selected);
      ghost var stack1 := lastClickPositionStack;
      ToggleSelection(position);
      if sel0 == {position} {
        assert sel0 - {position} == {};
      } else if position in sel0 {
        assert sel0 == (sel0 - {position}) + {position};
        assert lastClickPositionStack == stack1;
      } else {
        assert position in sel0 + {position};
        assert lastClickPositionStack == stack1;
      }
    }

    /** The stack half of a click in selection mode: a deselected position
        leaves the stack, a selected one is pushed on top. */
    method MoveClickedPosition(position: int, wasSelected: bool)
      requires Valid() && position >= 0
      modifies this`lastClickPositionStack
      ensures Valid()
      ensures wasSelected ==> lastClickPositionStack == RemoveFirst(old(lastClickPositionStack), position)
      ensures !wasSelected ==> lastClickPositionStack == [position] + old(lastClickPositionStack)
    {
      RemoveFirstKeepsMark(lastClickPositionStack, position);
      if wasSelected {
        lastClickPositionStack := RemoveFirst(lastClickPositionStack, position);
      } else {
        lastClickPositionStack := [position] + lastClickPositionStack;
      }
    }

    /** `createActionModeIfNeeded`: starting the action mode puts the
        adapter in multi-selection mode. */
    method CreateActionModeIfNeeded()
      modifies this`actionMode, this`multiMode
      ensures actionMode
      ensures old(actionMode) ==> multiMode == old(multiMode)
      ensures !old(actionMode) ==> multiMode
    {
      if !actionMode {
        actionMode := true;
        multiMode := true;
      }
    }

    /** The selection is `sel0` with the positions of `[lo, hi)` that hold
        an item added, and the chapters `chapters0` with the items of the
        newly selected positions added. */
    ghost predicate RangeSelected(sel0: set<int>, chapters0: set<ChapterItem>, lo: int, hi: int)
      reads this`selected, this`selectedChapters, this`items, this`adapterReady
    {
      && selected == sel0 + Selectable(adapterReady, |items|, lo, hi)
      && selectedChapters == chapters0 +
           set j | j in Selectable(adapterReady, |items|, lo, hi) && j !in sel0 && 0 <= j < |items| :: items[j]
    }

    /** The `for` loops of `onItemLongClick`: `setSelection` on every
        position of `[lo, hi)`. */
    method SelectRange(lo: int, hi: int)
      requires lo <= hi
      modifies this`selected, this`selectedChapters
      ensures RangeSelected(old(selected), old(selectedChapters), lo, hi)
    {
      for i := lo to hi
        invariant RangeSelected(old(selected), old(selectedChapters), lo, i)
      {
        SetSelection(i);
      }
    }

    /** `onItemLongClick`: selects every position of `LongClickRange` from
        the stack's top to the clicked position, then moves the clicked
        position to the top of the stack. */
    method OnItemLongClick(position: int)
      requires Valid() && position >= 0
      modifies this`selected, this`selectedChapters, this`lastClickPositionStack
      modifies this`actionMode, this`multiMode
      ensures Valid()
      ensures actionMode
      ensures lastClickPositionStack == MovedToTop(old(lastClickPositionStack), position)
      ensures var range := LongClickRange(old(lastClickPositionStack[0]), position);
        RangeSelected(old(selected), old(selectedChapters), range.0, range.1)
    {
      var stack := lastClickPositionStack;
      var range := LongClickRange(stack[0], position);
      CreateActionModeIfNeeded();
      // the source updates the stack after the selection; the two steps
      // change different fields, so their order is not observable
      MoveToTop(stack, position);
      SelectRange(range.0, range.1);
    }

    /** The end of `onItemLongClick`: `position` leaves its place in the
        stack `stack` and goes on top. */
    method MoveToTop(stack: seq<int>, position: int)
      requires MarkedStack(stack) && position >= 0
      modifies this`lastClickPositionStack
      ensures lastClickPositionStack == MovedToTop(stack, position) && Valid()
    {
      lastClickPositionStack := MovedToTop(stack, position);
    }

    /** `destroyActionModeIfNeeded`: the stack goes back to the -1 mark
        alone; finishing an active action mode clears the selection and
        leaves multi-selection mode. */
    method DestroyActionModeIfNeeded()
      modifies this`selected, this`selectedChapters, this`lastClickPositionStack
      modifies this`actionMode, this`multiMode
      ensures lastClickPositionStack == [-1] && Valid()
      ensures !actionMode
      ensures old(actionMode) ==> selected == {} && selectedChapters == {} && !multiMode
      ensures !old(actionMode) ==>
        selected == old(selected) && selectedChapters == old(selectedChapters) &&
        multiMode == old(multiMode)
    {
      lastClickPositionStack := [-1];
      if actionMode {
        multiMode := false;
        selected := {};
        selectedChapters := {};
        actionMode := false;
      }
    }

    /** `getSelectedChapters`: nothing without an adapter, otherwise the
        chapters at the selected positions in ascending order. */
    function GetSelectedChapters(): (r: seq<ChapterItem>)
      reads this`items, this`selected, this`adapterReady
      ensures !adapterReady ==> r == []
      ensures adapterReady ==> forall j :: 0 <= j < |items| && j in selected ==> items[j] in r
      ensures forall k :: 0 <= k < |r| ==> r[k] in items
      ensures adapterReady ==>
        var ps := SelectedPositions(|items|, selected, |items|);
        |r| == |ps| && forall k :: 0 <= k < |r| ==> 0 <= ps[k] < |items| && r[k] == items[ps[k]]
    {
      if adapterReady then SelectedItems(items, selected, |items|) else []
    }

    /** `markPreviousAsRead`: hands the chapters before the last selected
        one to be marked read, then ends selection mode. */
    method MarkPreviousAsRead(chapters: seq<ChapterItem>, sortDescending: bool)
      returns (markRead: Option<seq<ChapterItem>>)
      modifies this`selected, this`selectedChapters, this`lastClickPositionStack
      modifies this`actionMode, this`multiMode
      ensures !old(adapterReady) ==>
        markRead.None? && lastClickPositionStack == old(lastClickPositionStack) &&
        selected == old(selected) && actionMode == old(actionMode)
      ensures old(adapterReady) ==>
        markRead == PreviousChapters(old(items), sortDescending, chapters) &&
        lastClickPositionStack == [-1] && !actionMode
    {
      if !adapterReady {
        return None;
      }
      markRead := PreviousChapters(items, sortDescending, chapters);
      DestroyActionModeIfNeeded();
    }

    /** `downloadChapters(choice)`: "custom" opens its dialog and keeps
        the selection; any other choice hands its chapters to the
        downloader, unless there are none or the source is a stub, and ends
        selection mode. */
    method DownloadChapters(choice: DownloadChoice, unreadSorted: seq<ChapterItem>,
                            allChapters: seq<ChapterItem>, isStubSource: bool)
      returns (download: seq<ChapterItem>, customDialog: bool)
      modifies this`selected, this`selectedChapters, this`lastClickPositionStack
      modifies this`actionMode, this`multiMode
      ensures customDialog <==> choice == DownloadCustom
      ensures customDialog ==>
        download == [] && lastClickPositionStack == old(lastClickPositionStack) &&
        actionMode == old(actionMode) && selected == old(selected)
      ensures !customDialog ==>
        var chosen := ChaptersToDownload(choice, unreadSorted, allChapters).value;
        download == (if isStubSource then [] else chosen) &&
        lastClickPositionStack == [-1] && !actionMode
    {
      var chosen := ChaptersToDownload(choice, unreadSorted, allChapters);
      if chosen.None? {
        return [], true;
      }
      download, customDialog := [], false;
      if |chosen.value| > 0 && !isStubSource {
        download := chosen.value;
        DestroyActionModeIfNeeded();
      }
      DestroyActionModeIfNeeded();
    }
  }
}
