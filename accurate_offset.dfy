/** The list layout manager that reports an accurate scroll position
    (`LinearLayoutManagerAccurateOffset`): after every layout it records the
    height and view type of each laid-out child by adapter position, and it
    derives the scroll range and offset by summing item heights, using the
    recorded height of an item or an estimate for an item never laid out.
    The estimator itself lives outside this class and is a parameter here:
    a function of the recorded maps and a position. */
module AccurateOffset {
  import opened Text
  import opened Numbers

  /** `RecyclerView.NO_POSITION`. */
  const NO_POSITION: int := -1

  /** A laid-out child view: its adapter position, height, view type and
      vertical offset from the top of the list. */
  datatype Child = Child(position: int, height: int, viewType: int, y: real)

  /** The three maps the layout manager records. */
  datatype Recorded = Recorded(sizes: map<int, int>, types: map<int, int>,
                               typeHeights: map<int, map<int, int>>)

  /** `EstimatedItemHeight.itemOrEstimatedHeight`: the height of an item from
      the recorded maps. */
  type Estimator = (Recorded, int) -> int

  /** `getChildAt`: the view at a child index, or null outside the children
      (a child slot may also be null). */
  function ChildAt(children: seq<Option<Child>>, i: int): (r: Option<Child>)
    ensures !(0 <= i < |children|) ==> r.None?
    ensures 0 <= i < |children| ==> r == children[i]
  {
    if 0 <= i < |children| then children[i] else None
  }

  /** The index of the first null child, or the child count when there is
      none: the layout loop stops there. */
  function FirstMissing(children: seq<Option<Child>>): (r: nat)
    ensures r <= |children|
    ensures forall k :: 0 <= k < r ==> children[k].Some?
    ensures r < |children| ==> children[r].None?
  {
    if children == [] || children[0].None? then 0
    else 1 + FirstMissing(children[1..])
  }

  /** The children of a prefix that holds no null, in order. */
  function Present(children: seq<Option<Child>>): (r: seq<Child>)
    requires forall k :: 0 <= k < |children| ==> children[k].Some?
    ensures |r| == |children|
    ensures forall k :: 0 <= k < |r| ==> r[k] == children[k].value
  {
    if children == [] then []
    else Present(children[..|children| - 1]) + [children[|children| - 1].value]
  }

  /** Extending a prefix without nulls by one present child. */
  lemma PresentSnoc(children: seq<Option<Child>>, i: int)
    requires 0 <= i < |children|
    requires forall k :: 0 <= k <= i ==> children[k].Some?
    ensures Present(children[..i + 1]) == Present(children[..i]) + [children[i].value]
  {
    assert children[..i + 1][..i] == children[..i];
  }

  /** The children one layout pass records: those before the first null. */
  function LaidOut(children: seq<Option<Child>>): (r: seq<Child>)
    ensures |r| == FirstMissing(children)
    ensures forall k :: 0 <= k < |r| ==> r[k] == children[k].value
  {
    Present(children[..FirstMissing(children)])
  }

  /** Recording the children `cs` one after another into `m`: each writes
      its height under its position, a later child overwriting an earlier
      one with the same position. */
  function RecordSizes(m: map<int, int>, cs: seq<Child>): (r: map<int, int>)
    ensures m.Keys <= r.Keys
    ensures forall k :: 0 <= k < |cs| ==> cs[k].position in r
  {
    if cs == [] then m
    else
      var c := cs[|cs| - 1];
      RecordSizes(m, cs[..|cs| - 1])[c.position := c.height]
  }

  /** As `RecordSizes`, writing each child's view type. */
  function RecordTypes(m: map<int, int>, cs: seq<Child>): (r: map<int, int>)
    ensures m.Keys <= r.Keys
    ensures forall k :: 0 <= k < |cs| ==> cs[k].position in r
  {
    if cs == [] then m
    else
      var c := cs[|cs| - 1];
      RecordTypes(m, cs[..|cs| - 1])[c.position := c.viewType]
  }

  /** One child into the per-type map: its height goes under its position in
      the inner map of its view type, a new inner map holding only that
      entry when the type has none yet. */
  function RecordTypeHeight(m: map<int, map<int, int>>, c: Child): (r: map<int, map<int, int>>)
    ensures r.Keys == m.Keys + {c.viewType}
    ensures c.position in r[c.viewType] && r[c.viewType][c.position] == c.height
    ensures c.viewType in m ==> r[c.viewType] == m[c.viewType][c.position := c.height]
    ensures c.viewType !in m ==> r[c.viewType] == map[c.position := c.height]
    ensures forall t :: t in m && t != c.viewType ==> r[t] == m[t]
  {
    if c.viewType in m then m[c.viewType := m[c.viewType][c.position := c.height]]
    else m[c.viewType := map[c.position := c.height]]
  }

  /** As `RecordSizes`, into the per-type maps. */
  function RecordTypeHeights(m: map<int, map<int, int>>, cs: seq<Child>): map<int, map<int, int>>
  {
    if cs == [] then m
    else RecordTypeHeight(RecordTypeHeights(m, cs[..|cs| - 1]), cs[|cs| - 1])
  }

  /** Recording one more child is one more update of each map. */
  lemma RecordSnoc(sizes: map<int, int>, types: map<int, int>, typeHeights: map<int, map<int, int>>,
                   cs: seq<Child>, c: Child)
    ensures RecordSizes(sizes, cs + [c]) == RecordSizes(sizes, cs)[c.position := c.height]
    ensures RecordTypes(types, cs + [c]) == RecordTypes(types, cs)[c.position := c.viewType]
    ensures RecordTypeHeights(typeHeights, cs + [c]) == RecordTypeHeight(RecordTypeHeights(typeHeights, cs), c)
  {
    assert (cs + [c])[..|cs|] == cs;
  }

  /** Child `i` of `cs` is the last one with its position. */
  predicate LastAt(cs: seq<Child>, i: int)
    requires 0 <= i < |cs|
  {
    forall j :: i < j < |cs| ==> cs[j].position != cs[i].position
  }

  /** A child that is the last with its position, other than the very last
      child, is still the last with it once the last child is dropped, and
      the last child has another position. */
  lemma LastAtInit(cs: seq<Child>, i: int)
    requires 0 <= i < |cs| - 1 && LastAt(cs, i)
    ensures LastAt(cs[..|cs| - 1], i) && cs[|cs| - 1].position != cs[i].position
  {
    var init := cs[..|cs| - 1];
    forall j | i < j < |init| ensures init[j].position != init[i].position {
      assert init[j] == cs[j] && init[i] == cs[i];
    }
  }

  /** After recording, the positions in the size map are the old ones and
      those of the children. */
  lemma {:induction false} RecordSizesKeys(m: map<int, int>, cs: seq<Child>)
    ensures forall p :: p in RecordSizes(m, cs) ==>
      p in m || exists k :: 0 <= k < |cs| && cs[k].position == p
  {
    if cs != [] {
      var init := cs[..|cs| - 1];
      RecordSizesKeys(m, init);
      var c := cs[|cs| - 1];
      forall p | p in RecordSizes(m, cs) && p !in m
        ensures exists k :: 0 <= k < |cs| && cs[k].position == p
      {
        if p != c.position {
          var k :| 0 <= k < |init| && init[k].position == p;
          assert cs[k] == init[k];
        } else {
          assert cs[|cs| - 1].position == p;
        }
      }
    }
  }

  /** A child that is the last with its position has its height there. */
  lemma {:induction false} RecordSizesLast(m: map<int, int>, cs: seq<Child>)
    ensures forall i :: 0 <= i < |cs| && LastAt(cs, i) ==> RecordSizes(m, cs)[cs[i].position] == cs[i].height
  {
    if cs != [] {
      var init := cs[..|cs| - 1];
      RecordSizesLast(m, init);
      forall i | 0 <= i < |cs| && LastAt(cs, i)
        ensures RecordSizes(m, cs)[cs[i].position] == cs[i].height
      {
        if i < |init| {
          LastAtInit(cs, i);
        }
      }
    }
  }

  /** A position no child has keeps its old entry. */
  lemma {:induction false} RecordSizesKeeps(m: map<int, int>, cs: seq<Child>)
    ensures forall p :: p in m && (forall k :: 0 <= k < |cs| ==> cs[k].position != p) ==>
      RecordSizes(m, cs)[p] == m[p]
  {
    if cs != [] {
      var init := cs[..|cs| - 1];
      RecordSizesKeeps(m, init);
      forall p | p in m && (forall k :: 0 <= k < |cs| ==> cs[k].position != p)
        ensures RecordSizes(m, cs)[p] == m[p]
      {
        assert cs[|cs| - 1].position != p;
        forall k | 0 <= k < |init| ensures init[k].position != p {
          assert init[k] == cs[k];
        }
      }
    }
  }

  /** The same for the type map: a child that is the last with its
      position has its view type there. */
  lemma {:induction false} RecordTypesSpec(m: map<int, int>, cs: seq<Child>)
    ensures forall i :: 0 <= i < |cs| && LastAt(cs, i) ==> RecordTypes(m, cs)[cs[i].position] == cs[i].viewType
    ensures forall p :: p in m && (forall k :: 0 <= k < |cs| ==> cs[k].position != p) ==>
      RecordTypes(m, cs)[p] == m[p]
  {
    if cs != [] {
      var init := cs[..|cs| - 1];
      RecordTypesSpec(m, init);
      forall i | 0 <= i < |cs| && LastAt(cs, i)
        ensures RecordTypes(m, cs)[cs[i].position] == cs[i].viewType
      {
        if i < |init| {
          LastAtInit(cs, i);
        }
      }
      forall p | p in m && (forall k :: 0 <= k < |cs| ==> cs[k].position != p)
        ensures RecordTypes(m, cs)[p] == m[p]
      {
        assert cs[|cs| - 1].position != p;
        forall k | 0 <= k < |init| ensures init[k].position != p {
          assert init[k] == cs[k];
        }
      }
    }
  }

  /** Every recorded child's view type has an inner map, and no inner map
      is ever dropped. */
  lemma {:induction false} RecordTypeHeightsKeys(m: map<int, map<int, int>>, cs: seq<Child>)
    ensures m.Keys <= RecordTypeHeights(m, cs).Keys
    ensures forall i :: 0 <= i < |cs| ==> cs[i].viewType in RecordTypeHeights(m, cs)
  {
    if cs != [] {
      var init := cs[..|cs| - 1];
      RecordTypeHeightsKeys(m, init);
      forall i | 0 <= i < |cs| ensures cs[i].viewType in RecordTypeHeights(m, cs) {
        if i < |init| { assert init[i] == cs[i]; }
      }
    }
  }

  /** A child that is the last with its position has its height in the
      inner map of its view type. */
  lemma {:induction false} RecordTypeHeightsLast(m: map<int, map<int, int>>, cs: seq<Child>)
    ensures forall i :: 0 <= i < |cs| && LastAt(cs, i) ==>
      cs[i].viewType in RecordTypeHeights(m, cs) &&
      cs[i].position in RecordTypeHeights(m, cs)[cs[i].viewType] &&
      RecordTypeHeights(m, cs)[cs[i].viewType][cs[i].position] == cs[i].height
  {
    if cs != [] {
      var init := cs[..|cs| - 1];
      RecordTypeHeightsLast(m, init);
      var before := RecordTypeHeights(m, init);
      forall i | 0 <= i < |cs| && LastAt(cs, i)
        ensures cs[i].viewType in RecordTypeHeights(m, cs)
        ensures cs[i].position in RecordTypeHeights(m, cs)[cs[i].viewType]
        ensures RecordTypeHeights(m, cs)[cs[i].viewType][cs[i].position] == cs[i].height
      {
        if i < |init| {
          LastAtInit(cs, i);
          assert init[i] == cs[i];
          assert cs[i].position in before[cs[i].viewType];
        }
      }
    }
  }

  /** The sum the range and the offset are made of: the heights of items
      `0` to `n - 1`. */
  function SumHeights(estimate: Estimator, rec: Recorded, n: int): int
  {
    SumUntil(p => estimate(rec, p), n)
  }

  /** `(0 to childCount).toList()`: the two child indices the first position
      is taken from, 0 and the child count itself (not every child). */
  function CandidateIndices(children: seq<Option<Child>>): (r: seq<int>)
    ensures r == [0, |children|]
  {
    [0, |children|]
  }

  /** The adapter position of the child at index `i`, dropped when there is
      no such child or it has no position. */
  function PositionAt(children: seq<Option<Child>>, i: int): (r: Option<int>)
    ensures r.Some? <==> ChildAt(children, i).Some? && ChildAt(children, i).value.position != NO_POSITION
    ensures r.Some? ==> r.value == ChildAt(children, i).value.position
  {
    var v := ChildAt(children, i);
    if v.Some? && v.value.position != NO_POSITION then Some(v.value.position) else None
  }

  /** `mapNotNull` of `PositionAt` over some child indices. */
  function Positions(children: seq<Option<Child>>, indices: seq<int>): (r: seq<int>)
    ensures |r| <= |indices|
    ensures forall k :: 0 <= k < |indices| && PositionAt(children, indices[k]).Some? ==>
      PositionAt(children, indices[k]).value in r
    ensures forall x :: x in r ==> exists k :: 0 <= k < |indices| && PositionAt(children, indices[k]) == Some(x)
  {
    if indices == [] then []
    else
      var rest := Positions(children, indices[1..]);
      assert forall k :: 1 <= k < |indices| ==> indices[k] == indices[1..][k - 1];
      var p := PositionAt(children, indices[0]);
      if p.Some? then [p.value] + rest else rest
  }

  /** `minOrNull() ?: 0`. */
  function MinOrZero(s: seq<int>): (r: int)
    ensures s == [] ==> r == 0
    ensures s != [] ==> r in s && forall x :: x in s ==> r <= x
  {
    if s == [] then 0
    else if |s| == 1 then s[0]
    else
      var m := MinOrZero(s[1..]);
      assert forall x :: x in s ==> x == s[0] || x in s[1..];
      if s[0] <= m then s[0] else m
  }

  /** The first position of `computeVerticalScrollOffset`. */
  function FirstChildPosition(children: seq<Option<Child>>): int
  {
    MinOrZero(Positions(children, CandidateIndices(children)))
  }

  /** Because index `childCount` never holds a child, only the first child
      is consulted: its position when it has one, otherwise 0. */
  lemma FirstChildPositionOfFirstChild(children: seq<Option<Child>>)
    ensures children != [] && children[0].Some? && children[0].value.position != NO_POSITION ==>
      FirstChildPosition(children) == children[0].value.position
    ensures !(children != [] && children[0].Some? && children[0].value.position != NO_POSITION) ==>
      FirstChildPosition(children) == 0
  {
    var ps := Positions(children, CandidateIndices(children));
    assert PositionAt(children, |children|).None?;
    assert Positions(children, [|children|]) == [];
    assert [0, |children|][1..] == [|children|];
    if children != [] && children[0].Some? && children[0].value.position != NO_POSITION {
      assert ps == [children[0].value.position];
    } else {
      assert ps == [];
    }
  }

  class LayoutManagerAccurateOffset {
    var childSizes: map<int, int>
    var childTypes: map<int, int>
    var childTypeHeights: map<int, map<int, int>>
    var computedRange: Option<int>

    /** A new layout manager has recorded nothing. */
    constructor()
      ensures childSizes == map[] && childTypes == map[] && childTypeHeights == map[]
      ensures computedRange == None
    {
      childSizes := map[];
      childTypes := map[];
      childTypeHeights := map[];
      computedRange := None;
    }

    /** The recorded maps, as the estimator sees them. */
    function Snapshot(): (r: Recorded)
      reads this`childSizes, this`childTypes, this`childTypeHeights
      ensures r.sizes == childSizes && r.types == childTypes && r.typeHeights == childTypeHeights
    {
      Recorded(childSizes, childTypes, childTypeHeights)
    }

    /** `onLayoutCompleted`: forgets the memoised range and records every
        child up to the first null one. */
    method OnLayoutCompleted(children: seq<Option<Child>>)
      modifies this`childSizes, this`childTypes, this`childTypeHeights, this`computedRange
      ensures computedRange == None
      ensures childSizes == RecordSizes(old(childSizes), LaidOut(children))
      ensures childTypes == RecordTypes(old(childTypes), LaidOut(children))
      ensures childTypeHeights == RecordTypeHeights(old(childTypeHeights), LaidOut(children))
    {
      computedRange := None;
      RecordChildren(children);
    }

    /** The maps hold `sizes0`, `types0` and `typeHeights0` with the
        children `cs` recorded. */
    ghost predicate RecordedFrom(sizes0: map<int, int>, types0: map<int, int>,
                                 typeHeights0: map<int, map<int, int>>, cs: seq<Child>)
      reads this`childSizes, this`childTypes, this`childTypeHeights
    {
      && childSizes == RecordSizes(sizes0, cs)
      && childTypes == RecordTypes(types0, cs)
      && childTypeHeights == RecordTypeHeights(typeHeights0, cs)
    }

    /** The loop of `onLayoutCompleted`, which returns at the first null
        child. */
    method RecordChildren(children: seq<Option<Child>>)
      modifies this`childSizes, this`childTypes, this`childTypeHeights
      ensures childSizes == RecordSizes(old(childSizes), LaidOut(children))
      ensures childTypes == RecordTypes(old(childTypes), LaidOut(children))
      ensures childTypeHeights == RecordTypeHeights(old(childTypeHeights), LaidOut(children))
    {
      for i := 0 to |children|
        invariant forall k :: 0 <= k < i ==> children[k].Some?
        invariant RecordedFrom(old(childSizes), old(childTypes), old(childTypeHeights), Present(children[..i]))
      {
        if children[i].None? {
          assert FirstMissing(children) == i;
          assert LaidOut(children) == Present(children[..i]);
          return;
        }
        PresentSnoc(children, i);
        RecordSnoc(old(childSizes), old(childTypes), old(childTypeHeights), Present(children[..i]), children[i].value);
        RecordChild(children[i].value);
      }
      assert children[..|children|] == children;
      assert LaidOut(children) == Present(children[..|children|]);
    }

    /** One pass of the loop: the child's height and type under its
        position, and its height in the inner map of its type. */
    method RecordChild(child: Child)
      modifies this`childSizes, this`childTypes, this`childTypeHeights
      ensures childSizes == old(childSizes)[child.position := child.height]
      ensures childTypes == old(childTypes)[child.position := child.viewType]
      ensures childTypeHeights == RecordTypeHeight(old(childTypeHeights), child)
    {
      childSizes := childSizes[child.position := child.height];
      childTypes := childTypes[child.position := child.viewType];
      if child.viewType in childTypeHeights {
        childTypeHeights := childTypeHeights[child.viewType :=
          childTypeHeights[child.viewType][child.position := child.height]];
      } else {
        childTypeHeights := childTypeHeights[child.viewType := map[child.position := child.height]];
      }
    }

    /** `computeVerticalScrollRange`: 0 without children; otherwise the
        memoised range when there is one, else the sum of all item heights,
        which is memoised. */
    method ComputeVerticalScrollRange(childCount: nat, itemCount: int, estimate: Estimator)
      returns (r: int)
      modifies this`computedRange
      ensures childCount == 0 ==> r == 0 && computedRange == old(computedRange)
      ensures childCount > 0 && old(computedRange).Some? ==>
        r == old(computedRange).value && computedRange == old(computedRange)
      ensures childCount > 0 && old(computedRange).None? ==>
        r == SumHeights(estimate, Snapshot(), itemCount) && computedRange == Some(r)
    {
      if childCount == 0 {
        return 0;
      }
      if computedRange.Some? {
        return computedRange.value;
      }
      r := SumHeights(estimate, Snapshot(), itemCount);
      computedRange := Some(r);
    }

    /** `computeVerticalScrollOffset`: 0 without children or without a
        first child; otherwise how far the first child's top has scrolled
        above the list (its offset truncated to whole pixels), plus the
        heights of the items before the first position and the top
        padding. */
    function ComputeVerticalScrollOffset(children: seq<Option<Child>>, paddingTop: int,
                                         estimate: Estimator): (r: int)
      reads this`childSizes, this`childTypes, this`childTypeHeights
      ensures children == [] || children[0].None? ==> r == 0
      ensures children != [] && children[0].Some? ==>
        r == -TruncateToInt(children[0].value.y) +
             SumHeights(estimate, Snapshot(), FirstChildPosition(children)) + paddingTop
    {
      if |children| == 0 then 0
      else
        match ChildAt(children, 0)
        case None => 0
        case Some(firstChild) =>
          var scrolledY := -TruncateToInt(firstChild.y) +
            SumHeights(estimate, Snapshot(), FirstChildPosition(children));
          scrolledY + paddingTop
    }
  }

  /** A second range query before the next layout answers as the first,
      whatever the items and estimates have become in between. */
  method RangeIsMemoised(m: LayoutManagerAccurateOffset, childCount: nat, itemCount: int, itemCount2: int,
                         estimate: Estimator, estimate2: Estimator)
    returns (r1: int, r2: int)
    modifies m`computedRange
    ensures r1 == r2
  {
    r1 := m.ComputeVerticalScrollRange(childCount, itemCount, estimate);
    r2 := m.ComputeVerticalScrollRange(childCount, itemCount2, estimate2);
  }

  /** After a layout the range is computed afresh from the new records. */
  method RangeAfterLayout(m: LayoutManagerAccurateOffset, children: seq<Option<Child>>, itemCount: int,
                          estimate: Estimator)
    returns (r: int)
    modifies m`childSizes, m`childTypes, m`childTypeHeights, m`computedRange
    ensures children != [] ==> r == SumHeights(estimate, m.Snapshot(), itemCount)
    ensures children == [] ==> r == 0
  {
    m.OnLayoutCompleted(children);
    r := m.ComputeVerticalScrollRange(|children|, itemCount, estimate);
  }

  /** With heights that are never negative, the heights summed into the
      offset, those before the first position, never exceed the whole range
      when the first position is an item of the list. */
  lemma {:induction false} OffsetWithinRange(estimate: Estimator, rec: Recorded, children: seq<Option<Child>>,
                                             itemCount: int)
    requires forall p :: 0 <= p < itemCount ==> estimate(rec, p) >= 0
    requires FirstChildPosition(children) <= itemCount
    ensures 0 <= SumHeights(estimate, rec, FirstChildPosition(children)) <= SumHeights(estimate, rec, itemCount)
  {
    SumUntilBounds(p => estimate(rec, p), FirstChildPosition(children), itemCount);
  }
}
