/** `ChapterSort`: which chapters of a manga are listed, in which order, and
    which one is read next. The chapter filter and the scanlator-list parser
    live elsewhere and are parameters here. */
module ChapterSort {
  import opened Text
  import opened Sorting
  import opened ChapterModel

  /** The manga's chapter ordering setting. `Other` is any value the app does
      not know. */
  datatype ChapterOrder = BySource | ByNumber | ByUploadDate | Other

  /** The manga settings the sort reads: the filtered scanlator string (absent
      when nothing is filtered), the descending flag and the ordering. */
  datatype SortSettings = SortSettings(filteredScanlators: Option<string>, sortDescending: bool,
                                       chapterOrder: ChapterOrder)

  /** `c1` comes no later than `c2` under `sortComparator`. */
  predicate ChapterLe(st: SortSettings, ignoreAsc: bool, c1: Chapter, c2: Chapter)
  {
    var descending := !ignoreAsc && st.sortDescending;
    match st.chapterOrder
    case BySource =>
      if descending then c1.sourceOrder <= c2.sourceOrder else c2.sourceOrder <= c1.sourceOrder
    case ByNumber =>
      if descending then c2.chapterNumber <= c1.chapterNumber else c1.chapterNumber <= c2.chapterNumber
    case ByUploadDate =>
      if descending then c2.dateUpload <= c1.dateUpload else c1.dateUpload <= c2.dateUpload
    case Other => c1.sourceOrder <= c2.sourceOrder
  }

  function Comparator(st: SortSettings, ignoreAsc: bool): (r: (Chapter, Chapter) -> bool)
    // any two chapters are comparable
    ensures forall c1, c2 :: r(c1, c2) || r(c2, c1)
    // an ordering the app does not know ignores both flags: ascending source order
    ensures st.chapterOrder == Other ==> forall c1, c2 :: r(c1, c2) <==> c1.sourceOrder <= c2.sourceOrder
    // `ignoreAsc` gives the ascending order whatever the setting
    ensures ignoreAsc ==> forall c1, c2 :: r(c1, c2) <==> ChapterLe(st.(sortDescending := false), false, c1, c2)
  {
    (c1: Chapter, c2: Chapter) => ChapterLe(st, ignoreAsc, c1, c2)
  }

  /** Every ordering compares one key, so it is a total preorder. */
  lemma ComparatorTotalPreorder(st: SortSettings, ignoreAsc: bool)
    ensures TotalPreorder(Comparator(st, ignoreAsc))
  {
  }

  /** Flipping the descending flag reverses each known ordering; an unknown
      ordering ignores it and sorts by ascending source order. A source
      listing runs newest first, so "descending" means ascending
      `source_order`. `ignoreAsc` turns the flag off. */
  lemma ComparatorDirection(st: SortSettings, ignoreAsc: bool, c1: Chapter, c2: Chapter)
    ensures st.chapterOrder != Other ==>
      ChapterLe(st.(sortDescending := true), false, c1, c2) == ChapterLe(st.(sortDescending := false), false, c2, c1)
    ensures st.chapterOrder == BySource && !ignoreAsc && st.sortDescending ==>
      (ChapterLe(st, ignoreAsc, c1, c2) <==> c1.sourceOrder <= c2.sourceOrder)
    ensures st.chapterOrder == ByNumber && !ignoreAsc && st.sortDescending ==>
      (ChapterLe(st, ignoreAsc, c1, c2) <==> c1.chapterNumber >= c2.chapterNumber)
    ensures st.chapterOrder == Other ==>
      (ChapterLe(st, ignoreAsc, c1, c2) <==> c1.sourceOrder <= c2.sourceOrder)
    ensures ChapterLe(st, true, c1, c2) == ChapterLe(st.(sortDescending := false), false, c1, c2)
  {
  }

  /** A chapter survives the scanlator filter when none of its groups is
      among the filtered ones. */
  predicate Kept(c: Chapter, banned: seq<string>, groups: string -> seq<string>)
  {
    forall g :: g in groups(c.scanlator) ==> g !in banned
  }

  /** `filterNot { any group is filtered }`. */
  function FilterScanlators(chapters: seq<Chapter>, banned: seq<string>,
                            groups: string -> seq<string>): (r: seq<Chapter>)
    ensures |r| <= |chapters|
    ensures forall c :: c in r <==> c in chapters && Kept(c, banned, groups)
    ensures multiset(r) <= multiset(chapters)
  {
    if chapters == [] then []
    else
      assert chapters == [chapters[0]] + chapters[1..];
      var rest := FilterScanlators(chapters[1..], banned, groups);
      if Kept(chapters[0], banned, groups) then [chapters[0]] + rest else rest
  }

  /** The scanlator step: the raw list when the manga filters no scanlator. */
  function ScanlatorFiltered(raw: seq<Chapter>, st: SortSettings,
                             groups: string -> seq<string>): (r: seq<Chapter>)
    ensures st.filteredScanlators.None? ==> r == raw
    ensures st.filteredScanlators.Some? ==>
      var banned := groups(st.filteredScanlators.value);
      (forall c :: c in r <==> c in raw && Kept(c, banned, groups))
    ensures multiset(r) <= multiset(raw)
  {
    match st.filteredScanlators
    case None => raw
    case Some(f) => FilterScanlators(raw, groups(f), groups)
  }

  /** `getChaptersSorted`: the scanlator-filtered list, then the reader
      filter if asked for, else the list filter if asked for, sorted by the
      manga's comparator. */
  function GetChaptersSorted(raw: seq<Chapter>, st: SortSettings, groups: string -> seq<string>,
                             andFiltered: bool, filterForReader: bool,
                             readerFilter: seq<Chapter> -> seq<Chapter>,
                             listFilter: seq<Chapter> -> seq<Chapter>): (r: seq<Chapter>)
    ensures var base := ScanlatorFiltered(raw, st, groups);
      var chosen := if filterForReader then readerFilter(base)
                    else if andFiltered then listFilter(base) else base;
      multiset(r) == multiset(chosen)
  {
    var base := ScanlatorFiltered(raw, st, groups);
    var chosen := if filterForReader then readerFilter(base)
                  else if andFiltered then listFilter(base) else base;
    SortBy(chosen, Comparator(st, false))
  }

  /** The sorted list is in the manga's order. */
  lemma GetChaptersSortedOrdered(raw: seq<Chapter>, st: SortSettings, groups: string -> seq<string>,
                                 andFiltered: bool, filterForReader: bool,
                                 readerFilter: seq<Chapter> -> seq<Chapter>,
                                 listFilter: seq<Chapter> -> seq<Chapter>)
    ensures Sorted(GetChaptersSorted(raw, st, groups, andFiltered, filterForReader, readerFilter, listFilter),
                   Comparator(st, false))
  {
    var base := ScanlatorFiltered(raw, st, groups);
    var chosen := if filterForReader then readerFilter(base)
                  else if andFiltered then listFilter(base) else base;
    ComparatorTotalPreorder(st, false);
    SortBySorted(chosen, Comparator(st, false));
  }

  /** `find { !it.read }`. */
  function FindUnread(s: seq<Chapter>): (r: Option<nat>)
    ensures r.None? <==> forall i :: 0 <= i < |s| ==> s[i].read
    ensures r.Some? ==> r.value < |s| && !s[r.value].read
    ensures r.Some? ==> forall i :: 0 <= i < r.value ==> s[i].read
  {
    if s == [] then None
    else if !s[0].read then Some(0)
    else
      match FindUnread(s[1..])
      case None => None
      case Some(i) => Some(i + 1)
  }

  /** `getNextUnreadChapter`: the first unread chapter in ascending order. */
  function GetNextUnreadChapter(raw: seq<Chapter>, st: SortSettings, groups: string -> seq<string>,
                                andFiltered: bool, listFilter: seq<Chapter> -> seq<Chapter>): (r: Option<Chapter>)
    ensures var base := ScanlatorFiltered(raw, st, groups);
      var chosen := if andFiltered then listFilter(base) else base;
      && (r.None? <==> forall c :: c in chosen ==> c.read)
      && (r.Some? ==> r.value in chosen && !r.value.read)
  {
    var base := ScanlatorFiltered(raw, st, groups);
    var chosen := if andFiltered then listFilter(base) else base;
    var sorted := SortBy(chosen, Comparator(st, true));
    assert forall c :: c in chosen <==> c in sorted by {
      assert forall c :: c in chosen <==> c in multiset(chosen);
      assert forall c :: c in sorted <==> c in multiset(sorted);
    }
    match FindUnread(sorted)
    case None => None
    case Some(i) => Some(sorted[i])
  }

  /** The next unread chapter comes first, in ascending order, among all the
      unread chapters of the filtered list. */
  lemma {:induction false} NextUnreadIsFirst(raw: seq<Chapter>, st: SortSettings, groups: string -> seq<string>,
                                             andFiltered: bool, listFilter: seq<Chapter> -> seq<Chapter>,
                                             c: Chapter)
    requires var base := ScanlatorFiltered(raw, st, groups);
      var chosen := if andFiltered then listFilter(base) else base;
      c in chosen && !c.read
    ensures var r := GetNextUnreadChapter(raw, st, groups, andFiltered, listFilter);
      r.Some? && ChapterLe(st, true, r.value, c)
  {
    var base := ScanlatorFiltered(raw, st, groups);
    var chosen := if andFiltered then listFilter(base) else base;
    var sorted := SortBy(chosen, Comparator(st, true));
    ComparatorTotalPreorder(st, true);
    SortBySorted(chosen, Comparator(st, true));
    assert c in multiset(chosen);
    assert c in sorted;
    var j :| 0 <= j < |sorted| && sorted[j] == c;
    FirstUnreadComesFirst(sorted, st, j);
    assert GetNextUnreadChapter(raw, st, groups, andFiltered, listFilter) == Some(sorted[FindUnread(sorted).value]);
  }

  /** In a list sorted by the ascending comparator, the first unread
      chapter comes no later than any other unread one. */
  lemma FirstUnreadComesFirst(sorted: seq<Chapter>, st: SortSettings, j: int)
    requires Sorted(sorted, Comparator(st, true))
    requires 0 <= j < |sorted| && !sorted[j].read
    ensures FindUnread(sorted).Some? && ChapterLe(st, true, sorted[FindUnread(sorted).value], sorted[j])
  {
    var i := FindUnread(sorted).value;
    if i < j {
      assert Comparator(st, true)(sorted[i], sorted[j]);
    }
  }
}
