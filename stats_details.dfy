/** `StatsDetails`: the presenter behind the detailed statistics screen. It
    narrows the library by the selected chips, buckets what is left by the
    chosen statistic (series type, status, score, language, length, tracker,
    source, category, tag or start year), and orders the buckets by the
    chosen sort. Strings the app reads from its resources, the database, the
    tracker services and the pie-chart colours are outside the model: what
    the presenter asks of them is the `Env` parameter. */
module StatsDetails {
  import opened Text
  import opened Numbers
  import opened Sorting

  datatype Stat = SerieType | Status | Score | Language | Length | Tracker | Source | Category | Tag | StartYear

  datatype StatsSort = CountDesc | ProgressDesc | MeanScoreDesc

  /** A library row: one per manga and category it is in. `tags` are the
      manga's genres, already upper-cased. */
  datatype LibraryManga = LibraryManga(
    id: int, url: string, seriesType: int, status: int, source: int, category: int,
    read: int, totalChapters: int, tags: seq<string>)

  /** Two rows are the same manga when their id and url agree. */
  function Identity(m: LibraryManga): (int, string)
  {
    (m.id, m.url)
  }

  /** One bucket of the chart. Its colour is left out. */
  datatype StatsData = StatsData(count: int, meanScore: Option<real>, chaptersRead: int,
                                 totalChapters: int, title: string)

  /** One tracker entry of a manga: its raw score and the score on ten
      points, absent when the tracker service is unknown. */
  datatype TrackScore = TrackScore(score: real, tenPoint: Option<real>)

  /** The selected chips. Sources and categories are selected by id. */
  datatype Selection = Selection(serieTypes: set<string>, sources: set<int>, statuses: set<string>,
                                 languages: set<string>, categories: set<int>)

  /** What the presenter reads from the rest of the app. */
  datatype Env = Env(
    serieTypeName: int -> string,
    statusName: int -> string,
    languageOf: LibraryManga -> string,
    tracksOf: LibraryManga -> seq<TrackScore>,
    /** `getMeanScoreRounded` of a bucket. */
    meanScoreRounded: seq<LibraryManga> -> Option<real>,
    /** The scores of the score chart's colour table, in its order. */
    scoreKeys: seq<int>,
    /** The length buckets: a minimum and an optional maximum chapter count. */
    lengthRanges: seq<(int, Option<int>)>,
    /** The tracker buckets of a filtered list. */
    trackerStats: seq<LibraryManga> -> seq<StatsData>,
    sourceName: int -> Option<string>,
    categoryName: int -> Option<string>,
    startYear: LibraryManga -> Option<int>,
    notRated: string,
    notStarted: string,
    defaultCategory: string)

  // ---------------------------------------------------------------- chips

  /** `filterBy*`: the list itself when the chip is bypassed or nothing is
      selected in it, otherwise the entries `keep` accepts, in order. */
  function FilterBy(list: seq<LibraryManga>, noFilter: bool, nothingSelected: bool,
                    keep: LibraryManga -> bool): (r: seq<LibraryManga>)
    ensures noFilter || nothingSelected ==> r == list
    ensures !noFilter && !nothingSelected ==>
      (forall m :: m in r <==> m in list && keep(m))
    ensures multiset(r) <= multiset(list)
  {
    if noFilter || nothingSelected then list
    else
      FilterMembers(list, keep);
      Filter(list, keep)
  }

  predicate SerieTypeChip(env: Env, sel: Selection, m: LibraryManga)
  {
    env.serieTypeName(m.seriesType) in sel.serieTypes
  }

  predicate StatusChip(env: Env, sel: Selection, m: LibraryManga)
  {
    env.statusName(m.status) in sel.statuses
  }

  predicate LanguageChip(env: Env, sel: Selection, m: LibraryManga)
  {
    env.languageOf(m) in sel.languages
  }

  predicate SourceChip(sel: Selection, m: LibraryManga)
  {
    m.source in sel.sources
  }

  predicate CategoryChip(sel: Selection, m: LibraryManga)
  {
    m.category in sel.categories
  }

  /** Which chips `filterByChip` bypasses for the statistic on display. */
  predicate BypassSerieType(stat: Option<Stat>) { stat == Some(SerieType) }

  predicate BypassStatus(stat: Option<Stat>) { stat == Some(Status) }

  predicate BypassLanguage(stat: Option<Stat>, sel: Selection)
  {
    stat == Some(Language) || (stat != Some(Source) && sel.sources != {})
  }

  predicate BypassSource(stat: Option<Stat>, sel: Selection)
  {
    stat == Some(Source) || stat == Some(Language) || sel.languages != {}
  }

  predicate BypassCategory(stat: Option<Stat>) { stat == Some(Category) }

  /** `filterByChip`: the five chip filters one after another. */
  function FilterByChip(list: seq<LibraryManga>, stat: Option<Stat>, sel: Selection, env: Env)
    : (r: seq<LibraryManga>)
  {
    var bySerieType := FilterBy(list, BypassSerieType(stat), sel.serieTypes == {},
                                m => SerieTypeChip(env, sel, m));
    var byStatus := FilterBy(bySerieType, BypassStatus(stat), sel.statuses == {},
                             m => StatusChip(env, sel, m));
    var byLanguage := FilterBy(byStatus, BypassLanguage(stat, sel), sel.languages == {},
                               m => LanguageChip(env, sel, m));
    var bySource := FilterBy(byLanguage, BypassSource(stat, sel), sel.sources == {},
                             m => SourceChip(sel, m));
    FilterBy(bySource, BypassCategory(stat), sel.categories == {}, m => CategoryChip(sel, m))
  }

  /** An entry passes the chips exactly when it is in the list and meets
      every chip that is neither bypassed nor empty; no entry is added. */
  lemma FilterByChipKeeps(list: seq<LibraryManga>, stat: Option<Stat>, sel: Selection, env: Env,
                          m: LibraryManga)
    ensures m in FilterByChip(list, stat, sel, env) <==>
      && m in list
      && (!BypassSerieType(stat) && sel.serieTypes != {} ==> SerieTypeChip(env, sel, m))
      && (!BypassStatus(stat) && sel.statuses != {} ==> StatusChip(env, sel, m))
      && (!BypassLanguage(stat, sel) && sel.languages != {} ==> LanguageChip(env, sel, m))
      && (!BypassSource(stat, sel) && sel.sources != {} ==> SourceChip(sel, m))
      && (!BypassCategory(stat) && sel.categories != {} ==> CategoryChip(sel, m))
    ensures multiset(FilterByChip(list, stat, sel, env)) <= multiset(list)
  {
  }

  /** With no chip selected, `filterByChip` keeps the whole list in order. */
  lemma FilterByChipNoChip(list: seq<LibraryManga>, stat: Option<Stat>, sel: Selection, env: Env)
    requires sel.serieTypes == {} && sel.statuses == {} && sel.languages == {}
    requires sel.sources == {} && sel.categories == {}
    ensures FilterByChip(list, stat, sel, env) == list
  {
  }

  /** The chip of the statistic on display never filters, and the language
      and source chips never both filter. */
  lemma ChipBypasses(stat: Option<Stat>, sel: Selection)
    ensures stat == Some(SerieType) ==> BypassSerieType(stat)
    ensures stat == Some(Status) ==> BypassStatus(stat)
    ensures stat == Some(Language) ==> BypassLanguage(stat, sel)
    ensures stat == Some(Source) ==> BypassSource(stat, sel)
    ensures stat == Some(Category) ==> BypassCategory(stat)
    ensures (BypassLanguage(stat, sel) || sel.languages == {}) || (BypassSource(stat, sel) || sel.sources == {})
  {
  }

  // ------------------------------------------------------------- buckets

  function SumRead(g: seq<LibraryManga>): int
  {
    if g == [] then 0 else g[0].read + SumRead(g[1..])
  }

  function SumTotal(g: seq<LibraryManga>): int
  {
    if g == [] then 0 else g[0].totalChapters + SumTotal(g[1..])
  }

  /** The bucket of the entries `g` under the label `title`. */
  function StatsOf(g: seq<LibraryManga>, title: string, env: Env): StatsData
  {
    StatsData(|g|, env.meanScoreRounded(g), SumRead(g), SumTotal(g), title)
  }

  /** Kotlin `groupBy(key)`: the keys in the order they first occur ... */
  function GroupKeys<K(==)>(list: seq<LibraryManga>, key: LibraryManga -> K): (r: seq<K>)
  {
    Distinct(MapSeq(list, key))
  }

  /** ... each with the entries that have it, in order. */
  function Group<K(==)>(list: seq<LibraryManga>, key: LibraryManga -> K, k: K): (r: seq<LibraryManga>)
    ensures forall m :: m in r <==> m in list && key(m) == k
  {
    var p := (m: LibraryManga) => key(m) == k;
    FilterMembers(list, p);
    Filter(list, p)
  }

  /** The buckets a `groupBy` setup appends: one per key. */
  function GroupedStats<K(==)>(list: seq<LibraryManga>, key: LibraryManga -> K,
                               labelOf: K -> string, env: Env): (r: seq<StatsData>)
    ensures |r| == |GroupKeys(list, key)|
  {
    var ks := GroupKeys(list, key);
    seq(|ks|, j requires 0 <= j < |ks| => StatsOf(Group(list, key, ks[j]), labelOf(ks[j]), env))
  }

  /** The groups split the list: the keys are distinct, every group is
      non-empty, and every entry is in the group of its own key and in no
      other. */
  lemma GroupsPartition<K>(list: seq<LibraryManga>, key: LibraryManga -> K, labelOf: K -> string,
                               env: Env)
    ensures NoDuplicates(GroupKeys(list, key))
    ensures forall j :: 0 <= j < |GroupKeys(list, key)| ==>
      GroupedStats(list, key, labelOf, env)[j].count >= 1
    ensures forall i :: 0 <= i < |list| ==> key(list[i]) in GroupKeys(list, key)
    ensures forall i, k :: 0 <= i < |list| && list[i] in Group(list, key, k) ==> k == key(list[i])
    ensures forall i :: 0 <= i < |list| ==> list[i] in Group(list, key, key(list[i]))
  {
    var ks := GroupKeys(list, key);
    var keys := MapSeq(list, key);
    forall j | 0 <= j < |ks| ensures |Group(list, key, ks[j])| >= 1 {
      assert ks[j] in keys;
      var i :| 0 <= i < |keys| && keys[i] == ks[j];
      assert list[i] in Group(list, key, ks[j]);
    }
    forall i | 0 <= i < |list| ensures key(list[i]) in ks {
      assert keys[i] == key(list[i]);
    }
    forall i, k | 0 <= i < |list| && list[i] in Group(list, key, k) ensures k == key(list[i]) {
      var g := Group(list, key, k);
      var n :| 0 <= n < |g| && g[n] == list[i];
    }
  }

  function SeriesTypeKey(): LibraryManga -> int { (m: LibraryManga) => m.seriesType }

  function StatusKey(): LibraryManga -> int { (m: LibraryManga) => m.status }

  function SourceKey(): LibraryManga -> int { (m: LibraryManga) => m.source }

  function CategoryKey(): LibraryManga -> int { (m: LibraryManga) => m.category }

  function LanguageLabels(): string -> string { l => l }

  function SourceLabels(env: Env): int -> string { s => SourceLabel(env, s) }

  function CategoryLabels(env: Env): int -> string { c => CategoryLabel(env, c) }

  function YearLabels(env: Env): Option<int> -> string { y => YearLabel(env, y) }

  function SourceLabel(env: Env, source: int): string
  {
    match env.sourceName(source)
    case Some(name) => name
    case None => IntToString(source)
  }

  function CategoryLabel(env: Env, category: int): string
  {
    match env.categoryName(category)
    case Some(name) => name
    case None => env.defaultCategory
  }

  function YearLabel(env: Env, year: Option<int>): string
  {
    match year
    case Some(y) => IntToString(y)
    case None => env.notStarted
  }

  // -------------------------------------------------------------- length

  /** A length bucket takes the entries with at least `min` chapters and,
      when there is a maximum, at most `max`. */
  predicate InRange(range: (int, Option<int>), m: LibraryManga)
  {
    m.totalChapters >= range.0 && (range.1.None? || m.totalChapters <= range.1.value)
  }

  /** Kotlin's `partition` by a range: the entries it takes ... */
  function Matches(list: seq<LibraryManga>, range: (int, Option<int>)): (r: seq<LibraryManga>)
    ensures forall m :: m in r <==> m in list && InRange(range, m)
  {
    FilterMembers(list, InRangeOf(range));
    Filter(list, InRangeOf(range))
  }

  function InRangeOf(range: (int, Option<int>)): LibraryManga -> bool
  {
    (m: LibraryManga) => InRange(range, m)
  }

  function OutOfRangeOf(range: (int, Option<int>)): LibraryManga -> bool
  {
    (m: LibraryManga) => !InRange(range, m)
  }

  /** Every entry is taken or left by a range. */
  lemma MatchesMissesPartition(list: seq<LibraryManga>, range: (int, Option<int>))
    ensures |Matches(list, range)| + |Misses(list, range)| == |list|
  {
    FilterPartition(list, InRangeOf(range), OutOfRangeOf(range));
  }

  /** ... and the entries it leaves. */
  function Misses(list: seq<LibraryManga>, range: (int, Option<int>)): (r: seq<LibraryManga>)
    ensures forall m :: m in r <==> m in list && !InRange(range, m)
  {
    FilterMembers(list, OutOfRangeOf(range));
    Filter(list, OutOfRangeOf(range))
  }

  /** The entries no bucket of `ranges` took. */
  function Unmatched(list: seq<LibraryManga>, ranges: seq<(int, Option<int>)>): seq<LibraryManga>
  {
    if ranges == [] then list
    else
      var r := ranges[|ranges| - 1];
      Misses(Unmatched(list, ranges[..|ranges| - 1]), r)
  }

  /** The entries of each bucket: a bucket only sees what the earlier ones
      left. */
  function LengthBuckets(list: seq<LibraryManga>, ranges: seq<(int, Option<int>)>)
    : (r: seq<seq<LibraryManga>>)
    ensures |r| == |ranges|
  {
    if ranges == [] then []
    else
      var r := ranges[|ranges| - 1];
      var before := ranges[..|ranges| - 1];
      LengthBuckets(list, before) + [Matches(Unmatched(list, before), r)]
  }

  function CountSum(buckets: seq<seq<LibraryManga>>): int
  {
    if buckets == [] then 0 else CountSum(buckets[..|buckets| - 1]) + |buckets[|buckets| - 1]|
  }

  /** Every entry either lands in one bucket or in none: the counts and the
      entries left over add up to the filtered list. */
  lemma {:induction false} LengthBucketsCount(list: seq<LibraryManga>, ranges: seq<(int, Option<int>)>)
    ensures CountSum(LengthBuckets(list, ranges)) + |Unmatched(list, ranges)| == |list|
    ensures CountSum(LengthBuckets(list, ranges)) <= |list|
  {
    if ranges != [] {
      var r := ranges[|ranges| - 1];
      var before := ranges[..|ranges| - 1];
      LengthBucketsCount(list, before);
      MatchesMissesPartition(Unmatched(list, before), r);
      var bs := LengthBuckets(list, ranges);
      assert bs[..|bs| - 1] == LengthBuckets(list, before);
    }
  }

  /** What a bucket leaves over is a sub-list of what it was given, none of
      which any of the buckets so far would take. */
  lemma {:induction false} UnmatchedMisses(list: seq<LibraryManga>, ranges: seq<(int, Option<int>)>)
    ensures forall m :: m in Unmatched(list, ranges) ==>
      m in list && forall k :: 0 <= k < |ranges| ==> !InRange(ranges[k], m)
  {
    if ranges != [] {
      var before := ranges[..|ranges| - 1];
      UnmatchedMisses(list, before);
      var u := Unmatched(list, before);
      var r := ranges[|ranges| - 1];
      forall m | m in Unmatched(list, ranges)
        ensures m in list && forall k :: 0 <= k < |ranges| ==> !InRange(ranges[k], m)
      {
        var f := Misses(u, r);
        var n :| 0 <= n < |f| && f[n] == m;
        forall k | 0 <= k < |ranges| ensures !InRange(ranges[k], m) {
          if k < |ranges| - 1 {
            assert ranges[k] == before[k];
          }
        }
      }
    }
  }

  /** Bucket `j` holds entries of the list in range `j` and in no earlier
      range, so no entry is counted in two buckets. */
  lemma {:induction false} LengthBucketsDisjoint(list: seq<LibraryManga>, ranges: seq<(int, Option<int>)>)
    ensures forall j, m :: 0 <= j < |ranges| && m in LengthBuckets(list, ranges)[j] ==>
      && m in list
      && InRange(ranges[j], m)
      && forall k :: 0 <= k < j ==> !InRange(ranges[k], m)
  {
    if ranges != [] {
      var before := ranges[..|ranges| - 1];
      var r := ranges[|ranges| - 1];
      LengthBucketsDisjoint(list, before);
      UnmatchedMisses(list, before);
      var bs := LengthBuckets(list, ranges);
      forall j, m | 0 <= j < |ranges| && m in bs[j]
        ensures m in list && InRange(ranges[j], m) && forall k :: 0 <= k < j ==> !InRange(ranges[k], m)
      {
        if j < |ranges| - 1 {
          assert bs[j] == LengthBuckets(list, before)[j];
          assert forall k :: 0 <= k < j ==> ranges[k] == before[k];
          assert ranges[j] == before[j];
        } else {
          var f := Matches(Unmatched(list, before), r);
          assert bs[j] == f;
          var n :| 0 <= n < |f| && f[n] == m;
          assert forall k :: 0 <= k < j ==> ranges[k] == before[k];
        }
      }
    }
  }

  /** `"null"` for an absent value, as `joinToString` writes it. */
  function OptionalToString(v: Option<int>): string
  {
    match v
    case Some(x) => IntToString(x)
    case None => "null"
  }

  /** The label of a length bucket as the presenter builds it: the minimum
      alone when it equals the maximum, else minimum and maximum joined by
      `-` with `-null` replaced by `+`. */
  function LengthLabel(min: int, max: Option<int>): string
  {
    if max == Some(min) then IntToString(min)
    else ReplaceAll(Join([IntToString(min), OptionalToString(max)], "-"), "-null", "+")
  }

  lemma IntToStringHasNoN(i: int)
    ensures forall k :: 0 <= k < |IntToString(i)| ==> IntToString(i)[k] != 'n'
  {
    var s := IntToString(i);
    forall k | 0 <= k < |s| ensures s[k] != 'n' {
      if k > 0 {
        assert IsDigit(s[k]);
      } else if i >= 0 {
        assert AllDigits(NatToString(i));
      }
    }
  }

  /** The "-null" that an absent maximum leaves after the minimum is the
      only one, and it becomes "+". */
  lemma LabelTextOpen(min: int)
    ensures ReplaceAll(Join([IntToString(min), OptionalToString(None)], "-"), "-null", "+") == IntToString(min) + "+"
  {
    var a := IntToString(min);
    IntToStringHasNoN(min);
    var s := a + "-" + "null";
    assert Join([a, "null"], "-") == s;
    assert OccursAt(s, "-null", |a|) by {
      assert s[|a|..|a| + 5] == "-null";
    }
    forall j: nat | j < |a| ensures !OccursAt(s, "-null", j) {
      if j + 5 <= |s| {
        assert s[j..j + 5][1] == s[j + 1];
        if j + 1 < |a| {
          assert s[j + 1] == a[j + 1];
        } else {
          assert s[j + 1] == '-';
        }
      }
    }
    IndexOfFirst(s, "-null", |a|);
    assert s[..|a|] == a;
    assert s[|a| + 5..] == "";
    assert IndexOf("", "-null") == None;
    assert ReplaceAll(s, "-null", "+") == a + "+" + ReplaceAll("", "-null", "+");
  }

  /** Joining two numbers with '-' leaves no "-null" to replace. */
  lemma LabelTextBounded(min: int, max: int)
    ensures ReplaceAll(Join([IntToString(min), OptionalToString(Some(max))], "-"), "-null", "+")
      == IntToString(min) + "-" + IntToString(max)
  {
    var a := IntToString(min);
    IntToStringHasNoN(min);
    var b := IntToString(max);
    IntToStringHasNoN(max);
    var s := a + "-" + b;
    assert Join([a, b], "-") == s by {
      assert Join([b], "-") == b;
    }
    forall k | 0 <= k < |s| ensures s[k] != "-null"[1] {
      if k < |a| {
        assert s[k] == a[k];
      } else if k > |a| {
        assert s[k] == b[k - |a| - 1];
      }
    }
    ReplaceAllAbsent(s, "-null", "+");
  }

  /** The three shapes of a length label: "5" for a single value, "5-10"
      for a bounded bucket, "5+" for an open one. */
  lemma LengthLabelShapes(min: int, max: Option<int>)
    ensures max == Some(min) ==> LengthLabel(min, max) == IntToString(min)
    ensures max.Some? && max.value != min ==>
      LengthLabel(min, max) == IntToString(min) + "-" + IntToString(max.value)
    ensures max.None? ==> LengthLabel(min, max) == IntToString(min) + "+"
  {
    if max.None? {
      LabelTextOpen(min);
    } else if max.value != min {
      LabelTextBounded(min, max.value);
    }
  }

  /** The chart entries of length buckets `bs` under their ranges. */
  function BucketStats(bs: seq<seq<LibraryManga>>, ranges: seq<(int, Option<int>)>, env: Env)
    : (r: seq<StatsData>)
    requires |bs| == |ranges|
    ensures |r| == |ranges|
  {
    seq(|ranges|, j requires 0 <= j < |ranges| =>
      StatsOf(bs[j], LengthLabel(ranges[j].0, ranges[j].1), env))
  }

  lemma BucketStatsSnoc(bs: seq<seq<LibraryManga>>, ranges: seq<(int, Option<int>)>,
                        b: seq<LibraryManga>, r: (int, Option<int>), env: Env)
    requires |bs| == |ranges|
    ensures BucketStats(bs + [b], ranges + [r], env)
      == BucketStats(bs, ranges, env) + [StatsOf(b, LengthLabel(r.0, r.1), env)]
  {
  }

  /** The buckets `setupLength` appends. */
  function LengthStats(list: seq<LibraryManga>, ranges: seq<(int, Option<int>)>, env: Env)
    : (r: seq<StatsData>)
    ensures |r| == |ranges|
  {
    BucketStats(LengthBuckets(list, ranges), ranges, env)
  }

  /** One more range adds one bucket: what the earlier ranges left and the
      new range takes. */
  lemma LengthStatsSnoc(list: seq<LibraryManga>, ranges: seq<(int, Option<int>)>, env: Env)
    requires |ranges| > 0
    ensures var before := ranges[..|ranges| - 1];
      var r := ranges[|ranges| - 1];
      LengthStats(list, ranges, env) ==
        LengthStats(list, before, env) + [StatsOf(Matches(Unmatched(list, before), r), LengthLabel(r.0, r.1), env)]
  {
    var before := ranges[..|ranges| - 1];
    var r := ranges[|ranges| - 1];
    assert ranges == before + [r];
    BucketStatsSnoc(LengthBuckets(list, before), before, Matches(Unmatched(list, before), r), r, env);
  }

  // ---------------------------------------------------------------- tags

  function AllTags(list: seq<LibraryManga>): (r: seq<string>)
    ensures forall i, t :: 0 <= i < |list| && t in list[i].tags ==> t in r
  {
    if list == [] then [] else list[0].tags + AllTags(list[1..])
  }

  lemma {:induction false} AllTagsFrom(list: seq<LibraryManga>, t: string)
    requires t in AllTags(list)
    ensures exists i :: 0 <= i < |list| && t in list[i].tags
  {
    if t !in list[0].tags {
      AllTagsFrom(list[1..], t);
      var i :| 0 <= i < |list[1..]| && t in list[1..][i].tags;
      assert list[i + 1] == list[1..][i];
    }
  }

  /** The entries carrying `tag`. */
  function Tagged(list: seq<LibraryManga>, tag: string): (r: seq<LibraryManga>)
    ensures forall m :: m in r <==> m in list && tag in m.tags
  {
    var p := (m: LibraryManga) => tag in m.tags;
    FilterMembers(list, p);
    Filter(list, p)
  }

  /** The distinct tags of the list. */
  function TagList(list: seq<LibraryManga>): seq<string>
  {
    Distinct(AllTags(list))
  }

  /** The tag list holds each tag once, and every tag of every entry. */
  lemma TagListComplete(list: seq<LibraryManga>)
    ensures NoDuplicates(TagList(list))
    ensures forall i, t :: 0 <= i < |list| && t in list[i].tags ==> t in TagList(list)
  {
    var all := AllTags(list);
    forall t | t in all ensures t in Distinct(all) {
      var k :| 0 <= k < |all| && all[k] == t;
    }
  }

  /** The buckets `setupTags` appends before sorting: one per distinct tag,
      holding the entries that carry it. */
  function TagStats(list: seq<LibraryManga>, env: Env): (r: seq<StatsData>)
    ensures |r| == |TagList(list)|
  {
    var tags := TagList(list);
    seq(|tags|, j requires 0 <= j < |tags| =>
      StatsOf(Tagged(list, tags[j]), tags[j], env))
  }

  /** The tag chart: the tag buckets sorted, cut to the first 100. */
  function TopTags(k: Option<StatsSort>, list: seq<LibraryManga>, env: Env): (r: seq<StatsData>)
    ensures |r| <= 100 && |r| <= |TagStats(list, env)|
    ensures r == SortedStats(k, TagStats(list, env))[..|r|]
    ensures |TagStats(list, env)| <= 100 ==> r == SortedStats(k, TagStats(list, env))
  {
    Take(SortedStats(k, TagStats(list, env)), 100)
  }

  /** Every tag bucket counts at least one entry, and the tags are distinct. */
  lemma TagStatsNonEmpty(list: seq<LibraryManga>, env: Env)
    ensures NoDuplicates(TagList(list))
    ensures forall j :: 0 <= j < |TagStats(list, env)| ==> TagStats(list, env)[j].count >= 1
  {
    var tags := TagList(list);
    forall j | 0 <= j < |tags| ensures TagStats(list, env)[j].count >= 1 {
      AllTagsFrom(list, tags[j]);
      var i :| 0 <= i < |list| && tags[j] in list[i].tags;
      assert list[i] in Tagged(list, tags[j]);
    }
  }

  // --------------------------------------------------------------- score

  /** The ten-point scores of the entries with a positive score whose
      service gives one. */
  function TenPointScores(tracks: seq<TrackScore>): (r: seq<real>)
    ensures |r| == 0 <==> forall i :: 0 <= i < |tracks| ==> tracks[i].score <= 0.0 || tracks[i].tenPoint.None?
    ensures forall x :: x in r ==> exists i :: 0 <= i < |tracks| && tracks[i].tenPoint == Some(x)
  {
    if tracks == [] then []
    else
      var t := tracks[0];
      var rest := TenPointScores(tracks[1..]);
      assert forall x :: x in rest ==> exists i :: 0 <= i < |tracks| && tracks[i].tenPoint == Some(x) by {
        forall x | x in rest ensures exists i :: 0 <= i < |tracks| && tracks[i].tenPoint == Some(x) {
          var i :| 0 <= i < |tracks[1..]| && tracks[1..][i].tenPoint == Some(x);
          assert tracks[i + 1] == tracks[1..][i];
        }
      }
      (if t.score > 0.0 && t.tenPoint.Some? then [t.tenPoint.value] else []) + rest
  }

  function SumReal(s: seq<real>): real
  {
    if s == [] then 0.0 else s[0] + SumReal(s[1..])
  }

  /** The mean of a non-empty list of values. */
  function Average(s: seq<real>): real
    requires |s| > 0
  {
    SumReal(s) / (|s| as real)
  }

  /** The mean times the count gives back the sum, and one value is its own mean. */
  lemma AverageSum(s: seq<real>)
    requires |s| > 0
    ensures Average(s) * (|s| as real) == SumReal(s)
    ensures |s| == 1 ==> Average(s) == s[0]
  {
    if |s| == 1 {
      assert SumReal(s[1..]) == 0.0;
    }
  }

  /** `x` added up `n` times. */
  function Times(n: nat, x: real): real
  {
    if n == 0 then 0.0 else Times(n - 1, x) + x
  }

  lemma {:induction false} TimesIsProduct(n: nat, x: real)
    ensures Times(n, x) == (n as real) * x
  {
    if n > 0 {
      TimesIsProduct(n - 1, x);
      assert (n as real) * x == ((n - 1) as real) * x + x;
    }
  }

  /** A sum of values between `lo` and `hi` lies between `|s|` times each. */
  lemma {:induction false} SumRealBounds(s: seq<real>, lo: real, hi: real)
    requires forall x :: x in s ==> lo <= x <= hi
    ensures Times(|s|, lo) <= SumReal(s) <= Times(|s|, hi)
  {
    if s != [] {
      assert forall x :: x in s[1..] ==> x in s;
      SumRealBounds(s[1..], lo, hi);
      assert s[0] in s;
    }
  }

  lemma AverageBounds(s: seq<real>, lo: real, hi: real)
    requires |s| > 0
    requires forall x :: x in s ==> lo <= x <= hi
    ensures lo <= Average(s) <= hi
  {
    SumRealBounds(s, lo, hi);
    AverageSum(s);
    TimesIsProduct(|s|, lo);
    TimesIsProduct(|s|, hi);
    var n := |s| as real;
    var avg := Average(s);
    assert (avg - lo) * n == avg * n - n * lo;
    assert (hi - avg) * n == n * hi - avg * n;
    NonNegativeFactor(avg - lo, n);
    NonNegativeFactor(hi - avg, n);
  }

  lemma NonNegativeFactor(x: real, n: real)
    requires n > 0.0 && x * n >= 0.0
    ensures x >= 0.0
  {
  }

  /** `getMeanScoreToInt`: absent when no tracker gives a usable score,
      otherwise the average rounded half up and kept within 1 to 10. */
  function MeanScoreToInt(tracks: seq<TrackScore>): (r: Option<int>)
    ensures r.None? <==> forall i :: 0 <= i < |tracks| ==> tracks[i].score <= 0.0 || tracks[i].tenPoint.None?
    ensures r.Some? ==> 1 <= r.value <= 10
  {
    var scores := TenPointScores(tracks);
    if |scores| == 0 then None else Some(CoerceIn(RoundHalfUp(Average(scores)), 1, 10))
  }

  /** When every usable score lies within 1 to 10, the result is the
      average rounded to the nearest integer. */
  lemma MeanScoreToIntNearest(tracks: seq<TrackScore>)
    requires forall i :: 0 <= i < |tracks| && tracks[i].tenPoint.Some? ==> 1.0 <= tracks[i].tenPoint.value <= 10.0
    requires MeanScoreToInt(tracks).Some?
    ensures var avg := Average(TenPointScores(tracks));
      var r := MeanScoreToInt(tracks).value as real;
      r - 0.5 <= avg < r + 0.5
  {
    var scores := TenPointScores(tracks);
    AverageBounds(scores, 1.0, 10.0);
  }

  /** The buckets `setupScores` appends: one per score of the colour table,
      then one for the entries without a score. */
  function ScoreStats(list: seq<LibraryManga>, env: Env): (r: seq<StatsData>)
    ensures |r| == |env.scoreKeys| + 1
  {
    var keys := env.scoreKeys;
    seq(|keys| + 1, j requires 0 <= j <= |keys| =>
      ScoreBucket(list, env, if j < |keys| then Some(keys[j]) else None))
  }

  /** The bar of the entries whose rounded mean score is `score` (no score
      for "not rated"). */
  function ScoreBucket(list: seq<LibraryManga>, env: Env, score: Option<int>): StatsData
  {
    var g := Filter(list, m => MeanScoreToInt(env.tracksOf(m)) == score);
    StatsData(|g|, Some(if score.Some? then score.value as real else 0.0), SumRead(g), SumTotal(g),
              if score.Some? then IntToString(score.value) else env.notRated)
  }

  /** A score bar counts at most the whole list and is drawn at its score,
      titled with it; the "not rated" bar is drawn at 0. */
  lemma ScoreBucketBar(list: seq<LibraryManga>, env: Env, score: Option<int>)
    ensures 0 <= ScoreBucket(list, env, score).count <= |list|
    ensures score.Some? ==>
      && ScoreBucket(list, env, score).meanScore == Some(score.value as real)
      && ScoreBucket(list, env, score).title == IntToString(score.value)
    ensures score.None? ==>
      ScoreBucket(list, env, score).meanScore == Some(0.0) && ScoreBucket(list, env, score).title == env.notRated
  {
  }

  // ---------------------------------------------------------------- sort

  /** Kotlin's `compareValues`: an absent value is below every present one. */
  predicate OptionLess(a: Option<real>, b: Option<real>)
  {
    (a.None? && b.Some?) || (a.Some? && b.Some? && a.value < b.value)
  }

  /** The three keys a sort compares, most significant first. */
  function SortKeys(k: StatsSort, d: StatsData): (r: (Option<real>, Option<real>, Option<real>))
  {
    match k
    case CountDesc => (Some(d.count as real), Some(d.chaptersRead as real), d.meanScore)
    case MeanScoreDesc => (d.meanScore, Some(d.count as real), Some(d.chaptersRead as real))
    case ProgressDesc => (Some(d.chaptersRead as real), Some(d.count as real), d.meanScore)
  }

  /** Every sort compares the same three measures, each once, in its own
      order of significance. */
  lemma SortKeysMeasures(k: StatsSort, d: StatsData)
    ensures var r := SortKeys(k, d);
      multiset{r.0, r.1, r.2} == multiset{Some(d.count as real), Some(d.chaptersRead as real), d.meanScore}
  {
  }

  /** `x` comes no later than `y` under `compareByDescending ... thenByDescending ...`. */
  predicate DescendingLe(x: (Option<real>, Option<real>, Option<real>), y: (Option<real>, Option<real>, Option<real>))
  {
    if x.0 != y.0 then OptionLess(y.0, x.0)
    else if x.1 != y.1 then OptionLess(y.1, x.1)
    else x.2 == y.2 || OptionLess(y.2, x.2)
  }

  /** The comparison is lexicographic: a larger first key comes first
      whatever the rest, a tie moves on to the second key, and equal
      triples compare both ways. */
  lemma DescendingLeLexicographic(x: (Option<real>, Option<real>, Option<real>),
                                  y: (Option<real>, Option<real>, Option<real>))
    ensures DescendingLe(x, x)
    ensures OptionLess(y.0, x.0) ==> DescendingLe(x, y) && !DescendingLe(y, x)
    ensures x.0 == y.0 && OptionLess(y.1, x.1) ==> DescendingLe(x, y) && !DescendingLe(y, x)
  {
    OptionLessTotal(x.0, y.0);
    OptionLessTotal(x.1, y.1);
  }

  function StatsOrder(k: StatsSort): (StatsData, StatsData) -> bool
  {
    (a: StatsData, b: StatsData) => DescendingLe(SortKeys(k, a), SortKeys(k, b))
  }

  lemma OptionLessTotal(a: Option<real>, b: Option<real>)
    ensures a != b ==> OptionLess(a, b) || OptionLess(b, a)
    ensures !(OptionLess(a, b) && OptionLess(b, a))
  {
  }

  /** Every sort is a total preorder on the buckets. */
  lemma StatsOrderTotalPreorder(k: StatsSort)
    ensures TotalPreorder(StatsOrder(k))
  {
    var le := StatsOrder(k);
    forall a, b ensures le(a, b) || le(b, a) {
      var x, y := SortKeys(k, a), SortKeys(k, b);
      OptionLessTotal(x.0, y.0);
      OptionLessTotal(x.1, y.1);
      OptionLessTotal(x.2, y.2);
    }
    forall a, b, c | le(a, b) && le(b, c) ensures le(a, c) {
      var x, y, z := SortKeys(k, a), SortKeys(k, b), SortKeys(k, c);
      OptionLessTotal(x.0, y.0);
      OptionLessTotal(y.0, z.0);
      OptionLessTotal(x.0, z.0);
      OptionLessTotal(x.1, y.1);
      OptionLessTotal(y.1, z.1);
      OptionLessTotal(x.1, z.1);
    }
  }

  /** The buckets after `sortCurrentStats` with sort `k`. */
  function SortedStats(k: Option<StatsSort>, s: seq<StatsData>): (r: seq<StatsData>)
    ensures |r| == |s|
  {
    match k
    case None => s
    case Some(k) => SortBy(s, StatsOrder(k))
  }

  /** Sorting keeps every bucket and puts them in descending key order: the
      most significant key never rises along the list. */
  lemma SortedStatsOrdered(k: StatsSort, s: seq<StatsData>)
    ensures multiset(SortedStats(Some(k), s)) == multiset(s)
    ensures Sorted(SortedStats(Some(k), s), StatsOrder(k))
    ensures forall i, j :: 0 <= i < j < |s| ==>
      !OptionLess(SortKeys(k, SortedStats(Some(k), s)[i]).0, SortKeys(k, SortedStats(Some(k), s)[j]).0)
  {
    StatsOrderTotalPreorder(k);
    SortBySorted(s, StatsOrder(k));
    var r := SortedStats(Some(k), s);
    forall i, j | 0 <= i < j < |s|
      ensures !OptionLess(SortKeys(k, r[i]).0, SortKeys(k, r[j]).0)
    {
      assert StatsOrder(k)(r[i], r[j]);
      OptionLessTotal(SortKeys(k, r[i]).0, SortKeys(k, r[j]).0);
    }
  }

  // ----------------------------------------------------------- presenter

  /** What `getStatisticData` leaves in `currentStats` for the statistic
      `stat` under the sort `k`, given the chip-filtered distinct list and,
      for categories, the chip-filtered library. */
  function StatisticData(stat: Stat, k: StatsSort, filtered: seq<LibraryManga>,
                         filteredLibrary: seq<LibraryManga>, env: Env): seq<StatsData>
  {
    match stat
    case SerieType => SortedStats(Some(k), GroupedStats(filtered, SeriesTypeKey(), env.serieTypeName, env))
    case Status => SortedStats(Some(k), GroupedStats(filtered, StatusKey(), env.statusName, env))
    case Score => ScoreStats(filtered, env)
    case Language => SortedStats(Some(k), GroupedStats(filtered, env.languageOf, LanguageLabels(), env))
    case Length => LengthStats(filtered, env.lengthRanges, env)
    case Tracker => SortedStats(Some(k), env.trackerStats(filtered))
    case Source => SortedStats(Some(k), GroupedStats(filtered, SourceKey(), SourceLabels(env), env))
    case Category => SortedStats(Some(k), GroupedStats(filteredLibrary, CategoryKey(), CategoryLabels(env), env))
    case Tag => TopTags(Some(k), filtered, env)
    case StartYear => GroupedStats(filtered, env.startYear, YearLabels(env), env)
  }
  /** The bars of each statistic: one per distinct key of a grouped
      statistic, one per score of the colour table plus "not rated", one per
      length range, and at most 100 tags. */
  lemma StatisticDataBars(stat: Stat, k: StatsSort, filtered: seq<LibraryManga>,
                          filteredLibrary: seq<LibraryManga>, env: Env)
    ensures var r := StatisticData(stat, k, filtered, filteredLibrary, env);
      && (stat == SerieType ==> |r| == |GroupKeys(filtered, SeriesTypeKey())|)
      && (stat == Status ==> |r| == |GroupKeys(filtered, StatusKey())|)
      && (stat == Language ==> |r| == |GroupKeys(filtered, env.languageOf)|)
      && (stat == Source ==> |r| == |GroupKeys(filtered, SourceKey())|)
      && (stat == Category ==> |r| == |GroupKeys(filteredLibrary, CategoryKey())|)
      && (stat == StartYear ==> |r| == |GroupKeys(filtered, env.startYear)|)
      && (stat == Score ==> |r| == |env.scoreKeys| + 1)
      && (stat == Length ==> |r| == |env.lengthRanges|)
      && (stat == Tag ==> |r| <= 100 && |r| <= |TagList(filtered)|)
  {
  }

  class StatsDetailsPresenter {
    var libraryMangas: seq<LibraryManga>
    var mangasDistinct: seq<LibraryManga>
    var selectedStat: Option<Stat>
    var selection: Selection
    var selectedStatsSort: Option<StatsSort>
    var currentStats: Option<seq<StatsData>>
    const env: Env

    /** `mangasDistinct` is the library with each manga once. */
    ghost predicate Valid()
      reads this`mangasDistinct, this`libraryMangas
    {
      mangasDistinct == DistinctBy(libraryMangas, Identity)
    }

    constructor(library: seq<LibraryManga>, env: Env)
      ensures Valid()
      ensures libraryMangas == library && this.env == env
      ensures selectedStat.None? && selectedStatsSort.None? && currentStats.None?
      ensures selection == Selection({}, {}, {}, {}, {})
    {
      libraryMangas := library;
      mangasDistinct := DistinctBy(library, Identity);
      selectedStat := None;
      selection := Selection({}, {}, {}, {}, {});
      selectedStatsSort := None;
      currentStats := None;
      this.env := env;
    }

    /** The `libraryMangas` setter: the distinct list follows the library. */
    method SetLibraryMangas(value: seq<LibraryManga>)
      modifies this`libraryMangas, this`mangasDistinct
      ensures Valid()
      ensures libraryMangas == value
    {
      libraryMangas := value;
      mangasDistinct := DistinctBy(value, Identity);
    }

    /** `sortCurrentStats`: sorts the buckets in place when there are buckets
      and a sort is chosen. */
    method SortCurrentStats()
      modifies this`currentStats
      ensures old(currentStats).None? ==> currentStats.None?
      ensures old(currentStats).Some? ==>
        currentStats == Some(SortedStats(selectedStatsSort, old(currentStats).value))
    {
      match selectedStatsSort {
        case Some(k) =>
          if currentStats.Some? {
            currentStats := Some(SortBy(currentStats.value, StatsOrder(k)));
          }
        case None =>
      }
    }

    /** The body shared by the `groupBy` setups: one bucket per key, appended
      in the order the keys first occur. */
    method AppendGrouped<K(==)>(list: seq<LibraryManga>, key: LibraryManga -> K, labelOf: K -> string)
      modifies this`currentStats
      ensures currentStats == Some(GroupedStats(list, key, labelOf, env))
    {
      var ks := GroupKeys(list, key);
      var stats := [];
      var i := 0;
      while i < |ks|
        invariant 0 <= i <= |ks| && |stats| == i
        invariant forall j :: 0 <= j < i ==> stats[j] == StatsOf(Group(list, key, ks[j]), labelOf(ks[j]), env)
      {
        var mangaList := Group(list, key, ks[i]);
        stats := stats + [StatsOf(mangaList, labelOf(ks[i]), env)];
        i := i + 1;
      }
      assert stats == GroupedStats(list, key, labelOf, env);
      currentStats := Some(stats);
    }

    /** `filterByChip` under the current chips. */
    function Filtered(list: seq<LibraryManga>): seq<LibraryManga>
      reads this`selectedStat, this`selection
    {
      FilterByChip(list, selectedStat, selection, env)
    }

    /** The `groupBy` setups that sort: series type, status, language,
      source and category. */
    method SetupSorted<K(==)>(list: seq<LibraryManga>, key: LibraryManga -> K, labelOf: K -> string)
      modifies this`currentStats
      ensures currentStats == Some(SortedStats(selectedStatsSort, GroupedStats(list, key, labelOf, env)))
    {
      AppendGrouped(list, key, labelOf);
      SortCurrentStats();
    }

    /** `setupStartYear`: one bucket per start year, the unknown year
      included; no sort. */
    method SetupStartYear(list: seq<LibraryManga>)
      modifies this`currentStats
      ensures currentStats == Some(GroupedStats(list, env.startYear, YearLabels(env), env))
    {
      AppendGrouped(list, env.startYear, YearLabels(env));
    }

    /** `setupTrackers`: the tracker buckets, sorted. */
    method SetupTrackers(list: seq<LibraryManga>)
      modifies this`currentStats
      ensures currentStats == Some(SortedStats(selectedStatsSort, env.trackerStats(list)))
    {
      currentStats := Some(env.trackerStats(list));
      SortCurrentStats();
    }

    /** `setupLength`: each bucket takes what the earlier ones left. */
    method SetupLength(list: seq<LibraryManga>)
      modifies this`currentStats
      ensures currentStats == Some(LengthStats(list, env.lengthRanges, env))
    {
      var ranges := env.lengthRanges;
      var stats := [];
      var mangaFiltered := list;
      var i := 0;
      while i < |ranges|
        invariant 0 <= i <= |ranges|
        invariant mangaFiltered == Unmatched(list, ranges[..i])
        invariant stats == LengthStats(list, ranges[..i], env)
      {
        var range := ranges[i];
        var matched := Matches(mangaFiltered, range);
        var unmatched := Misses(mangaFiltered, range);
        LengthStatsSnoc(list, ranges[..i + 1], env);
        assert ranges[..i + 1][..i] == ranges[..i];
        mangaFiltered := unmatched;
        stats := stats + [StatsOf(matched, LengthLabel(range.0, range.1), env)];
        i := i + 1;
      }
      assert ranges[..|ranges|] == ranges;
      currentStats := Some(stats);
    }

    /** `setupTags`: one bucket per tag, sorted, then cut to the first 100. */
    method SetupTags(list: seq<LibraryManga>)
      modifies this`currentStats
      ensures currentStats == Some(TopTags(selectedStatsSort, list, env))
    {
      var tags := TagList(list);
      ghost var target := TagStats(list, env);
      var stats := [];
      var i := 0;
      while i < |tags|
        invariant 0 <= i <= |tags| == |target|
        invariant stats == target[..i]
      {
        var tag := tags[i];
        var mangaList := Tagged(list, tag);
        assert target[..i + 1] == target[..i] + [StatsOf(mangaList, tag, env)];
        stats := stats + [StatsOf(mangaList, tag, env)];
        i := i + 1;
      }
      assert target[..|tags|] == target;
      currentStats := Some(stats);
      SortCurrentStats();
      currentStats := Some(Take(currentStats.value, 100));
    }

    /** `setupScores`: one bucket per score of the colour table, then the
      unscored bucket; no sort. */
    method SetupScores(list: seq<LibraryManga>)
      modifies this`currentStats
      ensures currentStats == Some(ScoreStats(list, env))
    {
      var keys := env.scoreKeys;
      ghost var target := ScoreStats(list, env);
      var stats := [];
      var i := 0;
      while i <= |keys|
        invariant 0 <= i <= |keys| + 1 == |target|
        invariant stats == target[..i]
      {
        var score := if i < |keys| then Some(keys[i]) else None;
        assert target[..i + 1] == target[..i] + [ScoreBucket(list, env, score)];
        stats := stats + [ScoreBucket(list, env, score)];
        i := i + 1;
      }
      assert target[..|keys| + 1] == target;
      currentStats := Some(stats);
    }

    /** `getStatisticData`: nothing happens until both a statistic and a sort
      are chosen; then the buckets of that statistic replace the old ones. */
    method GetStatisticData()
      requires Valid()
      modifies this`currentStats
      ensures selectedStat.None? || selectedStatsSort.None? ==> currentStats == old(currentStats)
      ensures selectedStat.Some? && selectedStatsSort.Some? ==>
        currentStats == Some(StatisticData(selectedStat.value, selectedStatsSort.value,
                                           old(Filtered(mangasDistinct)), old(Filtered(libraryMangas)), env))
    {
      if selectedStat.None? || selectedStatsSort.None? {
        return;
      }
      Setup(selectedStat.value, selectedStatsSort.value, Filtered(mangasDistinct), Filtered(libraryMangas));
    }

    /** The `when` of `getStatisticData`: the setup of `stat` over the
      chip-filtered distinct list `filtered` (the whole filtered library
      `filteredLibrary` for categories). */
    method Setup(stat: Stat, ghost k: StatsSort, filtered: seq<LibraryManga>, filteredLibrary: seq<LibraryManga>)
      requires selectedStatsSort == Some(k)
      modifies this`currentStats
      ensures currentStats == Some(StatisticData(stat, k, filtered, filteredLibrary, env))
    {
      // each case is matched against its own arm of `StatisticData`
      match stat {
        case SerieType =>
          SetupSorted(filtered, SeriesTypeKey(), env.serieTypeName);
          assert currentStats == Some(StatisticData(stat, k, filtered, filteredLibrary, env));
        case Status =>
          SetupSorted(filtered, StatusKey(), env.statusName);
          assert currentStats == Some(StatisticData(stat, k, filtered, filteredLibrary, env));
        case Score =>
          SetupScores(filtered);
          assert currentStats == Some(StatisticData(stat, k, filtered, filteredLibrary, env));
        case Language =>
          SetupSorted(filtered, env.languageOf, LanguageLabels());
          assert currentStats == Some(StatisticData(stat, k, filtered, filteredLibrary, env));
        case Length =>
          SetupLength(filtered);
          assert currentStats == Some(StatisticData(stat, k, filtered, filteredLibrary, env));
        case Tracker =>
          SetupTrackers(filtered);
          assert currentStats == Some(StatisticData(stat, k, filtered, filteredLibrary, env));
        case Source =>
          SetupSorted(filtered, SourceKey(), SourceLabels(env));
          assert currentStats == Some(StatisticData(stat, k, filtered, filteredLibrary, env));
        case Category =>
          SetupSorted(filteredLibrary, CategoryKey(), CategoryLabels(env));
          assert currentStats == Some(StatisticData(stat, k, filtered, filteredLibrary, env));
        case Tag =>
          SetupTags(filtered);
          assert currentStats == Some(StatisticData(stat, k, filtered, filteredLibrary, env));
        case StartYear =>
          SetupStartYear(filtered);
          assert currentStats == Some(StatisticData(stat, k, filtered, filteredLibrary, env));
      }
    }
  }
}
