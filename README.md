# A verified model of the Tachiyomi J2K reader, library and update logic

This project models, in Dafny, the parts of the Tachiyomi J2K manga reader that decide things rather than draw them. It then proves what those decisions promise.

- **Paged reader page holder** (`PagerPageHolder`, module `Pager`). The holder shows one page, or two pages side by side. Two page statuses drive its progress subscriptions. The image is committed only once both pages of a pair are ready. `mergeOrSplitPages` decides whether a page is split in half, merged with its partner or shown alone, and records that in the page's `longPage`, `fullPage` and `isolatedPage` flags. The zoom rules frame the image once it is ready.
- **Chapter order** (`ChapterSort`). Covers the scanlator and reader filters, the three sort orders and the next unread chapter.
- **Tracker sync** (`ChapterTrackSync`). Covers the two-way agreement between local read marks and a tracker's count, and the "custom count" rule for the number sent to trackers.
- **Notification "mark as read" action** (`NotificationReceiver`). Covers marking the listed chapters in order, when the trackers are told, the offline queue of pending tracking updates, and the rule for when the group summary is dismissed with a notification.
- **Detailed statistics** (`StatsDetailsPresenter`, module `StatsDetails`). Covers the chip filters, bucketing by each statistic, the length ranges, the tag chart, the mean score and the three sorts of the buckets.
- **Manga record** (`SManga`, module `SMangaModel`). Covers the "original" values kept beside user edits, `copyFrom`, and the round trip through the source API's `MangaInfo`.
- **Extension repository client** (`ExtensionGithubApi`, module `ExtensionApi`). Covers the fallback mirror, turning index entries into extensions, and picking the installed extensions that have an update.
- **Cover fetcher** (`MangaFetcher` in `Coil.kt`, module `Coil`). Covers how a `thumbnail_url` is classified and where the cover is loaded from.
- **Colour themes** (`Themes`). Covers night modes, names and the nine colours of each palette.
- **Chapter selection on the manga screen** (`MangaController`, module `MangaSelection`). Covers the stack of clicked positions, click and long-click range selection, "mark previous as read" and the download menu.
- **Scroll bookkeeping** (`LinearLayoutManagerAccurateOffset`, module `AccurateOffset`). Covers the item heights recorded after each layout, and the scroll range and offset derived from them.

The shared modules are:
- `ChapterModel`: the chapter record.
- `Numbers`: the Kotlin numeric conversions.
- `Sorting`: `sortedWith` and `distinct`.
- `Text`: the Kotlin `String` operations the core uses.

Code that updates state in place is modelled as classes with `modifies` clauses. These include the page holder, the selection state, the statistics presenter, the layout manager, the notification receiver and the repository client. Each method's `ensures` gives its new state, and what it returns, in terms of its inputs and the state before the call, mostly through specification functions that lemmas then reason about. The exception is the one-pass helpers of a loop (`MarkOne`, `UpdateTrack`): they promise to keep the loop's invariant for one more element. Code that only computes is modelled as functions and lemmas.

## Model

| member | source | states |
|---|---|---|
| AccurateOffset.ChildAt | app/src/main/java/eu/kanade/tachiyomi/widget/LinearLayoutManagerAccurateOffset.kt:34 | a child index outside the children gives no view; inside, the slot's view or null |
| AccurateOffset.FirstMissing | app/src/main/java/eu/kanade/tachiyomi/widget/LinearLayoutManagerAccurateOffset.kt:33-34 | the layout loop's stopping index: every child before it is present, and it is the child count or a null child |
| AccurateOffset.LaidOut | app/src/main/java/eu/kanade/tachiyomi/widget/LinearLayoutManagerAccurateOffset.kt:33-34 | the children one layout pass records are exactly those before the first null child, in order |
| AccurateOffset.RecordSizes | app/src/main/java/eu/kanade/tachiyomi/widget/LinearLayoutManagerAccurateOffset.kt:36 | recording never forgets a position and every recorded child's position ends up in the size map |
| AccurateOffset.RecordTypes | app/src/main/java/eu/kanade/tachiyomi/widget/LinearLayoutManagerAccurateOffset.kt:37-38 | the same for the view-type map |
| AccurateOffset.RecordTypeHeight | app/src/main/java/eu/kanade/tachiyomi/widget/LinearLayoutManagerAccurateOffset.kt:39-43 | one child adds its view type to the per-type map; its height lands under its position in the inner map of its type (a fresh one-entry map when the type is new) and no other type's map changes |
| AccurateOffset.RecordSnoc | app/src/main/java/eu/kanade/tachiyomi/widget/LinearLayoutManagerAccurateOffset.kt:33-44 | recording one more child is one more update of each of the three maps |
| AccurateOffset.RecordSizesKeys | app/src/main/java/eu/kanade/tachiyomi/widget/LinearLayoutManagerAccurateOffset.kt:36 | after recording, the size map's positions are the old ones and those of the recorded children, nothing else |
| AccurateOffset.RecordSizesLast | app/src/main/java/eu/kanade/tachiyomi/widget/LinearLayoutManagerAccurateOffset.kt:36 | the last child recorded at a position wins: its height is the one stored there |
| AccurateOffset.RecordSizesKeeps | app/src/main/java/eu/kanade/tachiyomi/widget/LinearLayoutManagerAccurateOffset.kt:36 | a position no recorded child has keeps the height stored before |
| AccurateOffset.RecordTypesSpec | app/src/main/java/eu/kanade/tachiyomi/widget/LinearLayoutManagerAccurateOffset.kt:37-38 | the view-type map holds the last recorded child's type at each position, and old entries of untouched positions |
| AccurateOffset.RecordTypeHeightsKeys | app/src/main/java/eu/kanade/tachiyomi/widget/LinearLayoutManagerAccurateOffset.kt:39-43 | every recorded child's view type has an inner map, and no inner map is ever dropped |
| AccurateOffset.RecordTypeHeightsLast | app/src/main/java/eu/kanade/tachiyomi/widget/LinearLayoutManagerAccurateOffset.kt:39-43 | the last child recorded at a position has its height in the inner map of its own view type |
| AccurateOffset.CandidateIndices | app/src/main/java/eu/kanade/tachiyomi/widget/LinearLayoutManagerAccurateOffset.kt:69 | `(0 to childCount).toList()` is the pair of indices 0 and the child count, not the range of all children |
| AccurateOffset.PositionAt | app/src/main/java/eu/kanade/tachiyomi/widget/LinearLayoutManagerAccurateOffset.kt:70-71 | a child index yields a position exactly when a child is there and its position is not NO_POSITION |
| AccurateOffset.Positions | app/src/main/java/eu/kanade/tachiyomi/widget/LinearLayoutManagerAccurateOffset.kt:70-71 | the `mapNotNull` chain keeps every position some index yields and invents none |
| AccurateOffset.MinOrZero | app/src/main/java/eu/kanade/tachiyomi/widget/LinearLayoutManagerAccurateOffset.kt:72 | the least of the positions, or 0 when there are none |
| AccurateOffset.FirstChildPositionOfFirstChild | app/src/main/java/eu/kanade/tachiyomi/widget/LinearLayoutManagerAccurateOffset.kt:69-72 | since index `childCount` never holds a child, the first position is the first child's position when it has one, else 0 |
| AccurateOffset.LayoutManagerAccurateOffset.constructor | app/src/main/java/eu/kanade/tachiyomi/widget/LinearLayoutManagerAccurateOffset.kt:15-20 | a new manager has empty maps and no memoised range |
| AccurateOffset.LayoutManagerAccurateOffset.Snapshot | app/src/main/java/eu/kanade/tachiyomi/widget/LinearLayoutManagerAccurateOffset.kt:79-88 | the estimator sees exactly the three recorded maps |
| AccurateOffset.LayoutManagerAccurateOffset.OnLayoutCompleted | app/src/main/java/eu/kanade/tachiyomi/widget/LinearLayoutManagerAccurateOffset.kt:30-45 | a layout forgets the memoised range and records, into all three maps, every child before the first null one |
| AccurateOffset.LayoutManagerAccurateOffset.RecordChildren | app/src/main/java/eu/kanade/tachiyomi/widget/LinearLayoutManagerAccurateOffset.kt:33-44 | the loop leaves the maps equal to the recording of the laid-out children (proved with loop invariants) |
| AccurateOffset.LayoutManagerAccurateOffset.RecordChild | app/src/main/java/eu/kanade/tachiyomi/widget/LinearLayoutManagerAccurateOffset.kt:35-43 | one child's height and type go under its position and its height into the inner map of its type |
| AccurateOffset.LayoutManagerAccurateOffset.ComputeVerticalScrollRange | app/src/main/java/eu/kanade/tachiyomi/widget/LinearLayoutManagerAccurateOffset.kt:57-64 | 0 without children; otherwise the memoised range, or else the sum of all item heights, which becomes the memoised range |
| AccurateOffset.LayoutManagerAccurateOffset.ComputeVerticalScrollOffset | app/src/main/java/eu/kanade/tachiyomi/widget/LinearLayoutManagerAccurateOffset.kt:66-77 | 0 without a first child; otherwise minus the first child's truncated top, plus the heights of the items before the first position, plus the top padding |
| AccurateOffset.RangeIsMemoised | app/src/main/java/eu/kanade/tachiyomi/widget/LinearLayoutManagerAccurateOffset.kt:59-62 | two range queries with no layout between them answer the same, whatever the item count and estimates become |
| AccurateOffset.RangeAfterLayout | app/src/main/java/eu/kanade/tachiyomi/widget/LinearLayoutManagerAccurateOffset.kt:30-32 | after a layout the range is recomputed from the new records, not read from the old memo |
| AccurateOffset.OffsetWithinRange | app/src/main/java/eu/kanade/tachiyomi/widget/LinearLayoutManagerAccurateOffset.kt:61-75 | with non-negative item heights, the heights summed into the offset never exceed the whole range |
| ChapterSort.ComparatorTotalPreorder | app/src/main/java/eu/kanade/tachiyomi/util/chapter/ChapterSort.kt:47-67 | every ordering `sortComparator` can build is total and transitive, so sorting by it is well defined |
| ChapterSort.ComparatorDirection | app/src/main/java/eu/kanade/tachiyomi/util/chapter/ChapterSort.kt:48-64 | flipping "descending" reverses the source, number and upload orderings; descending source order is ascending `source_order`, descending number order is decreasing `chapter_number`; an unknown ordering sorts by ascending `source_order`; `ignoreAsc` forces the ascending ordering |
| ChapterSort.FilterScanlators | app/src/main/java/eu/kanade/tachiyomi/util/chapter/ChapterSort.kt:19 | a chapter is kept exactly when none of its groups is a filtered scanlator; the result is a sub-multiset of the input |
| ChapterSort.ScanlatorFiltered | app/src/main/java/eu/kanade/tachiyomi/util/chapter/ChapterSort.kt:17-20 | with no filtered scanlators the raw list is used as is; otherwise it holds exactly the raw chapters with no filtered group |
| ChapterSort.GetChaptersSorted | app/src/main/java/eu/kanade/tachiyomi/util/chapter/ChapterSort.kt:11-32 | the result is a permutation of the scanlator-filtered list after the reader filter (when asked) or else the list filter (when asked) |
| ChapterSort.GetChaptersSortedOrdered | app/src/main/java/eu/kanade/tachiyomi/util/chapter/ChapterSort.kt:31 | the result is sorted by the manga's comparator |
| ChapterSort.FindUnread | app/src/main/java/eu/kanade/tachiyomi/util/chapter/ChapterSort.kt:44 | `find { !it.read }`: none exactly when every chapter is read, otherwise the first unread index |
| ChapterSort.GetNextUnreadChapter | app/src/main/java/eu/kanade/tachiyomi/util/chapter/ChapterSort.kt:34-45 | none exactly when every chapter of the filtered list is read; otherwise an unread chapter of that list |
| ChapterSort.NextUnreadIsFirst | app/src/main/java/eu/kanade/tachiyomi/util/chapter/ChapterSort.kt:44 | the next unread chapter comes, in ascending order, no later than any unread chapter of the filtered list |
| ChapterSort.FirstUnreadComesFirst | app/src/main/java/eu/kanade/tachiyomi/util/chapter/ChapterSort.kt:44 | in a list sorted ascending, the first unread chapter precedes every other unread one |
| ChapterSort.Comparator | app/src/main/java/eu/kanade/tachiyomi/util/chapter/ChapterSort.kt:47-67 | any two chapters are comparable; an ordering the app does not know sorts by ascending source order whatever the flags; `ignoreAsc` gives the ascending order of the chosen key whatever the descending setting |
| ChapterTrackSync.MarkReadBelow | app/src/main/java/eu/kanade/tachiyomi/util/chapter/ChapterTrackSync.kt:31-33 | every chapter whose position in the sorted list is below the tracker's count is read afterwards; the others are untouched |
| ChapterTrackSync.MarkReadBelowOnlyMarks | app/src/main/java/eu/kanade/tachiyomi/util/chapter/ChapterTrackSync.kt:31-33 | the sync never marks a chapter unread and changes nothing but read marks |
| ChapterTrackSync.LocalLastRead | app/src/main/java/eu/kanade/tachiyomi/util/chapter/ChapterTrackSync.kt:36-40 | the count sent back is the chapter count exactly when all are read, otherwise the position of the first unread chapter (the `else -> 0` branch cannot be taken) |
| ChapterTrackSync.FirstUnread | app/src/main/java/eu/kanade/tachiyomi/util/chapter/ChapterTrackSync.kt:38 | `indexOfFirst { !it.read }` on a list with an unread chapter: that chapter's position, every earlier one read |
| ChapterTrackSync.SyncNeverLowersCount | app/src/main/java/eu/kanade/tachiyomi/util/chapter/ChapterTrackSync.kt:31-43 | after the two-way sync the tracker counts at least as many chapters as it did before, capped at the number of chapters |
| ChapterTrackSync.SyncChaptersWithTrackServiceTwoWay | app/src/main/java/eu/kanade/tachiyomi/util/chapter/ChapterTrackSync.kt:29-43 | the chapters sorted by number with those below the tracker's count marked read, and the tracker's count set to the local last-read count of that list |
| ChapterTrackSync.MarkReadLoop | app/src/main/java/eu/kanade/tachiyomi/util/chapter/ChapterTrackSync.kt:31-33 | the marking loop produces exactly `MarkReadBelow` |
| ChapterTrackSync.FirstUnreadScan | app/src/main/java/eu/kanade/tachiyomi/util/chapter/ChapterTrackSync.kt:36-40 | the counting scan produces exactly `LocalLastRead` |
| ChapterTrackSync.NewCount | app/src/main/java/eu/kanade/tachiyomi/util/chapter/ChapterTrackSync.kt:92-97 | when tracker count, old local number and their gap all exceed 15 the tracker moves by the local difference, clamped at 0; otherwise it takes the new local number |
| ChapterTrackSync.UpdateTrackChapterRead | app/src/main/java/eu/kanade/tachiyomi/util/chapter/ChapterTrackSync.kt:86-107 | every track whose service is logged in gets `NewCount`; every other track keeps its count |
| ChapterTrackSync.MarkedAsReadCounts | app/src/main/java/eu/kanade/tachiyomi/util/chapter/ChapterTrackSync.kt:70-73 | nothing is sent when the preference is off; a missing chapter counts as 0; a chapter number is truncated toward zero: a non-negative number to the integer at or below it, a negative one (such as -1 for unknown) to the integer at or above it |
| ChapterTrackSync.ByNumber | app/src/main/java/eu/kanade/tachiyomi/util/chapter/ChapterTrackSync.kt:30 | ordering chapters by number is a total preorder |
| ChapterTrackSync.ShouldCustomCount | app/src/main/java/eu/kanade/tachiyomi/util/chapter/ChapterTrackSync.kt:92-94 | the tracker count is offset exactly when both the tracker count and the old local number are past 15 and they differ by more than 15 |
| Coil.Key | app/src/main/java/eu/kanade/tachiyomi/data/download/coil/Coil.kt:84-87 | no cache key exactly when the cover is missing or blank; otherwise the disk hash of the cover text |
| Coil.GetResourceType | app/src/main/java/eu/kanade/tachiyomi/data/download/coil/Coil.kt:167-176 | a missing or empty cover has no type, and only a present cover can have one |
| Coil.ResourceTypeByPrefix | app/src/main/java/eu/kanade/tachiyomi/data/download/coil/Coil.kt:167-176 | each type is recognised by its own prefix alone: url by "http", custom by "Custom-", file by "/" or "file://", and no type exactly when none matches |
| Coil.FilePathOf | app/src/main/java/eu/kanade/tachiyomi/data/download/coil/Coil.kt:140-142 | a "file://" cover names the path after the scheme; a cover without "file://" is taken as the path itself |
| Coil.HttpLoad | app/src/main/java/eu/kanade/tachiyomi/data/download/coil/Coil.kt:115-137 | the cached cover file is read exactly when it exists; otherwise the url is downloaded into the cache |
| Coil.CustomLoader | app/src/main/java/eu/kanade/tachiyomi/data/download/coil/Coil.kt:105-113 | a cached custom cover is read from the cache and leaves the manga alone; otherwise the manga's cover becomes the text after "Custom-" and is loaded as a url |
| Coil.Fetch | app/src/main/java/eu/kanade/tachiyomi/data/download/coil/Coil.kt:89-103 | "Invalid image" exactly when the cover has no type; file covers are read from their path, urls through the cache, custom covers through the custom loader, which alone may rewrite the manga's cover |
| Coil.FilePath | app/src/main/java/eu/kanade/tachiyomi/data/download/coil/Coil.kt:141 | the file path is a tail of the cover text |
| Coil.IsNullOrBlank | app/src/main/java/eu/kanade/tachiyomi/data/download/coil/Coil.kt:85 | an empty cover is blank, and a cover with a visible first character is not |
| ExtensionApi.UrlPrefix | app/src/main/java/eu/kanade/tachiyomi/extension/api/ExtensionGithubApi.kt:133-149 | the index is read from under the mirror's base address when the mirror is in use, otherwise from under the GitHub base address |
| ExtensionApi.LibVersionText | app/src/main/java/eu/kanade/tachiyomi/extension/api/ExtensionGithubApi.kt:141-143 | the lib version is the number written before the last '.' of the version name, or the whole name when it has no '.' |
| ExtensionApi.ToAvailable | app/src/main/java/eu/kanade/tachiyomi/extension/api/ExtensionGithubApi.kt:109-126 | an index entry becomes an available extension whose name is the text after "Tachiyomi: ", whose flags are set exactly when the entry's field is 1, whose sources default to none, whose icon is `<repo>icon/<pkg>.png`, and whose package, apk, version name, version code, language and repository are copied from the entry |
| ExtensionApi.ToExtensions | app/src/main/java/eu/kanade/tachiyomi/extension/api/ExtensionGithubApi.kt:103-127 | an error exactly when some entry's lib version cannot be read; otherwise only entries of a supported lib version, all marked with the given repository |
| ExtensionApi.ToExtensionsUnfold | app/src/main/java/eu/kanade/tachiyomi/extension/api/ExtensionGithubApi.kt:104-126 | an entry is offered, in place, exactly when its lib version lies between the loader's minimum and maximum |
| ExtensionApi.ToExtensionsComplete | app/src/main/java/eu/kanade/tachiyomi/extension/api/ExtensionGithubApi.kt:105-108 | every entry of a supported lib version is offered |
| ExtensionApi.ToExtensionsSound | app/src/main/java/eu/kanade/tachiyomi/extension/api/ExtensionGithubApi.kt:105-126 | every offered extension comes from an entry of a supported lib version |
| ExtensionApi.RepoUrl | app/src/main/java/eu/kanade/tachiyomi/extension/api/ExtensionGithubApi.kt:57 | an extra repository's address lies under the GitHub base address |
| ExtensionApi.RepoExtensions | app/src/main/java/eu/kanade/tachiyomi/extension/api/ExtensionGithubApi.kt:54-63 | every extension of an extra repository is marked as a repository source under the GitHub base address, and the list exists only when every repository answered |
| ExtensionApi.Collect | app/src/main/java/eu/kanade/tachiyomi/extension/api/ExtensionGithubApi.kt:45-72 | a successful result holds at least 100 extensions, each from the index in use or from an extra repository, and requires that index to have answered |
| ExtensionApi.ApkUrl | app/src/main/java/eu/kanade/tachiyomi/extension/api/ExtensionGithubApi.kt:129-131 | the apk address is the repository's `apk/` directory followed by the apk name |
| ExtensionApi.Find | app/src/main/java/eu/kanade/tachiyomi/extension/api/ExtensionGithubApi.kt:90 | the first available extension with the package name, or none exactly when there is none |
| ExtensionApi.UpdatesFor | app/src/main/java/eu/kanade/tachiyomi/extension/api/ExtensionGithubApi.kt:87-99 | at most one update is reported per installed extension |
| ExtensionApi.UpdateOfHas | app/src/main/java/eu/kanade/tachiyomi/extension/api/ExtensionGithubApi.kt:89-96 | an installed extension has an update exactly when it is official and the first available extension with its package name has a higher version code or lib version; that extension is the update |
| ExtensionApi.UpdatesForReported | app/src/main/java/eu/kanade/tachiyomi/extension/api/ExtensionGithubApi.kt:87-99 | the k-th reported update is the update of the k-th installed extension that has one, and an installed extension is reported exactly when it has an update |
| ExtensionApi.UpdatesForSnoc | app/src/main/java/eu/kanade/tachiyomi/extension/api/ExtensionGithubApi.kt:88-97 | one more installed extension appends its update, if any, to the report |
| ExtensionApi.UpdatedPositionsBelow | app/src/main/java/eu/kanade/tachiyomi/extension/api/ExtensionGithubApi.kt:88 | every reported position is that of an installed extension |
| ExtensionApi.UpdatesForMatch | app/src/main/java/eu/kanade/tachiyomi/extension/api/ExtensionGithubApi.kt:87-99 | reports and positions pair up one to one |
| ExtensionApi.UpdatedPositionsRise | app/src/main/java/eu/kanade/tachiyomi/extension/api/ExtensionGithubApi.kt:88 | reports come in the order of the installed list |
| ExtensionApi.UpdatedPositionsMembers | app/src/main/java/eu/kanade/tachiyomi/extension/api/ExtensionGithubApi.kt:94-96 | an installed extension's position is reported exactly when it has an update |
| ExtensionApi.ExtensionGithubApi.constructor | app/src/main/java/eu/kanade/tachiyomi/extension/api/ExtensionGithubApi.kt:27 | a new client starts on GitHub, not the mirror |
| ExtensionApi.ExtensionGithubApi.GetUrlPrefix | app/src/main/java/eu/kanade/tachiyomi/extension/api/ExtensionGithubApi.kt:133-139 | the prefix of the index in use |
| ExtensionApi.ExtensionGithubApi.FindExtensions | app/src/main/java/eu/kanade/tachiyomi/extension/api/ExtensionGithubApi.kt:29-74 | the mirror is used from the first GitHub failure on, for good, and the result is that of the index in use |
| ExtensionApi.ExtensionGithubApi.CheckForUpdates | app/src/main/java/eu/kanade/tachiyomi/extension/api/ExtensionGithubApi.kt:76-101 | with a prefetched list the updates are computed from it and the mirror choice is unchanged; otherwise from `findExtensions`, whose error is passed on |
| ExtensionApi.ExtractLibVersion | app/src/main/java/eu/kanade/tachiyomi/extension/api/ExtensionGithubApi.kt:141-143 | a version name without a '.' is read whole as the lib version |
| ExtensionApi.UpdateOf | app/src/main/java/eu/kanade/tachiyomi/extension/api/ExtensionGithubApi.kt:89-96 | an unofficial extension never has an update; an update has the installed package name and a higher version code or lib version |
| ExtensionApi.UpdatedPositions | app/src/main/java/eu/kanade/tachiyomi/extension/api/ExtensionGithubApi.kt:87-99 | at most one update is reported per installed extension |
| NotificationReceiver.GroupKeyOf | app/src/main/java/eu/kanade/tachiyomi/data/notification/NotificationReceiver.kt:415-417 | the group key of an active notification with that id, and none when no active notification has it |
| NotificationReceiver.CountInGroup | app/src/main/java/eu/kanade/tachiyomi/data/notification/NotificationReceiver.kt:419-421 | the number of active notifications in a group never exceeds the active ones |
| NotificationReceiver.DismissTarget | app/src/main/java/eu/kanade/tachiyomi/data/notification/NotificationReceiver.kt:408-429 | the group summary is cancelled exactly when groups are supported, a non-zero group id is given and the notification's non-empty group holds just two notifications; otherwise the notification itself |
| NotificationReceiver.DismissTargetDefaults | app/src/main/java/eu/kanade/tachiyomi/data/notification/NotificationReceiver.kt:414-428 | a notification that is not active or has no group, or a missing or zero group id, always cancels the notification itself |
| NotificationReceiver.GroupKeyOfUngrouped | app/src/main/java/eu/kanade/tachiyomi/data/notification/NotificationReceiver.kt:415-417 | a notification that is inactive or ungrouped has no group key |
| NotificationReceiver.FindByUrl | app/src/main/java/eu/kanade/tachiyomi/data/notification/NotificationReceiver.kt:208 | the chapter row with the url, and none exactly when no row has it |
| NotificationReceiver.MarkAllOnlyMarks | app/src/main/java/eu/kanade/tachiyomi/data/notification/NotificationReceiver.kt:207-217 | marking changes only read marks, never unmarks a chapter and keeps the rows' number |
| NotificationReceiver.MarkAllMarksEveryUrl | app/src/main/java/eu/kanade/tachiyomi/data/notification/NotificationReceiver.kt:207-210 | when the loop runs to the end, every url names a chapter that is read afterwards |
| NotificationReceiver.MarkAllStopsAtMissing | app/src/main/java/eu/kanade/tachiyomi/data/notification/NotificationReceiver.kt:208 | the first url with no chapter ends the action: the rest are not processed, as if the list ended there |
| NotificationReceiver.FirstReadBySourceOrder | app/src/main/java/eu/kanade/tachiyomi/data/notification/NotificationReceiver.kt:220-222 | none exactly when no chapter is read; otherwise a read chapter of least source order |
| NotificationReceiver.FirstReadBySourceOrderFirst | app/src/main/java/eu/kanade/tachiyomi/data/notification/NotificationReceiver.kt:220-222 | `minByOrNull` keeps the first of equal source orders: every read chapter before the chosen one has a strictly greater source order |
| NotificationReceiver.TrackRequest | app/src/main/java/eu/kanade/tachiyomi/data/notification/NotificationReceiver.kt:219-226 | the trackers are told exactly when automatic tracking is on and the earliest read chapter changed, and they get the earliest before and after |
| NotificationReceiver.TrackRequestKeepsEarliest | app/src/main/java/eu/kanade/tachiyomi/data/notification/NotificationReceiver.kt:220-222 | marking chapters read never removes the earliest read chapter: one before means one after |
| NotificationReceiver.ReceiverNewCount | app/src/main/java/eu/kanade/tachiyomi/data/notification/NotificationReceiver.kt:250-253 | a tracker gets other than the new local number only when both its count and the old local number are past 15, and then never a negative count |
| NotificationReceiver.ReceiverNewCountAgrees | app/src/main/java/eu/kanade/tachiyomi/data/notification/NotificationReceiver.kt:250-253 | the receiver computes the same new tracker count as the chapter utilities, never negative when counted by offset |
| NotificationReceiver.ChapterCount | app/src/main/java/eu/kanade/tachiyomi/data/notification/NotificationReceiver.kt:238-239 | no chapter counts 0; a chapter number is truncated toward zero, down for a non-negative number and up for a negative one |
| NotificationReceiver.TrackingEntry | app/src/main/java/eu/kanade/tachiyomi/data/notification/NotificationReceiver.kt:258 | a queued entry `mangaId:syncId:count` starts with its manga and tracker prefix |
| NotificationReceiver.FindWithPrefix | app/src/main/java/eu/kanade/tachiyomi/data/notification/NotificationReceiver.kt:256 | the first queued entry with the prefix, and none exactly when no entry has it |
| NotificationReceiver.AddToSet | app/src/main/java/eu/kanade/tachiyomi/data/notification/NotificationReceiver.kt:258 | adding to the set keeps every entry and adds the new one |
| NotificationReceiver.ReplaceWithPrefix | app/src/main/java/eu/kanade/tachiyomi/data/notification/NotificationReceiver.kt:255-258 | after remove-then-add the new entry is queued (last when it was not there), every entry other than the first one with the prefix stays, and nothing else appears |
| NotificationReceiver.ReplaceWithPrefixDropsFirst | app/src/main/java/eu/kanade/tachiyomi/data/notification/NotificationReceiver.kt:256-257 | the first entry with the prefix is gone afterwards when it occurred once and differs from the new entry |
| NotificationReceiver.ReplaceWithPrefixReplaces | app/src/main/java/eu/kanade/tachiyomi/data/notification/NotificationReceiver.kt:256-258 | with at most one entry for the prefix before, the new entry is the only one after |
| NotificationReceiver.QueueAll | app/src/main/java/eu/kanade/tachiyomi/data/notification/NotificationReceiver.kt:254-259 | every queued entry was there before or is the new entry of a logged-in track, and the last logged-in track's entry is always queued |
| NotificationReceiver.QueueTracking | app/src/main/java/eu/kanade/tachiyomi/data/notification/NotificationReceiver.kt:254-259 | offline, the track's new count is queued and every entry except the first one for the same manga and tracker is kept |
| NotificationReceiver.QueueTrackingReplaces | app/src/main/java/eu/kanade/tachiyomi/data/notification/NotificationReceiver.kt:256-258 | the queue holds a single entry per manga and tracker once one has been queued |
| NotificationReceiver.CountLoggedIn | app/src/main/java/eu/kanade/tachiyomi/data/notification/NotificationReceiver.kt:248-249 | the number of logged-in tracks never exceeds the tracks |
| NotificationReceiver.UpdatedRows | app/src/main/java/eu/kanade/tachiyomi/data/notification/NotificationReceiver.kt:261-269 | online, every logged-in track whose `service.update` went through takes its new count; a track whose update threw, or whose service is absent or logged out, keeps its row |
| NotificationReceiver.MarkAllStep | app/src/main/java/eu/kanade/tachiyomi/data/notification/NotificationReceiver.kt:207-216 | one url more: a missing chapter stops the run; a found one is marked read, deleted when removal is on, and the run stops when it cannot be deleted |
| NotificationReceiver.MarkAllUnfinishedPrefix | app/src/main/java/eu/kanade/tachiyomi/data/notification/NotificationReceiver.kt:208-214 | a run that has stopped within the first urls ends the whole action there |
| NotificationReceiver.MarkAllAppend | app/src/main/java/eu/kanade/tachiyomi/data/notification/NotificationReceiver.kt:207 | processing one more url continues a finished run from its rows |
| NotificationReceiver.MarkAllUnfold | app/src/main/java/eu/kanade/tachiyomi/data/notification/NotificationReceiver.kt:208-216 | a found first url is marked, and deleted when removal is on, before the remaining urls |
| NotificationReceiver.MarkAll | app/src/main/java/eu/kanade/tachiyomi/data/notification/NotificationReceiver.kt:207-217 | marking keeps the number of chapter rows, deletes at most one chapter per url and none unless removal is on, and an unfinished run had at least one url |
| NotificationReceiver.MarkAllOnlyListed | app/src/main/java/eu/kanade/tachiyomi/data/notification/NotificationReceiver.kt:207-216 | a chapter whose url is not among the urls is left exactly as it was |
| NotificationReceiver.MarkAllLaterUntouched | app/src/main/java/eu/kanade/tachiyomi/data/notification/NotificationReceiver.kt:208 | when the k-th url has no chapter, chapters named only by later urls are left exactly as they were |
| NotificationReceiver.MarkAsReadReceiver.constructor | app/src/main/java/eu/kanade/tachiyomi/data/notification/NotificationReceiver.kt:205 | a receiver starts from the database's chapters, tracks and queue, with nothing deleted, scheduled or cancelled |
| NotificationReceiver.MarkAsReadReceiver.MarkAsRead | app/src/main/java/eu/kanade/tachiyomi/data/notification/NotificationReceiver.kt:202-227 | the rows and deletions are those of marking the urls in order; the trackers are told only when the loop finished |
| NotificationReceiver.MarkAsReadReceiver.MarkOne | app/src/main/java/eu/kanade/tachiyomi/data/notification/NotificationReceiver.kt:208-216 | one loop pass either stops with the outcome of the whole run or keeps the loop invariant for one more url |
| NotificationReceiver.MarkAsReadReceiver.UpdateTrackChapterRead | app/src/main/java/eu/kanade/tachiyomi/data/notification/NotificationReceiver.kt:233-274 | nothing happens when automatic tracking is off; otherwise, with the old and new chapter numbers truncated, each logged-in track is written online only when its update went through, or queued with a delayed job scheduled when offline |
| NotificationReceiver.MarkAsReadReceiver.UpdateTracks | app/src/main/java/eu/kanade/tachiyomi/data/notification/NotificationReceiver.kt:247-271 | the track loop leaves every track handled as `TracksUpdated` says |
| NotificationReceiver.MarkAsReadReceiver.UpdateTrack | app/src/main/java/eu/kanade/tachiyomi/data/notification/NotificationReceiver.kt:248-270 | one pass handles one track and keeps the loop invariant |
| NotificationReceiver.MarkAsReadReceiver.OnMarkAsRead | app/src/main/java/eu/kanade/tachiyomi/data/notification/NotificationReceiver.kt:86-96 | a notification id above -1 cancels `DismissTarget`'s id, else nothing is cancelled; no urls leaves chapters, deletions, tracks, the offline queue and the delayed jobs as they were; otherwise the rows and deletions are those of marking the urls, and the tracks, queue and jobs are unchanged unless the run finished with the earliest read chapter moved, in which case they are those of `TracksUpdated` |
| Numbers.TruncateToInt | app/src/main/java/eu/kanade/tachiyomi/widget/LinearLayoutManagerAccurateOffset.kt:74 | `toInt()` of a real truncates toward zero: the integer part below a positive value, above a negative one |
| Numbers.TruncHalf | app/src/main/java/eu/kanade/tachiyomi/ui/reader/viewer/pager/PagerPageHolder.kt:397 | `Int` division by 2 truncates toward zero, so an odd negative sum rounds up |
| Numbers.RoundHalfUp | app/src/main/java/eu/kanade/tachiyomi/util/system/Themes.kt:128 | `roundToInt()` gives the nearest integer, halves rounding up |
| Numbers.CoerceIn | app/src/main/java/eu/kanade/tachiyomi/ui/more/stats/details/StatsDetailsPresenter.kt:380 | `coerceIn(lo..hi)` keeps a value in range and otherwise gives the nearer bound |
| Numbers.SumUntilBounds | app/src/main/java/eu/kanade/tachiyomi/widget/LinearLayoutManagerAccurateOffset.kt:61-75 | a `(0 until n).sumOf` of non-negative terms is non-negative and grows with n |
| SMangaModel.SManga.constructor | app/src/main/java/eu/kanade/tachiyomi/source/model/SManga.kt:77-79 | `create()` gives a blank, uninitialised record with no original values |
| SMangaModel.SManga.OriginalTitle | app/src/main/java/eu/kanade/tachiyomi/source/model/SManga.kt:27-28 | the original title when one is stored, else the title |
| SMangaModel.SManga.OriginalAuthor | app/src/main/java/eu/kanade/tachiyomi/source/model/SManga.kt:29-30 | the stored original author when there is one, else the current author; present whenever the author is |
| SMangaModel.SManga.OriginalArtist | app/src/main/java/eu/kanade/tachiyomi/source/model/SManga.kt:31-32 | the stored original artist when there is one, else the artist; present whenever the artist is |
| SMangaModel.SManga.OriginalDescription | app/src/main/java/eu/kanade/tachiyomi/source/model/SManga.kt:33-34 | the stored original description when there is one, else the description; present whenever the description is |
| SMangaModel.SManga.OriginalGenre | app/src/main/java/eu/kanade/tachiyomi/source/model/SManga.kt:35-36 | the stored original genre when there is one, else the genre; present whenever the genre is |
| SMangaModel.SManga.OriginalStatus | app/src/main/java/eu/kanade/tachiyomi/source/model/SManga.kt:37-38 | the original status when one is stored, else the status |
| SMangaModel.SManga.CopyFrom | app/src/main/java/eu/kanade/tachiyomi/source/model/SManga.kt:40-66 | each text field takes the other record's original value only when the other has that field; the cover only when the other has one; the status always; a record once initialised stays so; url, title and original values are untouched, also when the other is this record |
| SMangaModel.SManga.ToMangaInfo | app/src/main/java/eu/kanade/tachiyomi/source/model/SManga.kt:83-94 | missing texts become "", the key, title and status are copied, and the genres rejoined with ", " give back the genre text (none exactly when there is no genre) |
| SMangaModel.ToSManga | app/src/main/java/eu/kanade/tachiyomi/source/model/SManga.kt:96-108 | a fresh, uninitialised record holding every field of the info, the genres joined with ", " |
| SMangaModel.RoundTrip | app/src/main/java/eu/kanade/tachiyomi/source/model/SManga.kt:83-108 | through `MangaInfo` and back, url, title, status and every present text survive, and a missing text comes back as "" |
| Sorting.Insert | app/src/main/java/eu/kanade/tachiyomi/util/chapter/ChapterSort.kt:31 | inserting adds exactly the one element (a permutation of the list plus it) |
| Sorting.SortBy | app/src/main/java/eu/kanade/tachiyomi/util/chapter/ChapterTrackSync.kt:30 | `sortedBy` / `sortedWith` return a permutation of the list |
| Sorting.InsertSorted | app/src/main/java/eu/kanade/tachiyomi/util/chapter/ChapterSort.kt:31 | inserting into a sorted list under a total preorder keeps it sorted |
| Sorting.SortBySorted | app/src/main/java/eu/kanade/tachiyomi/util/chapter/ChapterSort.kt:31 | the result of sorting is ordered by the comparator |
| Sorting.InsertTies | app/src/main/java/eu/kanade/tachiyomi/util/chapter/ChapterSort.kt:31 | inserting under a total preorder keeps the elements that tie with any given one in their order, the new one first |
| Sorting.SortByStable | app/src/main/java/eu/kanade/tachiyomi/util/chapter/ChapterTrackSync.kt:30 | sorting is stable: the elements that tie under the comparator keep their order in the input |
| Sorting.Distinct | app/src/main/java/eu/kanade/tachiyomi/ui/more/stats/details/StatsDetailsPresenter.kt:263 | `distinct()` keeps every element once, adds none, and leaves no duplicates |
| Sorting.DistinctFirstOrder | app/src/main/java/eu/kanade/tachiyomi/ui/more/stats/details/StatsDetailsPresenter.kt:263 | every element of `distinct()` occurs in the list, and they come in the order of their first occurrences |
| Sorting.Take | app/src/main/java/eu/kanade/tachiyomi/ui/more/stats/details/StatsDetailsPresenter.kt:279 | `take(n)` is the prefix of length at most n, the whole list when it is no longer than n |
| Sorting.Filter | app/src/main/java/eu/kanade/tachiyomi/ui/manga/MangaController.kt:1420 | `filter` never lengthens the list |
| Sorting.FilterMembers | app/src/main/java/eu/kanade/tachiyomi/ui/manga/MangaController.kt:1420 | `filter` keeps exactly the elements satisfying the predicate, each no more often than it occurs |
| Sorting.FilterPartition | app/src/main/java/eu/kanade/tachiyomi/ui/more/stats/details/StatsDetailsPresenter.kt:175 | `partition`'s two halves together have as many elements as the list |
| Sorting.MapSeq | app/src/main/java/eu/kanade/tachiyomi/extension/api/ExtensionGithubApi.kt:109 | `map` applies the function to each element in place |
| Sorting.DistinctBy | app/src/main/java/eu/kanade/tachiyomi/ui/more/stats/details/StatsDetailsPresenter.kt:37-39 | `distinct()` under a key-only equality keeps one element per key, every key represented, taken from the list |
| Sorting.DistinctByFirst | app/src/main/java/eu/kanade/tachiyomi/ui/more/stats/details/StatsDetailsPresenter.kt:37-39 | each kept element is the first of its key in the list, and the kept elements come in the order of their first occurrences |
| Text.IndexOf | app/src/main/java/eu/kanade/tachiyomi/extension/api/ExtensionGithubApi.kt:111 | `indexOf` finds the first occurrence, and none exactly when the text does not occur |
| Text.SubstringAfter | app/src/main/java/eu/kanade/tachiyomi/data/download/coil/Coil.kt:111 | `substringAfter` is the whole string when the delimiter does not occur; otherwise the string is the text before the first occurrence, the delimiter and the result |
| Text.IndexOfFirst | app/src/main/java/eu/kanade/tachiyomi/extension/api/ExtensionGithubApi.kt:111 | the first occurrence is the one `indexOf` reports |
| Text.SubstringAfterPrefix | app/src/main/java/eu/kanade/tachiyomi/data/download/coil/Coil.kt:111 | a string starting with the delimiter loses exactly that prefix |
| Text.LastIndexOf | app/src/main/java/eu/kanade/tachiyomi/extension/api/ExtensionGithubApi.kt:142 | `lastIndexOf` points at the last occurrence, and none exactly when the character is absent |
| Text.SubstringBeforeLast | app/src/main/java/eu/kanade/tachiyomi/extension/api/ExtensionGithubApi.kt:142 | `substringBeforeLast` is the text before the last occurrence, or the whole string without one |
| Text.Split | app/src/main/java/eu/kanade/tachiyomi/source/model/SManga.kt:90 | `split` always gives at least one piece; what the pieces are is stated by JoinSplit and SplitPiecesFree |
| Text.JoinSplit | app/src/main/java/eu/kanade/tachiyomi/source/model/SManga.kt:90-104 | splitting at ", " and joining again with ", " gives the genre text back |
| Text.SplitPiecesFree | app/src/main/java/eu/kanade/tachiyomi/source/model/SManga.kt:90 | no piece of a split contains the delimiter |
| Text.NatToString | app/src/main/java/eu/kanade/tachiyomi/ui/more/stats/details/StatsDetailsPresenter.kt:185 | `toString()` of a non-negative number is a non-empty run of digits with no leading zero |
| Text.IntToString | app/src/main/java/eu/kanade/tachiyomi/ui/more/stats/details/StatsDetailsPresenter.kt:185 | `toString()` of an integer starts with '-' exactly when it is negative, digits following |
| Text.DigitsValueOfNatToString | app/src/main/java/eu/kanade/tachiyomi/data/notification/NotificationReceiver.kt:258 | reading back the digits of a number gives the number |
| Text.ReplaceAllAbsent | app/src/main/java/eu/kanade/tachiyomi/ui/more/stats/details/StatsDetailsPresenter.kt:186 | `replace` leaves a string alone when it holds no occurrence of the pattern |
| Themes.Opaque | app/src/main/java/eu/kanade/tachiyomi/util/system/Themes.kt:184-196 | `parseColor("#RRGGBB")` is the colour at full opacity |
| Themes.SetAlphaComponent | app/src/main/java/eu/kanade/tachiyomi/util/system/Themes.kt:128-132 | `setAlphaComponent` replaces the alpha byte and keeps the red, green and blue |
| Themes.SecondaryAlphaRounds | app/src/main/java/eu/kanade/tachiyomi/util/system/Themes.kt:128-132 | 54% of 255, rounded, is the secondary-text alpha 138 |
| Themes.NightMode | app/src/main/java/eu/kanade/tachiyomi/util/system/Themes.kt:13-64 | Lime is always dark, Yotsuba always light, and every other theme follows the system |
| Themes.NightModeKinds | app/src/main/java/eu/kanade/tachiyomi/util/system/Themes.kt:67-68 | a theme is dark, light or follows the system, never two of these |
| Themes.DarkNameRes | app/src/main/java/eu/kanade/tachiyomi/util/system/Themes.kt:70-71 | the alternative name when the theme has one, else its name |
| Themes.LightSecondaryText | app/src/main/java/eu/kanade/tachiyomi/util/system/Themes.kt:128 | the light secondary text is the light primary text at alpha 138 |
| Themes.DarkSecondaryText | app/src/main/java/eu/kanade/tachiyomi/util/system/Themes.kt:132 | the dark secondary text is the dark primary text at alpha 138 |
| Themes.LightColors | app/src/main/java/eu/kanade/tachiyomi/util/system/Themes.kt:85-97 | the light palette carries the style's light background and light primary text |
| Themes.DarkColors | app/src/main/java/eu/kanade/tachiyomi/util/system/Themes.kt:99-111 | the dark palette carries the style's dark background and dark primary text |
| Themes.PalettesDiffer | app/src/main/java/eu/kanade/tachiyomi/util/system/Themes.kt:85-111 | a theme's light and dark palettes always differ |
| Themes.GetColorsByMode | app/src/main/java/eu/kanade/tachiyomi/util/system/Themes.kt:73-83 | a dark theme is dark and a light theme light whatever the mode; a system-following theme is dark exactly under MODE_NIGHT_YES; every answer is one of the two palettes |
| Themes.PaletteRules | app/src/main/java/eu/kanade/tachiyomi/util/system/Themes.kt:128-265 | in every palette the secondary text is the primary at alpha 138, the app bar is the background except for the all-blue style's #54759E, and the active tab is the accent except for all-blue, where it is the app-bar text |
| Themes.AllBlueAppBar | app/src/main/java/eu/kanade/tachiyomi/util/system/Themes.kt:184-196 | the all-blue style's app bar stands out from its background |
| Themes.StyleRes | app/src/main/java/eu/kanade/tachiyomi/util/system/Themes.kt:13-64 | the flat-lime style is the one theme fixed to night and the Yotsuba style the one fixed to day |
| Themes.IsDarkTheme | app/src/main/java/eu/kanade/tachiyomi/util/system/Themes.kt:67 | `isDarkTheme` holds for the flat-lime theme and no other |
| Themes.FollowsSystem | app/src/main/java/eu/kanade/tachiyomi/util/system/Themes.kt:68 | every theme with a separate dark-variant name follows the system; the two fixed themes do not |
| Themes.GetColors | app/src/main/java/eu/kanade/tachiyomi/util/system/Themes.kt:73-83 | the palette has the light or the dark background of the theme's style, and its inactive tab is more transparent than its active tab |
| Themes.LightPrimaryText | app/src/main/java/eu/kanade/tachiyomi/util/system/Themes.kt:115-120 | the light primary text is a colour at alpha 0xDE |
| Themes.DarkPrimaryText | app/src/main/java/eu/kanade/tachiyomi/util/system/Themes.kt:124 | the dark primary text is opaque white |
| Themes.LightBackground | app/src/main/java/eu/kanade/tachiyomi/util/system/Themes.kt:136-142 | every light background is opaque with a red channel of at least 0xF2 |
| Themes.DarkBackground | app/src/main/java/eu/kanade/tachiyomi/util/system/Themes.kt:146-154 | every dark background is opaque with a red channel of at most 0x21 |
| Themes.LightAccent | app/src/main/java/eu/kanade/tachiyomi/util/system/Themes.kt:158-167 | every light accent is opaque |
| Themes.DarkAccent | app/src/main/java/eu/kanade/tachiyomi/util/system/Themes.kt:171-180 | every dark accent is opaque |
| Themes.LightAppBar | app/src/main/java/eu/kanade/tachiyomi/util/system/Themes.kt:184-187 | every light app bar is opaque |
| Themes.DarkAppBar | app/src/main/java/eu/kanade/tachiyomi/util/system/Themes.kt:191-194 | every dark app bar is opaque |
| Themes.LightAppBarText | app/src/main/java/eu/kanade/tachiyomi/util/system/Themes.kt:198-203 | the light app-bar text is at least as opaque as the light primary text |
| Themes.DarkAppBarText | app/src/main/java/eu/kanade/tachiyomi/util/system/Themes.kt:207-211 | every dark app-bar text is opaque |
| Themes.LightBottomBar | app/src/main/java/eu/kanade/tachiyomi/util/system/Themes.kt:215-222 | every light bottom bar is opaque |
| Themes.DarkBottomBar | app/src/main/java/eu/kanade/tachiyomi/util/system/Themes.kt:226-235 | every dark bottom bar is opaque |
| Themes.LightInactiveTab | app/src/main/java/eu/kanade/tachiyomi/util/system/Themes.kt:239-243 | a light inactive tab is translucent, with an alpha from 0x80 up to but not including 0xFF |
| Themes.DarkInactiveTab | app/src/main/java/eu/kanade/tachiyomi/util/system/Themes.kt:247-251 | a dark inactive tab is translucent, with an alpha from 0x80 up to but not including 0xFF |
| Themes.LightActiveTab | app/src/main/java/eu/kanade/tachiyomi/util/system/Themes.kt:255-258 | every light active tab is opaque |
| Themes.DarkActiveTab | app/src/main/java/eu/kanade/tachiyomi/util/system/Themes.kt:262-265 | every dark active tab is opaque |
| StatsDetails.FilterBy | app/src/main/java/eu/kanade/tachiyomi/ui/more/stats/details/StatsDetailsPresenter.kt:308-336 | each `filterBy*` chip returns the list itself when it is bypassed or nothing is selected in it, otherwise exactly the entries the chip accepts |
| StatsDetails.FilterByChipKeeps | app/src/main/java/eu/kanade/tachiyomi/ui/more/stats/details/StatsDetailsPresenter.kt:300-306 | an entry passes `filterByChip` exactly when it is in the list and meets every chip that is neither bypassed nor empty; nothing is added |
| StatsDetails.FilterByChipNoChip | app/src/main/java/eu/kanade/tachiyomi/ui/more/stats/details/StatsDetailsPresenter.kt:300-306 | with no chip selected in any of the five filters, `filterByChip` returns the whole list, in order |
| StatsDetails.ChipBypasses | app/src/main/java/eu/kanade/tachiyomi/ui/more/stats/details/StatsDetailsPresenter.kt:308-336 | the chip of the statistic on display never filters, and the language and source chips never both filter |
| StatsDetails.Group | app/src/main/java/eu/kanade/tachiyomi/ui/more/stats/details/StatsDetailsPresenter.kt:94-111 | a `groupBy` group holds exactly the entries with its key |
| StatsDetails.GroupedStats | app/src/main/java/eu/kanade/tachiyomi/ui/more/stats/details/StatsDetailsPresenter.kt:94-111 | one bucket per key of the `groupBy` |
| StatsDetails.GroupsPartition | app/src/main/java/eu/kanade/tachiyomi/ui/more/stats/details/StatsDetailsPresenter.kt:94-111 | the keys are distinct, every bucket counts at least one entry, and every entry lies in the group of its own key and in no other |
| StatsDetails.Matches | app/src/main/java/eu/kanade/tachiyomi/ui/more/stats/details/StatsDetailsPresenter.kt:175 | a length bucket takes exactly the entries with at least min chapters and, when there is a maximum, at most max |
| StatsDetails.Misses | app/src/main/java/eu/kanade/tachiyomi/ui/more/stats/details/StatsDetailsPresenter.kt:175-176 | what a bucket leaves over is exactly the entries out of its range |
| StatsDetails.MatchesMissesPartition | app/src/main/java/eu/kanade/tachiyomi/ui/more/stats/details/StatsDetailsPresenter.kt:175 | every entry is taken or left by a range |
| StatsDetails.LengthBuckets | app/src/main/java/eu/kanade/tachiyomi/ui/more/stats/details/StatsDetailsPresenter.kt:174-190 | one bucket per length range |
| StatsDetails.LengthBucketsCount | app/src/main/java/eu/kanade/tachiyomi/ui/more/stats/details/StatsDetailsPresenter.kt:174-190 | the bucket counts and the entries no bucket took add up to the filtered list |
| StatsDetails.UnmatchedMisses | app/src/main/java/eu/kanade/tachiyomi/ui/more/stats/details/StatsDetailsPresenter.kt:176 | an entry left over after the buckets is in the list and in none of their ranges |
| StatsDetails.LengthBucketsDisjoint | app/src/main/java/eu/kanade/tachiyomi/ui/more/stats/details/StatsDetailsPresenter.kt:174-190 | bucket j holds entries in range j and in no earlier range, so no entry is counted twice |
| StatsDetails.IntToStringHasNoN | app/src/main/java/eu/kanade/tachiyomi/ui/more/stats/details/StatsDetailsPresenter.kt:184-186 | a number's text never holds an 'n', so the "-null" replacement can only hit the absent maximum |
| StatsDetails.LabelTextOpen | app/src/main/java/eu/kanade/tachiyomi/ui/more/stats/details/StatsDetailsPresenter.kt:184-187 | joining the minimum with an absent maximum and replacing "-null" gives "min+" |
| StatsDetails.LabelTextBounded | app/src/main/java/eu/kanade/tachiyomi/ui/more/stats/details/StatsDetailsPresenter.kt:184-187 | joining two numbers with "-" leaves nothing for the "-null" replacement, so the text is "min-max" |
| StatsDetails.LengthLabelShapes | app/src/main/java/eu/kanade/tachiyomi/ui/more/stats/details/StatsDetailsPresenter.kt:184-187 | a length label is "min" when both bounds agree, "min-max" for a different maximum and "min+" without one |
| StatsDetails.BucketStats | app/src/main/java/eu/kanade/tachiyomi/ui/more/stats/details/StatsDetailsPresenter.kt:177-189 | one chart entry per length bucket |
| StatsDetails.BucketStatsSnoc | app/src/main/java/eu/kanade/tachiyomi/ui/more/stats/details/StatsDetailsPresenter.kt:177-189 | one more bucket appends one entry under its label |
| StatsDetails.LengthStats | app/src/main/java/eu/kanade/tachiyomi/ui/more/stats/details/StatsDetailsPresenter.kt:171-191 | one chart entry per length range |
| StatsDetails.LengthStatsSnoc | app/src/main/java/eu/kanade/tachiyomi/ui/more/stats/details/StatsDetailsPresenter.kt:174-190 | one more range appends the entry of what the earlier ranges left and it takes |
| StatsDetails.AllTags | app/src/main/java/eu/kanade/tachiyomi/ui/more/stats/details/StatsDetailsPresenter.kt:263 | every tag of every entry is in the flattened tag list |
| StatsDetails.AllTagsFrom | app/src/main/java/eu/kanade/tachiyomi/ui/more/stats/details/StatsDetailsPresenter.kt:263 | every tag comes from some entry |
| StatsDetails.TagListComplete | app/src/main/java/eu/kanade/tachiyomi/ui/more/stats/details/StatsDetailsPresenter.kt:263 | the distinct tag list holds each tag once and every tag of every entry |
| StatsDetails.Tagged | app/src/main/java/eu/kanade/tachiyomi/ui/more/stats/details/StatsDetailsPresenter.kt:264 | a tag's group is exactly the entries carrying it |
| StatsDetails.TagStats | app/src/main/java/eu/kanade/tachiyomi/ui/more/stats/details/StatsDetailsPresenter.kt:263-277 | one bucket per distinct tag |
| StatsDetails.TopTags | app/src/main/java/eu/kanade/tachiyomi/ui/more/stats/details/StatsDetailsPresenter.kt:278-279 | the tag chart is the first at most 100 of the sorted tag buckets, all of them when there are no more than 100 |
| StatsDetails.TagStatsNonEmpty | app/src/main/java/eu/kanade/tachiyomi/ui/more/stats/details/StatsDetailsPresenter.kt:263-264 | the tags are distinct and every tag bucket counts at least one entry |
| StatsDetails.TenPointScores | app/src/main/java/eu/kanade/tachiyomi/ui/more/stats/details/StatsDetailsPresenter.kt:378-379 | the ten-point scores of the tracks with a positive score: none exactly when no track gives one, each from some track |
| StatsDetails.TimesIsProduct | app/src/main/java/eu/kanade/tachiyomi/ui/more/stats/details/StatsDetailsPresenter.kt:380 | adding a value n times is multiplying it by n |
| StatsDetails.SumRealBounds | app/src/main/java/eu/kanade/tachiyomi/ui/more/stats/details/StatsDetailsPresenter.kt:380 | a sum of values within bounds lies within the count times each bound |
| StatsDetails.AverageSum | app/src/main/java/eu/kanade/tachiyomi/ui/more/stats/details/StatsDetailsPresenter.kt:380 | the average times the count gives back the sum, and a single value is its own average |
| StatsDetails.AverageBounds | app/src/main/java/eu/kanade/tachiyomi/ui/more/stats/details/StatsDetailsPresenter.kt:380 | the average of values within bounds lies within them |
| StatsDetails.MeanScoreToInt | app/src/main/java/eu/kanade/tachiyomi/ui/more/stats/details/StatsDetailsPresenter.kt:376-381 | none exactly when no track gives a usable score; otherwise within 1 to 10 |
| StatsDetails.MeanScoreToIntNearest | app/src/main/java/eu/kanade/tachiyomi/ui/more/stats/details/StatsDetailsPresenter.kt:380 | with scores on the ten-point scale, the result is the average rounded to the nearest integer |
| StatsDetails.ScoreStats | app/src/main/java/eu/kanade/tachiyomi/ui/more/stats/details/StatsDetailsPresenter.kt:132-150 | one bucket per score of the colour table, then one for the unscored entries |
| StatsDetails.ScoreBucketBar | app/src/main/java/eu/kanade/tachiyomi/ui/more/stats/details/StatsDetailsPresenter.kt:137-147 | a score bar counts at most the filtered list and is drawn at its score and titled with it; the unscored bar is drawn at 0 under the "not rated" title |
| StatsDetails.OptionLessTotal | app/src/main/java/eu/kanade/tachiyomi/ui/more/stats/details/StatsDetailsPresenter.kt:341-350 | `compareValues` orders an absent value below every present one and any two distinct values one way only |
| StatsDetails.SortKeysMeasures | app/src/main/java/eu/kanade/tachiyomi/ui/more/stats/details/StatsDetailsPresenter.kt:338-351 | each sort compares the same three measures (count, chapters read, mean score), each exactly once |
| StatsDetails.DescendingLeLexicographic | app/src/main/java/eu/kanade/tachiyomi/ui/more/stats/details/StatsDetailsPresenter.kt:341-350 | the descending comparator is lexicographic: a larger first key comes first whatever follows, a tie on it is decided by a larger second key, and every bucket ties with itself |
| StatsDetails.StatsOrderTotalPreorder | app/src/main/java/eu/kanade/tachiyomi/ui/more/stats/details/StatsDetailsPresenter.kt:338-354 | each of the three sorts is a total preorder on the buckets |
| StatsDetails.SortedStats | app/src/main/java/eu/kanade/tachiyomi/ui/more/stats/details/StatsDetailsPresenter.kt:338-354 | sorting keeps the number of buckets |
| StatsDetails.SortedStatsOrdered | app/src/main/java/eu/kanade/tachiyomi/ui/more/stats/details/StatsDetailsPresenter.kt:338-354 | sorting keeps every bucket, orders them by the chosen comparator, and the most significant key never rises along the list |
| StatsDetails.StatsDetailsPresenter.constructor | app/src/main/java/eu/kanade/tachiyomi/ui/more/stats/details/StatsDetailsPresenter.kt:34-39 | a new presenter holds the library, no selection, no sort and no buckets |
| StatsDetails.StatsDetailsPresenter.SetLibraryMangas | app/src/main/java/eu/kanade/tachiyomi/ui/more/stats/details/StatsDetailsPresenter.kt:34-38 | setting the library also refreshes its distinct list |
| StatsDetails.StatsDetailsPresenter.SortCurrentStats | app/src/main/java/eu/kanade/tachiyomi/ui/more/stats/details/StatsDetailsPresenter.kt:338-354 | the buckets, when there are some, are replaced by their sorted order |
| StatsDetails.StatsDetailsPresenter.AppendGrouped | app/src/main/java/eu/kanade/tachiyomi/ui/more/stats/details/StatsDetailsPresenter.kt:95-110 | the group-by loop leaves one bucket per key, in first-occurrence order |
| StatsDetails.StatsDetailsPresenter.SetupSorted | app/src/main/java/eu/kanade/tachiyomi/ui/more/stats/details/StatsDetailsPresenter.kt:94-130 | the series-type, status, language, source and category setups leave their grouped buckets, sorted |
| StatsDetails.StatsDetailsPresenter.SetupStartYear | app/src/main/java/eu/kanade/tachiyomi/ui/more/stats/details/StatsDetailsPresenter.kt:282-298 | one bucket per start year, unsorted |
| StatsDetails.StatsDetailsPresenter.SetupTrackers | app/src/main/java/eu/kanade/tachiyomi/ui/more/stats/details/StatsDetailsPresenter.kt:193-217 | the tracker buckets, sorted |
| StatsDetails.StatsDetailsPresenter.SetupLength | app/src/main/java/eu/kanade/tachiyomi/ui/more/stats/details/StatsDetailsPresenter.kt:171-191 | the length buckets, each taking what the earlier ones left |
| StatsDetails.StatsDetailsPresenter.SetupTags | app/src/main/java/eu/kanade/tachiyomi/ui/more/stats/details/StatsDetailsPresenter.kt:260-280 | the tag chart `TopTags` |
| StatsDetails.StatsDetailsPresenter.SetupScores | app/src/main/java/eu/kanade/tachiyomi/ui/more/stats/details/StatsDetailsPresenter.kt:132-150 | the score buckets, unsorted |
| StatsDetails.StatsDetailsPresenter.GetStatisticData | app/src/main/java/eu/kanade/tachiyomi/ui/more/stats/details/StatsDetailsPresenter.kt:74-92 | with the distinct list in step with the library, nothing changes until both a statistic and a sort are chosen; then the buckets become those of that statistic over the chip-filtered lists of the state before the call |
| StatsDetails.StatsDetailsPresenter.Setup | app/src/main/java/eu/kanade/tachiyomi/ui/more/stats/details/StatsDetailsPresenter.kt:79-91 | each statistic runs its own setup over the chip-filtered distinct list (the chip-filtered library for categories) |
| StatsDetails.StatisticDataBars | app/src/main/java/eu/kanade/tachiyomi/ui/more/stats/details/StatsDetailsPresenter.kt:79-90 | each statistic draws one bar per distinct key of its grouping (the filtered library for categories), one per score of the colour table plus "not rated", one per length range, and at most 100 tags |
| MangaSelection.RemoveFirst | app/src/main/java/eu/kanade/tachiyomi/ui/manga/MangaController.kt:1146 | `ArrayDeque.remove` takes out one occurrence of the position when there is one and leaves the stack as it was otherwise |
| MangaSelection.RemoveFirstKeepsMark | app/src/main/java/eu/kanade/tachiyomi/ui/manga/MangaController.kt:1146-1148 | removing a clicked position never removes the -1 mark, and pushing a position afterwards keeps the stack marked |
| MangaSelection.PushKeepsMark | app/src/main/java/eu/kanade/tachiyomi/ui/manga/MangaController.kt:1148 | pushing a clicked position keeps the -1 mark in the stack |
| MangaSelection.RemoveFirstKeeps | app/src/main/java/eu/kanade/tachiyomi/ui/manga/MangaController.kt:1146 | removing a position keeps every other position of the stack and brings in none |
| MangaSelection.MovedToTop | app/src/main/java/eu/kanade/tachiyomi/ui/manga/MangaController.kt:1172-1175 | after a long click the clicked position is on top of a still-marked stack, which grows only when the position was not in it |
| MangaSelection.LongClickRange | app/src/main/java/eu/kanade/tachiyomi/ui/manga/MangaController.kt:1161-1171 | a long click selects a non-empty run of positions |
| MangaSelection.LongClickRangeSpan | app/src/main/java/eu/kanade/tachiyomi/ui/manga/MangaController.kt:1161-1171 | the run holds the clicked position, stops short of the last clicked one on either side, never reaches -1, and spans exactly the distance between the two clicks |
| MangaSelection.Selectable | app/src/main/java/eu/kanade/tachiyomi/ui/manga/MangaController.kt:1198-1201 | `setSelection` over a run affects exactly the positions of the run that hold an item, and none when there is no adapter |
| MangaSelection.SelectedPositions | app/src/main/java/eu/kanade/tachiyomi/ui/manga/MangaController.kt:1210 | the positions read are exactly the selected ones that hold an item, each once, in ascending order |
| MangaSelection.SelectedItems | app/src/main/java/eu/kanade/tachiyomi/ui/manga/MangaController.kt:1208-1211 | the selected chapters are exactly the items at the selected positions that hold one, one per position, in ascending position order; every item at a selected position is among them and every one of them is an item of the list |
| MangaSelection.IndexOf | app/src/main/java/eu/kanade/tachiyomi/ui/manga/MangaController.kt:1371 | `indexOf` gives -1 exactly when the chapter is absent, otherwise the position of its first occurrence |
| MangaSelection.Reversed | app/src/main/java/eu/kanade/tachiyomi/ui/manga/MangaController.kt:1370 | `reversed` holds the same chapters in the opposite order |
| MangaSelection.PreviousChapters | app/src/main/java/eu/kanade/tachiyomi/ui/manga/MangaController.kt:1368-1374 | the chapters marked read are the ones before the first occurrence of the last selected chapter, in display order; none when no chapter is selected, and some whenever it is in the list |
| MangaSelection.ChaptersToDownload | app/src/main/java/eu/kanade/tachiyomi/ui/manga/MangaController.kt:1411-1423 | each download menu choice takes its chapters: the next 1, 5 or 10 unread, exactly the unread ones among the manga's chapters (every unread chapter and nothing else), all of them, or nothing; "custom" takes none and opens its dialog |
| MangaSelection.DownloadNextTakes | app/src/main/java/eu/kanade/tachiyomi/ui/manga/MangaController.kt:1413-1415 | "download next n" takes the first n unread chapters, or all of them when there are fewer |
| MangaSelection.ChapterSelection.constructor | app/src/main/java/eu/kanade/tachiyomi/ui/manga/MangaController.kt:214-218 | the controller starts with nothing selected, no action mode and a stack holding only the -1 mark |
| MangaSelection.ChapterSelection.SetSelection | app/src/main/java/eu/kanade/tachiyomi/ui/manga/MangaController.kt:1198-1206 | selects an unselected position that holds an item together with its chapter, and changes nothing otherwise; the following invalidate then finds a selection and only refreshes the toolbar |
| MangaSelection.ChapterSelection.ToggleSelection | app/src/main/java/eu/kanade/tachiyomi/ui/manga/MangaController.kt:1185-1196 | without an adapter item nothing changes; otherwise the position's selection flips, no other position or chapter changes, and its chapter is selected exactly when the position is, except that the invalidate ends selection mode when the flip left nothing selected |
| MangaSelection.ChapterSelection.OnItemClick | app/src/main/java/eu/kanade/tachiyomi/ui/manga/MangaController.kt:1141-1157 | a click is handled exactly in selection mode on a position with an item, and then flips only that position and its chapter, moves it in the stack, and ends selection mode when it deselected the last selection; otherwise the chapter is opened when there is one and nothing changes |
| MangaSelection.ChapterSelection.ClickInSelectionMode | app/src/main/java/eu/kanade/tachiyomi/ui/manga/MangaController.kt:1144-1152 | deselecting the only selected position ends selection mode; otherwise the clicked position and its chapter flip and nothing else does, a deselected position leaves the stack and a newly selected one goes on top |
| MangaSelection.ChapterSelection.MoveClickedPosition | app/src/main/java/eu/kanade/tachiyomi/ui/manga/MangaController.kt:1145-1149 | the stack loses a deselected position and gains a newly selected one on top, keeping the -1 mark |
| MangaSelection.ChapterSelection.CreateActionModeIfNeeded | app/src/main/java/eu/kanade/tachiyomi/ui/manga/MangaController.kt:1213-1221 | afterwards an action mode exists, and a new one puts the adapter in multi-selection mode |
| MangaSelection.ChapterSelection.SelectRange | app/src/main/java/eu/kanade/tachiyomi/ui/manga/MangaController.kt:1162-1171 | the selection becomes the old one plus every position of the run that holds an item, with their chapters |
| MangaSelection.ChapterSelection.OnItemLongClick | app/src/main/java/eu/kanade/tachiyomi/ui/manga/MangaController.kt:1159-1177 | a long click opens the action mode, selects the run between the last click and this one, and moves the clicked position to the top of a still-marked stack |
| MangaSelection.ChapterSelection.MoveToTop | app/src/main/java/eu/kanade/tachiyomi/ui/manga/MangaController.kt:1172-1175 | the clicked position leaves its place in the stack and goes on top |
| MangaSelection.ChapterSelection.DestroyActionModeIfNeeded | app/src/main/java/eu/kanade/tachiyomi/ui/manga/MangaController.kt:1223-1227 | the stack goes back to the -1 mark alone; finishing an action mode clears the selection and the chapters and returns to single selection; with none, the selection stays |
| MangaSelection.ChapterSelection.InvalidateActionMode | app/src/main/java/eu/kanade/tachiyomi/ui/manga/MangaController.kt:1234-1239 | invalidating an open action mode with nothing selected, or without an adapter, destroys it and ends selection mode; otherwise nothing in the model changes |
| MangaSelection.ChapterSelection.GetSelectedChapters | app/src/main/java/eu/kanade/tachiyomi/ui/manga/MangaController.kt:1208-1211 | no chapters without an adapter; otherwise exactly the items at the selected positions, one per position, in ascending position order, each an item of the list |
| MangaSelection.ChapterSelection.MarkPreviousAsRead | app/src/main/java/eu/kanade/tachiyomi/ui/manga/MangaController.kt:1368-1376 | without an adapter nothing happens; otherwise the chapters before the last selected one are handed to be marked read and selection mode ends |
| MangaSelection.ChapterSelection.DownloadChapters | app/src/main/java/eu/kanade/tachiyomi/ui/manga/MangaController.kt:1411-1428 | "custom" opens its dialog and keeps the selection; any other choice hands its chapters to the downloader unless the source is a stub, then ends selection mode |
| Pager.Pending | app/src/main/java/eu/kanade/tachiyomi/ui/reader/viewer/pager/PagerPageHolder.kt:497-519 | queued, loading and downloading all show the bar and hide retry and the decode error, leaving the bar's value alone |
| Pager.ImageSet | app/src/main/java/eu/kanade/tachiyomi/ui/reader/viewer/pager/PagerPageHolder.kt:524-532 | a ready image shows the bar, completed for a single page and pinned at 95 for a pair, and hides retry and the decode error |
| Pager.Failed | app/src/main/java/eu/kanade/tachiyomi/ui/reader/viewer/pager/PagerPageHolder.kt:628-631 | an error hides the bar and shows the retry button |
| Pager.PairedProgressBound | app/src/main/java/eu/kanade/tachiyomi/ui/reader/viewer/pager/PagerPageHolder.kt:397-412 | a pair's bar, computed from both pages' progress, never passes the 95 that `setImage` pins it at |
| Pager.PairedProgressMonotone | app/src/main/java/eu/kanade/tachiyomi/ui/reader/viewer/pager/PagerPageHolder.kt:397-412 | more downloaded in total never shows a lower bar |
| Pager.IsLTR | app/src/main/java/eu/kanade/tachiyomi/ui/reader/viewer/pager/PagerPageHolder.kt:850 | pages are laid out left to right unless the viewer is right-to-left, and "invert double pages" flips that |
| Pager.MergeBackground | app/src/main/java/eu/kanade/tachiyomi/ui/reader/viewer/pager/PagerPageHolder.kt:955-959 | merged pages are filled in black exactly for reader theme 1 (and negative themes), in white otherwise |
| Pager.Decide | app/src/main/java/eu/kanade/tachiyomi/ui/reader/viewer/pager/PagerPageHolder.kt:840-972 | a pair is merged exactly when neither page is already split or alone, the first is not animated and both decode tall; flags only turn on, a known long page is never revised, and a split is requested exactly when a flag turns on |
| Pager.DecideSinglePage | app/src/main/java/eu/kanade/tachiyomi/ui/reader/viewer/pager/PagerPageHolder.kt:861-892 | with splitting on, a single page of unknown shape is split in reading order and marked long when wide, marked long and shown as is when undecodable, marked not long without a new layout when tall |
| Pager.DecideKnownLongPage | app/src/main/java/eu/kanade/tachiyomi/ui/reader/viewer/pager/PagerPageHolder.kt:841-860 | a page known to be long shows the half that `firstHalf` names in reading order, or its bytes when it will not decode, without changing any flag |
| Pager.DecidePairAborts | app/src/main/java/eu/kanade/tachiyomi/ui/reader/viewer/pager/PagerPageHolder.kt:897-953 | an animated, wide or undecodable first page is shown alone; a wide or undecodable second page isolates the first, which is shown as is, and marks the second to be shown alone |
| Pager.DecideFullPagePassesThrough | app/src/main/java/eu/kanade/tachiyomi/ui/reader/viewer/pager/PagerPageHolder.kt:896 | a page already shown alone passes through with nothing changed |
| Pager.BGTypeDistinguishes | app/src/main/java/eu/kanade/tachiyomi/ui/reader/viewer/pager/PagerPageHolder.kt:997-1001 | the background cache key tells the automatic theme apart from the others, its night mode apart, and the orientation of the other themes apart |
| Pager.ZoomAnchor | app/src/main/java/eu/kanade/tachiyomi/ui/reader/viewer/pager/PagerPageHolder.kt:271-275 | a landscape zoom centres on the top edge: the left or right edge for those zoom types, the view centre when it is known for centred zoom |
| Pager.ZoomAnchorMirror | app/src/main/java/eu/kanade/tachiyomi/ui/reader/viewer/pager/PagerPageHolder.kt:271-275 | left zoom is right zoom going the other way, and the forward and backward anchors of a zoom type lie on opposite edges |
| Pager.LandscapeZoom | app/src/main/java/eu/kanade/tachiyomi/ui/reader/viewer/pager/PagerPageHolder.kt:266-293 | a zoom is scheduled exactly when there is a direction, landscape zoom is on, the scale type is centre-inside, the image is wider than tall and not zoomed; it zooms to the smaller of the height-fitting scale and twice the minimum |
| Pager.ScaleImageView.SetupZoom | app/src/main/java/eu/kanade/tachiyomi/ui/reader/viewer/pager/PagerPageHolder.kt:295-314 | zooming stops at five times the fitted scale, a double tap zooms to twice it, and the image is framed at its top edge on the side the zoom type names |
| Pager.PagerPageHolder.constructor | app/src/main/java/eu/kanade/tachiyomi/ui/reader/viewer/pager/PagerPageHolder.kt:333-379 | a new holder has a live scope and observes the status of each page that has a loader, holding exactly those subscriptions |
| Pager.PagerPageHolder.UnsubscribeStatus | app/src/main/java/eu/kanade/tachiyomi/ui/reader/viewer/pager/PagerPageHolder.kt:471-475 | the status subscription of the named page is dropped and no other |
| Pager.PagerPageHolder.UnsubscribeProgress | app/src/main/java/eu/kanade/tachiyomi/ui/reader/viewer/pager/PagerPageHolder.kt:480-484 | the progress subscription of the named page is dropped and no other |
| Pager.PagerPageHolder.UnsubscribeReadImageHeader | app/src/main/java/eu/kanade/tachiyomi/ui/reader/viewer/pager/PagerPageHolder.kt:489-492 | the header-reading subscription is dropped |
| Pager.PagerPageHolder.OnDetachedFromWindow | app/src/main/java/eu/kanade/tachiyomi/ui/reader/viewer/pager/PagerPageHolder.kt:169-179 | detaching drops every subscription and cancels the scope, so nothing stays live and no pending split runs |
| Pager.PagerPageHolder.ObserveProgress | app/src/main/java/eu/kanade/tachiyomi/ui/reader/viewer/pager/PagerPageHolder.kt:384-400 | the page's progress subscription is replaced by a fresh one |
| Pager.PagerPageHolder.ObserveProgress2 | app/src/main/java/eu/kanade/tachiyomi/ui/reader/viewer/pager/PagerPageHolder.kt:402-414 | the extra page's old progress subscription is dropped, and a fresh one starts only when there is an extra page |
| Pager.PagerPageHolder.OnProgressTick | app/src/main/java/eu/kanade/tachiyomi/ui/reader/viewer/pager/PagerPageHolder.kt:392-398 | a progress tick shows the page's progress alone, or the pair's combined value when there is an extra page |
| Pager.PagerPageHolder.OnExtraProgressTick | app/src/main/java/eu/kanade/tachiyomi/ui/reader/viewer/pager/PagerPageHolder.kt:410-413 | an extra-page tick shows the pair's combined value |
| Pager.PagerPageHolder.SetImage | app/src/main/java/eu/kanade/tachiyomi/ui/reader/viewer/pager/PagerPageHolder.kt:524-540 | one more image request, the ready view, and a fresh header-reading subscription exactly when the page has a stream |
| Pager.PagerPageHolder.Ready | app/src/main/java/eu/kanade/tachiyomi/ui/reader/viewer/pager/PagerPageHolder.kt:429-434 | on READY the progress subscription of that page is dropped; when the image is set, the old header subscription is dropped and a fresh live one is taken exactly when the page has a stream, and nothing else in the live set changes |
| Pager.PagerPageHolder.SetImageThenDrop | app/src/main/java/eu/kanade/tachiyomi/ui/reader/viewer/pager/PagerPageHolder.kt:430-433 | setting the image and then dropping the progress subscription leaves the live set as before minus the old header and progress subscriptions plus the new header one |
| Pager.PagerPageHolder.Fail | app/src/main/java/eu/kanade/tachiyomi/ui/reader/viewer/pager/PagerPageHolder.kt:435-438 | on ERROR the retry view shows and the progress subscription of that page is dropped |
| Pager.PagerPageHolder.OnStatus | app/src/main/java/eu/kanade/tachiyomi/ui/reader/viewer/pager/PagerPageHolder.kt:421-440 | a page status is recorded and handled; a pair's image is set only once both pages are READY, and then the header subscription, id counter and live set are given outright; unknown statuses change nothing |
| Pager.PagerPageHolder.OnExtraStatus | app/src/main/java/eu/kanade/tachiyomi/ui/reader/viewer/pager/PagerPageHolder.kt:447-466 | an extra-page status is recorded and handled; DOWNLOAD_IMAGE replaces the extra progress subscription with a fresh live one when there is an extra page and otherwise only drops the old one; its READY sets the image only once the page is READY too, with the new header subscription, id counter and live set given outright |
| Pager.PagerPageHolder.OnImageDecoded | app/src/main/java/eu/kanade/tachiyomi/ui/reader/viewer/pager/PagerPageHolder.kt:636-638 | decoding hides the bar and changes nothing else in the view |
| Pager.PagerPageHolder.OnImageDecodeError | app/src/main/java/eu/kanade/tachiyomi/ui/reader/viewer/pager/PagerPageHolder.kt:643-646 | a decode failure hides the bar and shows the decode error |
| Pager.PagerPageHolder.OnImageLoaded | app/src/main/java/eu/kanade/tachiyomi/ui/reader/viewer/pager/PagerPageHolder.kt:704-711 | a single page of unknown shape is marked long exactly when it is wider than tall; any other page keeps its flag |
| Pager.PagerPageHolder.SplitDoublePages | app/src/main/java/eu/kanade/tachiyomi/ui/reader/viewer/pager/PagerPageHolder.kt:974-976 | a split is launched only while the scope lives |
| Pager.PagerPageHolder.RunPendingSplit | app/src/main/java/eu/kanade/tachiyomi/ui/reader/viewer/pager/PagerPageHolder.kt:977-981 | a launched split forgets the extra page exactly when either page is to be shown alone |
| Pager.PagerPageHolder.MergeOrSplitPages | app/src/main/java/eu/kanade/tachiyomi/ui/reader/viewer/pager/PagerPageHolder.kt:840-972 | the page flags become those of `Decide`; of the extra page only `fullPage` may change, and only to true; a split is launched exactly when `Decide` asks for one and the scope lives |
| Pager.PairedProgress | app/src/main/java/eu/kanade/tachiyomi/ui/reader/viewer/pager/PagerPageHolder.kt:397 | two finished pages show 95, two unstarted pages 0, and the bar of non-negative progresses is never negative |
| Pager.Wide | app/src/main/java/eu/kanade/tachiyomi/ui/reader/viewer/pager/PagerPageHolder.kt:875 | a square page is never treated as a double page |
| Pager.WideRotated | app/src/main/java/eu/kanade/tachiyomi/ui/reader/viewer/pager/PagerPageHolder.kt:875 | of a page that is not square and the same page turned a quarter, exactly one is split as a double page |
| Pager.BGType | app/src/main/java/eu/kanade/tachiyomi/ui/reader/viewer/pager/PagerPageHolder.kt:997-1001 | the automatic theme keys 2 at night and 1 by day; every other theme keys a multiple of ten, 0 without a configuration |

## Left out

- Android views, toasts, snackbars, the action-mode toolbar, notifications' own delivery, and view invalidation are left out. The model records only the state these read or write.
- The network, JSON parsing, the database and preferences are left out. They are parameters or already-parsed values: responses, stored chapters, tracks, the logged-in tracker services, the `Env` of the statistics presenter.
- Coroutines, RxJava schedulers, `GlobalScope` and delays are left out. A subscription is a handle that is live or dropped. A launched split is a pending counter whose body runs later as its own method. Everything is sequential.
- Bitmap decoding, animation sniffing and the pixel work of `ImageUtil.splitBitmap` and `mergeBitmaps` are oracles. An `Image` states what decoding reports. The split and merge progress callbacks (96, 97 and the splitter's own values) are not modelled.
- The `setupZoom` cutout-inset adjustment after framing is left out. So are the "pan" helpers, `onPageSelected` and the held forward zoom, and the background computation and its cache. Only the cache key `getBGType` is modelled.
- Floating point is read as exact rational numbers throughout. This covers zoom scales, mean scores, colour alpha and `toDouble` on extension versions. Kotlin `Int`/`Long` overflow is not modelled; every count in the core is far below it.
- Pager.PairedProgressBound: the pair's bar value is modelled with exact arithmetic for `* 0.95f` and `roundToInt`. A float product that lands a hair below a .5 boundary may round one lower on a device.
- The layout manager's height estimator (`childTypeEstimateMap` and `childAvgHeightMap` lookups) is a parameter: a function of the recorded maps and a position.
- `findFirstVisibleItemPosition`, `findFirstCompletelyVisibleItemPosition`, `getFirstPos` and the lazily read toolbar height are not modelled (LinearLayoutManagerAccurateOffset.kt:22-28, 91-113). They depend on view coordinates and window insets. The attached `RecyclerView` (`onAttachedToWindow`, `onDetachedFromWindow`) is not modelled either.
- `MangaSelection` reduces the chapter adapter to its items and its set of selected positions. Opening the reader, the presenter's download and mark-as-read work, and the custom download dialog are what the methods return.
- The delayed tracking update job is reduced to a count of requests. The `trackingsToAddOnline` preference set is an insertion-ordered sequence without duplicates.
- `ChapterSort` takes the chapter filter and the scanlator-list parser as parameters. The extension loader's installed extensions and its supported lib-version bounds are parameters of `ExtensionApi`.
- In `StatsDetails`, the tracker buckets, `getMeanScoreRounded`, resource strings and the pie-chart colours are oracles in `Env`.
- StatsDetails labels: `uppercase()` is not modelled. The series-type, status and language labels are the names exactly as `Env` gives them, where the source upper-cases them (StatsDetailsPresenter.kt:106, 125, 164). The source, category, not-rated and not-started names and the tags are read as `Env` values that are already upper-case.
- `LibraryManga.distinct()` compares by manga id and url. Chapter equality in the notification action compares by url.
- `Pager.Decide` follows the code as written: the second animated test in the pair path repeats the first, so the branch that would isolate an animated page never runs.
- SMangaModel.SManga.CopyFrom: `MangaImpl` is not part of this model, so its `ogTitle` to `ogStatus` are modelled as fields of their own. The model assumes that writing `author`, `artist`, `description`, `genre` or `status` leaves them as they were; `originalAuthor` and the other getters then read the values from before the call. If `MangaImpl` derives them from the edited fields or updates them together, `copyFrom` can differ from the model.
- SMangaModel.SManga.constructor: the record from `SManga.create()` starts with no original values. This rests on the same assumption about `MangaImpl`, which is not part of this model.
- ChapterTrackSync.SyncChaptersWithTrackServiceTwoWay: the chapters are values, so the method returns the sorted chapters with their new read marks rather than setting `read` on the caller's `Chapter` objects. Aliasing between the caller's list and the sorted one is not modelled; the tracker's `Track` is a class and is updated in place.
