/** The "mark as read" notification action of `NotificationReceiver`: the
    notification is dismissed (the group summary with it when this was the
    group's last chapter), the listed chapters are marked read in order, and
    the trackers are told when the earliest read chapter moved — directly
    when online, through the queue of pending tracking updates when offline.
    The database, the download manager and the tracker services are the
    fields and parameters of `MarkAsReadReceiver`. */
module NotificationReceiver {
  import opened Text
  import opened Numbers
  import opened ChapterModel
  import ChapterTrackSync

  // ---------------------------------------------------------------------------
  // Dismissing the notification

  /** An active notification: its id and its group key, if any. */
  datatype ActiveNotification = ActiveNotification(id: int, groupKey: Option<string>)

  /** The group key of the first active notification with the given id. */
  function GroupKeyOf(active: seq<ActiveNotification>, id: int): (k: Option<string>)
    ensures k.Some? ==> exists i :: 0 <= i < |active| && active[i].id == id && active[i].groupKey == k
    ensures (forall i :: 0 <= i < |active| ==> active[i].id != id) ==> k.None?
  {
    if active == [] then None
    else if active[0].id == id then active[0].groupKey
    else GroupKeyOf(active[1..], id)
  }

  /** How many active notifications carry the group key `key`. */
  function CountInGroup(active: seq<ActiveNotification>, key: string): (n: nat)
    ensures n <= |active|
  {
    if active == [] then 0
    else (if active[0].groupKey == Some(key) then 1 else 0) + CountInGroup(active[1..], key)
  }

  /** The group summary is dismissed instead of the notification when the
      platform groups notifications, a group is named, and the notification's
      group holds just it and the summary. */
  predicate DismissesGroup(notificationId: int, groupId: Option<int>,
                           active: seq<ActiveNotification>, groupsSupported: bool)
  {
    var key := GroupKeyOf(active, notificationId);
    && groupsSupported && groupId.Some? && groupId.value != 0
    && key.Some? && |key.value| > 0
    && CountInGroup(active, key.value) == 2
  }

  /** `dismissNotification`: the id that is cancelled. */
  function DismissTarget(notificationId: int, groupId: Option<int>,
                         active: seq<ActiveNotification>, groupsSupported: bool): (id: int)
    ensures DismissesGroup(notificationId, groupId, active, groupsSupported) ==> id == groupId.value
    ensures !DismissesGroup(notificationId, groupId, active, groupsSupported) ==> id == notificationId
  {
    if groupsSupported then
      var key := GroupKeyOf(active, notificationId);
      if groupId.Some? && groupId.value != 0 && key.Some? && |key.value| > 0 then
        if CountInGroup(active, key.value) == 2 then groupId.value else notificationId
      else notificationId
    else notificationId
  }

  /** A notification that is not active, or that has no group, is the one
      dismissed; so is any notification when no group id is given. */
  lemma DismissTargetDefaults(notificationId: int, groupId: Option<int>,
                              active: seq<ActiveNotification>, groupsSupported: bool)
    requires (forall i :: 0 <= i < |active| ==> active[i].id != notificationId || active[i].groupKey.None?)
             || groupId.None? || groupId == Some(0)
    ensures DismissTarget(notificationId, groupId, active, groupsSupported) == notificationId
  {
    if forall i :: 0 <= i < |active| ==> active[i].id != notificationId || active[i].groupKey.None? {
      GroupKeyOfUngrouped(active, notificationId);
    }
  }

  lemma {:induction false} GroupKeyOfUngrouped(active: seq<ActiveNotification>, id: int)
    requires forall i :: 0 <= i < |active| ==> active[i].id != id || active[i].groupKey.None?
    ensures GroupKeyOf(active, id).None?
  {
    if active != [] && active[0].id != id {
      GroupKeyOfUngrouped(active[1..], id);
    }
  }

  // ---------------------------------------------------------------------------
  // Marking chapters read

  /** The position of the chapter row with the given url (`getChapter`). */
  function FindByUrl(rows: seq<Chapter>, url: string): (r: Option<nat>)
    ensures r.Some? ==> r.value < |rows| && rows[r.value].url == url
    ensures r.None? <==> forall i :: 0 <= i < |rows| ==> rows[i].url != url
  {
    if rows == [] then None
    else if rows[0].url == url then Some(0)
    else
      match FindByUrl(rows[1..], url)
      case None => None
      case Some(i) => Some(i + 1)
  }

  /** Where a run of `markAsRead` ends: the rows, the chapters handed to the
      download manager for deletion, and whether every url was processed. */
  datatype MarkOutcome = MarkOutcome(rows: seq<Chapter>, deleted: seq<Chapter>, finished: bool)

  /** `markAsRead`'s loop over the urls. A url with no chapter ends the whole
      action; so does deletion after marking when the manga or its source is
      missing (`canDelete` false). */
  function MarkAll(rows: seq<Chapter>, urls: seq<string>, removeAfter: bool, canDelete: bool): (r: MarkOutcome)
    ensures |r.rows| == |rows|
    // at most one chapter per url is deleted, and none unless deletion was asked for
    ensures |r.deleted| <= |urls|
    ensures !removeAfter ==> r.deleted == []
    // an unfinished run stopped at some url
    ensures !r.finished ==> urls != []
    decreases |urls|
  {
    if urls == [] then MarkOutcome(rows, [], true)
    else
      match FindByUrl(rows, urls[0])
      case None => MarkOutcome(rows, [], false)
      case Some(i) =>
        var marked := rows[i := rows[i].(read := true)];
        if removeAfter && !canDelete then MarkOutcome(marked, [], false)
        else
          var rest := MarkAll(marked, urls[1..], removeAfter, canDelete);
          MarkOutcome(rest.rows, (if removeAfter then [marked[i]] else []) + rest.deleted, rest.finished)
  }

  /** Marking only turns read marks on: the rows keep their number, their
      urls and every other field, and a read row stays read. */
  lemma {:induction false} MarkAllOnlyMarks(rows: seq<Chapter>, urls: seq<string>, removeAfter: bool, canDelete: bool)
    ensures var r := MarkAll(rows, urls, removeAfter, canDelete).rows;
      && |r| == |rows|
      && (forall i :: 0 <= i < |rows| ==> r[i].(read := rows[i].read) == rows[i])
      && (forall i :: 0 <= i < |rows| && rows[i].read ==> r[i].read)
    decreases |urls|
  {
    if urls != [] {
      match FindByUrl(rows, urls[0])
      case None =>
      case Some(i) =>
        var marked := rows[i := rows[i].(read := true)];
        if !(removeAfter && !canDelete) {
          MarkAllOnlyMarks(marked, urls[1..], removeAfter, canDelete);
        }
    }
  }

  /** Every url of a run that finishes names a chapter that ends up read. */
  lemma {:induction false} MarkAllMarksEveryUrl(rows: seq<Chapter>, urls: seq<string>, removeAfter: bool, canDelete: bool)
    requires MarkAll(rows, urls, removeAfter, canDelete).finished
    ensures var r := MarkAll(rows, urls, removeAfter, canDelete).rows;
      forall k :: 0 <= k < |urls| ==> exists i :: 0 <= i < |r| && r[i].url == urls[k] && r[i].read
    decreases |urls|
  {
    if urls != [] {
      var i := FindByUrl(rows, urls[0]).value;
      var marked := rows[i := rows[i].(read := true)];
      MarkAllMarksEveryUrl(marked, urls[1..], removeAfter, canDelete);
      MarkAllOnlyMarks(marked, urls[1..], removeAfter, canDelete);
      var r := MarkAll(rows, urls, removeAfter, canDelete).rows;
      assert r == MarkAll(marked, urls[1..], removeAfter, canDelete).rows;
      assert r[i].url == urls[0] && r[i].read;
      forall k | 0 <= k < |urls|
        ensures exists j :: 0 <= j < |r| && r[j].url == urls[k] && r[j].read
      {
        if k > 0 {
          assert urls[k] == urls[1..][k - 1];
        }
      }
    }
  }

  /** The action stops at the first url with no chapter: the urls after it
      are not processed, exactly as if the list ended there. */
  lemma {:induction false} MarkAllStopsAtMissing(rows: seq<Chapter>, urls: seq<string>, k: nat,
                                                 removeAfter: bool, canDelete: bool)
    requires k < |urls|
    requires forall i :: 0 <= i < |rows| ==> rows[i].url != urls[k]
    ensures var full := MarkAll(rows, urls, removeAfter, canDelete);
      var upTo := MarkAll(rows, urls[..k], removeAfter, canDelete);
      && !full.finished && full.rows == upTo.rows && full.deleted == upTo.deleted
    decreases k
  {
    if k > 0 {
      match FindByUrl(rows, urls[0])
      case None =>
      case Some(i) =>
        var marked := rows[i := rows[i].(read := true)];
        if !(removeAfter && !canDelete) {
          assert urls[1..][k - 1] == urls[k];
          forall j | 0 <= j < |marked| ensures marked[j].url != urls[1..][k - 1] {
            assert marked[j].url == rows[j].url;
          }
          MarkAllStopsAtMissing(marked, urls[1..], k - 1, removeAfter, canDelete);
          assert urls[..k][1..] == urls[1..][..k - 1];
          assert urls[..k][0] == urls[0];
        }
    }
  }

  /** Only listed chapters are touched: a row whose url is not among the
      urls comes out exactly as it went in, read mark included. */
  lemma {:induction false} MarkAllOnlyListed(rows: seq<Chapter>, urls: seq<string>,
                                             removeAfter: bool, canDelete: bool)
    ensures var r := MarkAll(rows, urls, removeAfter, canDelete).rows;
      forall i :: 0 <= i < |rows| && rows[i].url !in urls ==> r[i] == rows[i]
    decreases |urls|
  {
    if urls != [] {
      match FindByUrl(rows, urls[0])
      case None =>
      case Some(i) =>
        var marked := rows[i := rows[i].(read := true)];
        if !(removeAfter && !canDelete) {
          MarkAllOnlyListed(marked, urls[1..], removeAfter, canDelete);
          forall j | 0 <= j < |rows| && rows[j].url !in urls
            ensures marked[j] == rows[j] && marked[j].url !in urls[1..]
          {
            assert rows[i].url in urls;
          }
        }
    }
  }

  /** The urls after the first one with no chapter stay as they were: only
      chapters named before it can have been marked. */
  lemma MarkAllLaterUntouched(rows: seq<Chapter>, urls: seq<string>, k: nat,
                              removeAfter: bool, canDelete: bool)
    requires k < |urls|
    requires forall i :: 0 <= i < |rows| ==> rows[i].url != urls[k]
    ensures var r := MarkAll(rows, urls, removeAfter, canDelete).rows;
      forall i :: 0 <= i < |rows| && rows[i].url !in urls[..k] ==> r[i] == rows[i]
  {
    MarkAllStopsAtMissing(rows, urls, k, removeAfter, canDelete);
    MarkAllOnlyListed(rows, urls[..k], removeAfter, canDelete);
  }

  /** `filter { it.read }.minByOrNull { it.source_order }`: the first read
      chapter of least source order. */
  function FirstReadBySourceOrder(s: seq<Chapter>): (r: Option<Chapter>)
    ensures r.None? <==> forall i :: 0 <= i < |s| ==> !s[i].read
    ensures r.Some? ==> r.value in s && r.value.read
    ensures r.Some? ==> forall i :: 0 <= i < |s| && s[i].read ==> r.value.sourceOrder <= s[i].sourceOrder
  {
    if s == [] then None
    else
      var rest := FirstReadBySourceOrder(s[1..]);
      assert forall i :: 1 <= i < |s| ==> s[i] == s[1..][i - 1];
      if !s[0].read then rest
      else if rest.None? || s[0].sourceOrder <= rest.value.sourceOrder then Some(s[0])
      else rest
  }

  /** Ties go to the earliest row, as `minByOrNull` keeps the first minimum:
      every read row before the chosen one has a greater source order. */
  lemma {:induction false} FirstReadBySourceOrderFirst(s: seq<Chapter>)
    requires FirstReadBySourceOrder(s).Some?
    ensures var c := FirstReadBySourceOrder(s).value;
      exists k :: 0 <= k < |s| && s[k] == c
        && forall j :: 0 <= j < k && s[j].read ==> c.sourceOrder < s[j].sourceOrder
  {
    var c := FirstReadBySourceOrder(s).value;
    if s[0].read && c == s[0] {
      assert 0 < |s| && s[0] == c;
    } else {
      var rest := FirstReadBySourceOrder(s[1..]);
      assert rest == Some(c);
      FirstReadBySourceOrderFirst(s[1..]);
      var k :| 0 <= k < |s[1..]| && s[1..][k] == c
        && forall j :: 0 <= j < k && s[1..][j].read ==> c.sourceOrder < s[1..][j].sourceOrder;
      assert s[k + 1] == c;
      forall j | 0 <= j < k + 1 && s[j].read ensures c.sourceOrder < s[j].sourceOrder {
        if j > 0 { assert s[j] == s[1..][j - 1]; }
      }
    }
  }

  /** Two chapter rows are the same chapter when their urls agree. */
  predicate SameChapter(a: Option<Chapter>, b: Option<Chapter>)
  {
    (a.None? && b.None?) || (a.Some? && b.Some? && a.value.url == b.value.url)
  }

  /** The tracker update `markAsRead` asks for: the earliest read chapter
      before and after, when it moved. */
  function TrackRequest(before: seq<Chapter>, after: seq<Chapter>, autoUpdateTrack: bool)
    : (r: Option<(Option<Chapter>, Option<Chapter>)>)
    ensures r.Some? <==> autoUpdateTrack
                         && !SameChapter(FirstReadBySourceOrder(before), FirstReadBySourceOrder(after))
    ensures r.Some? ==> r.value == (FirstReadBySourceOrder(before), FirstReadBySourceOrder(after))
  {
    if !autoUpdateTrack then None
    else
      var o := FirstReadBySourceOrder(before);
      var n := FirstReadBySourceOrder(after);
      if !SameChapter(o, n) then Some((o, n)) else None
  }

  /** Marking chapters read never makes the earliest read chapter vanish:
      when there was one before, there is one after. */
  lemma TrackRequestKeepsEarliest(rows: seq<Chapter>, urls: seq<string>, removeAfter: bool, canDelete: bool)
    requires FirstReadBySourceOrder(rows).Some?
    ensures FirstReadBySourceOrder(MarkAll(rows, urls, removeAfter, canDelete).rows).Some?
  {
    MarkAllOnlyMarks(rows, urls, removeAfter, canDelete);
    var r := MarkAll(rows, urls, removeAfter, canDelete).rows;
    var i :| 0 <= i < |rows| && rows[i].read;
    assert r[i].read;
  }

  // ---------------------------------------------------------------------------
  // Telling the trackers

  /** `updateTrackChapterRead`'s count, written again here as the receiver
      writes it. */
  function ReceiverNewCount(lastChapterRead: int, oldChapterRead: int, newChapterRead: int): (r: int)
    // only a tracker on another scale (both counts past 15) gets other than
    // the local number, and never a negative count
    ensures r != newChapterRead ==> r >= 0 && lastChapterRead > 15 && oldChapterRead > 15
  {
    var gap := if lastChapterRead - oldChapterRead >= 0 then lastChapterRead - oldChapterRead
               else -(lastChapterRead - oldChapterRead);
    var custom := gap > 15 && oldChapterRead > 15 && lastChapterRead > 15;
    if custom then
      (if lastChapterRead + (newChapterRead - oldChapterRead) < 0 then 0
       else lastChapterRead + (newChapterRead - oldChapterRead))
    else newChapterRead
  }

  /** The receiver's count is the one the chapter utilities send. */
  lemma ReceiverNewCountAgrees(lastChapterRead: int, oldChapterRead: int, newChapterRead: int)
    ensures ReceiverNewCount(lastChapterRead, oldChapterRead, newChapterRead)
         == ChapterTrackSync.NewCount(lastChapterRead, oldChapterRead, newChapterRead)
    ensures ChapterTrackSync.ShouldCustomCount(lastChapterRead, oldChapterRead) ==>
            ReceiverNewCount(lastChapterRead, oldChapterRead, newChapterRead) >= 0
  {
  }

  /** The prefix of a queued tracking entry, `"mangaId:syncId:"`. */
  function TrackingPrefix(mangaId: int, syncId: int): string
  {
    IntToString(mangaId) + ":" + IntToString(syncId) + ":"
  }

  function TrackingEntry(mangaId: int, syncId: int, count: int): (e: string)
    ensures StartsWith(e, TrackingPrefix(mangaId, syncId))
  {
    var p := TrackingPrefix(mangaId, syncId);
    assert (p + IntToString(count))[..|p|] == p;
    p + IntToString(count)
  }

  /** The position of the first entry starting with `p` (`find`). */
  function FindWithPrefix(t: seq<string>, p: string): (r: Option<nat>)
    ensures r.Some? ==> r.value < |t| && StartsWith(t[r.value], p)
    ensures r.Some? ==> forall i :: 0 <= i < r.value ==> !StartsWith(t[i], p)
    ensures r.None? <==> forall i :: 0 <= i < |t| ==> !StartsWith(t[i], p)
  {
    if t == [] then None
    else if StartsWith(t[0], p) then Some(0)
    else
      match FindWithPrefix(t[1..], p)
      case None => None
      case Some(i) => Some(i + 1)
  }

  /** Kotlin `MutableSet.add` on an insertion-ordered set. */
  function AddToSet(t: seq<string>, e: string): (r: seq<string>)
    ensures forall x :: x in r <==> x in t || x == e
  {
    if e in t then t else t + [e]
  }

  /** `t` without its entry at `i`. */
  function RemoveAt(t: seq<string>, i: nat): (r: seq<string>)
    requires i < |t|
    ensures multiset(r) == multiset(t) - multiset{t[i]}
    ensures forall x :: x in t && x != t[i] ==> x in r
    ensures forall x :: x in r ==> x in t
  {
    var r := t[..i] + t[i + 1..];
    assert t == t[..i] + [t[i]] + t[i + 1..];
    assert multiset(r) == multiset(t) - multiset{t[i]};
    assert forall x :: x in t && x != t[i] ==> x in r by {
      forall x | x in t && x != t[i] ensures x in r {
        var j :| 0 <= j < |t| && t[j] == x;
        if j < i { assert r[j] == x; } else { assert r[j - 1] == x; }
      }
    }
    r
  }

  /** The first entry starting with `p` replaced by `e`, which goes to the
      end (removed, then added to the set); `e` added alone when no entry
      starts with `p`. */
  function ReplaceWithPrefix(t: seq<string>, p: string, e: string): (r: seq<string>)
    ensures e in r
    ensures forall x :: x in t && !StartsWith(x, p) ==> x in r
    ensures forall x :: x in r ==> x in t || x == e
    // only the first entry with the prefix is removed; any later one stays
    ensures var f := FindWithPrefix(t, p);
      forall x :: x in t && (f.None? || x != t[f.value]) ==> x in r
    // a new entry goes to the end
    ensures e !in t ==> r[|r| - 1] == e
  {
    match FindWithPrefix(t, p)
    case None => AddToSet(t, e)
    case Some(i) => AddToSet(RemoveAt(t, i), e)
  }

  /** The first entry with the prefix, held once as in a set, is gone after
      a replacement unless it is the new entry itself. */
  lemma ReplaceWithPrefixDropsFirst(t: seq<string>, p: string, e: string)
    requires var f := FindWithPrefix(t, p);
      f.Some? && t[f.value] != e && multiset(t)[t[f.value]] == 1
    ensures t[FindWithPrefix(t, p).value] !in ReplaceWithPrefix(t, p, e)
  {
    var i := FindWithPrefix(t, p).value;
    var removed := RemoveAt(t, i);
    assert multiset(removed)[t[i]] == 0;
  }

  /** At most one entry starts with `p`. */
  predicate AtMostOneWithPrefix(t: seq<string>, p: string)
  {
    forall i, j :: 0 <= i < j < |t| && StartsWith(t[i], p) ==> !StartsWith(t[j], p)
  }

  /** With at most one entry starting with `p` before, `e` is the only one
      after. */
  lemma ReplaceWithPrefixReplaces(t: seq<string>, p: string, e: string)
    requires AtMostOneWithPrefix(t, p)
    ensures forall x :: x in ReplaceWithPrefix(t, p, e) && StartsWith(x, p) ==> x == e
  {
    var r := ReplaceWithPrefix(t, p, e);
    var found := FindWithPrefix(t, p);
    var rest := if found.Some? then t[..found.value] + t[found.value + 1..] else t;
    assert r == AddToSet(rest, e);
    forall j | 0 <= j < |rest| ensures !StartsWith(rest[j], p) {
      if found.Some? {
        var i := found.value;
        if j >= i {
          assert rest[j] == t[j + 1];
          assert StartsWith(t[i], p) && i < j + 1;
        } else {
          assert rest[j] == t[j];
        }
      }
    }
    assert forall x :: x in rest ==> !StartsWith(x, p);
  }

  /** The offline queue update for one track: the first entry for this manga
      and tracker is replaced by one carrying the new count. */
  function QueueTracking(t: seq<string>, mangaId: int, syncId: int, count: int): (r: seq<string>)
    ensures TrackingEntry(mangaId, syncId, count) in r
    ensures forall x :: x in t && !StartsWith(x, TrackingPrefix(mangaId, syncId)) ==> x in r
    ensures forall x :: x in r ==> x in t || x == TrackingEntry(mangaId, syncId, count)
    // only the first entry for this manga and tracker is dropped
    ensures var f := FindWithPrefix(t, TrackingPrefix(mangaId, syncId));
      forall x :: x in t && (f.None? || x != t[f.value]) ==> x in r
  {
    ReplaceWithPrefix(t, TrackingPrefix(mangaId, syncId), TrackingEntry(mangaId, syncId, count))
  }

  /** When the queue held at most one entry for this manga and tracker, it
      afterwards holds exactly the new one. */
  lemma QueueTrackingReplaces(t: seq<string>, mangaId: int, syncId: int, count: int)
    requires AtMostOneWithPrefix(t, TrackingPrefix(mangaId, syncId))
    ensures var r := QueueTracking(t, mangaId, syncId, count);
      forall x :: x in r && StartsWith(x, TrackingPrefix(mangaId, syncId)) ==>
        x == TrackingEntry(mangaId, syncId, count)
  {
    ReplaceWithPrefixReplaces(t, TrackingPrefix(mangaId, syncId), TrackingEntry(mangaId, syncId, count));
  }

  /** A track row of the manga, as `getTracks` returns it. */
  datatype TrackRow = TrackRow(syncId: int, lastChapterRead: int)

  /** The queue after every logged-in track has been queued, in list order. */
  function QueueAll(t: seq<string>, mangaId: int, rows: seq<TrackRow>, loggedIn: int -> bool,
                    oldChapterRead: int, newChapterRead: int): (r: seq<string>)
    // every entry was queued before or is the new entry of a logged-in track
    ensures forall x :: x in r ==>
      || x in t
      || exists k :: 0 <= k < |rows| && loggedIn(rows[k].syncId) &&
           x == TrackingEntry(mangaId, rows[k].syncId,
                              ReceiverNewCount(rows[k].lastChapterRead, oldChapterRead, newChapterRead))
    // the last logged-in track's entry is always there
    ensures rows != [] && loggedIn(rows[|rows| - 1].syncId) ==>
      TrackingEntry(mangaId, rows[|rows| - 1].syncId,
                    ReceiverNewCount(rows[|rows| - 1].lastChapterRead, oldChapterRead, newChapterRead)) in r
    decreases |rows|
  {
    if rows == [] then t
    else
      var prefix := rows[..|rows| - 1];
      var last := rows[|rows| - 1];
      var before := QueueAll(t, mangaId, prefix, loggedIn, oldChapterRead, newChapterRead);
      if loggedIn(last.syncId)
      then QueueTracking(before, mangaId, last.syncId,
                         ReceiverNewCount(last.lastChapterRead, oldChapterRead, newChapterRead))
      else before
  }

  /** How many tracks are logged in. */
  function CountLoggedIn(rows: seq<TrackRow>, loggedIn: int -> bool): (n: nat)
    ensures n <= |rows|
  {
    if rows == [] then 0
    else CountLoggedIn(rows[..|rows| - 1], loggedIn) + (if loggedIn(rows[|rows| - 1].syncId) then 1 else 0)
  }

  /** The rows after the online update: every logged-in track whose service
      accepted the update (`updateOk`) takes its new count; a track whose
      `service.update` threw keeps its row. */
  function UpdatedRows(rows: seq<TrackRow>, loggedIn: int -> bool, updateOk: int -> bool,
                       oldChapterRead: int, newChapterRead: int): (r: seq<TrackRow>)
    ensures |r| == |rows|
    ensures forall i :: 0 <= i < |rows| ==>
      r[i] == (if loggedIn(rows[i].syncId) && updateOk(rows[i].syncId)
               then rows[i].(lastChapterRead := ReceiverNewCount(rows[i].lastChapterRead, oldChapterRead, newChapterRead))
               else rows[i])
  {
    seq(|rows|, i requires 0 <= i < |rows| =>
      if loggedIn(rows[i].syncId) && updateOk(rows[i].syncId)
      then rows[i].(lastChapterRead := ReceiverNewCount(rows[i].lastChapterRead, oldChapterRead, newChapterRead))
      else rows[i])
  }

  /** `chapter_number.toInt()` of a chapter, 0 for none. */
  function ChapterCount(c: Option<Chapter>): (n: int)
    // no chapter counts 0; otherwise the number truncated toward zero
    ensures c.None? ==> n == 0
    ensures c.Some? && c.value.chapterNumber >= 0.0 ==>
      0 <= n && n as real <= c.value.chapterNumber < n as real + 1.0
    ensures c.Some? && c.value.chapterNumber < 0.0 ==>
      n <= 0 && n as real - 1.0 < c.value.chapterNumber <= n as real
  {
    if c.Some? then TruncateToInt(c.value.chapterNumber) else 0
  }

  /** The database rows and preferences the action works on. */
  class MarkAsReadReceiver {
    /** The chapters of the manga in the database. */
    var chapters: seq<Chapter>
    /** The chapters handed to the download manager for deletion. */
    var deleted: seq<Chapter>
    /** The manga's tracks in the database. */
    var tracks: seq<TrackRow>
    /** The `trackingsToAddOnline` preference, in insertion order. */
    var trackingsToAddOnline: seq<string>
    /** How many times the delayed tracking job was scheduled. */
    var delayedJobs: nat
    /** The notification ids cancelled, in order. */
    var cancelled: seq<int>

    constructor(chapters: seq<Chapter>, tracks: seq<TrackRow>, trackingsToAddOnline: seq<string>)
      ensures this.chapters == chapters && this.tracks == tracks
      ensures this.trackingsToAddOnline == trackingsToAddOnline
      ensures deleted == [] && delayedJobs == 0 && cancelled == []
    {
      this.chapters := chapters;
      this.tracks := tracks;
      this.trackingsToAddOnline := trackingsToAddOnline;
      deleted := [];
      delayedJobs := 0;
      cancelled := [];
    }

    /** `markAsRead`: the urls in order, then the tracker request. */
    method MarkAsRead(urls: seq<string>, removeAfter: bool, canDelete: bool, autoUpdateTrack: bool)
      returns (request: Option<(Option<Chapter>, Option<Chapter>)>)
      modifies this`chapters, this`deleted
      ensures var out := MarkAll(old(chapters), urls, removeAfter, canDelete);
        && chapters == out.rows && deleted == old(deleted) + out.deleted
        && request == (if out.finished then TrackRequest(old(chapters), chapters, autoUpdateTrack) else None)
    {
      var before := chapters;
      ghost var d0 := deleted;
      assert urls[..0] == [];
      var k := 0;
      while k < |urls|
        invariant MarkedUpTo(before, urls, k, d0, removeAfter, canDelete)
      {
        var stop := MarkOne(before, urls, k, d0, removeAfter, canDelete);
        if stop {
          return None;
        }
        k := k + 1;
      }
      assert urls[..k] == urls;
      request := TrackRequest(before, chapters, autoUpdateTrack);
    }

    /** The state after the first `k` urls were marked without stopping,
        from the rows `before` and the deleted list `d0`. */
    ghost predicate MarkedUpTo(before: seq<Chapter>, urls: seq<string>, k: int, d0: seq<Chapter>,
                               removeAfter: bool, canDelete: bool)
      reads this`chapters, this`deleted
    {
      && 0 <= k <= |urls|
      && var done := MarkAll(before, urls[..k], removeAfter, canDelete);
         done.finished && chapters == done.rows && deleted == d0 + done.deleted
    }

    /** One pass of the loop of `markAsRead`: `stop` when the url is not
        found or its chapter cannot be deleted, and then the state is the
        outcome of the whole run. */
    method MarkOne(before: seq<Chapter>, urls: seq<string>, k: int, ghost d0: seq<Chapter>,
                   removeAfter: bool, canDelete: bool) returns (stop: bool)
      requires k < |urls| && MarkedUpTo(before, urls, k, d0, removeAfter, canDelete)
      modifies this`chapters, this`deleted
      ensures stop ==>
        var out := MarkAll(before, urls, removeAfter, canDelete);
        !out.finished && chapters == out.rows && deleted == d0 + out.deleted
      ensures !stop ==> MarkedUpTo(before, urls, k + 1, d0, removeAfter, canDelete)
    {
      MarkAllStep(before, urls, k, chapters, removeAfter, canDelete);
      var found := FindByUrl(chapters, urls[k]);
      if found.None? {
        MarkAllUnfinishedPrefix(before, urls, k + 1, removeAfter, canDelete);
        return true;
      }
      var i := found.value;
      chapters := chapters[i := chapters[i].(read := true)];
      if removeAfter {
        if !canDelete {
          MarkAllUnfinishedPrefix(before, urls, k + 1, removeAfter, canDelete);
          return true;
        }
        deleted := deleted + [chapters[i]];
      }
      return false;
    }

    /** The receiver's `updateTrackChapterRead`: nothing when automatic
        tracking is off; otherwise every logged-in track is updated online
        (its row written only when `service.update`, given by `updateOk`,
        did not throw), or queued for later with the delayed job scheduled
        when offline. */
    method UpdateTrackChapterRead(oldLast: Option<Chapter>, newLast: Option<Chapter>, mangaId: int,
                                  autoUpdateTrack: bool, online: bool, loggedIn: int -> bool,
                                  updateOk: int -> bool)
      modifies this`tracks, this`trackingsToAddOnline, this`delayedJobs
      ensures !autoUpdateTrack ==> tracks == old(tracks) && trackingsToAddOnline == old(trackingsToAddOnline)
                                   && delayedJobs == old(delayedJobs)
      ensures autoUpdateTrack ==>
        TracksUpdated(old(tracks), old(trackingsToAddOnline), old(delayedJobs), mangaId, loggedIn, updateOk,
                      ChapterCount(oldLast), ChapterCount(newLast), online)
    {
      if !autoUpdateTrack {
        return;
      }
      UpdateTracks(tracks, trackingsToAddOnline, delayedJobs, mangaId, loggedIn, updateOk,
                   ChapterCount(oldLast), ChapterCount(newLast), online);
    }

    /** The state after every track of `rows` was handled, from the queue
        `t0` and job count `jobs0`: online, each logged-in track whose update
        went through carries its new count; offline, each logged-in track is
        queued and a delayed job scheduled for it. */
    ghost predicate TracksUpdated(rows: seq<TrackRow>, t0: seq<string>, jobs0: nat, mangaId: int,
                                  loggedIn: int -> bool, updateOk: int -> bool, o: int, n: int, online: bool)
      reads this`tracks, this`trackingsToAddOnline, this`delayedJobs
    {
      && (online ==>
            tracks == UpdatedRows(rows, loggedIn, updateOk, o, n) && trackingsToAddOnline == t0 && delayedJobs == jobs0)
      && (!online ==>
            tracks == rows
            && trackingsToAddOnline == QueueAll(t0, mangaId, rows, loggedIn, o, n)
            && delayedJobs == jobs0 + CountLoggedIn(rows, loggedIn))
    }

    /** The loop over the manga's tracks. */
    method UpdateTracks(rows: seq<TrackRow>, ghost t0: seq<string>, ghost jobs0: nat, mangaId: int,
                        loggedIn: int -> bool, updateOk: int -> bool, o: int, n: int, online: bool)
      requires tracks == rows && trackingsToAddOnline == t0 && delayedJobs == jobs0
      modifies this`tracks, this`trackingsToAddOnline, this`delayedJobs
      ensures TracksUpdated(rows, t0, jobs0, mangaId, loggedIn, updateOk, o, n, online)
    {
      assert rows[..0] == [] && rows[0..] == rows;
      for i := 0 to |rows|
        invariant TrackedUpTo(rows, t0, jobs0, mangaId, loggedIn, updateOk, o, n, online, i)
      {
        UpdateTrack(rows, t0, jobs0, mangaId, loggedIn, updateOk, o, n, online, i);
      }
      assert rows[..|rows|] == rows;
      assert UpdatedRows(rows, loggedIn, updateOk, o, n)[..|rows|] + rows[|rows|..] == UpdatedRows(rows, loggedIn, updateOk, o, n);
    }

    /** The state after the first `i` tracks of `rows` were handled, from the
        queue `t0` and job count `jobs0`: online, those tracks carry their new
        counts; offline, they are queued and a job scheduled for each. */
    ghost predicate TrackedUpTo(rows: seq<TrackRow>, t0: seq<string>, jobs0: nat, mangaId: int,
                                loggedIn: int -> bool, updateOk: int -> bool, o: int, n: int, online: bool, i: int)
      reads this`tracks, this`trackingsToAddOnline, this`delayedJobs
    {
      && 0 <= i <= |rows|
      && (online ==>
            tracks == UpdatedRows(rows, loggedIn, updateOk, o, n)[..i] + rows[i..]
            && trackingsToAddOnline == t0 && delayedJobs == jobs0)
      && (!online ==>
            tracks == rows
            && trackingsToAddOnline == QueueAll(t0, mangaId, rows[..i], loggedIn, o, n)
            && delayedJobs == jobs0 + CountLoggedIn(rows[..i], loggedIn))
    }

    /** One pass of the receiver's track loop. */
    method UpdateTrack(rows: seq<TrackRow>, ghost t0: seq<string>, ghost jobs0: nat, mangaId: int,
                       loggedIn: int -> bool, updateOk: int -> bool, o: int, n: int, online: bool, i: int)
      requires i < |rows|
      requires TrackedUpTo(rows, t0, jobs0, mangaId, loggedIn, updateOk, o, n, online, i)
      modifies this`tracks, this`trackingsToAddOnline, this`delayedJobs
      ensures TrackedUpTo(rows, t0, jobs0, mangaId, loggedIn, updateOk, o, n, online, i + 1)
    {
      var track := rows[i];
      assert rows[..i + 1][..i] == rows[..i];
      assert rows[..i + 1][i] == track;
      if loggedIn(track.syncId) {
        var count := ReceiverNewCount(track.lastChapterRead, o, n);
        if !online {
          trackingsToAddOnline := QueueTracking(trackingsToAddOnline, mangaId, track.syncId, count);
          delayedJobs := delayedJobs + 1;
        } else if updateOk(track.syncId) {
          var updated := UpdatedRows(rows, loggedIn, updateOk, o, n);
          assert updated[..i + 1] + rows[i + 1..] == (updated[..i] + rows[i..])[i := track.(lastChapterRead := count)];
          tracks := tracks[i := track.(lastChapterRead := count)];
        } else {
          // `service.update` threw: the row is not written
          var updated := UpdatedRows(rows, loggedIn, updateOk, o, n);
          assert updated[..i + 1] + rows[i + 1..] == updated[..i] + rows[i..];
        }
      } else if online {
        var updated := UpdatedRows(rows, loggedIn, updateOk, o, n);
        assert updated[..i + 1] + rows[i + 1..] == updated[..i] + rows[i..];
      }
    }

    /** The mark-as-read action: dismiss the notification when an id came
        with it, stop when no urls came, else mark and, when the earliest
        read chapter moved, tell the trackers. */
    method OnMarkAsRead(notificationId: int, groupId: int, urls: Option<seq<string>>, mangaId: int,
                        active: seq<ActiveNotification>, groupsSupported: bool,
                        removeAfter: bool, canDelete: bool, autoUpdateTrack: bool,
                        online: bool, loggedIn: int -> bool,
                                  updateOk: int -> bool)
      modifies this
      ensures notificationId > -1 ==>
        cancelled == old(cancelled) + [DismissTarget(notificationId, Some(groupId), active, groupsSupported)]
      ensures notificationId <= -1 ==> cancelled == old(cancelled)
      ensures urls.None? ==> chapters == old(chapters) && deleted == old(deleted) && tracks == old(tracks)
                             && trackingsToAddOnline == old(trackingsToAddOnline) && delayedJobs == old(delayedJobs)
      ensures urls.Some? ==>
        var out := MarkAll(old(chapters), urls.value, removeAfter, canDelete);
        var request := if out.finished then TrackRequest(old(chapters), out.rows, autoUpdateTrack) else None;
        && chapters == out.rows && deleted == old(deleted) + out.deleted
        && (request.None? ==>
              tracks == old(tracks) && trackingsToAddOnline == old(trackingsToAddOnline)
              && delayedJobs == old(delayedJobs))
        && (request.Some? ==>
              TracksUpdated(old(tracks), old(trackingsToAddOnline), old(delayedJobs), mangaId, loggedIn, updateOk,
                            ChapterCount(request.value.0), ChapterCount(request.value.1), online))
    {
      if notificationId > -1 {
        cancelled := cancelled + [DismissTarget(notificationId, Some(groupId), active, groupsSupported)];
      }
      if urls.None? {
        return;
      }
      var request := MarkAsRead(urls.value, removeAfter, canDelete, autoUpdateTrack);
      if request.Some? {
        UpdateTrackChapterRead(request.value.0, request.value.1, mangaId, autoUpdateTrack, online, loggedIn, updateOk);
      }
    }
  }

  /** One step of `MarkAll` after `k` processed urls. */
  lemma MarkAllStep(rows: seq<Chapter>, urls: seq<string>, k: nat, current: seq<Chapter>,
                    removeAfter: bool, canDelete: bool)
    requires k < |urls|
    requires var done := MarkAll(rows, urls[..k], removeAfter, canDelete);
      done.finished && current == done.rows
    ensures var done := MarkAll(rows, urls[..k], removeAfter, canDelete);
      var next := MarkAll(rows, urls[..k + 1], removeAfter, canDelete);
      match FindByUrl(current, urls[k])
      case None => next == MarkOutcome(current, done.deleted, false)
      case Some(i) =>
        var marked := current[i := current[i].(read := true)];
        if removeAfter && !canDelete then next == MarkOutcome(marked, done.deleted, false)
        else next == MarkOutcome(marked, done.deleted + (if removeAfter then [marked[i]] else []), true)
  {
    MarkAllAppend(rows, urls[..k], urls[k], removeAfter, canDelete);
    assert urls[..k] + [urls[k]] == urls[..k + 1];
  }

  /** A run that stops within the first `m` urls ends as the whole run does. */
  lemma {:induction false} MarkAllUnfinishedPrefix(rows: seq<Chapter>, urls: seq<string>, m: nat,
                                                   removeAfter: bool, canDelete: bool)
    requires m <= |urls|
    requires !MarkAll(rows, urls[..m], removeAfter, canDelete).finished
    ensures MarkAll(rows, urls, removeAfter, canDelete) == MarkAll(rows, urls[..m], removeAfter, canDelete)
    decreases m
  {
    assert m > 0;
    assert urls[..m][0] == urls[0];
    match FindByUrl(rows, urls[0])
    case None =>
    case Some(i) =>
      var marked := rows[i := rows[i].(read := true)];
      if !(removeAfter && !canDelete) {
        assert urls[..m][1..] == urls[1..][..m - 1];
        MarkAllUnfinishedPrefix(marked, urls[1..], m - 1, removeAfter, canDelete);
      }
  }

  /** Processing one more url continues a finished run from its rows. */
  lemma {:induction false} MarkAllAppend(rows: seq<Chapter>, urls: seq<string>, url: string,
                                         removeAfter: bool, canDelete: bool)
    requires MarkAll(rows, urls, removeAfter, canDelete).finished
    ensures var done := MarkAll(rows, urls, removeAfter, canDelete);
      var next := MarkAll(rows, urls + [url], removeAfter, canDelete);
      var step := MarkAll(done.rows, [url], removeAfter, canDelete);
      next == MarkOutcome(step.rows, done.deleted + step.deleted, step.finished)
    decreases |urls|
  {
    if urls == [] {
      assert urls + [url] == [url];
    } else {
      assert FindByUrl(rows, urls[0]).Some? && !(removeAfter && !canDelete);
      var i := FindByUrl(rows, urls[0]).value;
      var marked := rows[i := rows[i].(read := true)];
      var pre: seq<Chapter> := if removeAfter then [marked[i]] else [];
      var done := MarkAll(rows, urls, removeAfter, canDelete);
      var rest := MarkAll(marked, urls[1..], removeAfter, canDelete);
      MarkAllUnfold(rows, urls, removeAfter, canDelete);
      assert done.rows == rest.rows && done.deleted == pre + rest.deleted && rest.finished;
      assert (urls + [url])[0] == urls[0];
      assert (urls + [url])[1..] == urls[1..] + [url];
      var next := MarkAll(rows, urls + [url], removeAfter, canDelete);
      var rest2 := MarkAll(marked, urls[1..] + [url], removeAfter, canDelete);
      MarkAllUnfold(rows, urls + [url], removeAfter, canDelete);
      assert next == MarkOutcome(rest2.rows, pre + rest2.deleted, rest2.finished);
      MarkAllAppend(marked, urls[1..], url, removeAfter, canDelete);
      var step := MarkAll(rest.rows, [url], removeAfter, canDelete);
      assert rest2 == MarkOutcome(step.rows, rest.deleted + step.deleted, step.finished);
      AppendAssoc(pre, rest.deleted, step.deleted);
    }
  }

  /** `MarkAll` on a first url that is found, when marking may go on. */
  lemma MarkAllUnfold(rows: seq<Chapter>, urls: seq<string>, removeAfter: bool, canDelete: bool)
    requires urls != [] && FindByUrl(rows, urls[0]).Some? && !(removeAfter && !canDelete)
    ensures var i := FindByUrl(rows, urls[0]).value;
      var marked := rows[i := rows[i].(read := true)];
      var rest := MarkAll(marked, urls[1..], removeAfter, canDelete);
      MarkAll(rows, urls, removeAfter, canDelete) ==
        MarkOutcome(rest.rows, (if removeAfter then [marked[i]] else []) + rest.deleted, rest.finished)
  {
  }

  lemma AppendAssoc(a: seq<Chapter>, b: seq<Chapter>, c: seq<Chapter>)
    ensures a + (b + c) == (a + b) + c
  {
  }
}
