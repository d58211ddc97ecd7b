/** `ChapterTrackSync`: bringing the local read marks and a tracker's
    "last chapter read" count into agreement, and the rule by which a new
    count is sent to every logged-in tracker. The tracker services, the
    database and the debounce job are outside the model. */
module ChapterTrackSync {
  import opened Text
  import opened Numbers
  import opened Sorting
  import opened ChapterModel

  /** A tracker entry; `lastChapterRead` is what the tracker counts as read. */
  class Track {
    const syncId: int
    var lastChapterRead: int

    constructor(syncId: int, lastChapterRead: int)
      ensures this.syncId == syncId && this.lastChapterRead == lastChapterRead
    {
      this.syncId := syncId;
      this.lastChapterRead := lastChapterRead;
    }
  }

  function ByNumber(): (r: (Chapter, Chapter) -> bool)
    ensures TotalPreorder(r)
  {
    (c1: Chapter, c2: Chapter) => c1.chapterNumber <= c2.chapterNumber
  }

  /** The chapters after marking read every one whose position is below `n`. */
  function MarkReadBelow(s: seq<Chapter>, n: int): (r: seq<Chapter>)
    ensures |r| == |s|
    ensures forall i :: 0 <= i < |s| && i < n ==> r[i] == s[i].(read := true)
    ensures forall i :: 0 <= i < |s| && i >= n ==> r[i] == s[i]
  {
    seq(|s|, i requires 0 <= i < |s| => if i < n then s[i].(read := true) else s[i])
  }

  /** No chapter is marked unread, and only read marks change. */
  lemma MarkReadBelowOnlyMarks(s: seq<Chapter>, n: int)
    ensures forall i :: 0 <= i < |s| && s[i].read ==> MarkReadBelow(s, n)[i].read
    ensures forall i :: 0 <= i < |s| ==> MarkReadBelow(s, n)[i].(read := s[i].read) == s[i]
  {
  }

  /** The count sent back: all chapters when all are read, else the position
      of the first unread one. The last branch cannot be taken. */
  function LocalLastRead(s: seq<Chapter>): (n: int)
    ensures 0 <= n <= |s|
    ensures n == |s| <==> forall i :: 0 <= i < |s| ==> s[i].read
    ensures n < |s| ==> !s[n].read && forall i :: 0 <= i < n ==> s[i].read
  {
    if forall i :: 0 <= i < |s| ==> s[i].read then |s|
    else if exists i :: 0 <= i < |s| && !s[i].read then FirstUnread(s)
    else 0
  }

  function FirstUnread(s: seq<Chapter>): (n: nat)
    requires exists i :: 0 <= i < |s| && !s[i].read
    ensures n < |s| && !s[n].read && forall i :: 0 <= i < n ==> s[i].read
  {
    if !s[0].read then 0
    else
      assert exists i :: 0 <= i < |s[1..]| && !s[1..][i].read by {
        var i :| 0 <= i < |s| && !s[i].read;
        assert i > 0 && !s[1..][i - 1].read;
      }
      1 + FirstUnread(s[1..])
  }

  /** After the sync the tracker counts at least as many chapters as before,
      up to the number of chapters there are. */
  lemma {:induction false} SyncNeverLowersCount(s: seq<Chapter>, n: int)
    ensures LocalLastRead(MarkReadBelow(s, n)) >= (if n < 0 then 0 else if n < |s| then n else |s|)
  {
  }

  /** `syncChaptersWithTrackServiceTwoWay`: the chapters in number order,
      with every one below the tracker's count marked read, and the tracker's
      count set from them. */
  method SyncChaptersWithTrackServiceTwoWay(chapters: seq<Chapter>, remoteTrack: Track)
    returns (sorted: seq<Chapter>)
    modifies remoteTrack
    ensures sorted == MarkReadBelow(SortBy(chapters, ByNumber()), old(remoteTrack.lastChapterRead))
    ensures remoteTrack.lastChapterRead == LocalLastRead(sorted)
  {
    sorted := SortBy(chapters, ByNumber());
    sorted := MarkReadLoop(sorted, remoteTrack.lastChapterRead);
    var localLastRead := FirstUnreadScan(sorted);
    remoteTrack.lastChapterRead := localLastRead;
  }

  /** The marking loop: each chapter before position `n` that is not read
      yet is marked read. */
  method MarkReadLoop(s: seq<Chapter>, n: int) returns (r: seq<Chapter>)
    ensures r == MarkReadBelow(s, n)
  {
    r := s;
    var i := 0;
    while i < |r|
      invariant 0 <= i <= |r| == |s|
      invariant forall k :: 0 <= k < i ==> r[k] == MarkReadBelow(s, n)[k]
      invariant forall k :: i <= k < |r| ==> r[k] == s[k]
    {
      if i < n && !r[i].read {
        r := r[i := r[i].(read := true)];
      }
      i := i + 1;
    }
  }

  /** The scan for the count: the first position holding an unread chapter,
      or the length when every chapter is read. */
  method FirstUnreadScan(s: seq<Chapter>) returns (n: int)
    ensures n == LocalLastRead(s)
  {
    n := 0;
    while n < |s| && s[n].read
      invariant 0 <= n <= |s|
      invariant forall k :: 0 <= k < n ==> s[k].read
    {
      n := n + 1;
    }
  }

  /** Whether the count is carried over by offset: only when the tracker, the
      old local number and their gap all exceed 15, i.e. when the tracker
      numbers chapters on another scale than the local list. */
  predicate ShouldCustomCount(lastChapterRead: int, oldChapterRead: int)
    // both counts lie past chapter 15 and more than 15 chapters apart, in either direction
    ensures ShouldCustomCount(lastChapterRead, oldChapterRead) <==>
      lastChapterRead > 15 && oldChapterRead > 15 &&
      (lastChapterRead > oldChapterRead + 15 || oldChapterRead > lastChapterRead + 15)
  {
    var gap := if lastChapterRead >= oldChapterRead then lastChapterRead - oldChapterRead
               else oldChapterRead - lastChapterRead;
    gap > 15 && oldChapterRead > 15 && lastChapterRead > 15
  }

  /** The count sent to a tracker whose current count is `lastChapterRead`
      when the local last-read number goes from `oldChapterRead` to
      `newChapterRead`. */
  function NewCount(lastChapterRead: int, oldChapterRead: int, newChapterRead: int): (n: int)
    // By offset: the tracker moves by as much as the local number did,
    // never below zero.
    ensures ShouldCustomCount(lastChapterRead, oldChapterRead) ==>
      n >= 0 && (n == 0 || n - lastChapterRead == newChapterRead - oldChapterRead)
    ensures ShouldCustomCount(lastChapterRead, oldChapterRead)
            && lastChapterRead + (newChapterRead - oldChapterRead) >= 0 ==>
      n - lastChapterRead == newChapterRead - oldChapterRead
    // Otherwise the tracker simply takes the new local number.
    ensures !ShouldCustomCount(lastChapterRead, oldChapterRead) ==> n == newChapterRead
  {
    if ShouldCustomCount(lastChapterRead, oldChapterRead) then
      var shifted := lastChapterRead + (newChapterRead - oldChapterRead);
      if shifted < 0 then 0 else shifted
    else newChapterRead
  }

  /** `updateTrackChapterRead`: every track whose service exists and is
      logged in (`loggedIn` of its sync id) gets the new count; the others
      are left alone. */
  method UpdateTrackChapterRead(tracks: seq<Track>, loggedIn: int -> bool,
                                oldChapterRead: int, newChapterRead: int)
    requires forall i, j :: 0 <= i < j < |tracks| ==> tracks[i] != tracks[j]
    modifies set t | t in tracks
    ensures forall i :: 0 <= i < |tracks| ==>
      tracks[i].lastChapterRead ==
        (if loggedIn(tracks[i].syncId)
         then NewCount(old(tracks[i].lastChapterRead), oldChapterRead, newChapterRead)
         else old(tracks[i].lastChapterRead))
  {
    var i := 0;
    while i < |tracks|
      invariant 0 <= i <= |tracks|
      invariant forall k :: 0 <= k < i ==>
        tracks[k].lastChapterRead ==
          (if loggedIn(tracks[k].syncId)
           then NewCount(old(tracks[k].lastChapterRead), oldChapterRead, newChapterRead)
           else old(tracks[k].lastChapterRead))
      invariant forall k :: i <= k < |tracks| ==> tracks[k].lastChapterRead == old(tracks[k].lastChapterRead)
    {
      var track := tracks[i];
      if loggedIn(track.syncId) {
        track.lastChapterRead := NewCount(track.lastChapterRead, oldChapterRead, newChapterRead);
      }
      i := i + 1;
    }
  }

  /** The old and new local numbers `updateTrackChapterMarkedAsRead` hands to
      the delayed update: none when the preference is off; a missing chapter
      counts as 0 and a chapter number is truncated toward zero. */
  function MarkedAsReadCounts(trackMarkedAsRead: bool, oldLast: Option<real>, newLast: Option<real>)
    : (r: Option<(int, int)>)
    ensures r.None? <==> !trackMarkedAsRead
    ensures r.Some? && oldLast.None? ==> r.value.0 == 0
    ensures r.Some? && newLast.None? ==> r.value.1 == 0
    ensures r.Some? && oldLast.Some? && oldLast.value >= 0.0 ==>
      r.value.0 as real <= oldLast.value < r.value.0 as real + 1.0
    ensures r.Some? && newLast.Some? && newLast.value >= 0.0 ==>
      r.value.1 as real <= newLast.value < r.value.1 as real + 1.0
    // a negative number, such as -1 for "unknown", rounds up toward zero
    ensures r.Some? && oldLast.Some? && oldLast.value < 0.0 ==>
      r.value.0 <= 0 && r.value.0 as real - 1.0 < oldLast.value <= r.value.0 as real
    ensures r.Some? && newLast.Some? && newLast.value < 0.0 ==>
      r.value.1 <= 0 && r.value.1 as real - 1.0 < newLast.value <= r.value.1 as real
  {
    if !trackMarkedAsRead then None
    else
      var o := if oldLast.Some? then TruncateToInt(oldLast.value) else 0;
      var n := if newLast.Some? then TruncateToInt(newLast.value) else 0;
      Some((o, n))
  }
}
