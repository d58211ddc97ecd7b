/** The page holder of the paged reader: one view showing a page, or a pair
    of pages side by side. Two page statuses drive the progress
    subscriptions and the moment the image is committed; the merge/split
    decision writes the page's session flags; the zoom rules frame the image
    once it is ready. Bitmap decoding, animation sniffing and the pixel work of
    splitting and merging are oracles: an `Image` says what they would report. */
module Pager {
  import opened Text
  import opened Numbers

  // Page status codes of the page loader (`Page.QUEUE` ... `Page.ERROR`).
  const QUEUE: int := 0
  const LOAD_PAGE: int := 1
  const DOWNLOAD_IMAGE: int := 2
  const READY: int := 3
  const ERROR: int := 4

  /** The reader's page: the session flags the holder reads and writes. */
  class ReaderPage {
    var longPage: Option<bool>
    var fullPage: Option<bool>
    var isolatedPage: bool
    var firstHalf: Option<bool>
    /** Whether the loader has handed the page an image stream. */
    var hasStream: bool

    constructor(longPage: Option<bool>, fullPage: Option<bool>, firstHalf: Option<bool>, hasStream: bool)
      ensures this.longPage == longPage && this.fullPage == fullPage
      ensures !isolatedPage && this.firstHalf == firstHalf && this.hasStream == hasStream
    {
      this.longPage := longPage;
      this.fullPage := fullPage;
      isolatedPage := false;
      this.firstHalf := firstHalf;
      this.hasStream := hasStream;
    }
  }

  /** What the progress bar, the retry button and the decode-error layout show. */
  datatype View = View(barVisible: bool, barProgress: int, barCompleted: bool,
                       retryVisible: bool, decodeErrorVisible: bool)

  /** `setQueued`, `setLoading` and `setDownloading`: the bar shows, retry and
      the decode error hide. */
  function Pending(v: View): (r: View)
    ensures r.barVisible && !r.retryVisible && !r.decodeErrorVisible
    ensures r.barProgress == v.barProgress && r.barCompleted == v.barCompleted
  {
    v.(barVisible := true, retryVisible := false, decodeErrorVisible := false)
  }

  /** `setImage`'s view update: a single page completes the bar, a pair pins it at 95. */
  function ImageSet(v: View, single: bool): (r: View)
    ensures r.barVisible && !r.retryVisible && !r.decodeErrorVisible
    ensures single ==> r.barCompleted && r.barProgress == v.barProgress
    ensures !single ==> r.barProgress == 95 && r.barCompleted == v.barCompleted
  {
    var w := if single then v.(barCompleted := true) else v.(barProgress := 95);
    w.(barVisible := true, retryVisible := false, decodeErrorVisible := false)
  }

  /** `setError`: the bar hides and the retry button shows. */
  function Failed(v: View): (r: View)
    ensures !r.barVisible && r.retryVisible
    ensures r.decodeErrorVisible == v.decodeErrorVisible && r.barProgress == v.barProgress
  {
    v.(barVisible := false, retryVisible := true)
  }

  /** The bar value of a pair: the integer mean of both progresses, times
      0.95, rounded. */
  function PairedProgress(progress: int, extraProgress: int): (r: int)
    // two finished pages show 95, two unstarted ones 0, and the bar never goes negative
    ensures progress == 100 && extraProgress == 100 ==> r == 95
    ensures progress == 0 && extraProgress == 0 ==> r == 0
    ensures 0 <= progress && 0 <= extraProgress ==> r >= 0
  {
    RoundHalfUp(TruncHalf(progress + extraProgress) as real * 0.95)
  }

  /** A pair's bar never passes 95, the value `setImage` pins it at. */
  lemma PairedProgressBound(progress: int, extraProgress: int)
    requires 0 <= progress <= 100 && 0 <= extraProgress <= 100
    ensures 0 <= PairedProgress(progress, extraProgress) <= 95
  {
    var h := TruncHalf(progress + extraProgress);
    assert 0 <= h <= 100;
    assert 0.0 <= h as real * 0.95 <= 95.0;
  }

  /** More downloaded in total never shows less. */
  lemma PairedProgressMonotone(p1: int, e1: int, p2: int, e2: int)
    requires 0 <= p1 + e1 <= p2 + e2
    ensures PairedProgress(p1, e1) <= PairedProgress(p2, e2)
  {
    var h1 := TruncHalf(p1 + e1);
    var h2 := TruncHalf(p2 + e2);
    assert h1 <= h2;
    var x1 := h1 as real * 0.95;
    var x2 := h2 as real * 0.95;
    assert x1 <= x2;
    var r1 := RoundHalfUp(x1);
    var r2 := RoundHalfUp(x2);
    assert r1 as real - 0.5 <= x1 <= x2 < r2 as real + 0.5;
  }

  // ---------------------------------------------------------------------------
  // Merge / split decision

  datatype Dims = Dims(width: int, height: int)

  /** What the codec oracles report for one page image: whether it is an
      animated image, and its size if it decodes. */
  datatype Image = Image(animated: bool, decoded: Option<Dims>)

  /** A page wider than tall; a square page is not wide. */
  predicate Wide(d: Dims)
    ensures d.width == d.height ==> !Wide(d)
  {
    d.height < d.width
  }

  /** Of a page that is not square and the same page turned a quarter,
      exactly one is wide. */
  lemma WideRotated(d: Dims)
    requires d.width != d.height
    ensures Wide(d) <==> !Wide(Dims(d.height, d.width))
  {
  }

  /** The reader settings the decision reads. */
  datatype ReaderConfig = ReaderConfig(splitPages: bool, invertDoublePages: bool,
                                       rightToLeft: bool, readerTheme: int)

  /** Reading direction for splitting and merging: left-to-right unless the
      viewer is right-to-left, flipped by "invert double pages". */
  function IsLTR(cfg: ReaderConfig): (ltr: bool)
    ensures cfg.invertDoublePages ==> ltr == cfg.rightToLeft
    ensures !cfg.invertDoublePages ==> ltr == !cfg.rightToLeft
  {
    !cfg.rightToLeft != cfg.invertDoublePages
  }

  datatype Background = White | Black

  /** The filler colour between merged pages. */
  function MergeBackground(readerTheme: int): (bg: Background)
    ensures bg == Black <==> readerTheme == 1 || readerTheme < 0
  {
    if readerTheme >= 2 || readerTheme == 0 then White else Black
  }

  /** What the holder hands to the image view. `SplitHalf(right)` is the
      split bitmap, `right` being the flag passed to the splitter;
      `Merged` the two pages side by side. */
  datatype Shown =
    | Original
    | OriginalBytes
    | SplitHalf(right: bool)
    | Merged(leftToRight: bool, background: Background)

  /** The outcome of `mergeOrSplitPages`: what is shown, the page's new
      `longPage` and `fullPage`, whether `page.isolatedPage` and the extra
      page's `fullPage` are set to true, and whether `splitDoublePages` runs. */
  datatype Decision = Decision(shown: Shown, longPage: Option<bool>, fullPage: Option<bool>,
                               isolate: bool, extraFull: bool, requestSplit: bool)

  /** The decision as the code makes it, branch for branch; the second
      animated test repeats the first and so never decides anything. */
  function Decide(cfg: ReaderConfig, longPage: Option<bool>, fullPage: Option<bool>,
                  firstHalf: Option<bool>, first: Image, second: Option<Image>): (d: Decision)
    // A pair is merged exactly when it is a pair not already split or shown
    // alone, the first page is not animated, and both pages decode tall.
    ensures d.shown.Merged? <==>
      && second.Some? && !(longPage == Some(true) && cfg.splitPages)
      && fullPage != Some(true) && !first.animated
      && first.decoded.Some? && !Wide(first.decoded.value)
      && second.value.decoded.Some? && !Wide(second.value.decoded.value)
    ensures d.shown.Merged? ==> d.shown == Merged(IsLTR(cfg), MergeBackground(cfg.readerTheme))
    // The two pages are isolated together, and only on a path that shows the
    // first page's own bytes: the repeated animated test never fires.
    ensures d.isolate <==> d.extraFull
    ensures d.isolate ==> d.shown == OriginalBytes && second.Some?
    // Flags only ever turn on, and a known `longPage` is never revised.
    ensures longPage.Some? ==> d.longPage == longPage
    ensures d.fullPage != fullPage ==> d.fullPage == Some(true) && second.Some?
    ensures d.shown.SplitHalf? ==> d.longPage == Some(true) && cfg.splitPages
    // Splitting is requested exactly when a flag turns on: a page found to be
    // tall is marked not long without a new layout.
    ensures d.requestSplit <==>
      (d.longPage != longPage && d.longPage == Some(true)) || d.fullPage != fullPage || d.isolate
  {
    var ltr := IsLTR(cfg);
    if longPage == Some(true) && cfg.splitPages then
      if first.decoded.None? then Decision(OriginalBytes, longPage, fullPage, false, false, false)
      else Decision(SplitHalf((firstHalf == Some(false)) != !ltr), longPage, fullPage, false, false, false)
    else if second.None? then
      if cfg.splitPages && longPage.None? then
        match first.decoded
        case None => Decision(OriginalBytes, Some(true), fullPage, false, false, true)
        case Some(dims) =>
          if Wide(dims) then Decision(SplitHalf(!ltr), Some(true), fullPage, false, false, true)
          else Decision(OriginalBytes, Some(false), fullPage, false, false, false)
      else Decision(Original, longPage, fullPage, false, false, false)
    else if fullPage == Some(true) then Decision(Original, longPage, fullPage, false, false, false)
    else if first.animated then Decision(Original, longPage, Some(true), false, false, true)
    else if first.animated then Decision(Original, longPage, fullPage, true, true, true)
    else
      match first.decoded
      case None => Decision(OriginalBytes, longPage, Some(true), false, false, true)
      case Some(d1) =>
        if Wide(d1) then Decision(OriginalBytes, longPage, Some(true), false, false, true)
        else
          match second.value.decoded
          case None => Decision(OriginalBytes, longPage, fullPage, true, true, true)
          case Some(d2) =>
            if Wide(d2) then Decision(OriginalBytes, longPage, fullPage, true, true, true)
            else Decision(Merged(ltr, MergeBackground(cfg.readerTheme)), longPage, fullPage, false, false, false)
  }

  /** A single page of unknown shape, with splitting on, is measured once: a
      wide page becomes a long page split in reading order, a tall page is
      marked not long, an undecodable one is marked long and shown as is;
      only the pages marked long ask for a new layout. */
  lemma DecideSinglePage(cfg: ReaderConfig, fullPage: Option<bool>, firstHalf: Option<bool>, first: Image)
    requires cfg.splitPages
    ensures var d := Decide(cfg, None, fullPage, firstHalf, first, None);
      && (d.requestSplit <==> d.longPage == Some(true)) && d.fullPage == fullPage && !d.isolate
      && (first.decoded.None? ==> d.shown == OriginalBytes && d.longPage == Some(true))
      && (first.decoded.Some? && Wide(first.decoded.value) ==>
            d.shown == SplitHalf(!IsLTR(cfg)) && d.longPage == Some(true))
      && (first.decoded.Some? && !Wide(first.decoded.value) ==>
            d.shown == OriginalBytes && d.longPage == Some(false))
  {
  }

  /** A known long page keeps its flags and shows the half given by
      `firstHalf` in reading order, or its bytes when it will not decode. */
  lemma DecideKnownLongPage(cfg: ReaderConfig, fullPage: Option<bool>, firstHalf: Option<bool>,
                            first: Image, second: Option<Image>)
    requires cfg.splitPages
    ensures var d := Decide(cfg, Some(true), fullPage, firstHalf, first, second);
      && !d.requestSplit && d.longPage == Some(true) && d.fullPage == fullPage
      && (first.decoded.None? ==> d.shown == OriginalBytes)
      && (first.decoded.Some? ==> d.shown == SplitHalf((firstHalf == Some(false)) != !IsLTR(cfg)))
  {
  }

  /** In a pair not already split, a first page that is animated, wide or
      undecodable is shown alone; a second page that is wide or undecodable
      isolates the first. */
  lemma DecidePairAborts(cfg: ReaderConfig, longPage: Option<bool>, firstHalf: Option<bool>,
                         first: Image, second: Image)
    requires !(longPage == Some(true) && cfg.splitPages)
    ensures var d := Decide(cfg, longPage, None, firstHalf, first, Some(second));
      && (first.animated ==> d.shown == Original && d.fullPage == Some(true) && !d.isolate)
      && (!first.animated && (first.decoded.None? || Wide(first.decoded.value)) ==>
            d.shown == OriginalBytes && d.fullPage == Some(true) && !d.isolate)
      && (!first.animated && first.decoded.Some? && !Wide(first.decoded.value)
          && (second.decoded.None? || Wide(second.decoded.value)) ==>
            d.shown == OriginalBytes && d.fullPage == None && d.isolate && d.extraFull)
  {
  }

  /** A page already shown alone is passed through untouched. */
  lemma DecideFullPagePassesThrough(cfg: ReaderConfig, longPage: Option<bool>, firstHalf: Option<bool>,
                                    first: Image, second: Image)
    requires !(longPage == Some(true) && cfg.splitPages)
    ensures Decide(cfg, longPage, Some(true), firstHalf, first, Some(second))
         == Decision(Original, longPage, Some(true), false, false, false)
  {
  }

  /** Kotlin `getBGType`: the key under which a computed page background is
      cached; `orientation` is the configuration's orientation, absent when
      there is no configuration. */
  function BGType(readerTheme: int, nightMode: bool, orientation: Option<int>): (r: int)
    // the automatic theme keys 1 (day) or 2 (night); every other theme a multiple of ten
    ensures readerTheme == 3 ==> (r == 2 <==> nightMode) && (r == 1 <==> !nightMode)
    ensures readerTheme != 3 ==> r % 10 == 0
    ensures readerTheme != 3 && orientation.None? ==> r == 0
  {
    if readerTheme == 3 then (if nightMode then 2 else 1)
    else (if orientation.Some? then orientation.value else 0) * 10
  }

  /** For the three orientation values (undefined, portrait, landscape) the
      key tells apart the automatic theme, its night mode, and the orientation
      of the other themes. */
  lemma BGTypeDistinguishes(t1: int, n1: bool, o1: int, t2: int, n2: bool, o2: int)
    requires 0 <= o1 <= 2 && 0 <= o2 <= 2
    requires BGType(t1, n1, Some(o1)) == BGType(t2, n2, Some(o2))
    ensures t1 == 3 <==> t2 == 3
    ensures t1 == 3 ==> n1 == n2
    ensures t1 != 3 ==> o1 == o2
  {
  }

  // ---------------------------------------------------------------------------
  // Zoom framing

  datatype ZoomType = Left | Right | Center

  datatype Point = Point(x: real, y: real)

  /** The point a landscape zoom centres on: the leading edge in the
      direction of travel, or the view centre moved to the top. */
  function ZoomAnchor(zoomType: ZoomType, forward: bool, sWidth: int, center: Option<Point>): (p: Option<Point>)
    ensures p.Some? ==> p.value.y == 0.0
    ensures zoomType != Center ==> p.Some? && (p.value.x == 0.0 || p.value.x == sWidth as real)
    ensures zoomType == Center ==> (p.Some? <==> center.Some?)
  {
    match zoomType
    case Left => if forward then Some(Point(0.0, 0.0)) else Some(Point(sWidth as real, 0.0))
    case Right => if forward then Some(Point(sWidth as real, 0.0)) else Some(Point(0.0, 0.0))
    case Center => if center.Some? then Some(center.value.(y := 0.0)) else None
  }

  /** Left and Right are mirror images, and going back mirrors going forward:
      the two anchors of a direction lie on opposite edges. */
  lemma ZoomAnchorMirror(forward: bool, sWidth: int, center: Option<Point>)
    ensures ZoomAnchor(Left, forward, sWidth, center) == ZoomAnchor(Right, !forward, sWidth, center)
    ensures ZoomAnchor(Left, forward, sWidth, center).value.x
          + ZoomAnchor(Left, !forward, sWidth, center).value.x == sWidth as real
    ensures ZoomAnchor(Left, true, sWidth, center).value.x == 0.0
    ensures ZoomAnchor(Right, true, sWidth, center).value.x == sWidth as real
  {
  }

  /** The image geometry `landscapeZoom` reads. */
  datatype Geometry = Geometry(sWidth: int, sHeight: int, scale: real, minScale: real,
                               center: Option<Point>)

  datatype ZoomRequest = ZoomRequest(targetScale: real, anchor: Option<Point>)

  /** `landscapeZoom`: the animation it schedules, if any. `fitHeightScale`
      is the scale at which the image's height fills the view between the
      cutout insets, computed by the view. */
  function LandscapeZoom(forward: Option<bool>, landscapeZoomOn: bool, centerInside: bool,
                         zoomType: ZoomType, g: Geometry, fitHeightScale: real): (r: Option<ZoomRequest>)
    ensures r.Some? <==> forward.Some? && landscapeZoomOn && centerInside
                         && g.sWidth > g.sHeight && g.scale == g.minScale
    ensures r.Some? ==> r.value.targetScale <= fitHeightScale && r.value.targetScale <= 2.0 * g.minScale
    ensures r.Some? ==> r.value.targetScale == fitHeightScale || r.value.targetScale == 2.0 * g.minScale
    ensures r.Some? ==> r.value.anchor == ZoomAnchor(zoomType, forward.value, g.sWidth, g.center)
  {
    if forward.None? then None
    else if landscapeZoomOn && centerInside && g.sWidth > g.sHeight && g.scale == g.minScale then
      var doubled := g.minScale * 2.0;
      Some(ZoomRequest(if fitHeightScale <= doubled then fitHeightScale else doubled,
                       ZoomAnchor(zoomType, forward.value, g.sWidth, g.center)))
    else None
  }

  const MAX_ZOOM_SCALE: real := 5.0

  /** The zoom state of the subsampling image view. */
  class ScaleImageView {
    var scale: real
    var maxScale: real
    var doubleTapZoomScale: real
    var sWidth: int
    /** The source point at the centre of the view, if the view knows it. */
    var center: Option<Point>

    constructor(scale: real, sWidth: int, center: Option<Point>)
      ensures this.scale == scale && this.sWidth == sWidth && this.center == center
      ensures maxScale == scale && doubleTapZoomScale == scale
    {
      this.scale := scale;
      maxScale := scale;
      doubleTapZoomScale := scale;
      this.sWidth := sWidth;
      this.center := center;
    }

    /** `setupZoom`: five times the fitted scale is the most one can zoom,
        twice is a double tap, and the image is framed at its top edge on the
        side the zoom type names. */
    method SetupZoom(zoomType: ZoomType)
      modifies this
      ensures scale == old(scale) && sWidth == old(sWidth)
      ensures maxScale == scale * MAX_ZOOM_SCALE && doubleTapZoomScale == scale * 2.0
      ensures scale > 0.0 ==> scale < doubleTapZoomScale < maxScale
      ensures center == ZoomAnchor(zoomType, true, sWidth, old(center))
    {
      maxScale := scale * MAX_ZOOM_SCALE;
      doubleTapZoomScale := scale * 2.0;
      match zoomType {
        case Left => center := Some(Point(0.0, 0.0));
        case Right => center := Some(Point(sWidth as real, 0.0));
        case Center =>
          if center.Some? {
            center := Some(center.value.(y := 0.0));
          }
      }
    }
  }

  // ---------------------------------------------------------------------------
  // The holder

  function IdSet(h: Option<nat>): set<nat>
  {
    if h.Some? then {h.value} else {}
  }

  /** A handle, if any, older than `next`. */
  predicate Older(h: Option<nat>, next: nat)
  {
    h.Some? ==> h.value < next
  }

  /** Dropping an older handle after starting a new one is dropping it first. */
  lemma DropAfterStart(base: set<nat>, started: set<nat>, dropped: set<nat>)
    requires started !! dropped
    ensures base + started - dropped == base - dropped + started
  {
  }

  class PagerPageHolder {
    const page: ReaderPage
    var extraPage: ReaderPage?

    var status: int
    var extraStatus: int
    var progress: int
    var extraProgress: int

    /** Subscription handles; `live` holds those not yet unsubscribed and
        `nextId` numbers the next one. */
    var statusSub: Option<nat>
    var extraStatusSub: Option<nat>
    var progressSub: Option<nat>
    var extraProgressSub: Option<nat>
    var readHeaderSub: Option<nat>
    var live: set<nat>
    var nextId: nat

    /** Whether the coroutine scope exists; `pendingSplits` counts the
        delayed `splitDoublePages` bodies launched in it. */
    var scopeActive: bool
    var pendingSplits: nat

    var view: View
    /** How many times `setImage` has run. */
    var imageRequests: nat

    function Held(): set<nat>
      reads this`statusSub, this`extraStatusSub, this`progressSub, this`extraProgressSub, this`readHeaderSub
    {
      IdSet(statusSub) + IdSet(extraStatusSub) + IdSet(progressSub)
        + IdSet(extraProgressSub) + IdSet(readHeaderSub)
    }

    /** Every live subscription is held by a field, and every handle is older
        than the next one handed out. */
    predicate Valid()
      reads this`extraPage, this`live, this`nextId
      reads this`statusSub, this`extraStatusSub, this`progressSub, this`extraProgressSub, this`readHeaderSub
    {
      && page != extraPage
      && live <= Held()
      && Older(statusSub, nextId) && Older(extraStatusSub, nextId) && Older(progressSub, nextId)
      && Older(extraProgressSub, nextId) && Older(readHeaderSub, nextId)
    }

    /** `init`: the scope is created and the statuses are observed, each only
        when its page has a loader. */
    constructor(page: ReaderPage, extraPage: ReaderPage?, hasLoader: bool, hasExtraLoader: bool)
      requires page != extraPage
      ensures Valid()
      ensures this.page == page && this.extraPage == extraPage
      ensures status == 0 && extraStatus == 0 && progress == 0 && extraProgress == 0
      ensures statusSub == (if hasLoader then Some(0) else None)
      ensures extraStatusSub == (if hasLoader && extraPage != null && hasExtraLoader then Some(1) else None)
      ensures progressSub.None? && extraProgressSub.None? && readHeaderSub.None?
      ensures live == Held() && scopeActive && pendingSplits == 0 && imageRequests == 0
    {
      this.page := page;
      this.extraPage := extraPage;
      status := 0;
      extraStatus := 0;
      progress := 0;
      extraProgress := 0;
      statusSub := if hasLoader then Some(0) else None;
      extraStatusSub := if hasLoader && extraPage != null && hasExtraLoader then Some(1) else None;
      progressSub := None;
      extraProgressSub := None;
      readHeaderSub := None;
      nextId := 2;
      scopeActive := true;
      pendingSplits := 0;
      view := View(true, 0, false, false, false);
      imageRequests := 0;
      new;
      live := Held();
    }

    /** `unsubscribeStatus(1 or 2)`: a no-op on a handle already dropped. */
    method UnsubscribeStatus(which: int)
      requires Valid()
      modifies this`live, this`statusSub, this`extraStatusSub
      ensures Valid()
      ensures which == 1 ==> statusSub.None? && extraStatusSub == old(extraStatusSub)
                             && live == old(live) - IdSet(old(statusSub))
      ensures which != 1 ==> extraStatusSub.None? && statusSub == old(statusSub)
                             && live == old(live) - IdSet(old(extraStatusSub))
    {
      if which == 1 {
        live := live - IdSet(statusSub);
        statusSub := None;
      } else {
        live := live - IdSet(extraStatusSub);
        extraStatusSub := None;
      }
    }

    /** `unsubscribeProgress(1 or 2)`: a no-op on a handle already dropped. */
    method UnsubscribeProgress(which: int)
      requires Valid()
      modifies this`live, this`progressSub, this`extraProgressSub
      ensures Valid()
      ensures which == 1 ==> progressSub.None? && extraProgressSub == old(extraProgressSub)
                             && live == old(live) - IdSet(old(progressSub))
      ensures which != 1 ==> extraProgressSub.None? && progressSub == old(progressSub)
                             && live == old(live) - IdSet(old(extraProgressSub))
    {
      if which == 1 {
        live := live - IdSet(progressSub);
        progressSub := None;
      } else {
        live := live - IdSet(extraProgressSub);
        extraProgressSub := None;
      }
    }

    /** `unsubscribeReadImageHeader`. */
    method UnsubscribeReadImageHeader()
      requires Valid()
      modifies this`live, this`readHeaderSub
      ensures Valid()
      ensures readHeaderSub.None? && live == old(live) - IdSet(old(readHeaderSub))
    {
      live := live - IdSet(readHeaderSub);
      readHeaderSub := None;
    }

    /** `onDetachedFromWindow`: every subscription is dropped and the scope,
        with the splits pending in it, is cancelled. Nothing is left live,
        so detaching again changes nothing. */
    method OnDetachedFromWindow()
      requires Valid()
      modifies this`live, this`statusSub, this`extraStatusSub, this`progressSub, this`extraProgressSub
      modifies this`readHeaderSub, this`scopeActive, this`pendingSplits
      ensures Valid()
      ensures statusSub.None? && extraStatusSub.None? && progressSub.None?
      ensures extraProgressSub.None? && readHeaderSub.None?
      ensures live == {} && !scopeActive && pendingSplits == 0
    {
      UnsubscribeProgress(1);
      UnsubscribeStatus(1);
      UnsubscribeProgress(2);
      UnsubscribeStatus(2);
      UnsubscribeReadImageHeader();
      scopeActive := false;
      pendingSplits := 0;
    }

    /** `observeProgress`: the page's progress subscription is restarted. */
    method ObserveProgress()
      requires Valid()
      modifies this`live, this`progressSub, this`nextId
      ensures Valid()
      ensures progressSub == Some(old(nextId)) && nextId == old(nextId) + 1
      ensures live == old(live) - IdSet(old(progressSub)) + {old(nextId)}
    {
      live := live - IdSet(progressSub);
      progressSub := Some(nextId);
      live := live + {nextId};
      nextId := nextId + 1;
    }

    /** `observeProgress2`: the old extra subscription is unsubscribed; a new
        one starts only when there is an extra page (otherwise the field keeps
        the dead handle). */
    method ObserveProgress2()
      requires Valid()
      modifies this`live, this`extraProgressSub, this`nextId
      ensures Valid()
      ensures extraPage == null ==> extraProgressSub == old(extraProgressSub) && nextId == old(nextId)
                                    && live == old(live) - IdSet(old(extraProgressSub))
      ensures extraPage != null ==> extraProgressSub == Some(old(nextId)) && nextId == old(nextId) + 1
                                    && live == old(live) - IdSet(old(extraProgressSub)) + {old(nextId)}
    {
      live := live - IdSet(extraProgressSub);
      if extraPage != null {
        extraProgressSub := Some(nextId);
        live := live + {nextId};
        nextId := nextId + 1;
      }
    }

    /** A tick of the page's progress subscription. */
    method OnProgressTick(value: int)
      requires Valid() && progressSub.Some? && progressSub.value in live
      modifies this`progress, this`view
      ensures progress == value
      ensures extraPage == null ==> view == old(view).(barProgress := value)
      ensures extraPage != null ==> view == old(view).(barProgress := PairedProgress(value, extraProgress))
    {
      progress := value;
      if extraPage == null {
        view := view.(barProgress := progress);
      } else {
        view := view.(barProgress := PairedProgress(progress, extraProgress));
      }
    }

    /** A tick of the extra page's progress subscription. */
    method OnExtraProgressTick(value: int)
      requires Valid() && extraProgressSub.Some? && extraProgressSub.value in live
      modifies this`extraProgress, this`view
      ensures extraProgress == value
      ensures view == old(view).(barProgress := PairedProgress(progress, value))
    {
      extraProgress := value;
      view := view.(barProgress := PairedProgress(progress, extraProgress));
    }

    /** `setImage`: the view is updated and, when the page has a stream, the
        header-reading subscription (which runs `mergeOrSplitPages`) starts
        afresh. */
    method SetImage()
      requires Valid()
      modifies this`imageRequests, this`view, this`live, this`readHeaderSub, this`nextId
      ensures Valid()
      ensures imageRequests == old(imageRequests) + 1
      ensures view == ImageSet(old(view), extraPage == null)
      ensures page.hasStream ==> readHeaderSub == Some(old(nextId)) && nextId == old(nextId) + 1
                                 && live == old(live) - IdSet(old(readHeaderSub)) + {old(nextId)}
      ensures !page.hasStream ==> readHeaderSub.None? && nextId == old(nextId)
                                  && live == old(live) - IdSet(old(readHeaderSub))
    {
      imageRequests := imageRequests + 1;
      view := ImageSet(view, extraPage == null);
      UnsubscribeReadImageHeader();
      if page.hasStream {
        readHeaderSub := Some(nextId);
        live := live + {nextId};
        nextId := nextId + 1;
      }
    }

    /** READY: the image is committed when `commit`, then the progress
        subscription of page `which` (1 or 2) is dropped. */
    method Ready(which: int, commit: bool)
      requires Valid()
      modifies this`imageRequests, this`view, this`live, this`readHeaderSub, this`nextId
      modifies this`progressSub, this`extraProgressSub
      ensures Valid()
      ensures which == 1 ==> progressSub.None? && extraProgressSub == old(extraProgressSub)
      ensures which != 1 ==> extraProgressSub.None? && progressSub == old(progressSub)
      ensures commit ==> imageRequests == old(imageRequests) + 1 && view == ImageSet(old(view), extraPage == null)
      // Committing restarts the header-reading subscription exactly as `SetImage` does.
      ensures commit ==>
        && readHeaderSub == (if page.hasStream then Some(old(nextId)) else None)
        && nextId == old(nextId) + (if page.hasStream then 1 else 0)
        && live == old(live) - IdSet(old(readHeaderSub))
                   - IdSet(if which == 1 then old(progressSub) else old(extraProgressSub)) + IdSet(readHeaderSub)
      ensures !commit ==>
        && imageRequests == old(imageRequests) && view == old(view)
        && readHeaderSub == old(readHeaderSub) && nextId == old(nextId)
        && live == old(live) - IdSet(if which == 1 then old(progressSub) else old(extraProgressSub))
    {
      if commit {
        SetImageThenDrop(which);
      } else {
        UnsubscribeProgress(which);
      }
    }

    /** The committing READY: `setImage`, then the progress subscription of
        page `which` is dropped. */
    method SetImageThenDrop(which: int)
      requires Valid()
      modifies this`imageRequests, this`view, this`live, this`readHeaderSub, this`nextId
      modifies this`progressSub, this`extraProgressSub
      ensures Valid()
      ensures which == 1 ==> progressSub.None? && extraProgressSub == old(extraProgressSub)
      ensures which != 1 ==> extraProgressSub.None? && progressSub == old(progressSub)
      ensures imageRequests == old(imageRequests) + 1 && view == ImageSet(old(view), extraPage == null)
      ensures readHeaderSub == (if page.hasStream then Some(old(nextId)) else None)
      ensures nextId == old(nextId) + (if page.hasStream then 1 else 0)
      ensures live == old(live) - IdSet(old(readHeaderSub))
                      - IdSet(if which == 1 then old(progressSub) else old(extraProgressSub)) + IdSet(readHeaderSub)
    {
      ghost var dropped := IdSet(if which == 1 then progressSub else extraProgressSub);
      ghost var set0 := live - IdSet(readHeaderSub);
      SetImage();
      ghost var started := IdSet(readHeaderSub);
      UnsubscribeProgress(which);
      DropAfterStart(set0, started, dropped);
    }

    /** ERROR: the retry button shows and the progress subscription of page
        `which` (1 or 2) is dropped. */
    method Fail(which: int)
      requires Valid()
      modifies this`view, this`live, this`progressSub, this`extraProgressSub
      ensures Valid()
      ensures view == Failed(old(view))
      ensures which == 1 ==> progressSub.None? && extraProgressSub == old(extraProgressSub)
                             && live == old(live) - IdSet(old(progressSub))
      ensures which != 1 ==> extraProgressSub.None? && progressSub == old(progressSub)
                             && live == old(live) - IdSet(old(extraProgressSub))
    {
      view := Failed(view);
      UnsubscribeProgress(which);
    }

    /** A new status of the page (`status = it; processStatus(it)`). The
        image is committed on READY only when there is no extra page or the
        extra page is READY too; READY and ERROR drop the progress
        subscription, DOWNLOAD_IMAGE restarts it. */
    method OnStatus(s: int)
      requires Valid()
      modifies this`status, this`view, this`live, this`progressSub, this`readHeaderSub, this`nextId
      modifies this`imageRequests, this`extraProgressSub
      ensures Valid()
      ensures status == s && extraProgressSub == old(extraProgressSub)
      // A pair is committed only once both of its pages are ready.
      ensures imageRequests > old(imageRequests) ==>
                s == READY && (extraPage == null || extraStatus == READY)
      ensures s == QUEUE || s == LOAD_PAGE ==>
                view == Pending(old(view)) && progressSub == old(progressSub)
                && readHeaderSub == old(readHeaderSub) && live == old(live)
                && nextId == old(nextId) && imageRequests == old(imageRequests)
      ensures s == DOWNLOAD_IMAGE ==>
                view == Pending(old(view)) && progressSub == Some(old(nextId))
                && live == old(live) - IdSet(old(progressSub)) + {old(nextId)}
                && readHeaderSub == old(readHeaderSub) && imageRequests == old(imageRequests)
      ensures s == READY ==> (progressSub.None? &&
                (if extraStatus == READY || extraPage == null
                 then imageRequests == old(imageRequests) + 1 && view == ImageSet(old(view), extraPage == null)
                      && readHeaderSub == (if page.hasStream then Some(old(nextId)) else None)
                      && nextId == old(nextId) + (if page.hasStream then 1 else 0)
                      && live == old(live) - IdSet(old(readHeaderSub)) - IdSet(old(progressSub)) + IdSet(readHeaderSub)
                 else imageRequests == old(imageRequests) && view == old(view)
                      && readHeaderSub == old(readHeaderSub) && nextId == old(nextId)
                      && live == old(live) - IdSet(old(progressSub))))
      ensures s == ERROR ==>
                view == Failed(old(view)) && progressSub.None?
                && live == old(live) - IdSet(old(progressSub))
                && readHeaderSub == old(readHeaderSub) && imageRequests == old(imageRequests)
      ensures s !in {QUEUE, LOAD_PAGE, DOWNLOAD_IMAGE, READY, ERROR} ==>
                view == old(view) && progressSub == old(progressSub) && live == old(live)
                && readHeaderSub == old(readHeaderSub) && imageRequests == old(imageRequests)
    {
      status := s;
      if s == QUEUE || s == LOAD_PAGE {
        view := Pending(view);
      } else if s == DOWNLOAD_IMAGE {
        ObserveProgress();
        view := Pending(view);
      } else if s == READY {
        Ready(1, extraStatus == READY || extraPage == null);
      } else if s == ERROR {
        Fail(1);
      }
    }

    /** A new status of the extra page (`extraStatus = it; processStatus2(it)`).
        Its READY commits the image only when the page is READY. */
    method OnExtraStatus(s: int)
      requires Valid()
      modifies this`extraStatus, this`view, this`live, this`extraProgressSub, this`readHeaderSub, this`nextId
      modifies this`imageRequests, this`progressSub
      ensures Valid()
      ensures extraStatus == s && progressSub == old(progressSub)
      // A pair is committed only once both of its pages are ready.
      ensures imageRequests > old(imageRequests) ==> s == READY && status == READY
      ensures s == QUEUE || s == LOAD_PAGE ==>
                view == Pending(old(view)) && extraProgressSub == old(extraProgressSub)
                && readHeaderSub == old(readHeaderSub) && live == old(live)
                && nextId == old(nextId) && imageRequests == old(imageRequests)
      ensures s == DOWNLOAD_IMAGE ==>
                view == Pending(old(view)) && readHeaderSub == old(readHeaderSub)
                && imageRequests == old(imageRequests)
                && (extraPage != null ==>
                      extraProgressSub == Some(old(nextId))
                      && live == old(live) - IdSet(old(extraProgressSub)) + {old(nextId)})
                && (extraPage == null ==>
                      extraProgressSub == old(extraProgressSub)
                      && live == old(live) - IdSet(old(extraProgressSub)))
      ensures s == READY ==> (extraProgressSub.None? &&
                (if status == READY
                 then imageRequests == old(imageRequests) + 1 && view == ImageSet(old(view), extraPage == null)
                      && readHeaderSub == (if page.hasStream then Some(old(nextId)) else None)
                      && nextId == old(nextId) + (if page.hasStream then 1 else 0)
                      && live == old(live) - IdSet(old(readHeaderSub)) - IdSet(old(extraProgressSub)) + IdSet(readHeaderSub)
                 else imageRequests == old(imageRequests) && view == old(view)
                      && readHeaderSub == old(readHeaderSub) && nextId == old(nextId)
                      && live == old(live) - IdSet(old(extraProgressSub))))
      ensures s == ERROR ==>
                view == Failed(old(view)) && extraProgressSub.None?
                && live == old(live) - IdSet(old(extraProgressSub))
                && readHeaderSub == old(readHeaderSub) && imageRequests == old(imageRequests)
      ensures s !in {QUEUE, LOAD_PAGE, DOWNLOAD_IMAGE, READY, ERROR} ==>
                view == old(view) && extraProgressSub == old(extraProgressSub) && live == old(live)
                && readHeaderSub == old(readHeaderSub) && imageRequests == old(imageRequests)
    {
      extraStatus := s;
      if s == QUEUE || s == LOAD_PAGE {
        view := Pending(view);
      } else if s == DOWNLOAD_IMAGE {
        ObserveProgress2();
        view := Pending(view);
      } else if s == READY {
        Ready(2, status == READY);
      } else if s == ERROR {
        Fail(2);
      }
    }

    /** `onImageDecoded`: the bar hides. */
    method OnImageDecoded()
      modifies this`view
      ensures view == old(view).(barVisible := false)
    {
      view := view.(barVisible := false);
    }

    /** `onImageDecodeError`: the bar hides and the decode error shows. */
    method OnImageDecodeError()
      modifies this`view
      ensures view == old(view).(barVisible := false, decodeErrorVisible := true)
    {
      view := view.(barVisible := false, decodeErrorVisible := true);
    }

    /** The image view's `onImageLoaded`: a single page of unknown shape that
        turns out wide is marked long. */
    method OnImageLoaded(sWidth: int, sHeight: int)
      modifies page`longPage
      ensures old(page.longPage).Some? || extraPage != null ==> page.longPage == old(page.longPage)
      ensures old(page.longPage).None? && extraPage == null ==>
                (page.longPage == Some(true) <==> sHeight < sWidth)
                && (page.longPage.None? <==> sHeight >= sWidth)
    {
      if extraPage == null && page.longPage.None? && sHeight < sWidth {
        page.longPage := Some(true);
      }
    }

    /** `splitDoublePages`: the delayed split is launched in the scope, if
        there still is one. */
    method SplitDoublePages()
      modifies this`pendingSplits
      ensures pendingSplits == old(pendingSplits) + (if scopeActive then 1 else 0)
    {
      if scopeActive {
        pendingSplits := pendingSplits + 1;
      }
    }

    /** The body of a launched `splitDoublePages` once its delay is over: the
        viewer re-lays out the pages (not modelled) and the holder forgets its
        extra page when either page is to be shown alone. */
    method RunPendingSplit()
      requires Valid() && pendingSplits > 0
      modifies this`pendingSplits, this`extraPage
      ensures Valid()
      ensures pendingSplits == old(pendingSplits) - 1
      ensures extraPage == (if (old(extraPage) != null && old(extraPage).fullPage == Some(true))
                                || page.fullPage == Some(true)
                            then null else old(extraPage))
    {
      pendingSplits := pendingSplits - 1;
      if (extraPage != null && extraPage.fullPage == Some(true)) || page.fullPage == Some(true) {
        extraPage := null;
      }
    }

    /** `mergeOrSplitPages`, run by the header-reading subscription: applies
        `Decide` to the page flags, launches the split when it asks for one,
        and returns what is to be shown. */
    method MergeOrSplitPages(cfg: ReaderConfig, first: Image, second: Option<Image>) returns (shown: Shown)
      requires Valid()
      modifies this`pendingSplits, page`longPage, page`fullPage, page`isolatedPage, {extraPage}`fullPage
      ensures Valid()
      ensures var d := Decide(cfg, old(page.longPage), old(page.fullPage), old(page.firstHalf), first, second);
        && shown == d.shown
        && page.longPage == d.longPage && page.fullPage == d.fullPage
        && page.isolatedPage == (old(page.isolatedPage) || d.isolate)
        && (extraPage != null ==>
              extraPage.fullPage == (if d.extraFull then Some(true) else old(extraPage.fullPage))
              && extraPage.longPage == old(extraPage.longPage)
              && extraPage.isolatedPage == old(extraPage.isolatedPage))
        && pendingSplits == old(pendingSplits) + (if d.requestSplit && scopeActive then 1 else 0)
    {
      var d := Decide(cfg, page.longPage, page.fullPage, page.firstHalf, first, second);
      page.longPage := d.longPage;
      page.fullPage := d.fullPage;
      if d.isolate {
        page.isolatedPage := true;
      }
      if d.extraFull && extraPage != null {
        extraPage.fullPage := Some(true);
      }
      if d.requestSplit {
        SplitDoublePages();
      }
      shown := d.shown;
    }
  }
}
