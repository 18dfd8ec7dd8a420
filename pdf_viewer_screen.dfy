/** `PDFViewerScreen`: the zoom and page state of the script embedded in the web view
    (its globals `currentScale`, `currentPage`, `lastTap` and the messages it posts) and
    the host side that turns those messages into the screen's page and zoom display.
    Scales are exact reals; page geometry comes in as parameters. */
module PdfViewerScreen {
  import opened Options

  const MIN_SCALE: real := 0.5
  const MAX_SCALE: real := 3.0
  const ZOOM_STEP: real := 0.25
  const DOUBLE_TAP_DELAY: int := 300

  /** What the script posts to the host. */
  datatype Message = PageChange(page: int, totalPages: int, zoom: real) | ZoomChange(zoom: real)

  /** `Math.max(MIN_SCALE, Math.min(MAX_SCALE, s))`. */
  function Clamp(s: real): (r: real)
    ensures MIN_SCALE <= r <= MAX_SCALE
    ensures MIN_SCALE <= s <= MAX_SCALE ==> r == s
    ensures s < MIN_SCALE ==> r == MIN_SCALE
    ensures s > MAX_SCALE ==> r == MAX_SCALE
  {
    var upper := if MAX_SCALE < s then MAX_SCALE else s;
    if MIN_SCALE > upper then MIN_SCALE else upper
  }

  /** Clamping is monotone: a larger request never gives a smaller scale. */
  lemma ClampMonotone(s: real, t: real)
    requires s <= t
    ensures Clamp(s) <= Clamp(t)
  {
  }

  /** The scale a double tap asks for: 2.0 from exactly 1.0, and 1.0 from anything else. */
  function ToggledScale(current: real): (r: real)
    ensures r == 1.0 || r == 2.0
    ensures r == 2.0 <==> current == 1.0
    ensures MIN_SCALE <= r <= MAX_SCALE
  {
    if current == 1.0 then 2.0 else 1.0
  }

  /** After the first double tap the scale alternates between 1.0 and 2.0: every
      second tap comes back to the same scale. */
  lemma ToggleAlternates(current: real)
    ensures var t := ToggledScale(current);
      ToggledScale(ToggledScale(t)) == t && ToggledScale(t) != t
  {
  }

  function Max(a: real, b: real): real
  {
    if a < b then b else a
  }

  /** `Math.abs`. */
  function Abs(x: real): (r: real)
    ensures r >= 0.0 && (r == x || r == -x)
  {
    if x < 0.0 then -x else x
  }

  /** The `handleScroll` loop: the page (counted from 1) whose centre is nearest the
      viewer's centre, the first one on a tie, and page 1 when there are no pages. */
  method ClosestPage(centers: seq<real>, viewerCenter: real) returns (page: int)
    ensures |centers| == 0 ==> page == 1
    ensures |centers| > 0 ==> 1 <= page <= |centers|
    ensures |centers| > 0 ==>
      forall j :: 0 <= j < |centers| ==> Abs(centers[page - 1] - viewerCenter) <= Abs(centers[j] - viewerCenter)
    ensures |centers| > 0 ==>
      forall j :: 0 <= j < page - 1 ==> Abs(centers[j] - viewerCenter) > Abs(centers[page - 1] - viewerCenter)
  {
    page := 1;
    // `minDistance` starts at Infinity: the first page always replaces it.
    var minDistance: Option<real> := None;
    var i := 0;
    while i < |centers|
      invariant 0 <= i <= |centers|
      invariant i == 0 <==> minDistance.None?
      invariant i == 0 ==> page == 1
      invariant i > 0 ==> 1 <= page <= i && minDistance == Some(Abs(centers[page - 1] - viewerCenter))
      invariant i > 0 ==> forall j :: 0 <= j < i ==> minDistance.value <= Abs(centers[j] - viewerCenter)
      invariant i > 0 ==> forall j :: 0 <= j < page - 1 ==> Abs(centers[j] - viewerCenter) > minDistance.value
    {
      var distance := Abs(centers[i] - viewerCenter);
      if minDistance.None? || distance < minDistance.value {
        minDistance := Some(distance);
        page := i + 1;
      }
      i := i + 1;
    }
  }

  /** The offsets a double tap scrolls to at the new scale `s`: the tapped point
      centred, each offset at least zero. */
  function DoubleTapScroll(x: real, y: real, s: real, clientWidth: real, clientHeight: real): (r: (real, real))
    ensures r.0 >= 0.0 && r.1 >= 0.0
    ensures r.0 >= x * s - clientWidth / 2.0 && r.1 >= y * s - clientHeight / 2.0
    ensures r.0 == 0.0 || r.0 == x * s - clientWidth / 2.0
    ensures r.1 == 0.0 || r.1 == y * s - clientHeight / 2.0
  {
    (Max(0.0, x * s - clientWidth / 2.0), Max(0.0, y * s - clientHeight / 2.0))
  }

  /** The script's view state. */
  class PdfViewer {
    var currentPage: int
    var totalPages: int
    var currentScale: real
    var lastTap: int
    /** The messages posted to the host, oldest first. */
    var posted: seq<Message>
    /** The last `scrollTo` offsets requested. */
    var scrolledTo: Option<(real, real)>

    /** The scale never leaves [0.5, 3.0]. */
    predicate Valid()
      reads this
    {
      MIN_SCALE <= currentScale <= MAX_SCALE
    }

    constructor ()
      ensures currentPage == 1 && totalPages == 0 && currentScale == 1.0 && lastTap == 0
      ensures posted == [] && scrolledTo == None
      ensures Valid()
    {
      currentPage := 1;
      totalPages := 0;
      currentScale := 1.0;
      lastTap := 0;
      posted := [];
      scrolledTo := None;
    }

    /** `initPDFViewer` after the document loaded: the page count is known and the page
        information is posted, once after rendering and once more after. */
    method Loaded(numPages: int)
      modifies this
      ensures totalPages == numPages
      ensures currentPage == old(currentPage) && currentScale == old(currentScale) && lastTap == old(lastTap)
      ensures scrolledTo == old(scrolledTo)
      ensures var info := PageChange(currentPage, numPages, currentScale);
        posted == old(posted) + [info, info]
    {
      totalPages := numPages;
      posted := posted + [PageChange(currentPage, totalPages, currentScale)];
      posted := posted + [PageChange(currentPage, totalPages, currentScale)];
    }

    /** `setZoomLevel`: the requested scale is clamped; only a scale different from the
        current one changes the state and posts a `zoomChange`. */
    method SetZoomLevel(requested: real)
      requires Valid()
      modifies this
      ensures Valid()
      ensures currentScale == Clamp(requested)
      ensures Clamp(requested) != old(currentScale) ==> posted == old(posted) + [ZoomChange(Clamp(requested))]
      ensures Clamp(requested) == old(currentScale) ==> posted == old(posted)
      ensures currentPage == old(currentPage) && totalPages == old(totalPages) && lastTap == old(lastTap)
      ensures scrolledTo == old(scrolledTo)
    {
      var newScale := Clamp(requested);
      if newScale != currentScale {
        currentScale := newScale;
        posted := posted + [ZoomChange(currentScale)];
      }
    }

    /** `window.zoomIn`: one step up, so at the maximum it changes nothing. */
    method ZoomIn()
      requires Valid()
      modifies this
      ensures Valid()
      ensures currentScale == Clamp(old(currentScale) + ZOOM_STEP) && currentScale >= old(currentScale)
      ensures old(currentScale) == MAX_SCALE ==> currentScale == old(currentScale) && posted == old(posted)
      ensures old(currentScale) <= MAX_SCALE - ZOOM_STEP ==> currentScale == old(currentScale) + ZOOM_STEP
      ensures old(currentScale) < MAX_SCALE ==> posted == old(posted) + [ZoomChange(currentScale)]
      ensures currentPage == old(currentPage) && totalPages == old(totalPages) && lastTap == old(lastTap)
      ensures scrolledTo == old(scrolledTo)
    {
      SetZoomLevel(currentScale + ZOOM_STEP);
    }

    /** `window.zoomOut`: one step down, so at the minimum it changes nothing. */
    method ZoomOut()
      requires Valid()
      modifies this
      ensures Valid()
      ensures currentScale == Clamp(old(currentScale) - ZOOM_STEP) && currentScale <= old(currentScale)
      ensures old(currentScale) == MIN_SCALE ==> currentScale == old(currentScale) && posted == old(posted)
      ensures old(currentScale) >= MIN_SCALE + ZOOM_STEP ==> currentScale == old(currentScale) - ZOOM_STEP
      ensures old(currentScale) > MIN_SCALE ==> posted == old(posted) + [ZoomChange(currentScale)]
      ensures currentPage == old(currentPage) && totalPages == old(totalPages) && lastTap == old(lastTap)
      ensures scrolledTo == old(scrolledTo)
    {
      SetZoomLevel(currentScale - ZOOM_STEP);
    }

    /** `handleDoubleTap`: the scale toggles between 1.0 and 2.0, which always posts a
        `zoomChange`, and the view scrolls to centre the tapped point, never to a
        negative offset. */
    method HandleDoubleTap(x: real, y: real, clientWidth: real, clientHeight: real)
      requires Valid()
      modifies this
      ensures Valid()
      ensures currentScale == ToggledScale(old(currentScale))
      ensures posted == old(posted) + [ZoomChange(currentScale)]
      ensures scrolledTo == Some(DoubleTapScroll(x, y, currentScale, clientWidth, clientHeight))
      ensures currentPage == old(currentPage) && totalPages == old(totalPages) && lastTap == old(lastTap)
    {
      var newScale := ToggledScale(currentScale);
      SetZoomLevel(newScale);
      scrolledTo := Some(DoubleTapScroll(x, y, newScale, clientWidth, clientHeight));
    }

    /** The double-tap listener on `touchend`: ignored while fingers remain on the
        screen; otherwise a tap strictly between 0 and 300 ms after the previous one is
        a double tap, and the time becomes the previous tap. (The named `handleTouchEnd`
        only ends a pinch, which is not modelled.) */
    method HandleTapEnd(touchesRemaining: nat, currentTime: int, x: real, y: real,
                          clientWidth: real, clientHeight: real)
      requires Valid()
      modifies this
      ensures Valid()
      ensures touchesRemaining > 0 ==>
        currentScale == old(currentScale) && lastTap == old(lastTap) && posted == old(posted)
        && scrolledTo == old(scrolledTo)
      ensures touchesRemaining == 0 ==> lastTap == currentTime
      ensures touchesRemaining == 0 && 0 < currentTime - old(lastTap) < DOUBLE_TAP_DELAY ==>
        currentScale == ToggledScale(old(currentScale))
        && posted == old(posted) + [ZoomChange(currentScale)]
        && scrolledTo == Some(DoubleTapScroll(x, y, currentScale, clientWidth, clientHeight))
      ensures touchesRemaining == 0 && !(0 < currentTime - old(lastTap) < DOUBLE_TAP_DELAY) ==>
        currentScale == old(currentScale) && posted == old(posted) && scrolledTo == old(scrolledTo)
      ensures currentPage == old(currentPage) && totalPages == old(totalPages)
    {
      if touchesRemaining > 0 {
        return;
      }
      var tapLength := currentTime - lastTap;
      if tapLength < DOUBLE_TAP_DELAY && tapLength > 0 {
        HandleDoubleTap(x, y, clientWidth, clientHeight);
      }
      lastTap := currentTime;
    }

    /** `handleScroll`: the nearest page becomes the current page, and the page
        information is posted only when that changed it. */
    method HandleScroll(centers: seq<real>, viewerCenter: real)
      requires Valid()
      modifies this
      ensures Valid()
      ensures |centers| == 0 ==> currentPage == 1
      ensures |centers| > 0 ==> 1 <= currentPage <= |centers|
      ensures |centers| > 0 ==> forall j :: 0 <= j < |centers| ==>
        Abs(centers[currentPage - 1] - viewerCenter) <= Abs(centers[j] - viewerCenter)
      ensures |centers| > 0 ==> forall j :: 0 <= j < currentPage - 1 ==>
        Abs(centers[j] - viewerCenter) > Abs(centers[currentPage - 1] - viewerCenter)
      ensures currentPage != old(currentPage) ==>
        posted == old(posted) + [PageChange(currentPage, totalPages, currentScale)]
      ensures currentPage == old(currentPage) ==> posted == old(posted)
      ensures currentScale == old(currentScale) && totalPages == old(totalPages) && lastTap == old(lastTap)
      ensures scrolledTo == old(scrolledTo)
    {
      var closestPage := ClosestPage(centers, viewerCenter);
      if currentPage != closestPage {
        currentPage := closestPage;
        posted := posted + [PageChange(currentPage, totalPages, currentScale)];
      }
    }
  }

  /** `Math.round`: halves round up. */
  function Round(x: real): (n: int)
    ensures n as real - 0.5 <= x < n as real + 0.5
  {
    (x + 0.5).Floor
  }

  /** The percentage the host shows for a scale. */
  function ZoomPercent(zoom: real): int
  {
    Round(zoom * 100.0)
  }

  /** Every scale the script can report shows as 50 % to 300 %. */
  lemma ZoomPercentInRange(zoom: real)
    requires MIN_SCALE <= zoom <= MAX_SCALE
    ensures 50 <= ZoomPercent(zoom) <= 300
  {
    var n := ZoomPercent(zoom);
    assert n as real - 0.5 <= zoom * 100.0 < n as real + 0.5;
  }

  /** Scales reached by whole zoom steps show exactly: k steps of 0.25 are 25·k %. */
  lemma ZoomPercentOfSteps(k: int)
    ensures ZoomPercent(k as real * ZOOM_STEP) == 25 * k
  {
    assert k as real * ZOOM_STEP * 100.0 == (25 * k) as real;
  }

  /** The screen's side of the bridge. */
  class PdfViewerHost {
    var currentPage: int
    var totalPages: int
    var zoomLevel: int

    constructor ()
      ensures currentPage == 1 && totalPages == 0 && zoomLevel == 100
    {
      currentPage := 1;
      totalPages := 0;
      zoomLevel := 100;
    }

    /** `handleMessage`: a page change copies the page and the page count; a zoom change
        sets the percentage. */
    method HandleMessage(m: Message)
      modifies this
      ensures m.PageChange? ==> currentPage == m.page && totalPages == m.totalPages && zoomLevel == old(zoomLevel)
      ensures m.ZoomChange? ==>
        zoomLevel == ZoomPercent(m.zoom) && currentPage == old(currentPage) && totalPages == old(totalPages)
    {
      match m
      case PageChange(page, total, _) =>
        currentPage := page;
        totalPages := total;
      case ZoomChange(zoom) =>
        zoomLevel := Round(zoom * 100.0);
    }
  }
}
