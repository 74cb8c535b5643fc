/** The screen-capture component (src/capture.py): region and full-screen
    grabs, the scrolling capture that pages down until the content stops
    changing, and the capture handle's clean-up. */
module Capture {
  import opened Common
  import Stitcher

  /** The screen as the capture library sees it: grabbing a rectangle either
      yields an image or fails (and the failure is logged). */
  type Screen = Region -> Option<Image>

  /** `ScreenCapture`: owns the capture library's handle. */
  class ScreenCapture {
    /** Whether the library handle is still open. */
    var handleOpen: bool

    constructor ()
      ensures handleOpen
    {
      handleOpen := true;
    }

    /** `capture_region`: one grab of the rectangle; every failure comes back
        as `None`. */
    method CaptureRegion(region: Region, screen: Screen) returns (img: Option<Image>)
      ensures img == screen(region)
    {
      img := screen(region);
    }

    /** `capture_full_screen(monitor_number)`: looks the monitor up in the
        library's monitor list with Python indexing (negative numbers count
        from the end) and grabs it; a number outside the list raises and is
        reported as `None`. The monitor number defaults to 1, the
        primary monitor. */
    method CaptureFullScreen(monitors: seq<Region>, screen: Screen, monitorNumber: int := 1)
      returns (img: Option<Image>)
      ensures 0 <= monitorNumber < |monitors| ==> img == screen(monitors[monitorNumber])
      ensures monitorNumber < 0 && 0 <= |monitors| + monitorNumber ==>
                img == screen(monitors[|monitors| + monitorNumber])
      ensures (monitorNumber >= |monitors| || |monitors| + monitorNumber < 0) ==> img == None
    {
      if 0 <= monitorNumber < |monitors| {
        img := screen(monitors[monitorNumber]);
      } else if monitorNumber < 0 && 0 <= |monitors| + monitorNumber {
        img := screen(monitors[|monitors| + monitorNumber]);
      } else {
        img := None;
      }
    }

    /** `close`: releases the library handle. */
    method Close()
      modifies this
      ensures !handleOpen
    {
      handleOpen := false;
    }
  }

  /** Where the scrolling capture clicks to focus the window: up to 50 pixels
      (a quarter of the size, if smaller) inside the top-left corner. Python's
      `//` and Dafny's `/` agree for the positive divisor 4. */
  function FocusPoint(r: Region): (p: (int, int))
    ensures r.width >= 1 ==> r.x <= p.0 < r.x + r.width
    ensures r.height >= 1 ==> r.y <= p.1 < r.y + r.height
    ensures r.width >= 0 ==> p.0 <= r.x + 50
    ensures r.height >= 0 ==> p.1 <= r.y + 50
  {
    (r.x + Min(50, r.width / 4), r.y + Min(50, r.height / 4))
  }

  /** The outcome of the k-th grab of the region during one scrolling
      capture (k = 0 is the first page); between grabs the content is paged
      down, which is outside the model. */
  type Shots = nat -> Option<Image>

  /** "The new page is very similar to the previous one": the mean squared
      difference of the two images is below 10. */
  type Similar = (Image, Image) -> bool

  /** The capture loop from grab number `k` on, with `left` iterations still
      allowed by the page limit, `identical` consecutive similar pages seen so
      far and `pages` captured so far. A failed grab ends the loop; a similar
      page is appended unless it is the second similar page in a row, which
      ends the loop without being appended; a new page resets the count.
      The pages already collected stay, in front, and each iteration adds at
      most one page. */
  function Collect(shots: Shots, similar: Similar, k: nat, left: nat, identical: nat,
                   pages: seq<Image>): (r: seq<Image>)
    requires |pages| >= 1
    ensures |pages| <= |r| <= |pages| + left
    ensures r[..|pages|] == pages
    decreases left
  {
    if left == 0 then pages
    else match shots(k)
      case None => pages
      case Some(p) =>
        var next := pages + [p];
        assert next[..|pages|] == pages;
        if similar(p, pages[|pages| - 1]) then
          if identical + 1 >= 2 then pages
          else
            var r := Collect(shots, similar, k + 1, left - 1, identical + 1, next);
            assert r[..|pages|] == r[..|next|][..|pages|];
            r
        else
          var r := Collect(shots, similar, k + 1, left - 1, 0, next);
          assert r[..|pages|] == r[..|next|][..|pages|];
          r
  }

  /** Number of grabs after the first one that `range(max_pages - 1)` allows. */
  function MoreGrabs(maxPages: int): nat { Max(0, maxPages - 1) }

  /** The pages a scrolling capture collects, or `None` when the first grab
      fails. */
  function ScrollPages(shots: Shots, similar: Similar, maxPages: int): Option<seq<Image>> {
    match shots(0)
    case None => None
    case Some(first) => Some(Collect(shots, similar, 1, MoreGrabs(maxPages), 0, [first]))
  }

  /** `capture_scrolling_region`: the collected pages stitched in capture
      order. When the scrolling helpers cannot be imported, a single grab of
      the same rectangle is returned instead. */
  function ScrollingCapture(shots: Shots, similar: Similar, matcher: Stitcher.Matcher,
                            maxPages: int, importsOk: bool): Option<Image> {
    if !importsOk then shots(0)
    else match ScrollPages(shots, similar, maxPages)
      case None => None
      case Some(pages) => Stitcher.Stitched(pages, matcher)
  }

  /** The scrolling capture loop itself, with the grabs, the similarity test
      and the template matcher as oracles. */
  method CaptureScrollingRegion(shots: Shots, similar: Similar, matcher: Stitcher.Matcher,
                                maxPages: int, importsOk: bool) returns (r: Option<Image>)
    ensures r == ScrollingCapture(shots, similar, matcher, maxPages, importsOk)
  {
    if !importsOk {
      return shots(0);
    }
    var firstPage := shots(0);
    if firstPage.None? {
      return None;
    }
    var captured := [firstPage.value];
    var identicalCount := 0;
    var left := MoreGrabs(maxPages);
    ghost var spec := Collect(shots, similar, 1, left, 0, captured);
    var i := 0;
    while i < left
      invariant 0 <= i <= left
      invariant |captured| >= 1
      invariant spec == Collect(shots, similar, i + 1, left - i, identicalCount, captured)
    {
      var nextPage := shots(i + 1);
      if nextPage.None? {
        break;
      }
      if similar(nextPage.value, captured[|captured| - 1]) {
        identicalCount := identicalCount + 1;
        if identicalCount >= 2 {
          break;
        }
      } else {
        identicalCount := 0;
      }
      captured := captured + [nextPage.value];
      i := i + 1;
    }
    assert spec == captured;
    r := Stitcher.StitchImages(captured, matcher);
  }

  /** The pages of captured-so-far grabs are kept, and every page the loop adds
      is the next successful grab, in order. */
  lemma {:induction false} CollectInOrder(shots: Shots, similar: Similar, k: nat, left: nat,
                                          identical: nat, pages: seq<Image>)
    requires |pages| >= 1 && k == |pages|
    requires forall j :: 0 <= j < |pages| ==> shots(j) == Some(pages[j])
    ensures var r := Collect(shots, similar, k, left, identical, pages);
      forall j :: 0 <= j < |r| ==> shots(j) == Some(r[j])
    decreases left
  {
    if left > 0 && shots(k).Some? {
      var p := shots(k).value;
      var next := pages + [p];
      assert forall j :: 0 <= j < |next| ==> shots(j) == Some(next[j]);
      if similar(p, pages[|pages| - 1]) {
        if identical + 1 < 2 {
          CollectInOrder(shots, similar, k + 1, left - 1, identical + 1, next);
        }
      } else {
        CollectInOrder(shots, similar, k + 1, left - 1, 0, next);
      }
    }
  }

  /** No two similar pages in a row are ever both kept. */
  ghost predicate NoDoubleRepeat(similar: Similar, pages: seq<Image>) {
    forall j :: 0 <= j && j + 2 < |pages| ==>
      !(similar(pages[j + 1], pages[j]) && similar(pages[j + 2], pages[j + 1]))
  }

  /** The counter holds 1 exactly when the last kept page was similar to the
      one before it. */
  ghost predicate CounterMatches(similar: Similar, identical: nat, pages: seq<Image>)
    requires |pages| >= 1
  {
    identical == if |pages| >= 2 && similar(pages[|pages| - 1], pages[|pages| - 2]) then 1 else 0
  }

  lemma {:induction false} CollectNoDoubleRepeat(shots: Shots, similar: Similar, k: nat, left: nat,
                                                 identical: nat, pages: seq<Image>)
    requires |pages| >= 1
    requires NoDoubleRepeat(similar, pages) && CounterMatches(similar, identical, pages)
    ensures NoDoubleRepeat(similar, Collect(shots, similar, k, left, identical, pages))
    decreases left
  {
    if left > 0 && shots(k).Some? {
      var p := shots(k).value;
      var next := pages + [p];
      if similar(p, pages[|pages| - 1]) {
        if identical + 1 < 2 {
          assert NoDoubleRepeat(similar, next) by {
            forall j | 0 <= j && j + 2 < |next|
              ensures !(similar(next[j + 1], next[j]) && similar(next[j + 2], next[j + 1]))
            {
              if j + 2 < |pages| {
                assert next[j] == pages[j] && next[j + 1] == pages[j + 1] && next[j + 2] == pages[j + 2];
              }
            }
          }
          CollectNoDoubleRepeat(shots, similar, k + 1, left - 1, identical + 1, next);
        }
      } else {
        assert NoDoubleRepeat(similar, next) by {
          forall j | 0 <= j && j + 2 < |next|
            ensures !(similar(next[j + 1], next[j]) && similar(next[j + 2], next[j + 1]))
          {
            if j + 2 < |pages| {
              assert next[j] == pages[j] && next[j + 1] == pages[j + 1] && next[j + 2] == pages[j + 2];
            }
          }
        }
        CollectNoDoubleRepeat(shots, similar, k + 1, left - 1, 0, next);
      }
    }
  }

  /** The loop never stops early without a reason: when fewer pages than the
      limit allows were kept, the next grab failed, or it was the second
      similar page in a row. */
  lemma {:induction false} CollectStopReason(shots: Shots, similar: Similar, k: nat, left: nat,
                                             identical: nat, pages: seq<Image>)
    requires |pages| >= 1 && k == |pages|
    requires CounterMatches(similar, identical, pages)
    ensures var r := Collect(shots, similar, k, left, identical, pages);
      |r| < |pages| + left ==>
        |r| >= 1 &&
        (shots(|r|).None? ||
         (|r| >= 2 && similar(shots(|r|).value, r[|r| - 1]) && similar(r[|r| - 1], r[|r| - 2])))
    decreases left
  {
    if left > 0 && shots(k).Some? {
      var p := shots(k).value;
      var next := pages + [p];
      if similar(p, pages[|pages| - 1]) {
        if identical + 1 < 2 {
          CollectStopReason(shots, similar, k + 1, left - 1, identical + 1, next);
        }
      } else {
        CollectStopReason(shots, similar, k + 1, left - 1, 0, next);
      }
    }
  }

  /** A failed first grab gives `None`. */
  lemma FirstGrabFails(shots: Shots, similar: Similar, matcher: Stitcher.Matcher, maxPages: int)
    requires shots(0).None?
    ensures ScrollingCapture(shots, similar, matcher, maxPages, true) == None
  {
  }

  /** What the scrolling capture collects: at most `max_pages` pages (one page
      when `max_pages <= 1`), each the corresponding successful grab in
      capture order starting with the first, never two similar pages in a row
      after a similar one, and stopping short of the limit only on a failed
      grab or on the second consecutive similar page. */
  lemma ScrollPagesSpec(shots: Shots, similar: Similar, maxPages: int)
    requires shots(0).Some?
    ensures var pages := ScrollPages(shots, similar, maxPages).value;
      && 1 <= |pages| <= Max(1, maxPages)
      && pages[0] == shots(0).value
      && (forall j :: 0 <= j < |pages| ==> shots(j) == Some(pages[j]))
      && NoDoubleRepeat(similar, pages)
      && (|pages| < Max(1, maxPages) ==>
            shots(|pages|).None? ||
            (|pages| >= 2 && similar(shots(|pages|).value, pages[|pages| - 1])
                          && similar(pages[|pages| - 1], pages[|pages| - 2])))
  {
    var first := shots(0).value;
    var left := MoreGrabs(maxPages);
    CollectInOrder(shots, similar, 1, left, 0, [first]);
    CollectNoDoubleRepeat(shots, similar, 1, left, 0, [first]);
    CollectStopReason(shots, similar, 1, left, 0, [first]);
  }

  /** From grab `k` on, when every remaining grab succeeds and none is
      similar to the grab before it (the first to the last page kept), the
      loop uses up every iteration the limit allows. */
  lemma {:induction false} CollectFillsLimit(shots: Shots, similar: Similar, k: nat, left: nat,
                                             identical: nat, pages: seq<Image>)
    requires |pages| >= 1 && k >= 1 && shots(k - 1) == Some(pages[|pages| - 1])
    requires forall j :: k <= j < k + left ==> shots(j).Some?
    requires forall j :: k <= j < k + left ==> !similar(shots(j).value, shots(j - 1).value)
    ensures |Collect(shots, similar, k, left, identical, pages)| == |pages| + left
    decreases left
  {
    if left > 0 {
      var next := pages + [shots(k).value];
      CollectFillsLimit(shots, similar, k + 1, left - 1, 0, next);
    }
  }

  /** A scrolling capture whose every grab succeeds and differs from the one
      before it collects exactly `max_pages` pages (one when `max_pages <= 1`). */
  lemma NewContentFillsLimit(shots: Shots, similar: Similar, maxPages: int)
    requires forall j :: 0 <= j < Max(1, maxPages) ==> shots(j).Some?
    requires forall j :: 1 <= j < Max(1, maxPages) ==> !similar(shots(j).value, shots(j - 1).value)
    ensures ScrollPages(shots, similar, maxPages).Some?
    ensures |ScrollPages(shots, similar, maxPages).value| == Max(1, maxPages)
  {
    CollectFillsLimit(shots, similar, 1, MoreGrabs(maxPages), 0, [shots(0).value]);
  }
}
