/** The scroll-capture stitcher (src/stitcher.py): merges the pages of a
    scrolling capture, top to bottom, into one tall image by cutting away the
    band of each page that repeats the bottom of what is already stitched. */
module Stitcher {
  import opened Common

  /** What `cv2.matchTemplate` followed by `cv2.minMaxLoc` reports: either it
      raised, or the best normalised-correlation score and the row at which
      the template matched best inside the search area. */
  datatype MatchOutcome = MatcherFailed | Best(score: real, y: nat)

  /** The template matcher, applied to (search area, template). It stands for
      the grey-scale conversion and the correlation search, which are
      floating-point library code. */
  type Matcher = (Image, Image) -> MatchOutcome

  /** OpenCV's promise about the match position: a template placed at row `y`
      fits inside the search area. */
  ghost predicate MatcherSound(matcher: Matcher) {
    forall area: Image, template: Image {:trigger matcher(area, template)} ::
      matcher(area, template).Best? ==> matcher(area, template).y + |template| <= |area|
  }

  /** Score a match must exceed to be trusted. */
  const Threshold: real := 0.8

  /** Template height `search_h`: a fifth of the upper image, at least 10 rows.
      `int(h1 * 0.2)` is `h1 / 5` for every image height. */
  function SearchHeight(h1: nat): (sh: nat)
    ensures sh >= 10 && sh >= h1 / 5
    ensures sh == 10 || sh == h1 / 5
  {
    if h1 / 5 < 10 then 10 else h1 / 5
  }

  /** Where a Python slice `a[i:]` of a sequence of length `len` starts: a
      negative `i` counts from the end, and the result is clamped to the
      sequence. */
  function SliceStart(i: int, len: nat): (k: nat)
    ensures k <= len
    ensures 0 <= i <= len ==> k == i
    ensures i < 0 && 0 <= len + i ==> k == len + i
    ensures len + i < 0 ==> k == 0
  {
    if i >= 0 then Min(i, len) else Max(0, len + i)
  }

  /** The template `gray1[h1 - search_h : h1]`. */
  function Template(img1: Image): Image {
    img1[SliceStart(|img1| - SearchHeight(|img1|), |img1|)..]
  }

  /** The search area `gray2[0 : int(h2 * 0.5)]`, the top half of `img2`. */
  function SearchArea(img2: Image): Image {
    img2[..|img2| / 2]
  }

  /** `_stitch_two(img1, img2)`: `img1` above `img2`, with the rows of `img2` up
      to the end of the match (`match_y + search_h`) dropped when the matcher
      reports a score above the threshold; otherwise, or when it raises, the
      two images stacked whole. `img2[cut:]` is empty once `cut` passes the
      end of `img2`. */
  function StitchTwo(img1: Image, img2: Image, matcher: Matcher): (r: Image)
    ensures |img1| <= |r| <= |img1| + |img2|
    ensures r[..|img1|] == img1
    ensures r[|img1|..] == img2[|img1| + |img2| - |r|..]
  {
    match matcher(SearchArea(img2), Template(img1))
    case MatcherFailed => img1 + img2
    case Best(score, y) =>
      if score > Threshold then img1 + img2[Min(y + SearchHeight(|img1|), |img2|)..]
      else img1 + img2
  }

  /** The template is the bottom `max(h1 / 5, 10)` rows of `img1` whenever `img1`
      has at least 10 rows. */
  lemma TemplateIsBottomBand(img1: Image)
    requires |img1| >= 10
    ensures |Template(img1)| == SearchHeight(|img1|) == Max(|img1| / 5, 10)
    ensures Template(img1) == img1[|img1| - SearchHeight(|img1|)..]
  {
  }

  /** Below 10 rows the negative slice start wraps around: the template is the
      whole image up to 5 rows, and the last `10 - h1` rows from 5 to 9 rows;
      either way it is shorter than the 10 rows `search_h` accounts for. */
  lemma ShortTemplate(img1: Image)
    requires |img1| < 10
    ensures |img1| <= 5 ==> Template(img1) == img1
    ensures 5 <= |img1| ==> Template(img1) == img1[2 * |img1| - 10..]
    ensures |Template(img1)| < SearchHeight(|img1|)
  {
  }

  /** A trusted match at row `y` cuts `img2` just after the matched band, for
      an upper image of any height: the output is `img1` followed by `img2`
      from row `y + search_h` on, or by nothing once that row passes the end
      of `img2` (Python clamps the slice). */
  lemma MatchedStitch(img1: Image, img2: Image, matcher: Matcher)
    requires matcher(SearchArea(img2), Template(img1)).Best?
    requires matcher(SearchArea(img2), Template(img1)).score > Threshold
    ensures var y := matcher(SearchArea(img2), Template(img1)).y;
      var cut := Min(y + SearchHeight(|img1|), |img2|);
      && StitchTwo(img1, img2, matcher) == img1 + img2[cut..]
      && |StitchTwo(img1, img2, matcher)| == |img1| + |img2| - cut
  {
  }

  /** For an upper image of 10 rows or more, a sound matcher's trusted match
      ends inside the search window, so the cut `y + search_h` needs no
      clamping and lies in the top half of `img2`. */
  lemma MatchedCutInWindow(img1: Image, img2: Image, matcher: Matcher)
    requires MatcherSound(matcher)
    requires |img1| >= 10
    requires matcher(SearchArea(img2), Template(img1)).Best?
    requires matcher(SearchArea(img2), Template(img1)).score > Threshold
    ensures var y := matcher(SearchArea(img2), Template(img1)).y;
      var cut := y + SearchHeight(|img1|);
      && cut <= |img2| / 2
      && StitchTwo(img1, img2, matcher) == img1 + img2[cut..]
      && |StitchTwo(img1, img2, matcher)| == |img1| + |img2| - cut
  {
    TemplateIsBottomBand(img1);
    var area, template := SearchArea(img2), Template(img1);
    assert matcher(area, template).y + |template| <= |area|;
  }

  /** For an upper image of 10 rows or more and a matcher whose match lies
      inside the search area, the cut never goes past the search window, so a
      trusted match keeps at least the bottom half of `img2`. */
  lemma MatchedKeepsLowerHalf(img1: Image, img2: Image, matcher: Matcher)
    requires MatcherSound(matcher)
    requires |img1| >= 10
    ensures |StitchTwo(img1, img2, matcher)| >= |img1| + |img2| - |img2| / 2
  {
    var m := matcher(SearchArea(img2), Template(img1));
    if m.Best? && m.score > Threshold {
      MatchedCutInWindow(img1, img2, matcher);
    }
  }

  /** With a score at or below the threshold, or a matcher that raised, the
      two images are stacked unchanged. */
  lemma UnmatchedStitch(img1: Image, img2: Image, matcher: Matcher)
    requires var m := matcher(SearchArea(img2), Template(img1));
      m.MatcherFailed? || m.score <= Threshold
    ensures StitchTwo(img1, img2, matcher) == img1 + img2
    ensures |StitchTwo(img1, img2, matcher)| == |img1| + |img2|
  {
  }

  /** A matcher that reports a perfect match at a fixed row. */
  function PerfectAt(row: nat): Matcher { (area: Image, template: Image) => Best(1.0, row) }

  /** For an upper image of 7 rows the template is 3 rows long, yet the cut
      still adds 10: a trusted match at row 7 of a 20-row page (the last row
      the 3-row template can occupy in the 10-row search area) cuts at row 17,
      past both the search window and the matched band, and keeps only 3 rows
      of the page. */
  lemma ShortUpperImageOvercuts(img1: Image, img2: Image)
    requires |img1| == 7 && |img2| == 20
    ensures |Template(img1)| == 3 && |SearchArea(img2)| == 10
    ensures 7 + |Template(img1)| <= |SearchArea(img2)|
    ensures StitchTwo(img1, img2, PerfectAt(7)) == img1 + img2[17..]
    ensures |StitchTwo(img1, img2, PerfectAt(7))| < |img1| + |img2| - |img2| / 2
  {
  }

  /** The left fold of `StitchTwo` over a non-empty list of pages, in list
      order: `((p0 + p1) + p2) + ...`. */
  function FoldStitch(pages: seq<Image>, matcher: Matcher): (r: Image)
    requires |pages| >= 1
    decreases |pages|
  {
    if |pages| == 1 then pages[0]
    else StitchTwo(FoldStitch(pages[..|pages| - 1], matcher), pages[|pages| - 1], matcher)
  }

  /** `stitch_images`: `None` for no pages, otherwise the fold. */
  function Stitched(pages: seq<Image>, matcher: Matcher): Option<Image> {
    if pages == [] then None else Some(FoldStitch(pages, matcher))
  }

  /** Total number of rows of a list of pages. */
  function TotalHeight(pages: seq<Image>): nat {
    if pages == [] then 0 else TotalHeight(pages[..|pages| - 1]) + |pages[|pages| - 1]|
  }

  /** All pages stacked with nothing removed. */
  function Concat(pages: seq<Image>): (r: Image) {
    if pages == [] then [] else Concat(pages[..|pages| - 1]) + pages[|pages| - 1]
  }

  /** `stitch_images` loops over the pages, folding each into the running
      result. */
  method StitchImages(images: seq<Image>, matcher: Matcher) returns (r: Option<Image>)
    ensures r == Stitched(images, matcher)
  {
    if |images| == 0 {
      return None;
    }
    if |images| == 1 {
      return Some(images[0]);
    }
    var result := images[0];
    assert images[..1] == [images[0]];
    var i := 1;
    while i < |images|
      invariant 1 <= i <= |images|
      invariant result == FoldStitch(images[..i], matcher)
    {
      assert images[..i + 1][..i] == images[..i];
      result := StitchTwo(result, images[i], matcher);
      i := i + 1;
    }
    assert images[..i] == images;
    return Some(result);
  }

  /** No pages give `None`, one page comes back unchanged. */
  lemma StitchedSmallCases(img: Image, matcher: Matcher)
    ensures Stitched([], matcher) == None
    ensures Stitched([img], matcher) == Some(img)
  {
  }

  /** The first page is an unchanged prefix of the stitched image, and the
      result is never taller than all pages stacked. */
  lemma {:induction false} FoldKeepsFirstPage(pages: seq<Image>, matcher: Matcher)
    requires |pages| >= 1
    ensures |pages[0]| <= |FoldStitch(pages, matcher)| <= TotalHeight(pages)
    ensures FoldStitch(pages, matcher)[..|pages[0]|] == pages[0]
  {
    if |pages| > 1 {
      var init := pages[..|pages| - 1];
      FoldKeepsFirstPage(init, matcher);
      assert init[0] == pages[0];
      var acc := FoldStitch(init, matcher);
      var r := StitchTwo(acc, pages[|pages| - 1], matcher);
      assert r[..|acc|] == acc;
      assert r[..|pages[0]|] == acc[..|pages[0]|];
    }
  }

  /** When no match is ever trusted, stitching is plain vertical stacking. */
  lemma {:induction false} FoldWithoutMatches(pages: seq<Image>, matcher: Matcher)
    requires |pages| >= 1
    requires forall area: Image, template: Image {:trigger matcher(area, template)} ::
      matcher(area, template).MatcherFailed? || matcher(area, template).score <= Threshold
    ensures FoldStitch(pages, matcher) == Concat(pages)
    ensures |FoldStitch(pages, matcher)| == TotalHeight(pages)
  {
    if |pages| == 1 {
      assert pages[..0] == [];
    } else {
      var init := pages[..|pages| - 1];
      FoldWithoutMatches(init, matcher);
      UnmatchedStitch(FoldStitch(init, matcher), pages[|pages| - 1], matcher);
    }
  }
}
