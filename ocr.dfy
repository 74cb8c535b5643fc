/** The recognition wrapper (src/ocr_engine.py): reshapes the recognition
    backend's output into (polygon, text, confidence) triples, joins the texts,
    and reduces each polygon to an axis-aligned box. */
module Ocr {
  import opened Common
  import Text

  datatype Point = Point(x: real, y: real)

  /** The corner points of a detected text area, in the backend's order. */
  type Polygon = seq<Point>

  /** One entry of the backend's result list: `[box, text, score]`. */
  datatype RawItem = RawItem(box: Polygon, text: string, score: real)

  /** What one call of the recognition backend does: it raises, reports no
      result (`None`), or returns its list of entries. */
  datatype EngineOutput = EngineRaised | NoResult | Items(items: seq<RawItem>)

  /** One formatted detection `(bbox, text, confidence)`. */
  datatype Detection = Detection(bbox: Polygon, text: string, confidence: real)

  /** Axis-aligned box `(x, y, width, height)`. */
  datatype Box = Box(x: int, y: int, width: int, height: int)

  /** The detections `detect_and_recognize` reports for a backend output. */
  function Recognized(out: EngineOutput): seq<Detection> {
    match out
    case Items(items) => seq(|items|, i requires 0 <= i < |items| =>
                               Detection(items[i].box, items[i].text, items[i].score))
    case _ => []
  }

  /** `detect_and_recognize`: an exception, a `None` result or an empty list give
      no detections; otherwise one triple per entry, in the backend's order,
      carrying the entry's box, text and score. */
  method DetectAndRecognize(out: EngineOutput) returns (r: seq<Detection>)
    ensures !out.Items? ==> r == []
    ensures out.Items? ==> |r| == |out.items|
    ensures out.Items? ==> forall i :: 0 <= i < |r| ==>
      r[i].bbox == out.items[i].box && r[i].text == out.items[i].text &&
      r[i].confidence == out.items[i].score
    ensures r == Recognized(out)
  {
    if !out.Items? || |out.items| == 0 {
      return [];
    }
    var formatted: seq<Detection> := [];
    var k := 0;
    while k < |out.items|
      invariant 0 <= k <= |out.items|
      invariant |formatted| == k
      invariant forall i :: 0 <= i < k ==>
        formatted[i] == Detection(out.items[i].box, out.items[i].text, out.items[i].score)
    {
      var item := out.items[k];
      formatted := formatted + [Detection(item.box, item.text, item.score)];
      k := k + 1;
    }
    return formatted;
  }

  /** The texts of a list of detections, in order. */
  function Texts(results: seq<Detection>): (ts: seq<string>)
    ensures |ts| == |results|
    ensures forall i :: 0 <= i < |results| ==> ts[i] == results[i].text
  {
    if results == [] then [] else [results[0].text] + Texts(results[1..])
  }

  /** `get_text_only`: the recognised texts joined with newlines, or `""` when
      nothing was recognised. */
  method GetTextOnly(out: EngineOutput) returns (s: string)
    ensures Recognized(out) == [] ==> s == ""
    ensures s == Text.Join(Texts(Recognized(out)), '\n')
  {
    var results := DetectAndRecognize(out);
    if results == [] {
      return "";
    }
    s := Text.Join(Texts(results), '\n');
  }

  /** Splitting the joined text at the newlines gives back each recognised
      text in order, provided none of them holds a newline itself. */
  lemma TextOnlyRoundTrip(results: seq<Detection>)
    requires |results| >= 1
    requires forall i :: 0 <= i < |results| ==> '\n' !in results[i].text
    ensures Text.Split(Text.Join(Texts(results), '\n'), '\n') == Texts(results)
  {
    Text.SplitJoin(Texts(results), '\n');
  }

  /** `min` of a non-empty list of coordinates. */
  function SeqMin(s: seq<real>): (m: real)
    requires |s| >= 1
    ensures forall i :: 0 <= i < |s| ==> m <= s[i]
    ensures exists i :: 0 <= i < |s| && s[i] == m
  {
    if |s| == 1 then s[0]
    else
      var rest := SeqMin(s[1..]);
      assert forall i :: 1 <= i < |s| ==> s[i] == s[1..][i - 1];
      if s[0] <= rest then s[0] else rest
  }

  /** `max` of a non-empty list of coordinates. */
  function SeqMax(s: seq<real>): (m: real)
    requires |s| >= 1
    ensures forall i :: 0 <= i < |s| ==> s[i] <= m
    ensures exists i :: 0 <= i < |s| && s[i] == m
  {
    if |s| == 1 then s[0]
    else
      var rest := SeqMax(s[1..]);
      assert forall i :: 1 <= i < |s| ==> s[i] == s[1..][i - 1];
      if rest <= s[0] then s[0] else rest
  }

  function Xs(poly: Polygon): seq<real> { seq(|poly|, i requires 0 <= i < |poly| => poly[i].x) }
  function Ys(poly: Polygon): seq<real> { seq(|poly|, i requires 0 <= i < |poly| => poly[i].y) }

  /** The box of one polygon: `(int(min xs), int(min ys), int(max xs - min xs),
      int(max ys - min ys))`. Its width and height are never negative. */
  function BoxOf(poly: Polygon): (b: Box)
    requires |poly| >= 1
    ensures b.width >= 0 && b.height >= 0
  {
    var minX, minY := SeqMin(Xs(poly)), SeqMin(Ys(poly));
    Box(Trunc(minX), Trunc(minY), Trunc(SeqMax(Xs(poly)) - minX), Trunc(SeqMax(Ys(poly)) - minY))
  }

  predicate Integral(r: real) { r.Floor as real == r }

  /** For corner points with whole-number coordinates the box is the tightest
      axis-aligned box around the polygon: every corner lies inside it and
      each of its four sides touches a corner. */
  lemma BoxIsTightHull(poly: Polygon)
    requires |poly| >= 1
    requires forall i :: 0 <= i < |poly| ==> Integral(poly[i].x) && Integral(poly[i].y)
    ensures var b := BoxOf(poly);
      && (forall i :: 0 <= i < |poly| ==>
            b.x as real <= poly[i].x <= (b.x + b.width) as real &&
            b.y as real <= poly[i].y <= (b.y + b.height) as real)
      && (exists i :: 0 <= i < |poly| && poly[i].x == b.x as real)
      && (exists i :: 0 <= i < |poly| && poly[i].x == (b.x + b.width) as real)
      && (exists i :: 0 <= i < |poly| && poly[i].y == b.y as real)
      && (exists i :: 0 <= i < |poly| && poly[i].y == (b.y + b.height) as real)
  {
    var xs, ys := Xs(poly), Ys(poly);
    assert forall i :: 0 <= i < |xs| ==> xs[i] == poly[i].x && ys[i] == poly[i].y;
    var ix0, ix1 := AxisHull(xs);
    var iy0, iy1 := AxisHull(ys);
    var b := BoxOf(poly);
    assert b.x == Trunc(SeqMin(xs)) && b.width == Trunc(SeqMax(xs) - SeqMin(xs));
    assert b.y == Trunc(SeqMin(ys)) && b.height == Trunc(SeqMax(ys) - SeqMin(ys));
    assert poly[ix0].x == b.x as real && poly[ix1].x == (b.x + b.width) as real;
    assert poly[iy0].y == b.y as real && poly[iy1].y == (b.y + b.height) as real;
    forall i | 0 <= i < |poly|
      ensures b.x as real <= poly[i].x <= (b.x + b.width) as real
      ensures b.y as real <= poly[i].y <= (b.y + b.height) as real
    {
      assert xs[i] == poly[i].x && ys[i] == poly[i].y;
    }
  }

  /** Along one axis, with whole-number coordinates: truncation keeps the
      minimum and the extent exactly, and both ends are attained. */
  lemma AxisHull(s: seq<real>) returns (lo: nat, hi: nat)
    requires |s| >= 1
    requires forall i :: 0 <= i < |s| ==> Integral(s[i])
    ensures lo < |s| && hi < |s|
    ensures s[lo] == SeqMin(s) == Trunc(SeqMin(s)) as real
    ensures s[hi] == SeqMax(s) == (Trunc(SeqMin(s)) + Trunc(SeqMax(s) - SeqMin(s))) as real
  {
    var m, n := SeqMin(s), SeqMax(s);
    lo :| 0 <= lo < |s| && s[lo] == m;
    hi :| 0 <= hi < |s| && s[hi] == n;
    assert n - m == (n.Floor - m.Floor) as real;
    WholeTrunc(m);
    WholeTrunc(n - m);
  }

  /** Truncating a whole number changes nothing. */
  lemma WholeTrunc(r: real)
    requires Integral(r)
    ensures Trunc(r) as real == r
  {
    if r < 0.0 {
      assert (-r).Floor == -(r.Floor);
    }
  }

  /** Whether `min(xs)` would raise: some detection has no corner points. */
  predicate AnyEmptyPolygon(results: seq<Detection>) {
    exists i :: 0 <= i < |results| && results[i].bbox == []
  }

  /** `get_bounding_boxes`: one box per detection, in the same order; `None`
      when an empty polygon makes `min` raise, an exception this method does
      not catch. */
  method GetBoundingBoxes(out: EngineOutput) returns (r: Option<seq<Box>>)
    ensures r.None? <==> AnyEmptyPolygon(Recognized(out))
    ensures r.Some? ==> |r.value| == |Recognized(out)|
    ensures r.Some? ==> forall i :: 0 <= i < |r.value| ==>
      |Recognized(out)[i].bbox| >= 1 && r.value[i] == BoxOf(Recognized(out)[i].bbox)
  {
    var results := DetectAndRecognize(out);
    if results == [] {
      return Some([]);
    }
    var boxes: seq<Box> := [];
    var k := 0;
    while k < |results|
      invariant 0 <= k <= |results|
      invariant |boxes| == k
      invariant forall i :: 0 <= i < k ==> |results[i].bbox| >= 1 && boxes[i] == BoxOf(results[i].bbox)
    {
      var bbox := results[k].bbox;
      if bbox == [] {
        return None;
      }
      boxes := boxes + [BoxOf(bbox)];
      k := k + 1;
    }
    return Some(boxes);
  }
}
