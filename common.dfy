/** Values shared by every component of the screen translator: optional
    values, pixel buffers and screen regions. */
module Common {

  /** Python's `None`-or-value, as returned by the capture and stitching calls. */
  datatype Option<+T> = None | Some(value: T) {
    function GetOr(default: T): T {
      match this
      case Some(v) => v
      case None => default
    }
  }

  /** One BGR pixel; the intensities themselves are never inspected by the
      modelled logic, only moved around. */
  datatype Pixel = Pixel(b: int, g: int, r: int)

  /** A row of pixels, and an image as its sequence of rows from top to bottom.
      Stacking images vertically is concatenation of their row sequences. */
  type Row = seq<Pixel>
  type Image = seq<Row>

  /** A screen rectangle, in whatever pixel unit the caller uses. */
  datatype Region = Region(x: int, y: int, width: int, height: int)

  /** Python's `int()` on a number: truncation toward zero. */
  function Trunc(r: real): (n: int)
    ensures r >= 0.0 ==> 0 <= n && n as real <= r < n as real + 1.0
    ensures r < 0.0 ==> n <= 0 && n as real - 1.0 < r <= n as real
  {
    if r >= 0.0 then r.Floor else -((-r).Floor)
  }

  function Min(a: int, b: int): int { if a <= b then a else b }
  function Max(a: int, b: int): int { if a <= b then b else a }
}
