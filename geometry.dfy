/** The play field and the mapping from display coordinates to canvas coordinates.

    The canvas keeps an internal resolution of 400 x 600 whatever size the page
    lays it out at; a pointer position arrives in display (client) coordinates
    and is scaled into the canvas's own coordinates before hit-testing. */
module Geometry {

  const CanvasWidth: real := 400.0
  const CanvasHeight: real := 600.0

  datatype Point = Point(x: real, y: real)

  /** The canvas's bounding rectangle on the page, in display coordinates. */
  datatype Rect = Rect(left: real, top: real, width: real, height: real)

  /** A bounding rectangle never has a negative size. */
  predicate Bounding(rect: Rect) {
    rect.width >= 0.0 && rect.height >= 0.0
  }

  /** The canvas takes up some room on the page. On a canvas of zero width or
      height the scale factor is infinite, so every click maps to an infinite
      or NaN coordinate, which no item's box contains. */
  predicate Displayed(rect: Rect) {
    rect.width > 0.0 && rect.height > 0.0
  }

  /** The click position on the canvas's internal 400 x 600 grid. */
  function ToCanvas(clientX: real, clientY: real, rect: Rect): (p: Point)
    requires Displayed(rect)
    ensures rect.left <= clientX <= rect.left + rect.width ==> 0.0 <= p.x <= CanvasWidth
    ensures rect.top <= clientY <= rect.top + rect.height ==> 0.0 <= p.y <= CanvasHeight
  {
    var scaleX := CanvasWidth / rect.width;
    var scaleY := CanvasHeight / rect.height;
    var p := Point((clientX - rect.left) * scaleX, (clientY - rect.top) * scaleY);
    ScaledInside(clientX - rect.left, rect.width, CanvasWidth);
    ScaledInside(clientY - rect.top, rect.height, CanvasHeight);
    p
  }

  /** Where a canvas point is shown on the page: the inverse of ToCanvas. */
  function ToDisplay(p: Point, rect: Rect): (c: Point)
    requires Displayed(rect)
    ensures 0.0 <= p.x <= CanvasWidth ==> rect.left <= c.x <= rect.left + rect.width
    ensures 0.0 <= p.y <= CanvasHeight ==> rect.top <= c.y <= rect.top + rect.height
  {
    var c := Point(rect.left + p.x * (rect.width / CanvasWidth), rect.top + p.y * (rect.height / CanvasHeight));
    ScaledInside(p.x, CanvasWidth, rect.width);
    ScaledInside(p.y, CanvasHeight, rect.height);
    c
  }

  /** An offset inside [0, from] stays inside [0, to] once scaled by to / from. */
  lemma ScaledInside(d: real, from: real, to: real)
    requires from > 0.0 && to > 0.0
    ensures 0.0 <= d <= from ==> 0.0 <= d * (to / from) <= to
  {
    if 0.0 <= d <= from {
      var k := to / from;
      assert k > 0.0;
      assert d * k <= from * k;
      assert from * k == to;
    }
  }

  /** Scaling a display point into the canvas and back gives the display point again. */
  lemma CanvasRoundTrip(clientX: real, clientY: real, rect: Rect)
    requires Displayed(rect)
    ensures ToDisplay(ToCanvas(clientX, clientY, rect), rect) == Point(clientX, clientY)
  {
    var p := ToCanvas(clientX, clientY, rect);
    assert p.x * (rect.width / CanvasWidth) == clientX - rect.left;
    assert p.y * (rect.height / CanvasHeight) == clientY - rect.top;
  }

  /** Showing a canvas point on the page and scaling it back gives the canvas point again. */
  lemma DisplayRoundTrip(p: Point, rect: Rect)
    requires Displayed(rect)
    ensures var c := ToDisplay(p, rect); ToCanvas(c.x, c.y, rect) == p
  {
    var c := ToDisplay(p, rect);
    assert (c.x - rect.left) * (CanvasWidth / rect.width) == p.x;
    assert (c.y - rect.top) * (CanvasHeight / rect.height) == p.y;
  }

  /** A canvas laid out at half width: a tap 50 pixels from its left edge lands at x = 100. */
  lemma HalfWidthExample()
    ensures ToCanvas(50.0, 75.0, Rect(0.0, 0.0, 200.0, 300.0)) == Point(100.0, 150.0)
  {
  }
}
