/** Which part of the screen is captured, and which part of the capture is kept. */
module CaptureGeometry {
  import opened Wrappers
  import opened Geometry

  datatype WindowInfo = WindowInfo(title: string, x: int, y: int, width: int, height: int)

  datatype Error = InvalidCaptureRect

  const SAFARI_TOOLBAR_HEIGHT := 74
  const CHROME_TOOLBAR_HEIGHT := 88
  const FIREFOX_TOOLBAR_HEIGHT := 90

  function WindowRectangle(w: WindowInfo): Rectangle {
    Rect(w.x, w.y, w.x + w.width, w.y + w.height)
  }

  /** What is to be captured: the bounds if there are any, else the window; a full screen starts at 0. */
  function SourceRectangle(w: WindowInfo, bounds: Option<Rectangle>, screenW: int, screenH: int): Rectangle {
    if bounds.Some? then bounds.value
    else if w.width >= screenW && w.height >= screenH then Rect(0, 0, screenW, screenH)
    else WindowRectangle(w)
  }

  function Screen(screenW: int, screenH: int): Rectangle {
    Rectangle(0, 0, screenW, screenH)
  }

  predicate Meets(a: Rectangle, b: Rectangle) {
    !a.Intersect(b).Empty()
  }

  /** Two rectangles meet when some point lies in both. */
  lemma MeetsIffCommonPoint(a: Rectangle, b: Rectangle)
    ensures Meets(a, b) <==> exists x, y :: a.Contains(x, y) && b.Contains(x, y)
  {
    var r := a.Intersect(b);
    if Meets(a, b) {
      assert a.Contains(r.minX, r.minY) && b.Contains(r.minX, r.minY);
    }
    if x, y :| a.Contains(x, y) && b.Contains(x, y) {
      assert r.Contains(x, y);
    }
  }

  predicate OnScreen(x: int, y: int, screenW: int, screenH: int) {
    0 <= x < screenW && 0 <= y < screenH
  }

  /**
   Which points are captured: with bounds given, those within them that are on the screen, whatever
   the window; without, all of the screen for a window at least as large, and otherwise what of the
   window is on the screen.
   */
  lemma CapturedPoints(w: WindowInfo, bounds: Option<Rectangle>, screenW: int, screenH: int, x: int, y: int)
    requires w.width >= 0 && w.height >= 0
    ensures SourceRectangle(w, bounds, screenW, screenH).Intersect(Screen(screenW, screenH)).Contains(x, y)
       <==> && OnScreen(x, y, screenW, screenH)
            && match bounds
               case Some(b) => b.minX <= x < b.maxX && b.minY <= y < b.maxY
               case None => || (w.width >= screenW && w.height >= screenH)
                            || (w.x <= x < w.x + w.width && w.y <= y < w.y + w.height)
  {
  }

  /** The toolbar heights of the browsers. */
  const TOOLBARS := map["Safari" := 74, "Google Chrome" := 88, "Chrome" := 88, "Firefox" := 90]

  /** A window has a canvas when it is a browser's and higher than its toolbar: all of it but the toolbar. */
  lemma CanvasPoints(app: string, x: int, y: int, width: nat, height: nat, px: int, py: int)
    ensures CanvasBounds(app, x, y, width, height).Some? <==> app in TOOLBARS && height > TOOLBARS[app]
    ensures app in TOOLBARS && height > TOOLBARS[app] ==>
              (CanvasBounds(app, x, y, width, height).value.Contains(px, py)
               <==> x <= px < x + width && y + TOOLBARS[app] <= py < y + height)
  {
    assert app in TOOLBARS <==> app == "Safari" || app == "Google Chrome" || app == "Chrome" || app == "Firefox";
  }

  method ClampToScreen(r: Rectangle, screenW: int, screenH: int) returns (rect: Rectangle)
    ensures rect == Rectangle(Max(r.minX, 0), Max(r.minY, 0), Min(r.maxX, screenW), Min(r.maxY, screenH))
  {
    rect := r;
    if rect.minX < 0 {
      rect := rect.(minX := 0);
    }
    if rect.minY < 0 {
      rect := rect.(minY := 0);
    }
    if rect.maxX > screenW {
      rect := rect.(maxX := screenW);
    }
    if rect.maxY > screenH {
      rect := rect.(maxY := screenH);
    }
  }

  /**
   The rectangle to capture. There is one exactly when the source rectangle meets the screen,
   and it is their intersection.
   */
  method ComputeCaptureRect(w: WindowInfo, bounds: Option<Rectangle>, screenW: int, screenH: int)
    returns (r: Result<Rectangle, Error>)
    ensures r.Ok? <==> Meets(SourceRectangle(w, bounds, screenW, screenH), Screen(screenW, screenH))
    ensures r.Ok? ==> r.value == SourceRectangle(w, bounds, screenW, screenH).Intersect(Screen(screenW, screenH))
  {
    var rect: Rectangle;
    if bounds.Some? {
      rect := bounds.value;
    } else {
      var captureX, captureY, captureW, captureH := w.x, w.y, w.width, w.height;
      if w.width >= screenW && w.height >= screenH {
        captureX, captureY := 0, 0;
        captureW, captureH := screenW, screenH;
      }
      rect := Rect(captureX, captureY, captureX + captureW, captureY + captureH);
    }
    if rect.minX >= rect.maxX || rect.minY >= rect.maxY {
      return Err(InvalidCaptureRect);
    }
    rect := ClampToScreen(rect, screenW, screenH);
    var width := rect.maxX - rect.minX;
    var height := rect.maxY - rect.minY;
    if width <= 0 || height <= 0 {
      return Err(InvalidCaptureRect);
    }
    return Ok(rect);
  }

  function ToolbarHeight(app: string): Option<nat> {
    if app == "Safari" then Some(SAFARI_TOOLBAR_HEIGHT)
    else if app == "Google Chrome" || app == "Chrome" then Some(CHROME_TOOLBAR_HEIGHT)
    else if app == "Firefox" then Some(FIREFOX_TOOLBAR_HEIGHT)
    else None
  }

  /** The content of a browser window, below its toolbar; nothing for other programs or low windows. */
  function CanvasBounds(app: string, x: int, y: int, width: int, height: int): Option<Rectangle> {
    match ToolbarHeight(app)
    case None => None
    case Some(offset) =>
      if height - offset <= 0 then None
      else Some(Rect(x, y + offset, x + width, y + offset + (height - offset)))
  }

  /** From the screen to the image, along one axis. */
  function Scaled(position: int, start: int, scale: real): int {
    Trunc((position - start) as real * scale)
  }

  /** The canvas in the image, at a scale for each axis. */
  function CanvasInImage(w: WindowInfo, canvas: Rectangle, scaleX: real, scaleY: real): Rectangle {
    Rect(Scaled(canvas.minX, w.x, scaleX), Scaled(canvas.minY, w.y, scaleY),
         Scaled(canvas.maxX, w.x, scaleX), Scaled(canvas.maxY, w.y, scaleY))
  }

  /** The part of a window's image that shows the canvas, or all of it when that is empty. */
  function CropToCanvas(image: Rectangle, w: WindowInfo, canvas: Rectangle): Rectangle
    requires w.width != 0 && w.height != 0
  {
    var scaleX := image.Dx() as real / w.width as real;
    var scaleY := image.Dy() as real / w.height as real;
    var crop := CanvasInImage(w, canvas, scaleX, scaleY).Intersect(image);
    if crop.Empty() then image else crop
  }
}
