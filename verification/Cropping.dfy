/**
 When the crop of a browser window shows its content.

 The scale of a crop is taken from the size of the whole window, while the image shows only what
 of the window is on the screen. The theorem of this module says exactly when that does no harm.
 */
module Cropping {
  import opened Arithmetic
  import opened Wrappers
  import opened Geometry
  import opened CaptureGeometry

  /** The part of the screen that is captured for a window. */
  function Captured(w: WindowInfo, screenW: int, screenH: int): Rectangle {
    SourceRectangle(w, None, screenW, screenH).Intersect(Screen(screenW, screenH))
  }

  function Canvas(w: WindowInfo): Option<Rectangle> {
    CanvasBounds(w.title, w.x, w.y, w.width, w.height)
  }

  /** The image of a rectangle of the screen, captured with `k` pixels to a point. */
  function ImageOf(r: Rectangle, k: nat): Rectangle {
    Rectangle(0, 0, k * r.Dx(), k * r.Dy())
  }

  /** A browser window with some of its content on the screen. */
  predicate Shows(w: WindowInfo, screenW: int, screenH: int) {
    Canvas(w).Some? && Meets(Canvas(w).value, Captured(w, screenW, screenH))
  }

  /** A window with an extent of nothing is never captured, so no crop divides by one. */
  lemma CapturedWindowHasSize(w: WindowInfo, screenW: int, screenH: int)
    requires screenW > 0 && screenH > 0 && Meets(SourceRectangle(w, None, screenW, screenH), Screen(screenW, screenH))
    ensures w.width != 0 && w.height != 0
  {
  }

  /** The crop is what of the image lies in the canvas, or all of it when nothing does; it is never empty. */
  lemma CropIsPartOfImage(image: Rectangle, w: WindowInfo, canvas: Rectangle)
    requires w.width != 0 && w.height != 0 && !image.Empty()
    ensures var crop := CropToCanvas(image, w, canvas);
            !crop.Empty() && forall x, y | crop.Contains(x, y) :: image.Contains(x, y)
    ensures var inImage := CanvasInImage(w, canvas, image.Dx() as real / w.width as real,
                                         image.Dy() as real / w.height as real);
            var crop := CropToCanvas(image, w, canvas);
            if Meets(inImage, image) then
              forall x, y :: crop.Contains(x, y) <==> inImage.Contains(x, y) && image.Contains(x, y)
            else crop == image
  {
    var scaleX := image.Dx() as real / w.width as real;
    var scaleY := image.Dy() as real / w.height as real;
    var inImage := CanvasInImage(w, canvas, scaleX, scaleY);
    assert CropToCanvas(image, w, canvas) == image || CropToCanvas(image, w, canvas) == inImage.Intersect(image);
  }

  // ---------- Scaling ----------

  lemma ShowsHasSize(w: WindowInfo, screenW: int, screenH: int)
    requires Shows(w, screenW, screenH)
    ensures w.width != 0 && w.height > ToolbarHeight(w.title).value
    ensures !Captured(w, screenW, screenH).Empty()
  {
  }

  /** The crop that the code makes. */
  function Crop(w: WindowInfo, screenW: int, screenH: int, k: nat): Rectangle
    requires Shows(w, screenW, screenH)
  {
    ShowsHasSize(w, screenW, screenH);
    CropToCanvas(ImageOf(Captured(w, screenW, screenH), k), w, Canvas(w).value)
  }

  /** The pixels of the image that show content: what the crop should be. */
  function Content(w: WindowInfo, screenW: int, screenH: int, k: nat): Rectangle
    requires Shows(w, screenW, screenH)
  {
    var captured := Captured(w, screenW, screenH);
    var visible := Canvas(w).value.Intersect(captured);
    Rectangle(k * (visible.minX - captured.minX), k * (visible.minY - captured.minY),
              k * (visible.maxX - captured.minX), k * (visible.maxY - captured.minY))
  }

  lemma TimesRatio(n: int, r: int)
    requires n != 0
    ensures n as real * (r as real / n as real) == r as real
  {
  }

  /** An extent scales to the whole extent of the image. */
  lemma ScaledExtent(start: int, extent: int, pixels: int)
    requires extent != 0
    ensures Scaled(start + extent, start, pixels as real / extent as real) == pixels
    ensures Scaled(start, start, pixels as real / extent as real) == 0
  {
    TimesRatio(extent, pixels);
    TruncOfInt(pixels);
  }

  lemma RealOrder(a: real, b: real, c: real)
    requires c > 0.0
    ensures a <= b ==> a * c <= b * c
    ensures a < b ==> a * c < b * c
  {
    if a < b {
      assert (b - a) * c > 0.0;
    }
  }

  lemma RealTimesKeepsOrder(a: real, b: real, c: real)
    requires c > 0.0
    ensures a <= b <==> a * c <= b * c
  {
    RealOrder(a, b, c);
    RealOrder(b, a, c);
  }

  lemma ProductAsReal(a: int, b: int)
    ensures a as real * b as real == (a * b) as real
  {
  }

  lemma AtLeastRow(share: real, extent: nat, product: nat, row: nat)
    requires extent > 0 && share * extent as real == product as real
    ensures row as real <= share <==> row * extent <= product
  {
    RealTimesKeepsOrder(row as real, share, extent as real);
    ProductAsReal(row, extent);
  }

  lemma ShareInRow(share: real, extent: nat, product: nat, row: nat)
    requires extent > 0 && share >= 0.0 && share * extent as real == product as real
    ensures Trunc(share) == row <==> row * extent <= product < (row + 1) * extent
  {
    AtLeastRow(share, extent, product, row);
    AtLeastRow(share, extent, product, row + 1);
  }

  lemma ShareTimes(part: nat, extent: nat, pixels: nat)
    requires extent > 0
    ensures var share := part as real * (pixels as real / extent as real);
            share >= 0.0 && share * extent as real == (part * pixels) as real
  {
    var ratio := pixels as real / extent as real;
    assert ratio >= 0.0;
    assert ratio * extent as real == pixels as real;
    ProductAsReal(part, pixels);
    assert part as real * ratio * extent as real == part as real * (ratio * extent as real);
  }

  /** A part of an extent scales to a row exactly when its share of the pixels begins in that row. */
  lemma ScaledPartIs(start: int, part: nat, extent: nat, pixels: nat, row: nat)
    requires extent > 0
    ensures Scaled(start + part, start, pixels as real / extent as real) == row
       <==> row * extent <= part * pixels < (row + 1) * extent
  {
    ShareTimes(part, extent, pixels);
    ShareInRow(part as real * (pixels as real / extent as real), extent, part * pixels, row);
  }

  lemma ScaledPartAtLeast(start: int, part: nat, extent: nat, pixels: nat, row: nat)
    requires extent > 0
    ensures Scaled(start + part, start, pixels as real / extent as real) >= row
       <==> row * extent <= part * pixels
  {
    ShareTimes(part, extent, pixels);
    AtLeastRow(part as real * (pixels as real / extent as real), extent, part * pixels, row);
  }

  /** A part of an extent scales to a row of the image, short of its end. */
  lemma ScaledPartInside(start: int, part: nat, extent: nat, pixels: nat)
    requires part < extent && pixels > 0
    ensures 0 <= Scaled(start + part, start, pixels as real / extent as real) < pixels
  {
    ShareTimes(part, extent, pixels);
    var row := Scaled(start + part, start, pixels as real / extent as real);
    assert row >= 0;
    ScaledPartIs(start, part, extent, pixels, row);
    TimesKeepsOrder(part, extent, pixels);
    TimesKeepsOrder(pixels, row, extent);
  }

  // ---------- The crop ----------

  /** The first row of the crop. */
  function TopRow(w: WindowInfo, screenW: int, screenH: int, k: nat): int
    requires Shows(w, screenW, screenH)
  {
    ShowsHasSize(w, screenW, screenH);
    Scaled(w.y + ToolbarHeight(w.title).value, w.y,
           ImageOf(Captured(w, screenW, screenH), k).Dy() as real / w.height as real)
  }

  lemma InnerIntersects(top: int, right: int, bottom: int)
    requires right > 0 && 0 <= top < bottom
    ensures var r := Rectangle(0, top, right, bottom); r.Intersect(Rectangle(0, 0, right, bottom)) == r
  {
  }

  lemma CanvasScales(w: WindowInfo, toolbar: nat, image: Rectangle)
    requires w.width != 0 && w.height > toolbar && image.minX == image.minY == 0 && image.maxX > 0 && image.maxY > 0
    ensures var top := Scaled(w.y + toolbar, w.y, image.Dy() as real / w.height as real);
            CanvasInImage(w, Rect(w.x, w.y + toolbar, w.x + w.width, w.y + toolbar + (w.height - toolbar)),
                          image.Dx() as real / w.width as real, image.Dy() as real / w.height as real)
            == Rectangle(0, top, image.maxX, image.maxY) && 0 <= top < image.maxY
  {
    ScaledExtent(w.x, w.width, image.maxX);
    ScaledExtent(w.y, w.height, image.maxY);
    ScaledPartInside(w.y, toolbar, w.height, image.maxY);
  }

  /** A crop has the image's whole width and goes down to its end; only its first row is in question. */
  lemma CropIs(w: WindowInfo, screenW: int, screenH: int, k: nat)
    requires Shows(w, screenW, screenH) && k > 0
    ensures var image := ImageOf(Captured(w, screenW, screenH), k);
            Crop(w, screenW, screenH, k) == Rectangle(0, TopRow(w, screenW, screenH, k), image.maxX, image.maxY)
  {
    ShowsHasSize(w, screenW, screenH);
    var captured := Captured(w, screenW, screenH);
    var image := ImageOf(captured, k);
    TimesKeepsOrder(0, captured.Dx(), k);
    TimesKeepsOrder(0, captured.Dy(), k);
    CanvasScales(w, ToolbarHeight(w.title).value, image);
    InnerIntersects(TopRow(w, screenW, screenH, k), image.maxX, image.maxY);
  }

  /** The window reaches to the left, right and lower end of what is captured for it. */
  predicate Spans(w: WindowInfo, screenW: int, screenH: int) {
    var window, captured := WindowRectangle(w), Captured(w, screenW, screenH);
    window.minX <= captured.minX && captured.maxX <= window.maxX && captured.maxY <= window.maxY
  }

  /** How many rows of the toolbar, in points, are in the capture. */
  function ToolbarRows(w: WindowInfo, screenW: int, screenH: int): nat
    requires Canvas(w).Some?
  {
    Max(w.y + ToolbarHeight(w.title).value - Captured(w, screenW, screenH).minY, 0)
  }

  lemma TimesCancels(k: nat, a: int, b: int)
    requires k > 0
    ensures k * a == k * b <==> a == b
  {
    assert k * a - k * b == k * (a - b);
  }

  lemma ContentIs(w: WindowInfo, screenW: int, screenH: int, k: nat)
    requires Shows(w, screenW, screenH) && k > 0
    ensures var image := ImageOf(Captured(w, screenW, screenH), k);
            var content := Content(w, screenW, screenH, k);
            && (content.minX == 0 && content.maxX == image.maxX && content.maxY == image.maxY
                <==> Spans(w, screenW, screenH))
            && content.minY == k * ToolbarRows(w, screenW, screenH)
  {
    ShowsHasSize(w, screenW, screenH);
    var captured := Captured(w, screenW, screenH);
    var visible := Canvas(w).value.Intersect(captured);
    TimesCancels(k, visible.minX - captured.minX, 0);
    TimesCancels(k, visible.maxX - captured.minX, captured.Dx());
    TimesCancels(k, visible.maxY - captured.minY, captured.Dy());
  }

  /**
   The crop shows exactly the content that is on the screen if and only if the window spans its
   capture and the toolbar's share of the image begins in the row below the visible toolbar.
   */
  lemma CropShowsContentIff(w: WindowInfo, screenW: int, screenH: int, k: nat)
    requires Shows(w, screenW, screenH) && k > 0
    ensures var toolbar := ToolbarHeight(w.title).value;
            var rows := k * ToolbarRows(w, screenW, screenH);
            var pixels := k * Captured(w, screenW, screenH).Dy();
            Crop(w, screenW, screenH, k) == Content(w, screenW, screenH, k)
            <==> Spans(w, screenW, screenH) && rows * w.height <= toolbar * pixels < (rows + 1) * w.height
  {
    ShowsHasSize(w, screenW, screenH);
    CropIs(w, screenW, screenH, k);
    ContentIs(w, screenW, screenH, k);
    var captured := Captured(w, screenW, screenH);
    TimesKeepsOrder(0, captured.Dy(), k);
    ScaledPartIs(w.y, ToolbarHeight(w.title).value, w.height, k * captured.Dy(), k * ToolbarRows(w, screenW, screenH));
  }

  // ---------- What that means ----------

  /** A window that is not as large as the screen spans its capture, wherever it is. */
  lemma SmallWindowSpans(w: WindowInfo, screenW: int, screenH: int)
    requires Shows(w, screenW, screenH) && !(w.width >= screenW && w.height >= screenH)
    ensures Spans(w, screenW, screenH)
  {
  }

  /** The whole toolbar's share is right only if the whole height is there. */
  lemma WholeToolbar(toolbar: nat, height: nat, pixels: nat, k: nat)
    requires 0 < toolbar && k > 0 && pixels <= height
    ensures k * toolbar * height <= toolbar * (k * pixels) < (k * toolbar + 1) * height
       <==> pixels == height && height > 0
  {
    var each := k * toolbar;
    assert each > 0;
    assert toolbar * (k * pixels) == each * pixels;
    assert (each + 1) * height == each * height + height;
    if pixels < height {
      TimesKeepsOrder(pixels, height, each);
      assert each * pixels == pixels * each && each * height == height * each;
    }
  }

  /**
   With its upper edge on the screen, a window is cropped to its visible content if and only if
   its lower edge is on the screen too. How far it reaches over the sides does not matter.
   */
  lemma UpperEdgeOnScreen(w: WindowInfo, screenW: int, screenH: int, k: nat)
    requires Shows(w, screenW, screenH) && k > 0 && !(w.width >= screenW && w.height >= screenH) && 0 <= w.y
    ensures Crop(w, screenW, screenH, k) == Content(w, screenW, screenH, k) <==> w.y + w.height <= screenH
  {
    ShowsHasSize(w, screenW, screenH);
    SmallWindowSpans(w, screenW, screenH);
    CropShowsContentIff(w, screenW, screenH, k);
    WholeToolbar(ToolbarHeight(w.title).value, w.height, Captured(w, screenW, screenH).Dy(), k);
  }

  predicate OnScreen(w: WindowInfo, screenW: int, screenH: int) {
    && w.width > 0 && w.height > 0
    && 0 <= w.x && w.x + w.width <= screenW
    && 0 <= w.y && w.y + w.height <= screenH
  }

  lemma OnScreenIsCapturedWhole(w: WindowInfo, screenW: int, screenH: int)
    requires OnScreen(w, screenW, screenH)
    ensures Captured(w, screenW, screenH) == WindowRectangle(w)
  {
  }

  /**
   A browser window that is wholly on the screen, captured at a whole number of pixels to the
   point, is cropped to exactly its content: its full width, and its height less the toolbar's,
   starting one toolbar down.
   */
  lemma BrowserIsCroppedToContent(w: WindowInfo, screenW: int, screenH: int, k: nat)
    requires OnScreen(w, screenW, screenH) && k > 0 && Canvas(w).Some?
    ensures Shows(w, screenW, screenH)
    ensures var toolbar := ToolbarHeight(w.title).value;
            Crop(w, screenW, screenH, k) == Rectangle(0, k * toolbar, k * w.width, k * w.height)
  {
    OnScreenIsCapturedWhole(w, screenW, screenH);
    CropShowsContentIff(w, screenW, screenH, k);
    WholeToolbar(ToolbarHeight(w.title).value, w.height, w.height, k);
  }

  /** The crop's first row against a number of rows of toolbar. */
  lemma TopRowAtLeast(w: WindowInfo, screenW: int, screenH: int, k: nat, rows: nat)
    requires Shows(w, screenW, screenH) && k > 0
    ensures var share := ToolbarHeight(w.title).value * (k * Captured(w, screenW, screenH).Dy());
            Crop(w, screenW, screenH, k).minY >= rows <==> rows * w.height <= share
  {
    ShowsHasSize(w, screenW, screenH);
    CropIs(w, screenW, screenH, k);
    var pixels := Captured(w, screenW, screenH).Dy();
    TimesKeepsOrder(0, pixels, k);
    ScaledPartAtLeast(w.y, ToolbarHeight(w.title).value, w.height, k * pixels, rows);
  }

  /** Over the lower edge of the screen, too little is cropped away: some toolbar is left. */
  lemma OverLowerEdge(w: WindowInfo, screenW: int, screenH: int, k: nat)
    requires Shows(w, screenW, screenH) && k > 0 && !(w.width >= screenW && w.height >= screenH)
    requires 0 <= w.y && screenH < w.y + w.height
    ensures Crop(w, screenW, screenH, k).minY < Content(w, screenW, screenH, k).minY
  {
    var toolbar, pixels := ToolbarHeight(w.title).value, Captured(w, screenW, screenH).Dy();
    ShowsHasSize(w, screenW, screenH);
    ToolbarShare(toolbar, k, pixels, w.height);
    TopRowAtLeast(w, screenW, screenH, k, k * toolbar);
    ContentIs(w, screenW, screenH, k);
  }

  lemma ToolbarShare(toolbar: nat, k: nat, pixels: nat, height: nat)
    requires 0 < toolbar && k > 0 && pixels < height
    ensures toolbar * (k * pixels) < k * toolbar * height
  {
    var each := k * toolbar;
    assert each > 0;
    assert toolbar * (k * pixels) == pixels * each;
    TimesKeepsOrder(pixels, height, each);
    assert k * toolbar * height == height * each;
  }

  /**
   Over the upper edge by no more than its toolbar, a window is never cropped too little, and
   exactly right only if the rows cut off times the height of the content come to less than one
   height of the window, in pixels.
   */
  lemma OverUpperEdge(w: WindowInfo, screenW: int, screenH: int, k: nat)
    requires Shows(w, screenW, screenH) && k > 0 && !(w.width >= screenW && w.height >= screenH)
    requires 0 <= -w.y <= ToolbarHeight(w.title).value && w.y + w.height <= screenH
    ensures Crop(w, screenW, screenH, k).minY >= Content(w, screenW, screenH, k).minY
    ensures Crop(w, screenW, screenH, k) == Content(w, screenW, screenH, k)
       <==> k * (-w.y * (w.height - ToolbarHeight(w.title).value)) < w.height
  {
    var toolbar, off := ToolbarHeight(w.title).value, -w.y;
    ShowsHasSize(w, screenW, screenH);
    assert Captured(w, screenW, screenH).Dy() == w.height - off && ToolbarRows(w, screenW, screenH) == toolbar - off;
    CutToolbarShare(toolbar, off, w.height, k);
    SmallWindowSpans(w, screenW, screenH);
    CropShowsContentIff(w, screenW, screenH, k);
    TopRowAtLeast(w, screenW, screenH, k, k * (toolbar - off));
    ContentIs(w, screenW, screenH, k);
  }

  /** One share less the other, by distributing over the rows cut off. */
  lemma ShareDifference(toolbar: int, off: int, height: int, k: int)
    ensures toolbar * (k * (height - off)) - k * (toolbar - off) * height == k * (off * (height - toolbar))
  {
    assert toolbar * (height - off) - (toolbar - off) * height == off * (height - toolbar);
    Reorder(toolbar, k, height - off);
    Reorder(toolbar - off, k, height);
    Distribute(k, toolbar * (height - off), (toolbar - off) * height);
  }

  lemma Reorder(a: int, k: int, b: int)
    ensures a * (k * b) == k * (a * b) == k * a * b
  {
  }

  lemma Distribute(k: int, a: int, b: int)
    ensures k * (a - b) == k * a - k * b
  {
  }

  lemma CutToolbarShare(toolbar: nat, off: nat, height: nat, k: nat)
    requires off <= toolbar < height && k > 0
    ensures 0 <= k * (toolbar - off)
    ensures k * (toolbar - off) * height <= toolbar * (k * (height - off))
    ensures toolbar * (k * (height - off)) < (k * (toolbar - off) + 1) * height
       <==> k * (off * (height - toolbar)) < height
  {
    var rows := k * (toolbar - off);
    ShareDifference(toolbar, off, height, k);
    assert (rows + 1) * height == rows * height + height;
    assert off * (height - toolbar) >= 0;
    assert k * (off * (height - toolbar)) >= 0;
  }

  lemma TopRowsFrom(w: WindowInfo, screenW: int, screenH: int, k: nat, rows: nat)
    requires Shows(w, screenW, screenH) && k > 0
    ensures var share := ToolbarHeight(w.title).value * (k * Captured(w, screenW, screenH).Dy());
            && (Crop(w, screenW, screenH, k).minY < rows <==> share < rows * w.height)
            && (Crop(w, screenW, screenH, k).minY > rows <==> (rows + 1) * w.height <= share)
  {
    TopRowAtLeast(w, screenW, screenH, k, rows);
    TopRowAtLeast(w, screenW, screenH, k, rows + 1);
  }

  /**
   For every window: the crop begins above the content, or below it, exactly as the toolbar's share
   of the image falls short of the visible toolbar or goes beyond its last row.
   */
  lemma CropBeginsWhere(w: WindowInfo, screenW: int, screenH: int, k: nat, rows: nat)
    requires Shows(w, screenW, screenH) && k > 0 && rows == k * ToolbarRows(w, screenW, screenH)
    ensures var share := ToolbarHeight(w.title).value * (k * Captured(w, screenW, screenH).Dy());
            && (Crop(w, screenW, screenH, k).minY < Content(w, screenW, screenH, k).minY <==> share < rows * w.height)
            && (Crop(w, screenW, screenH, k).minY > Content(w, screenW, screenH, k).minY
                <==> (rows + 1) * w.height <= share)
  {
    assert Content(w, screenW, screenH, k).minY == rows by {
      ContentIs(w, screenW, screenH, k);
    }
    TopRowsFrom(w, screenW, screenH, k, rows);
  }

  /** Over both edges the image is as high as the screen, and the crop may begin on either side of the content. */
  lemma OverBothEdges(w: WindowInfo, screenW: int, screenH: int, k: nat, rows: nat)
    requires Shows(w, screenW, screenH) && k > 0 && !(w.width >= screenW && w.height >= screenH)
    requires w.y <= 0 && screenH <= w.y + w.height && rows == k * Max(w.y + ToolbarHeight(w.title).value, 0)
    ensures var share := ToolbarHeight(w.title).value * (k * screenH);
            && (Crop(w, screenW, screenH, k).minY < Content(w, screenW, screenH, k).minY <==> share < rows * w.height)
            && (Crop(w, screenW, screenH, k).minY > Content(w, screenW, screenH, k).minY
                <==> (rows + 1) * w.height <= share)
  {
    ShowsHasSize(w, screenW, screenH);
    assert Captured(w, screenW, screenH).minY == 0 && Captured(w, screenW, screenH).Dy() == screenH;
    CropBeginsWhere(w, screenW, screenH, k, rows);
  }

  function HalfOverTheTop(): WindowInfo {
    WindowInfo("Safari", 0, -37, 400, 185)
  }

  function OverTheBottom(): WindowInfo {
    WindowInfo("Safari", 0, 652, 400, 185)
  }

  lemma SafariToolbar(y: int)
    ensures CanvasBounds("Safari", 0, y, 400, 185) == Some(Rectangle(0, y + 74, 400, y + 185))
    ensures ToolbarHeight("Safari") == Some(74)
  {
  }

  lemma HalfOverTheTopShows()
    ensures Shows(HalfOverTheTop(), 1000, 800) && ToolbarRows(HalfOverTheTop(), 1000, 800) == 37
    ensures Captured(HalfOverTheTop(), 1000, 800) == Rectangle(0, 0, 400, 148)
  {
    SafariToolbar(-37);
  }

  lemma OverTheBottomShows()
    ensures Shows(OverTheBottom(), 1000, 800)
  {
    SafariToolbar(652);
    assert Captured(OverTheBottom(), 1000, 800) == Rectangle(0, 652, 400, 800);
  }

  lemma TooFar(w: WindowInfo)
    requires Shows(w, 1000, 800) && ToolbarHeight(w.title) == Some(74) && w.height == 185
    requires Captured(w, 1000, 800).Dy() == 148 && ToolbarRows(w, 1000, 800) == 37
    ensures Crop(w, 1000, 800, 1).minY > Content(w, 1000, 800, 1).minY
  {
    TopRowAtLeast(w, 1000, 800, 1, 38);
    ContentIs(w, 1000, 800, 1);
  }

  /** One window that is cropped too far. */
  lemma SomeWindowIsCroppedTooFar()
    ensures Shows(HalfOverTheTop(), 1000, 800)
    ensures Crop(HalfOverTheTop(), 1000, 800, 1).minY > Content(HalfOverTheTop(), 1000, 800, 1).minY
  {
    HalfOverTheTopShows();
    SafariToolbar(-37);
    TooFar(HalfOverTheTop());
  }

  /** One window that is cropped too little. */
  lemma SomeWindowIsCroppedTooLittle()
    ensures Shows(OverTheBottom(), 1000, 800)
    ensures Crop(OverTheBottom(), 1000, 800, 1).minY < Content(OverTheBottom(), 1000, 800, 1).minY
  {
    OverTheBottomShows();
    OverLowerEdge(OverTheBottom(), 1000, 800, 1);
  }

  function JustOverBoth(): WindowInfo {
    WindowInfo("Safari", 0, -1, 400, 1000)
  }

  function HalfOverBoth(): WindowInfo {
    WindowInfo("Safari", 0, -37, 400, 1030)
  }

  lemma OverBothShow()
    ensures Shows(JustOverBoth(), 1000, 800) && Shows(HalfOverBoth(), 1000, 990)
    ensures ToolbarHeight("Safari") == Some(74)
  {
    assert Canvas(JustOverBoth()) == Some(Rectangle(0, 73, 400, 999));
    assert Captured(JustOverBoth(), 1000, 800) == Rectangle(0, 0, 400, 800);
    assert Canvas(HalfOverBoth()) == Some(Rectangle(0, 37, 400, 993));
    assert Captured(HalfOverBoth(), 1000, 990) == Rectangle(0, 0, 400, 990);
  }

  lemma TooLittleOverBoth(w: WindowInfo, screenH: int, rows: nat)
    requires Shows(w, 1000, screenH) && ToolbarHeight(w.title) == Some(74) && w.width == 400
    requires w.y <= 0 && screenH <= w.y + w.height && rows == w.y + 74 && 74 * screenH < rows * w.height
    ensures Crop(w, 1000, screenH, 1).minY < Content(w, 1000, screenH, 1).minY
  {
    OverBothEdges(w, 1000, screenH, 1, rows);
  }

  lemma TooFarOverBoth(w: WindowInfo, screenH: int, rows: nat)
    requires Shows(w, 1000, screenH) && ToolbarHeight(w.title) == Some(74) && w.width == 400
    requires w.y <= 0 && screenH <= w.y + w.height && rows == w.y + 74 && (rows + 1) * w.height <= 74 * screenH
    ensures Crop(w, 1000, screenH, 1).minY > Content(w, 1000, screenH, 1).minY
  {
    OverBothEdges(w, 1000, screenH, 1, rows);
  }

  /** A window over both edges that is cropped too little. */
  lemma JustOverBothIsCroppedTooLittle()
    ensures Shows(JustOverBoth(), 1000, 800)
    ensures Crop(JustOverBoth(), 1000, 800, 1).minY < Content(JustOverBoth(), 1000, 800, 1).minY
  {
    OverBothShow();
    TooLittleOverBoth(JustOverBoth(), 800, 73);
  }

  /** A window over both edges that is cropped too far. */
  lemma HalfOverBothIsCroppedTooFar()
    ensures Shows(HalfOverBoth(), 1000, 990)
    ensures Crop(HalfOverBoth(), 1000, 990, 1).minY > Content(HalfOverBoth(), 1000, 990, 1).minY
  {
    OverBothShow();
    TooFarOverBoth(HalfOverBoth(), 990, 37);
  }
}
