/** The VGA card's digital output (`VGADigitalOut`): a frame buffer of
    packed RGB pixels, the display size, and a dirty rectangle that grows to
    the bounding box of every region marked dirty. Coordinates are Java
    `int`s; the contracts about the rectangle hold when the sums `x + w` and
    `y + h` do not overflow. */
module VgaOut {
  import opened Jvm

  /** A rectangle by its corners: `(xMin, yMin)` inclusive to `(xMax, yMax)`
      exclusive. A rectangle with `xMin >= xMax` or `yMin >= yMax` is empty. */
  datatype Rect = Rect(xMin: int, yMin: int, xMax: int, yMax: int)

  datatype Display = Display(width: int, height: int, dirty: Rect, buffer: seq<int>)

  /** The constructor: a one-pixel buffer, every size field zero. */
  function New(): (d: Display)
    ensures |d.buffer| == 1 && d.width == 0 && d.height == 0
  {
    Display(0, 0, Rect(0, 0, 0, 0), [0])
  }

  /** `rgbToPixel`: the low bytes of the three channels packed as 0xRRGGBB. */
  function RgbToPixel(red: bv32, green: bv32, blue: bv32): (p: bv32)
    ensures p & 0xff00_0000 == 0
    ensures (p >> 16) & 0xff == red & 0xff
    ensures (p >> 8) & 0xff == green & 0xff
    ensures p & 0xff == blue & 0xff
  {
    ((0xff & red) << 16) | ((0xff & green) << 8) | (0xff & blue)
  }

  /** A pixel value is determined by its three channel bytes. */
  lemma PixelChannelsDetermine(red: bv32, green: bv32, blue: bv32, red': bv32, green': bv32, blue': bv32)
    ensures RgbToPixel(red, green, blue) == RgbToPixel(red', green', blue') <==>
      red & 0xff == red' & 0xff && green & 0xff == green' & 0xff && blue & 0xff == blue' & 0xff
  {
    if RgbToPixel(red, green, blue) == RgbToPixel(red', green', blue') {
    } else {
      Pack(red & 0xff, green & 0xff, blue & 0xff);
      Pack(red' & 0xff, green' & 0xff, blue' & 0xff);
    }
  }

  lemma Pack(r: bv32, g: bv32, b: bv32)
    ensures RgbToPixel(r, g, b) == ((0xff & r) << 16) | ((0xff & g) << 8) | (0xff & b)
  {
  }

  /** `resizeDisplay`: allocates `width * height` zeroed pixels (one pixel
      when the product is 0) and marks the whole display dirty. A negative
      product fails the allocation before any field changes. */
  function ResizeDisplay(d: Display, width: int, height: int): (r: Result<Display>)
    requires IsInt32(width) && IsInt32(height) && IsInt32(width * height)
    ensures width * height < 0 <==> r == Throw(NegativeArraySize)
    ensures r.Ok? ==> r.value.width == width && r.value.height == height
    ensures r.Ok? ==> r.value.dirty == Rect(0, 0, width, height)
    ensures r.Ok? && width * height > 0 ==> |r.value.buffer| == width * height
    ensures r.Ok? && width * height == 0 ==> |r.value.buffer| == 1
    ensures r.Ok? ==> forall i :: 0 <= i < |r.value.buffer| ==> r.value.buffer[i] == 0
  {
    var product := width * height;
    var allocSize := if product == 0 then 1 else product;
    if allocSize < 0 then Throw(NegativeArraySize)
    else Ok(Display(width, height, Rect(0, 0, width, height), seq(allocSize, _ => 0)))
  }

  /** `dirtyDisplayRegion`: widens the dirty rectangle to take in the one
      from `(x, y)` of size `w` by `h`. */
  function DirtyDisplayRegion(d: Display, x: int, y: int, w: int, h: int): (r: Display)
    requires IsInt32(x + w) && IsInt32(y + h)
    ensures r.width == d.width && r.height == d.height && r.buffer == d.buffer
    ensures r.dirty == BoundingBox(d.dirty, Rect(x, y, x + w, y + h))
  {
    d.(dirty := Rect(Min(x, d.dirty.xMin), Min(y, d.dirty.yMin), Max(x + w, d.dirty.xMax), Max(y + h, d.dirty.yMax)))
  }

  function Min(a: int, b: int): int {
    if a <= b then a else b
  }

  function Max(a: int, b: int): int {
    if a >= b then a else b
  }

  /** The reference: the smallest rectangle, by corners, that covers two. */
  ghost function BoundingBox(a: Rect, b: Rect): (r: Rect)
    ensures Covers(r, a) && Covers(r, b)
    ensures forall c :: Covers(c, a) && Covers(c, b) ==> Covers(c, r)
  {
    Rect(Min(a.xMin, b.xMin), Min(a.yMin, b.yMin), Max(a.xMax, b.xMax), Max(a.yMax, b.yMax))
  }

  /** `outer`'s corners enclose `inner`'s. */
  ghost predicate Covers(outer: Rect, inner: Rect) {
    outer.xMin <= inner.xMin && outer.yMin <= inner.yMin && inner.xMax <= outer.xMax && inner.yMax <= outer.yMax
  }

  /** `resetDirtyRegion`: the empty rectangle that any dirty region replaces
      wholly, as long as it lies inside the display. */
  function ResetDirtyRegion(d: Display): (r: Display)
    ensures r.width == d.width && r.height == d.height && r.buffer == d.buffer
    ensures r.dirty.xMin == d.width && r.dirty.xMax == 0 && r.dirty.yMin == d.height && r.dirty.yMax == 0
  {
    d.(dirty := Rect(d.width, d.height, 0, 0))
  }

  /** Marking the same region twice is marking it once. */
  lemma DirtyIdempotent(d: Display, x: int, y: int, w: int, h: int)
    requires IsInt32(x + w) && IsInt32(y + h)
    ensures DirtyDisplayRegion(DirtyDisplayRegion(d, x, y, w, h), x, y, w, h) == DirtyDisplayRegion(d, x, y, w, h)
  {
  }

  /** The order in which regions are marked does not matter. */
  lemma DirtyCommutes(d: Display, x: int, y: int, w: int, h: int, x': int, y': int, w': int, h': int)
    requires IsInt32(x + w) && IsInt32(y + h) && IsInt32(x' + w') && IsInt32(y' + h')
    ensures DirtyDisplayRegion(DirtyDisplayRegion(d, x, y, w, h), x', y', w', h')
         == DirtyDisplayRegion(DirtyDisplayRegion(d, x', y', w', h'), x, y, w, h)
  {
  }

  /** After a reset, one region inside the display becomes the dirty
      rectangle exactly. */
  lemma ResetThenDirtyIsExact(d: Display, x: int, y: int, w: int, h: int)
    requires IsInt32(x + w) && IsInt32(y + h)
    requires 0 <= x && 0 <= w && x + w <= d.width
    requires 0 <= y && 0 <= h && y + h <= d.height
    ensures DirtyDisplayRegion(ResetDirtyRegion(d), x, y, w, h).dirty == Rect(x, y, x + w, y + h)
  {
  }

  /** After a resize, further regions inside the display leave the whole
      display dirty. */
  lemma ResizeCoversRegions(d: Display, width: int, height: int, x: int, y: int, w: int, h: int)
    requires IsInt32(width) && IsInt32(height) && IsInt32(width * height) && width * height >= 0
    requires IsInt32(x + w) && IsInt32(y + h)
    requires 0 <= x && x + w <= width && 0 <= y && y + h <= height
    ensures DirtyDisplayRegion(ResizeDisplay(d, width, height).value, x, y, w, h).dirty == Rect(0, 0, width, height)
  {
  }
}
