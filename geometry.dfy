/** Pixel sizes, the linear part of an affine transform, frame images, and
    the two size decisions Regift makes: `resize` and `getVideoSize`. */
module Geometry {

  /** A CGSize with whole-pixel components. */
  datatype Size = Size(width: int, height: int)

  /** A CGAffineTransform: the matrix [a b; c d] followed by the translation (tx, ty). */
  datatype Transform = Transform(a: int, b: int, c: int, d: int, tx: int, ty: int)

  datatype Point = Point(x: int, y: int)

  /** CGPointApplyAffineTransform: the matrix, then the translation. */
  function ApplyToPoint(p: Point, t: Transform): Point
  {
    Point(t.a * p.x + t.c * p.y + t.tx, t.b * p.x + t.d * p.y + t.ty)
  }

  /** CGSizeApplyAffineTransform: a size is the displacement between two
      points, so it maps to the displacement between their images and the
      translation cancels out. */
  function ApplyToSize(s: Size, t: Transform): (r: Size)
    ensures forall p: Point {:trigger ApplyToPoint(p, t)} ::
      var q := ApplyToPoint(Point(p.x + s.width, p.y + s.height), t);
      var o := ApplyToPoint(p, t);
      r == Size(q.x - o.x, q.y - o.y)
  {
    Size(t.a * s.width + t.c * s.height, t.b * s.width + t.d * s.height)
  }

  function Abs(x: int): (r: int)
    ensures 0 <= r && (r == x || r == -x)
  {
    if x < 0 then -x else x
  }

  /** A video track's geometry: its natural size and its preferred display transform. */
  datatype VideoTrack = VideoTrack(naturalSize: Size, preferredTransform: Transform)

  /** Pixel-layout metadata of a CGImage that `resize` copies to the image it draws. */
  datatype BitmapLayout = BitmapLayout(bitsPerComponent: nat, bytesPerRow: nat, colorSpace: nat, bitmapInfo: nat)

  /** The pixels of an image, kept symbolic: a raster handed out by the decoder,
      or another raster redrawn into a context of the given dimensions. */
  datatype Raster = Decoded(id: nat) | Redrawn(source: Raster, width: int, height: int)

  /** A CGImage. */
  datatype Image = Image(width: int, height: int, layout: BitmapLayout, raster: Raster)

  /** `resize`: an image already of the target size is passed through as it is;
      any other is redrawn into a new bitmap of exactly the target size that
      keeps the source's layout metadata. */
  function Resize(image: Image, size: Size): (r: Image)
    ensures image.width == size.width && image.height == size.height ==> r == image
    ensures r.width == size.width && r.height == size.height
    ensures r.layout == image.layout
  {
    if image.width == size.width && image.height == size.height then image
    else Image(size.width, size.height, image.layout, Redrawn(image.raster, size.width, size.height))
  }

  /** Resizing twice to the same size is resizing once. */
  lemma ResizeIsIdempotent(image: Image, size: Size)
    ensures Resize(Resize(image, size), size) == Resize(image, size)
  {
  }

  /** `getVideoSize`: the first video track's natural size mapped through the
      linear part of its preferred transform, with both components made
      non-negative; (0, 0) when there is no video track. */
  function GetVideoSize(videoTracks: seq<VideoTrack>): (size: Size)
    ensures 0 <= size.width && 0 <= size.height
    ensures |videoTracks| == 0 ==> size == Size(0, 0)
    ensures |videoTracks| > 0 ==>
      var shown := ApplyToSize(videoTracks[0].naturalSize, videoTracks[0].preferredTransform);
      (size.width == shown.width || size.width == -shown.width) &&
      (size.height == shown.height || size.height == -shown.height)
  {
    if |videoTracks| == 0 then Size(0, 0)
    else
      var shown := ApplyToSize(videoTracks[0].naturalSize, videoTracks[0].preferredTransform);
      Size(Abs(shown.width), Abs(shown.height))
  }

  /** Only the first video track decides the size. */
  lemma VideoSizeComesFromFirstTrack(videoTracks: seq<VideoTrack>)
    requires |videoTracks| > 0
    ensures GetVideoSize(videoTracks) == GetVideoSize(videoTracks[..1])
  {
  }

  /** A track with the identity transform keeps its natural size. */
  lemma IdentityTransformKeepsNaturalSize(naturalSize: Size, tx: int, ty: int)
    requires 0 <= naturalSize.width && 0 <= naturalSize.height
    ensures GetVideoSize([VideoTrack(naturalSize, Transform(1, 0, 0, 1, tx, ty))]) == naturalSize
  {
  }

  /** A track rotated by a quarter turn either way shows its natural size with
      width and height exchanged; 1920x1080 rotated by 90 degrees is 1080x1920. */
  lemma QuarterTurnSwapsWidthAndHeight(naturalSize: Size, tx: int, ty: int)
    requires 0 <= naturalSize.width && 0 <= naturalSize.height
    ensures GetVideoSize([VideoTrack(naturalSize, Transform(0, 1, -1, 0, tx, ty))]) == Size(naturalSize.height, naturalSize.width)
    ensures GetVideoSize([VideoTrack(naturalSize, Transform(0, -1, 1, 0, tx, ty))]) == Size(naturalSize.height, naturalSize.width)
    ensures GetVideoSize([VideoTrack(Size(1920, 1080), Transform(0, 1, -1, 0, tx, ty))]) == Size(1080, 1920)
  {
  }
}
