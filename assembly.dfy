/** `createGIFForTimePoints`: decode one frame per time point, bring it to the
    target size, append it to a GIF destination declared for `frameCount`
    frames, stop at the first decode error, and finalize. */
module Assembly {
  import opened Time
  import opened Geometry

  datatype Option<T> = None | Some(value: T)

  /** The NSError a frame decode can report. */
  datatype DecodeError = DecodeError(code: int)

  datatype Result<T> = Ok(value: T) | Err(error: DecodeError)

  type Url = string

  /** An ImageIO property dictionary, keyed first by sub-dictionary ("{GIF}"). */
  datatype PropertyValue = IntValue(i: int) | FloatValue(x: real)
  type Properties = map<string, map<string, PropertyValue>>

  /** A video asset, as the URL opens it: its duration, its video tracks and the
      frame (or error) the image generator returns for each requested time. */
  datatype Asset = Asset(duration: TimePoint, videoTracks: seq<VideoTrack>, frameAt: TimePoint -> Result<Image>)

  /** A CGImageDestination writing a GIF to `url`, declared for `capacity` images. */
  class Destination {
    const url: Url
    const capacity: nat
    var properties: Properties
    var images: seq<Image>
    var imageProperties: seq<Properties>
    var finalized: bool
    var written: bool

    /** CGImageDestinationCreateWithURL, with no options. */
    constructor (url: Url, capacity: nat)
      ensures this.url == url && this.capacity == capacity
      ensures properties == map[] && images == [] && imageProperties == []
      ensures !finalized && !written
    {
      this.url := url;
      this.capacity := capacity;
      properties := map[];
      images := [];
      imageProperties := [];
      finalized := false;
      written := false;
    }

    /** CGImageDestinationSetProperties. */
    method SetProperties(p: Properties)
      modifies this`properties
      ensures properties == p
    {
      properties := p;
    }

    /** CGImageDestinationAddImage: the image and its own properties go last. */
    method AddImage(image: Image, p: Properties)
      modifies this`images, this`imageProperties
      ensures images == old(images) + [image]
      ensures imageProperties == old(imageProperties) + [p]
    {
      images := images + [image];
      imageProperties := imageProperties + [p];
    }

    /** CGImageDestinationFinalize: it succeeds, and the file is written, exactly
        when at least one image and the declared number of images were added
        and storage accepts the write (`storageOk`). */
    method Finalize(storageOk: bool) returns (ok: bool)
      modifies this`finalized, this`written
      ensures finalized
      ensures ok <==> 0 < |images| == capacity && storageOk
      ensures written == ok
    {
      finalized := true;
      ok := 0 < |images| == capacity && storageOk;
      written := ok;
    }
  }

  /** An AVAssetImageGenerator over an asset's frames, which remembers which
      times it was asked for. */
  class ImageGenerator {
    const frameAt: TimePoint -> Result<Image>
    var requested: seq<TimePoint>

    constructor (frameAt: TimePoint -> Result<Image>)
      ensures this.frameAt == frameAt && requested == []
    {
      this.frameAt := frameAt;
      requested := [];
    }

    /** copyCGImageAtTime: the frame at `time`, or the decode error. */
    method CopyImageAt(time: TimePoint) returns (r: Result<Image>)
      modifies this`requested
      ensures r == frameAt(time)
      ensures requested == old(requested) + [time]
    {
      r := frameAt(time);
      requested := requested + [time];
    }
  }

  /** What the frame loop leaves behind: every point decoded, or the index of the
      point whose decode failed; with the images appended so far. */
  datatype Assembly = Complete(frames: seq<Image>) | Aborted(at: nat, frames: seq<Image>)

  /** The frame loop over `timePoints`, one point at a time from the front
      (written on prefixes, as the loop runs). */
  function Assemble(timePoints: seq<TimePoint>, decode: TimePoint -> Result<Image>, size: Size): (r: Assembly)
    ensures r.Complete? ==> |r.frames| == |timePoints|
    ensures r.Aborted? ==> r.at < |timePoints| && |r.frames| == r.at
    decreases |timePoints|
  {
    if timePoints == [] then Complete([])
    else
      var last := |timePoints| - 1;
      match Assemble(timePoints[..last], decode, size)
      case Aborted(k, frames) => Aborted(k, frames)
      case Complete(frames) =>
        match decode(timePoints[last])
        case Err(_) => Aborted(last, frames)
        case Ok(image) => Complete(frames + [Resize(image, size)])
  }

  /** Index of the first time point whose decode fails, or |timePoints| if none does. */
  function FirstFailure(timePoints: seq<TimePoint>, decode: TimePoint -> Result<Image>): (k: nat)
    ensures k <= |timePoints|
    ensures forall j :: 0 <= j < k ==> decode(timePoints[j]).Ok?
    ensures k < |timePoints| ==> decode(timePoints[k]).Err?
    decreases |timePoints|
  {
    if timePoints == [] then 0
    else
      var last := |timePoints| - 1;
      var k := FirstFailure(timePoints[..last], decode);
      if k < last then k
      else if decode(timePoints[last]).Err? then last
      else |timePoints|
  }

  /** The decoded frames of `timePoints`, each brought to `size`, in order. */
  function Resized(timePoints: seq<TimePoint>, decode: TimePoint -> Result<Image>, size: Size): (frames: seq<Image>)
    requires forall j :: 0 <= j < |timePoints| ==> decode(timePoints[j]).Ok?
    ensures |frames| == |timePoints|
    ensures forall j :: 0 <= j < |timePoints| ==> frames[j] == Resize(decode(timePoints[j]).value, size)
  {
    seq(|timePoints|, j requires 0 <= j < |timePoints| => Resize(decode(timePoints[j]).value, size))
  }

  /** Once the loop has aborted on a prefix, later points change nothing. */
  lemma {:induction false} AbortPersists(timePoints: seq<TimePoint>, decode: TimePoint -> Result<Image>, size: Size, m: nat)
    requires m <= |timePoints|
    requires Assemble(timePoints[..m], decode, size).Aborted?
    ensures Assemble(timePoints, decode, size) == Assemble(timePoints[..m], decode, size)
    decreases |timePoints| - m
  {
    if m == |timePoints| {
      assert timePoints[..m] == timePoints;
    } else {
      assert timePoints[..m + 1][..m] == timePoints[..m];
      AbortPersists(timePoints, decode, size, m + 1);
    }
  }

  /** The loop's outcome in closed form: it stops exactly at the first failing
      point, having appended the resized frames of the points before it. */
  lemma {:induction false} AssembleStopsAtFirstFailure(timePoints: seq<TimePoint>, decode: TimePoint -> Result<Image>, size: Size)
    ensures var k := FirstFailure(timePoints, decode);
            Assemble(timePoints, decode, size) ==
              if k == |timePoints| then Complete(Resized(timePoints, decode, size))
              else Aborted(k, Resized(timePoints[..k], decode, size))
    decreases |timePoints|
  {
    if timePoints != [] {
      var last := |timePoints| - 1;
      var prefix := timePoints[..last];
      AssembleStopsAtFirstFailure(prefix, decode, size);
      var k := FirstFailure(prefix, decode);
      if k < last {
        assert prefix[..k] == timePoints[..k];
      } else if decode(timePoints[last]).Ok? {
        var image := decode(timePoints[last]).value;
        assert Resized(prefix, decode, size) + [Resize(image, size)] == Resized(timePoints, decode, size);
      }
    }
  }

  /** The loop completes exactly when every point decodes; then it holds one
      frame per point, in point order. Otherwise it holds the frames of the
      points before the first failing one, and nothing after. Every frame it
      holds has the target size. */
  lemma {:induction false} AssembleOutcome(timePoints: seq<TimePoint>, decode: TimePoint -> Result<Image>, size: Size)
    ensures Assemble(timePoints, decode, size).Complete? <==> forall j :: 0 <= j < |timePoints| ==> decode(timePoints[j]).Ok?
    ensures var outcome := Assemble(timePoints, decode, size);
            var decoded := if outcome.Complete? then |timePoints| else outcome.at;
            decoded <= |timePoints| && |outcome.frames| == decoded &&
            (decoded < |timePoints| ==> decode(timePoints[decoded]).Err?) &&
            forall j :: 0 <= j < decoded ==> decode(timePoints[j]).Ok? && outcome.frames[j] == Resize(decode(timePoints[j]).value, size)
    ensures forall f <- Assemble(timePoints, decode, size).frames :: f.width == size.width && f.height == size.height
  {
    AssembleStopsAtFirstFailure(timePoints, decode, size);
  }

  /** `createGIFForTimePoints`. The destination and the generator it creates are
      handed back as ghost values so the contract can speak of them. */
  method CreateGIFForTimePoints(timePoints: seq<TimePoint>, asset: Asset, size: Size,
                                fileProperties: Properties, frameProperties: Properties,
                                frameCount: nat, fileURL: Url, storageOk: bool)
    returns (gifURL: Option<Url>, ghost destination: Destination, ghost generator: ImageGenerator)
    ensures gifURL == None || gifURL == Some(fileURL)
    ensures gifURL.Some? <==>
      (forall j :: 0 <= j < |timePoints| ==> asset.frameAt(timePoints[j]).Ok?) && 0 < |timePoints| == frameCount && storageOk
    ensures destination.url == fileURL && destination.capacity == frameCount
    ensures destination.properties == fileProperties
    ensures |destination.imageProperties| == |destination.images|
    ensures forall j :: 0 <= j < |destination.imageProperties| ==> destination.imageProperties[j] == frameProperties
    ensures destination.images == Assemble(timePoints, asset.frameAt, size).frames
    ensures var outcome := Assemble(timePoints, asset.frameAt, size);
            if outcome.Complete? then
              generator.requested == timePoints && destination.finalized &&
              gifURL == (if 0 < |outcome.frames| == frameCount && storageOk then Some(fileURL) else None) &&
              destination.written == gifURL.Some?
            else
              generator.requested == timePoints[..outcome.at + 1] && !destination.finalized && !destination.written &&
              gifURL == None
  {
    var gif := new Destination(fileURL, frameCount);
    destination := gif;
    gif.SetProperties(fileProperties);
    var images := new ImageGenerator(asset.frameAt);
    generator := images;

    var i := 0;
    while i < |timePoints|
      invariant 0 <= i <= |timePoints|
      invariant gif.properties == fileProperties && !gif.finalized && !gif.written
      invariant Assemble(timePoints[..i], asset.frameAt, size) == Complete(gif.images)
      invariant |gif.imageProperties| == i
      invariant forall j :: 0 <= j < i ==> gif.imageProperties[j] == frameProperties
      invariant images.requested == timePoints[..i]
    {
      assert timePoints[..i + 1][..i] == timePoints[..i];
      var decoded := images.CopyImageAt(timePoints[i]);
      if decoded.Err? {
        AbortPersists(timePoints, asset.frameAt, size, i + 1);
        AssembleOutcome(timePoints, asset.frameAt, size);
        return None, gif, images;
      }
      var image := Resize(decoded.value, size);
      gif.AddImage(image, frameProperties);
      i := i + 1;
    }
    assert timePoints[..i] == timePoints;
    assert Assemble(timePoints, asset.frameAt, size) == Complete(gif.images);
    assert |gif.images| == |timePoints|;
    AssembleOutcome(timePoints, asset.frameAt, size);
    var ok := gif.Finalize(storageOk);
    if !ok {
      return None, gif, images;
    }
    return Some(fileURL), gif, images;
  }
}
