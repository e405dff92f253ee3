/** The two public entry points: convert a video to a GIF whose frames are
    evenly spaced over the video, at a given size or at the video's own size. */
module Regift {
  import opened Time
  import opened Geometry
  import opened Scheduler
  import opened Assembly

  const GIFDictionary := "{GIF}"
  const LoopCountKey := "LoopCount"
  const DelayTimeKey := "DelayTime"

  /** The GIF's file properties: how many times it repeats (0 is forever). */
  function FileProperties(loopCount: int): (p: Properties)
    ensures p.Keys == {GIFDictionary} && p[GIFDictionary].Keys == {LoopCountKey}
    ensures p[GIFDictionary][LoopCountKey] == IntValue(loopCount)
  {
    map[GIFDictionary := map[LoopCountKey := IntValue(loopCount)]]
  }

  /** Each frame's properties: how long it is shown, in seconds. */
  function FrameProperties(delayTime: real): (p: Properties)
    ensures p.Keys == {GIFDictionary} && p[GIFDictionary].Keys == {DelayTimeKey}
    ensures p[GIFDictionary][DelayTimeKey] == FloatValue(delayTime)
  {
    map[GIFDictionary := map[DelayTimeKey := FloatValue(delayTime)]]
  }

  /** Every one of the `frameCount` sample points of `asset` decodes. */
  ghost predicate AllSamplesDecode(asset: Asset, frameCount: nat)
    requires asset.duration.Valid()
  {
    forall i :: 0 <= i < frameCount ==> asset.frameAt(TimePointAt(asset.duration, frameCount, i)).Ok?
  }

  /** `createGIFFromURL` with an explicit size. The GIF is produced, at `fileURL`,
      exactly when every sample decodes and storage accepts the write; the
      destination then holds one frame per sample, in sample order, each
      brought to `size`, and is declared for exactly that many frames. */
  method CreateGIFFromURL(asset: Asset, size: Size, frameCount: nat, delayTime: real, loopCount: int := 0,
                          fileURL: Url, storageOk: bool)
    returns (gifURL: Option<Url>, ghost destination: Destination)
    requires asset.duration.Valid()
    ensures gifURL == None || gifURL == Some(fileURL)
    ensures gifURL.Some? <==> 0 < frameCount && storageOk && AllSamplesDecode(asset, frameCount)
    ensures destination.finalized <==> AllSamplesDecode(asset, frameCount)
    ensures destination.written <==> gifURL.Some?
    ensures destination.capacity == frameCount && destination.properties == FileProperties(loopCount)
    ensures forall j :: 0 <= j < |destination.imageProperties| ==> destination.imageProperties[j] == FrameProperties(delayTime)
    ensures forall image <- destination.images :: image.width == size.width && image.height == size.height
    ensures gifURL.Some? ==>
      |destination.images| == frameCount &&
      forall i :: 0 <= i < frameCount ==>
        destination.images[i] == Resize(asset.frameAt(TimePointAt(asset.duration, frameCount, i)).value, size)
  {
    var fileProperties := FileProperties(loopCount);
    var frameProperties := FrameProperties(delayTime);
    var timePoints := EvenlySpacedTimePoints(asset.duration, frameCount);
    ghost var generator;
    gifURL, destination, generator := CreateGIFForTimePoints(timePoints, asset, size, fileProperties, frameProperties,
                                                             frameCount, fileURL, storageOk);
    AssembleOutcome(timePoints, asset.frameAt, size);
  }

  /** `createGIFFromURL` without a size: the frames are brought to the size
      `getVideoSize` reports for the asset's video tracks. */
  method CreateGIFFromURLAtVideoSize(asset: Asset, frameCount: nat, delayTime: real, loopCount: int := 0,
                                     fileURL: Url, storageOk: bool)
    returns (gifURL: Option<Url>, ghost destination: Destination)
    requires asset.duration.Valid()
    ensures gifURL == None || gifURL == Some(fileURL)
    ensures gifURL.Some? <==> 0 < frameCount && storageOk && AllSamplesDecode(asset, frameCount)
    ensures destination.finalized <==> AllSamplesDecode(asset, frameCount)
    ensures destination.written <==> gifURL.Some?
    ensures destination.capacity == frameCount && destination.properties == FileProperties(loopCount)
    ensures forall j :: 0 <= j < |destination.imageProperties| ==> destination.imageProperties[j] == FrameProperties(delayTime)
    ensures var size := GetVideoSize(asset.videoTracks);
            forall image <- destination.images :: image.width == size.width && image.height == size.height
    ensures forall image <- destination.images :: 0 <= image.width && 0 <= image.height
    ensures gifURL.Some? ==>
      |destination.images| == frameCount &&
      forall i :: 0 <= i < frameCount ==>
        destination.images[i] == Resize(asset.frameAt(TimePointAt(asset.duration, frameCount, i)).value, GetVideoSize(asset.videoTracks))
  {
    var size := GetVideoSize(asset.videoTracks);
    gifURL, destination := CreateGIFFromURL(asset, size, frameCount, delayTime, loopCount, fileURL, storageOk);
  }

  /** Five samples of a ten-second video whose fourth sample fails to decode:
      not every sample decodes, so by the entry points' contracts there is no
      GIF and the destination is never finalized; the loop stops at index 3
      holding three frames. */
  lemma DecodeFailureAtFourthOfFiveSamples(asset: Asset)
    requires asset.duration == TimePoint(6000, 600)
    requires forall t :: asset.frameAt(t).Err? <==> t == TimePoint(3600, TimeInterval)
    ensures !AllSamplesDecode(asset, 5)
    ensures var points := seq(5, i requires 0 <= i < 5 => TimePointAt(asset.duration, 5, i));
            var outcome := Assemble(points, asset.frameAt, Size(320, 240));
            outcome.Aborted? && outcome.at == 3 && |outcome.frames| == 3
  {
    TenSecondsInFiveFrames();
    var points := seq(5, i requires 0 <= i < 5 => TimePointAt(asset.duration, 5, i));
    assert asset.frameAt(points[3]).Err?;
    AssembleOutcome(points, asset.frameAt, Size(320, 240));
  }
}
