# Regift: a verified model of video-to-GIF frame sampling and assembly

Regift turns a video into an animated GIF. It picks `frameCount` time points
spread evenly over the video's duration. It asks an image generator for the
frame at each point and brings each frame to a target size. It appends the
frames to a GIF destination declared for `frameCount` images, then finalizes
the file. The platform calls (AVFoundation, ImageIO, CoreGraphics) are
replaced by abstract values, so the decisions Regift makes around them can
be stated exactly and proved:

- `time.dfy` (module `Time`): CMTime as `value` ticks at `timescale` ticks
  per second. `CMTimeMakeWithSeconds` snaps a number of seconds to the
  nearest tick, with halves rounded away from zero.
- `scheduler.dfy` (module `Scheduler`): the time-point loop of
  `createGIFFromURL`. Point i of N is at i * (duration / N) seconds, computed
  exactly, then snapped to a 600 Hz tick.
- `geometry.dfy` (module `Geometry`): sizes, affine transforms, images,
  `resize` and `getVideoSize`.
- `assembly.dfy` (module `Assembly`): the GIF destination and the image
  generator as classes with mutable fields, and the frame loop of
  `createGIFForTimePoints`. The loop is specified by the function `Assemble`,
  and characterised by lemmas: it stops at the first decode failure, appended
  frames follow point order, and every frame has the target size.
- `regift.dfy` (module `Regift`): the two public `createGIFFromURL` entry
  points.

Modelling choices:

- Durations and offsets are exact rationals (`real`), not `Float`.
  The snap to a tick is the explicit function `RoundHalfAwayFromZero`.
- The video asset is a value (`Assembly.Asset`) holding three things: the
  duration, the video tracks (already filtered to the video media type), and
  a function giving what the decoder returns for each requested time, a frame
  or an error.
- All I/O is made into parameters. The output file location is the `fileURL`
  parameter. Whether storage accepts the final write is the `storageOk`
  parameter.
- The destination model follows ImageIO's rules for finalizing. Finalizing
  fails when no image was added. It also fails unless exactly the declared
  number of images was added.
- The source runs `resize` on the decoder's result before it checks the
  error (Regift/Regift.swift:87-89). The model checks the error first. Either
  way the observable result is `nil`, and no frame is appended after the
  failure.
- `frameCount` is a `nat`, and a duration needs only a positive timescale.
  A negative `frameCount` traps in `createGIFFromURL` when it forms the
  range `0 ..< frameCount` (Regift/Regift.swift:48); the `nat` type rules it
  out. `createGIFForTimePoints` is public too and does not trap on a negative
  `frameCount`: it passes it on to CGImageDestinationCreateWithURL
  (Regift/Regift.swift:74). The `nat` type leaves that case out of
  `CreateGIFForTimePoints` as well.
  The source does not guard `frameCount == 0`. In that case its loop builds
  no points, and so does the model. Finalizing the empty destination then
  fails, so the conversion returns nil. Properties about the first point or
  the end of the video require `frameCount >= 1` or a positive duration.
- `loopCount` defaults to 0 (repeat forever) on both entry points, as in the
  source.
- The destination and generator that `createGIFForTimePoints` creates come
  back as ghost out-parameters. This lets the contracts say what was
  appended, what was requested and whether finalize ran. The compiled
  result is still just the optional URL.

## Model

| member | source | states |
|---|---|---|
| Time.RoundHalfAwayFromZero | Regift/Regift.swift:50 | the result is the integer nearest to x, and a half is rounded away from zero |
| Time.RoundingIsMonotone | Regift/Regift.swift:50 | snapping to ticks preserves the order of two values |
| Time.MakeWithSeconds | Regift/Regift.swift:50 | the time point has the preferred timescale, lies within half a tick of the requested seconds, and is non-negative for non-negative seconds |
| Scheduler.MovieLength | Regift/Regift.swift:40 | the movie length in seconds times the timescale gives back the duration's tick value |
| Scheduler.Increment | Regift/Regift.swift:43 | the increment, repeated frameCount times, covers exactly the movie length |
| Scheduler.ExactPoint | Regift/Regift.swift:49 | the exact offset of frame i is i * duration / frameCount |
| Scheduler.TimePointAt | Regift/Regift.swift:49-50 | the point of frame i has timescale 600 and is the tick nearest to its exact offset |
| Scheduler.EvenlySpacedTimePoints | Regift/Regift.swift:46-53 | the loop returns exactly frameCount points, and point i is TimePointAt of frame i |
| Scheduler.FirstTimePointIsZero | Regift/Regift.swift:48-50 | when there is at least one frame, the first point is 0 |
| Scheduler.ExactPointsAreEvenlySpaced | Regift/Regift.swift:43-49 | before snapping, consecutive points differ by exactly duration / frameCount |
| Scheduler.ExactPointsStayBeforeTheEnd | Regift/Regift.swift:43-49 | for a positive duration, every unsnapped point is in [0, duration), and the last one is one increment before the end |
| Scheduler.TimePointsAreNonDecreasing | Regift/Regift.swift:48-53 | for a non-negative duration, snapped points never decrease in frame order |
| Scheduler.TimePointsAreEvenlySpacedToATick | Regift/Regift.swift:48-53 | snapped consecutive points are one increment apart, to within less than one tick |
| Scheduler.TimePointsStayWithinTheDuration | Regift/Regift.swift:40-53 | no snapped point exceeds the duration snapped to the same 600 Hz clock |
| Scheduler.TenSecondsInFiveFrames | Regift/Regift.swift:40-53 | a 10 s video sampled 5 times gives points 0, 2, 4, 6 and 8 s |
| Geometry.ApplyToSize | Regift/Regift.swift:134 | the size maps to the displacement between the images of any point and of that point moved by the size; so only the linear part acts, width' = a·w + c·h and height' = b·w + d·h, and tx and ty cancel |
| Geometry.Abs | Regift/Regift.swift:135 | the result is non-negative, and equals x or -x |
| Geometry.Resize | Regift/Regift.swift:105-126 | an image already at the target size comes back unchanged; any result has exactly the target width and height and keeps the source's bitmap layout |
| Geometry.ResizeIsIdempotent | Regift/Regift.swift:105-110 | resizing an already resized image to the same size changes nothing |
| Geometry.GetVideoSize | Regift/Regift.swift:128-139 | no tracks gives (0, 0); otherwise each component is plus or minus the matching component of track 0's natural size under the linear part of its transform; both components are non-negative |
| Geometry.VideoSizeComesFromFirstTrack | Regift/Regift.swift:132-134 | tracks after the first never change the size |
| Geometry.IdentityTransformKeepsNaturalSize | Regift/Regift.swift:134-135 | with an identity transform, or one that only translates, the size is the natural size |
| Geometry.QuarterTurnSwapsWidthAndHeight | Regift/Regift.swift:134-135 | a quarter-turn rotation either way swaps width and height, so 1920x1080 turned 90 degrees is 1080x1920 |
| Assembly.Destination.constructor | Regift/Regift.swift:74 | a new destination has the given URL and declared capacity, no properties, no images, and is not finalized |
| Assembly.Destination.SetProperties | Regift/Regift.swift:76 | the file properties are replaced and nothing else changes |
| Assembly.Destination.AddImage | Regift/Regift.swift:93 | the image and its properties are appended last and nothing else changes |
| Assembly.Destination.Finalize | Regift/Regift.swift:97-100 | finalize is recorded; it succeeds and writes the file exactly when at least one image was added, the image count equals the declared capacity, and storage accepts the write |
| Assembly.ImageGenerator.constructor | Regift/Regift.swift:77-78 | a new generator decodes the asset's frames and has not been asked for any time yet |
| Assembly.ImageGenerator.CopyImageAt | Regift/Regift.swift:87 | returns the decoder's frame or error for that time, and records the request |
| Assembly.Assemble | Regift/Regift.swift:86-94 | a completed loop holds one frame per point; an aborted loop stopped at a valid index and holds one frame per point before it |
| Assembly.FirstFailure | Regift/Regift.swift:86-91 | gives the index of the first point whose decode fails, or the number of points when none fails |
| Assembly.AbortPersists | Regift/Regift.swift:89-91 | after the first decode error, later points add nothing and are never decoded |
| Assembly.AssembleStopsAtFirstFailure | Regift/Regift.swift:86-94 | the loop aborts exactly at the first failing point, having appended the resized frames before it, or completes with them all |
| Assembly.AssembleOutcome | Regift/Regift.swift:86-94 | the loop completes iff every point decodes; frames follow point order, one per decoded point; an abort holds exactly the frames before the failing point; every frame has the target size |
| Assembly.CreateGIFForTimePoints | Regift/Regift.swift:66-103 | returns fileURL iff every point decodes, there is at least one point, the number of points equals frameCount and storage succeeds, otherwise nil; the destination is declared for frameCount images and gets the file properties; the frames appended are the loop's frames, each with the frame properties. On decode error k: points 0..k requested, nothing finalized, nil. Otherwise: finalized, and the URL is returned iff at least one frame was appended, the count matches and storage succeeds |
| Regift.FileProperties | Regift/Regift.swift:29-31 | the file properties hold one GIF sub-dictionary with one entry, the loop count |
| Regift.FrameProperties | Regift/Regift.swift:33-35 | the frame properties hold one GIF sub-dictionary with one entry, the delay time |
| Regift.CreateGIFFromURL | Regift/Regift.swift:28-58 | returns fileURL iff frameCount is positive, every sample decodes and storage succeeds, otherwise nil; the destination is finalized iff every sample decodes, so a decode failure never reaches finalize; the file is written iff the URL is returned; every frame carries the delay property; the destination has capacity frameCount and the loop-count property; on success it holds exactly frameCount frames, frame i being sample i resized, and every stored frame has the target size |
| Regift.CreateGIFFromURLAtVideoSize | Regift/Regift.swift:60-64 | same success condition, same finalized and written conditions, capacity, loop-count property and per-frame delay property; every stored frame has the size getVideoSize gives for the asset's tracks, so both dimensions are non-negative; on success it holds exactly frameCount frames, frame i being sample i resized to that size |
| Regift.DecodeFailureAtFourthOfFiveSamples | Regift/Regift.swift:86-91 | if a 10 s video's sample at 6 s fails to decode, not every sample decodes (so the entry points return nil and never finalize), and the loop aborts at index 3 after three frames |

## Left out

- AVFoundation asset loading is not modelled. The asset is given as a value,
  and the duration and track queries are its fields.
- AVAssetImageGenerator is not modelled. Which frame is closest, the 0.01 s
  before/after tolerance and the preferred-transform setting
  (Regift/Regift.swift:37, 77-83) are replaced by the asset's `frameAt`
  function.
- GIF encoding by CGImageDestination is not modelled. The file and frame
  property dictionaries are opaque values, passed on unchanged.
- A CGImageDestinationCreateWithURL failure, a nil destination, is not
  modelled, because the source does not check for it.
- The pixels of `resize` are not modelled: resampling, interpolation
  quality, colour space, bytes per row and bitmap info
  (Regift/Regift.swift:112-123). The redrawn raster is recorded symbolically,
  and the layout metadata is carried over.
- Geometry.Resize: always produces an image. A CGBitmapContextCreate failure
  is not modelled. Such failures would come from a non-positive target size,
  or from a copied row stride too small for a wider target. The source then
  gets a nil image, CGImageDestinationAddImage adds nothing, and finalize
  fails on the count, so the source returns nil. In that case
  CreateGIFFromURL, CreateGIFFromURLAtVideoSize and CreateGIFForTimePoints
  promise the URL where the source returns nil.
- Geometry.Resize / Geometry.GetVideoSize: sizes and the linear part of the
  transform are whole numbers (`int`), where the source uses `CGFloat`.
  Three things are not modelled: fractional sizes, the floating-point size
  comparison (Regift/Regift.swift:108), and the truncation by
  `Int(size.width)` and `Int(size.height)` (Regift/Regift.swift:117). For
  example, a 320.5x240 target is drawn at 320x240. Transforms with
  non-integer entries, such as a 45-degree rotation, cannot be written.
- `Float`/`Float64` rounding of the seconds computation
  (Regift/Regift.swift:40, 43, 49) is not modelled. The model uses exact
  rationals.
- CMTime's 64-bit value and 32-bit timescale limits are not modelled.
- Building the temporary file path, the NSURL nil check and the `println`
  diagnostic are not modelled (Regift/Regift.swift:67-72, 98). The location
  is the `fileURL` parameter.
- Scheduler.TimePointsAreEvenlySpacedToATick: after snapping, consecutive
  points can differ from duration / frameCount by less than one tick. Only
  the unsnapped points are exactly one increment apart
  (Scheduler.ExactPointsAreEvenlySpaced).
