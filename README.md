# Cow extraction from videos, modelled in Dafny

This project models the core of a Python tool that cuts per-animal clips out of
surveillance videos. For every frame of a source video, an external
tracker reports boxes with persistent track ids and optional segmentation
polygons. The pipeline then does the following:

- drops boxes that touch the frame border;
- smooths each surviving box with an exponential moving average;
- pads it, clamps it to the frame and crops the (optionally masked) frame;
- letterboxes the crop onto a fixed-size black canvas;
- appends the canvas to a per-track temporary file.

When a video ends, every track whose duration reaches a minimum becomes a
numbered artifact `cow_NNNN.mp4`, and shorter tracks are deleted. Before that,
a scanner copies the videos that only ever show one animal at a time into a
separate folder. A start-up script chooses the background colour, optionally
resumes an earlier run, and drives both passes.

The modules follow the source files:

| Dafny file | module | models |
|---|---|---|
| smoother.dfy | `Smoothing` | src/smoother.py: the moving average and the `BoxSmoother` class |
| writer.dfy | `Writer` | src/writer.py: track sinks, the duration gate, numbering, the `TrackWriterManager` class |
| frame_geometry.dfy | `FrameGeometry` | the pure arithmetic of src/processor.py: rate normalisation, the border filter, padding and clamping, slicing, the letterbox |
| masking.dfy | `Masking` | `_apply_mask` dispatch, mask choice, the hard mask and canvas placement of src/processor.py |
| processor.dfy | `Processor` | `process_video` and `process_all_videos` as specification functions and as methods of the `ExtractionProcessor` class |
| scanner.dfy | `Scanner` | src/scanner.py: the single-subject test and `scan_and_filter` |
| startup.dfy | `Startup` | main.py: colour menu, delete prompt, resume scan, partition, and the run |
| detector.dfy, boxes.dfy, config.dfy, text.dfy, wrappers.dfy | | the tracker's result shape, box types and `astype(int)`, the settings value, the Python string and path operations used, `Option` |

Stateful parts are classes whose methods are proved against pure
specification functions:

- `BoxSmoother.tracks` is a `map`.
- The writer's track dictionary is a `map` plus its insertion order (Python's
  dict iteration order), the counter is a field, and the output folder is a
  `map` from file name to the frames it holds.
- `process_video`'s frame and detection loops are `while` loops whose
  invariants tie the object state to `RunFrames` / `RunDets`.

An exception that the source lets propagate becomes a `Failure` value that ends
the loops. Two of them arise inside the modelled run: `round(inf)` and
`cv2.resize` rejecting a zero-sized target. The third, the wrong
`reset_track_mapping` call at src/processor.py:39, is modelled on its own
(`ProcessVideoAsWritten`, `ProcessAllAsWritten`, `AsWrittenRunStops`): as
written, the run ends at the first unskipped video that opens, and nothing is
ever written. `ProcessVideoSpec`, `ProcessAllSpec`, the processor's methods,
`Startup.ExecutePlan` and `Startup.RunMain` model the program with that call
corrected (see "## Findings").

Where the written design and the code disagree, the model follows the code:

- Artifact names carry no source stem: they are `cow_{n:04d}{ext}`
  (src/writer.py:28), not `{stem}_cow_{n:04d}{ext}`.
- The counter starts at 0 once and is never reset between videos
  (src/writer.py:18, 27, 92-94). Artifact numbers keep growing across a whole
  run (`Processor.ProcessAllCounterMonotone`).
- Because of the naming, the resume scan of main.py (lines 74-83) finds no stem
  in the writer's own output (`Startup.WriterOutputResumesNothing`). A resumed
  run therefore reprocesses every video.
- The soft mask truncates to `uint8` rather than rounding (src/processor.py:235).
- The letterbox canvas is always black (`np.zeros`, src/processor.py:122), not
  pre-filled with the configured background colour. With a non-black colour the
  letterbox bars stay black while the masked background takes the colour
  (`Masking.Place`).
- The box `[0, 0, 50, 50]` that the repository's processor scenarios use lies on
  the border and is dropped by the filter at src/processor.py:79
  (`FrameGeometry.ScenarioBoxOnBorder`).

## Model

| member | source | states |
|---|---|---|
| Text.ZeroPadRoundTrip | src/writer.py:28 | `{n:04d}` has at least four digits and reads back as `n` |
| Text.DecimalInjective | src/writer.py:36 | distinct track ids print differently |
| Text.Strip | main.py:30 | the result is the slice of the input outside which there is only whitespace, and it neither starts nor ends with whitespace |
| Text.BeforeFirst | main.py:80-82 | `split('_cow_')` has more than one part iff the separator occurs; the first part is the prefix before its first occurrence |
| Text.Basename | main.py:111 | the basename ends the path, holds no separator, and is either the whole path or preceded by a separator |
| Text.StemOfNamePlusExtension | main.py:111 | `splitext` removes an appended `.mp4` from a name that is not all dots |
| Boxes.Trunc | src/smoother.py:32 | `astype(int)` truncates toward zero, for negative values too |
| Boxes.TruncToReal | src/smoother.py:20 | an integer box converted to float and back is unchanged |
| Detection.Detections | src/processor.py:58-70 | the (box, id) pairs are the zip of the truncated boxes and the ids of the first result; nothing without boxes or ids |
| Detection.CowCount | src/scanner.py:56-61 | the count is 0 unless the first result has boxes and ids, and bounds the pairs the processor iterates over |
| Smoothing.SmoothedBounds | src/smoother.py:22-30 | a first observation is stored and returned unchanged; a later one stores a box between the previous one and the observation |
| Smoothing.EmaBetween | src/smoother.py:29 | for alpha in [0, 1] each averaged coordinate lies between the old value and the observation |
| Smoothing.AlphaOneFollowsObservation | src/smoother.py:29 | with alpha = 1 the smoother returns the observation |
| Smoothing.RepeatDistance | src/smoother.py:27-30 | under a constant observation the distance to it shrinks by the factor `1 - alpha` per update |
| Smoothing.RepeatMonotone | src/smoother.py:27-30 | each such update moves the stored value towards the observation without overshooting |
| Smoothing.StoredValueIsNotTruncated | src/smoother.py:30-32 | the stored state keeps the float average while the returned box is truncated |
| Smoothing.BoxSmoother.constructor | src/smoother.py:5-13 | alpha falls back to SMOOTHING_ALPHA when not given; no track is stored |
| Smoothing.BoxSmoother.Update | src/smoother.py:15-32 | only this id's entry changes, to the smoothed value; the truncated value is returned, equal to the input for a new id |
| Smoothing.BoxSmoother.Reset | src/smoother.py:34-35 | the map is empty, so the next update of any id is a first observation |
| Writer.TempNameInjective | src/writer.py:36 | temporary names of distinct track ids differ, whatever their random suffixes |
| Writer.ArtifactNameInjective | src/writer.py:26-29 | distinct counter values give distinct artifact names, and none looks like a temporary name |
| Writer.WriteFirstFrame | src/writer.py:34-51 | a new id is appended to the key order with frame count 1, its frame, the fallback-adjusted rate and a new empty temporary file; nothing else changes |
| Writer.WriteRepeatedFrame | src/writer.py:49-51 | a known id gains one frame; its rate (the argument is ignored), the other tracks, the order, the counter and the folder are unchanged |
| Writer.Infos | src/writer.py:60 | close_all visits the tracks in insertion order |
| Writer.FlushCounter | src/writer.py:60-67 | the counter grows by exactly the number of tracks that pass the duration gate |
| Writer.FlushKeepsEarlierArtifact | src/writer.py:67-77 | an artifact numbered at or below the counter survives the rest of the flush unchanged |
| Writer.FlushNumbering | src/writer.py:60-80 | with no failing file operation, the k-th kept track becomes the file numbered counter + (kept tracks before it) + 1, holding exactly its frames |
| Writer.FlushKeepsTempAbsent | src/writer.py:81-88 | a deleted temporary file stays deleted unless a later track reuses its name |
| Writer.FlushLeavesNoTemp | src/writer.py:60-88 | with no failing file operation, no track's temporary file survives close_all |
| Writer.ShortTrackDroppedLongTrackKept | tests/verify_logic_real.py:44-71 | at 30 fps with a 0.5 s minimum, a 5-frame track is dropped and a 20-frame one becomes `cow_0001.mp4` with its 20 frames, and that is the only file left |
| Writer.TrackWriterManager.constructor | src/writer.py:16-24 | the counter is 0, no track is live, the folder holds what it held |
| Writer.TrackWriterManager.GetNextFilename | src/writer.py:26-29 | the counter goes up by one and the name is the artifact name of its new value |
| Writer.TrackWriterManager.WriteFrame | src/writer.py:31-51 | the new state is the write step of the old one, and the manager stays well formed |
| Writer.TrackWriterManager.FinishTrack | src/writer.py:61-88 | one track's pass: the folder gains its released file, then a track at or over the minimum duration takes the next counter value and its file is moved to that name (after any old file there is removed), while a shorter track's file is deleted; a failed file operation changes nothing |
| Writer.TrackWriterManager.CloseAll | src/writer.py:53-90 | every track is gated, moved or deleted in key order, failures swallowed, and the map is empty afterwards |
| Writer.TrackWriterManager.ResetTrackMapping | src/writer.py:92-94 | exactly close_all; the counter is not reset |
| FrameGeometry.RoundHalfEven | src/processor.py:34 | `round` picks the nearest integer, ties to the even one |
| FrameGeometry.RoundHalfEvenUnique | src/processor.py:34 | any integer nearest to the value, the even one at a tie, is `round`'s result |
| FrameGeometry.NormalizeFps | src/processor.py:26-35 | NaN, non-positive and negative infinite rates become 30; positive infinity overflows; other rates are `round`ed, to within one half and to the even neighbour at a tie |
| FrameGeometry.NormalizeFpsExamples | tests/test_fps_fix.py:30-63 | 240.373 becomes 240; 0 and NaN become 30 |
| FrameGeometry.TinyRateRoundsToZero | src/processor.py:34 | a rate of 0.5 rounds to 0, which the writer then replaces by 30; 1.5 rounds to 2, and 2.5 and 12.5 round down to the even 2 and 12 |
| FrameGeometry.TouchesBorderIff | src/processor.py:76-80 | a detection is dropped exactly when the box's nearest edge lies within the margin of the frame's edge |
| FrameGeometry.TouchesBorderMonotone | src/processor.py:76-80 | a box inside a kept box is kept too, and a kept box stays kept under any smaller margin |
| FrameGeometry.ScenarioBoxOnBorder | src/processor.py:79 | the box [0, 0, 50, 50] on a 100 x 100 frame touches the border with margin 5; a box moved inwards does not |
| FrameGeometry.PadClamp | src/processor.py:88-98 | the clamped box never starts below 0 nor ends past the frame's size; for an in-frame box and non-negative padding it lies in the frame and contains the input box, and grows by 2 * pad in width and in height where the frame leaves room |
| FrameGeometry.SliceIndex | src/processor.py:112 | a slice bound within the axis is kept, and a negative one counts from the end |
| FrameGeometry.Crop | src/processor.py:112 | the crop lies in the frame and, for an in-frame box, is exactly that box |
| FrameGeometry.NegativeStopCountsFromEnd | src/processor.py:112 | a negative right edge of -3 on a 100-wide frame cuts at column 97 |
| FrameGeometry.ScaledIsQuotient | src/processor.py:129-130 | `int(n * (t / m))` equals the integer quotient `n * t / m` |
| FrameGeometry.ShrinkBoth | src/processor.py:127-130 | when the crop exceeds the target, the side with the smaller ratio shrinks to the target and the other shrinks strictly but still fits |
| FrameGeometry.Letterbox | src/processor.py:124-136 | a fitting crop is placed unscaled; a larger one shrinks so that one side fills the target; it is centred with offsets off by at most one pixel, or rejected |
| FrameGeometry.RatioOrder | src/processor.py:128 | comparing `tw / w` with `th / h` is the same as comparing `tw * h` with `th * w` |
| FrameGeometry.ScaledSizeQuotients | src/processor.py:128-130 | the sizes `int(w * scale)` and `int(h * scale)` with `scale = min(tw / w, th / h)` as integer quotients |
| FrameGeometry.LetterboxScale | src/processor.py:127-131 | the letterbox's resized size is the source's real-number scaled size, and the resize is rejected exactly when one side is 0 |
| FrameGeometry.ThinCropRejected | src/processor.py:128-131 | a 1 x 1000 crop shrinks to width 0 on a 640 x 640 target, which cv2.resize rejects |
| FrameGeometry.SmallCropCentred | src/processor.py:124-136 | a 50 x 50 crop on a 64 x 64 target is placed unscaled at offset (7, 7) |
| Masking.MaskKindOf | src/processor.py:182-190 | the hard mask is used iff the method is "binary"; "soft" and unknown names give the soft mask |
| Masking.MaskChoice | src/processor.py:104-110 | detection i is masked iff segments exist, have an entry i, and that polygon is non-empty; the mask uses that polygon and the configured kind |
| Masking.DefaultMaskIsSoft | src/processor.py:182 | without MASK_METHOD a masked detection gets the soft mask |
| Masking.Fill | src/processor.py:200 | `np.full` gives the background colour at every pixel |
| Masking.HardMask | src/processor.py:192-203 | each output pixel is the frame's where the mask is set and the background colour elsewhere |
| Masking.HardMaskIdempotent | src/processor.py:192-203 | masking a masked frame again with the same mask changes nothing |
| Masking.HardMaskExtremes | src/processor.py:192-203 | a full mask keeps the frame; an empty mask gives the plain background |
| Masking.CropPixels | src/processor.py:112 | the crop's pixel (x, y) is the image's pixel at the rectangle's offset plus (x, y) |
| Masking.Place | src/processor.py:122-139 | the canvas has the target size, the placed region holds the crop, and every other pixel is black |
| Masking.PlaceThenCrop | src/processor.py:139 | cutting the placed region back out of the canvas gives the crop |
| Masking.LetterboxPlacement | src/processor.py:117-139 | an unresized letterboxed crop lies on the canvas and can be read back from it |
| Processor.ProcessVideoSpec | src/processor.py:19-150 | process_video (with the reset called correctly) keeps the writer state well formed |
| Processor.ProcessVideoAsWritten | src/processor.py:37-40 | as written, every video that opens with a non-overflowing rate raises the argument error before the writer or smoother changes |
| Processor.ProcessAllAsWritten | src/processor.py:152-171 | as written, a whole run leaves the writer and the smoother untouched |
| Processor.AsWrittenRunStops | src/processor.py:37-40 | as written, the run ends with an exception at the first unskipped video that opens |
| Processor.ResetArgumentDiscrepancy | src/processor.py:39 | the as-written reset raises for every such video, and the corrected call never raises that error |
| Processor.RunDetsAbsorbs | src/processor.py:70-144 | after a detection raises, the later detections of the frame change nothing |
| Processor.RunFramesAbsorbs | src/processor.py:48-146 | after a frame raises, the later frames change nothing |
| Processor.CropAndWriteInVideo | src/processor.py:82-144 | writing one detection keeps the invariant: every live track has been smoothed, has the video's rate, and every canvas it holds fits |
| Processor.DetStepInVideo | src/processor.py:74-144 | one detection, filtered or written, keeps that invariant |
| Processor.DetStepKeeps | src/processor.py:74-144 | one detection never changes the counter and never raises the argument error |
| Processor.RunDetsInVideo | src/processor.py:70-144 | the detection loop of a frame keeps the invariant |
| Processor.RunFramesInVideo | src/processor.py:48-146 | the frame loop keeps the invariant: live tracks are smoothed ids at the video's (fallback-adjusted) rate holding canvases that fit |
| Processor.BorderDetectionsIgnored | src/processor.py:78-80 | detections touching the border change neither the smoother nor the writer |
| Processor.BorderFrameIgnored | src/processor.py:78-80 | a frame whose every detection touches the border changes nothing |
| Processor.ProcessVideoCloses | src/processor.py:37-150 | the counter never decreases; a video that completes leaves no open track; the corrected reset never raises the argument error |
| Processor.RunDetsCounter | src/processor.py:70-144 | writing detections leaves the counter unchanged |
| Processor.RunFramesCounter | src/processor.py:48-146 | the frame loop leaves the counter unchanged; only closing advances it |
| Processor.RunDetsNoArgumentMismatch | src/processor.py:70-144 | the detection loop never raises the argument error |
| Processor.RunFramesNoArgumentMismatch | src/processor.py:48-146 | the frame loop never raises the argument error |
| Processor.ProcessAllSpec | src/processor.py:152-171 | with the reset call corrected, processing a list of videos keeps the writer state well formed |
| Processor.Unskipped | src/processor.py:164-168 | the videos left after skipping are exactly the listed ones whose path is not in the skip list |
| Processor.SkippedVideosUntouched | src/processor.py:164-168 | a run with a skip list equals the run over the unskipped videos alone |
| Processor.ProcessAllAbsorbs | src/processor.py:164-171 | once a video raises, the later videos are not processed |
| Processor.ProcessAllCounterMonotone | src/processor.py:164-171 | the counter never decreases over a run, so artifact numbers are never reused |
| Processor.ExtractionProcessor.constructor | src/processor.py:14-17 | a new processor owns a fresh smoother with the configured alpha and no tracks |
| Processor.ExtractionProcessor.HandleDetection | src/processor.py:74-144 | one pass of the detection loop takes the state from `RunDets(i)` to `RunDets(i + 1)` |
| Processor.ExtractionProcessor.HandleFrame | src/processor.py:56-144 | one pass of the frame loop takes the state from `RunFrames(k)` to `RunFrames(k + 1)` |
| Processor.ExtractionProcessor.HandleFrames | src/processor.py:48-146 | the frame loop ends in `RunFrames` of all frames, stopping at the first exception |
| Processor.ExtractionProcessor.ProcessVideo | src/processor.py:19-150 | the new state is `ProcessVideoSpec` of the old one |
| Processor.ExtractionProcessor.ProcessListed | src/processor.py:164-171 | one pass of the video loop: a listed path in the skip list leaves the state alone, any other video is processed, and the new state is `ProcessAllSpec` of the videos up to and including this one |
| Processor.ExtractionProcessor.ProcessAllVideos | src/processor.py:152-175 | the new state is `ProcessAllSpec` (the reset call corrected) of the old one, with a missing skip list read as empty |
| Scanner.MaxSampledMonotone | src/scanner.py:63-64 | the running maximum never decreases as frames are read |
| Scanner.MaxSampledIsMax | src/scanner.py:53-64 | the running maximum bounds every sampled count and is one of them unless it is 0 |
| Scanner.EarlyExitAgrees | src/scanner.py:70-79 | once the maximum exceeds one, the full scan's answer is also "no", so the early break is sound |
| Scanner.SingleSubjectIff | src/scanner.py:53-79 | a video qualifies iff it opens, some sampled frame shows exactly one subject, and none shows more |
| Scanner.NoSubjectRejected | src/scanner.py:31-34 | a video that does not open, or whose sampled frames show no subject, does not qualify |
| Scanner.CrowdedFrameRejected | src/scanner.py:63-71 | a sampled frame with two or more subjects rules the video out |
| Scanner.SameSampledCounts | src/scanner.py:53 | the running maximum depends only on the counts of sampled frames |
| Scanner.UnsampledFramesIgnored | src/scanner.py:45-53 | videos that agree on every fifth frame get the same verdict |
| Scanner.SecondSubjectBetweenSamplesMissed | src/scanner.py:42-53 | two subjects on frame 1 alone go unnoticed, and the video still qualifies |
| Scanner.IsSingleSubjectVideo | src/scanner.py:18-79 | the loop with its early break returns exactly the full-scan verdict |
| Scanner.SelectedMembers | src/scanner.py:92-112 | a path is returned iff some listed video with that path qualifies and its copy succeeds; no more paths than videos |
| Scanner.ScanAndFilter | src/scanner.py:81-112 | the returned paths are the in-order filter, and the folder gains exactly their basenames |
| Startup.SelectBackgroundColor | main.py:12-38 | the chosen colour is always one of the menu's colours |
| Startup.BackgroundColorChoice | main.py:30-38 | black is chosen iff the stripped answer is not "1", "3", "4" or "5", and every key gives its listed colour |
| Startup.ColorIdentifiesChoice | main.py:17-23 | no two menu entries share a colour |
| Startup.AskDelete | main.py:51-58 | the decision is the first yes or no answer: every earlier line re-prompted, and running out of input gives no decision |
| Startup.ResumeStemsMembers | main.py:74-83 | a stem is collected iff some listed file ending in the extension yields it as the text before its first `_cow_` |
| Startup.CollectProcessedStems | main.py:74-83 | the loop collects exactly those stems |
| Startup.StemNameYieldsStem | main.py:77-83 | a name `{stem}_cow_{n:04d}{ext}` whose stem has no underscore gives back that stem |
| Startup.ArtifactNameYieldsNoStem | main.py:80-81 | the writer's `cow_{n:04d}{ext}` contains no `_cow_` and yields no stem |
| Startup.WriterOutputResumesNothing | main.py:74-83 | an output folder holding only writer artifacts resumes no video |
| Startup.WithStemMembers | main.py:110-115 | each list holds exactly the input paths whose stem is, or is not, already processed |
| Startup.PartitionComplete | main.py:110-115 | the two lists together are the input as a multiset: every video lands in exactly one |
| Startup.PartitionByStem | main.py:107-115 | the loop builds the two in-order lists |
| Startup.FreshStartSkipsNothing | main.py:45-115 | after deleting the output, or with no output, nothing is skipped and every video is scanned |
| Startup.SkipProcessedStems | main.py:110-130 | skipping the processed paths leaves exactly the videos whose path was to be scanned |
| Startup.ProcessedExactlyTheScanned | main.py:117-130 | a video is processed iff it was handed to the scanner, whatever the scanner decided |
| Startup.NoStemsSkipNothing | main.py:107-115 | with no processed stems, no path counts as processed and every path is still to scan |
| Startup.EndOfInputPlansNothing | main.py:30-58 | an end of input at the colour prompt, or at the delete prompt when the output folder holds files, yields no plan |
| Startup.PlanRun | main.py:30-115 | colour, prompt, resume scan and partition compute the plan for the inputs; no plan when the input ends at either prompt |
| Startup.ExecutePlan | main.py:98-130 | the single-subject folder gains the copied videos' names, each the basename of a video still to scan (the scanner's record of a path carries that path); the processor's state is the corrected run over all videos skipping the processed paths |
| Startup.CopiedFromToScan | main.py:117-119 | every name the single-subject folder gains is the basename of a video still to scan |
| Startup.RunMain | main.py:40-130 | the run: no plan and nothing done when input ends at the colour or the delete prompt; otherwise the plan is carried out, with the reset call corrected |

## Left out

- Video decoding and encoding (`cv2.VideoCapture`, `cv2.VideoWriter`): a video is a record of whether it opens, its reported rate and, per frame, its size and the tracker's results. A track's sink is the list of canvases written to it.
- The tracker (src/detector.py): its per-frame results are inputs.
- Pixel content of `cv2.fillPoly`, `cv2.resize` and of the masked crop written to the canvas: a `Canvas` names the frame, the mask choice, the crop rectangle and the layout. The hard mask and canvas placement are modelled on pixel grids separately, taking the rasterised polygon as an input grid.
- The soft mask's dilation, blur and alpha blend (src/processor.py:205-235): floating-point image arithmetic. Only the choice of the soft kind is modelled.
- Floating point: rates, the smoothing average and durations are Dafny reals. NaN and infinite rates are separate cases of `RawFps`.
- FrameGeometry.Letterbox: computes the shrunk size with integer quotients, proved equal to `int(n * min(tw / w, th / h))` over the reals (`LetterboxScale`). Rounding of the float product is not modelled.
- Filesystem: the output folder is a map from file name to contents. Paths whose removal or move fails are given as the set `stuck`. `os.urandom(4).hex()` is a parameter. Whether `shutil.copy2` succeeds is the parameter `copyOk`, and a failed copy leaves the folder unchanged.
- `os.makedirs`, `shutil.rmtree` and its error message (main.py:61-69), and creating the input directory (main.py:87-92). The folder the writer starts from is a parameter.
- `glob.glob`: its order and result are an input, the list of videos.
- Logging, `print`, the `tqdm` progress bars and the prompt texts.
- The global assignment of `settings.BACKGROUND_COLOR` (main.py:43): the chosen colour is passed in a settings value instead.
- `Processor.ProcessVideoSpec` / `Processor.ProcessAllSpec`: a raised exception ends processing. The tracks open at that moment are left as they are, with their temporary files not released.
- `Text.Lower`: only ASCII letters are lower-cased, whereas Python's `str.lower` applies full Unicode case mapping. The prompt's decision depends only on whether the result is `y`, `yes`, `n` or `no`, and no non-ASCII character lower-cases to one of those letters.
- `Startup.AskDelete`: an end of input at the prompt (`EOFError`) is a missing decision, after which nothing runs. An end of input at the colour prompt is likewise a missing colour line (`None`), after which nothing runs.

## Findings

| source | as written | input that shows it | evidently intended | confidence | as-written member | corrected member |
|---|---|---|---|---|---|---|
| src/processor.py:39 | `self.writer_manager.reset_track_mapping(video_stem)` passes one argument, but `reset_track_mapping(self)` at src/writer.py:92 takes none, so a TypeError is raised; the whole run then stops at the first unskipped video that opens, with nothing written (`Processor.AsWrittenRunStops`) | any video that opens and reports a finite rate, e.g. 25.0 | close the previous video's tracks with `reset_track_mapping()` and go on processing the video | not executed | Processor.ResetArgumentDiscrepancy | Processor.ExtractionProcessor.ProcessVideo |
