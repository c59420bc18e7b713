/**
 * The extraction pipeline of src/processor.py. For each video: normalise the
 * frame rate, close the previous video's tracks and forget the smoother's
 * state, then for every frame and every tracked detection filter, smooth,
 * pad, mask, crop, letterbox and write; finally close all tracks. The
 * video library and the tracker are replaced by a `Video` value that lists
 * what they would report; what is written for a detection is a `Canvas`
 * record that names the frame, mask, crop and placement the pixels come from.
 */
module Processor {
  import opened Wrappers
  import opened Config
  import opened Boxes
  import opened Detection
  import opened FrameGeometry
  import opened Masking
  import opened Smoothing
  import opened Writer

  /** One frame as read from the capture: its size and what the tracker returns for it. */
  datatype VideoFrame = VideoFrame(width: nat, height: nat, results: seq<DetResult>)

  /** A source video: its path, whether it opens, the rate it reports, and its frames in order. */
  datatype Video = Video(path: string, opens: bool, fps: RawFps, frames: seq<VideoFrame>)

  /**
   * The `tw` x `th` canvas written for one detection: frame `frame` of the
   * video, masked as `mask` says, cut to `crop`, and placed (shrunk if
   * `layout.resized`) at the layout's offsets on a black background.
   */
  datatype Canvas = Canvas(frame: nat, mask: MaskUse, crop: Rect, layout: Layout, width: nat, height: nat)

  /**
   * The exceptions process_video can raise: `round(inf)` overflowing, cv2.resize
   * refusing a zero-sized target, and the TypeError of calling
   * `reset_track_mapping` with an argument it does not take.
   */
  datatype Failure = FpsOverflow | ResizeError | ArgumentMismatch

  /** The smoother's map, the writer's state, and the exception raised, if any. */
  datatype Pipe = Pipe(smoothed: map<int, RealBox>, writer: WriterState<Canvas>, failure: Option<Failure>)

  // ---------------------------------------------------------------------------
  // One detection, one frame, one video
  // ---------------------------------------------------------------------------

  /**
   * What stays fixed while one video is processed: the settings, the
   * smoothing factor, the normalised rate, the frames, and the random part of
   * each new track's temporary name.
   */
  datatype Job = Job(cfg: Settings, alpha: real, fps: int, frames: seq<VideoFrame>, suffix: int -> string)

  /** The (box, id) pairs of frame `k`. */
  function Dets(j: Job, k: nat): seq<(IntBox, int)>
    requires k < |j.frames|
  {
    Detections(j.frames[k].results)
  }

  /**
   * The body of the loop over detections (lines 74-144) for detection `i` of
   * frame `k`, applied to the state `RunDets(j, k, i, start)` reached before
   * it, which has not raised: a box near the border is dropped (line 79),
   * any other goes on to CropAndWrite.
   */
  function DetStep(j: Job, k: nat, i: nat, start: Pipe): Pipe
    requires k < |j.frames| && i < |Dets(j, k)| && RunDets(j, k, i, start).failure.None?
    decreases k, 1, i, 2
  {
    var f := j.frames[k];
    if TouchesBorder(Dets(j, k)[i].0, f.width, f.height, j.cfg.borderMargin) then RunDets(j, k, i, start)
    else CropAndWrite(j, k, i, start)
  }

  /**
   * Lines 81-144 for a detection that passed the border filter: smooth the
   * box, pad and clamp it, cut the crop, and unless the crop is empty
   * letterbox it and write the canvas to the track's sink; a resize that
   * cv2 rejects raises.
   */
  function CropAndWrite(j: Job, k: nat, i: nat, start: Pipe): Pipe
    requires k < |j.frames| && i < |Dets(j, k)| && RunDets(j, k, i, start).failure.None?
    decreases k, 1, i, 1
  {
    var p := RunDets(j, k, i, start);
    var f := j.frames[k];
    var cfg := j.cfg;
    var box, id := Dets(j, k)[i].0, Dets(j, k)[i].1;
    var s := Smoothed(j.alpha, p.smoothed, id, box);
    var p1 := p.(smoothed := p.smoothed[id := s]);
    var rect := Crop(PadClamp(TruncBox(s), CropPadding(cfg), f.width, f.height), f.width, f.height);
    if EmptyCrop(rect) then p1
    else
      match Letterbox(rect.w, rect.h, cfg.outputWidth, cfg.outputHeight)
      case ResizeRejected => p1.(failure := Some(ResizeError))
      case Placed(l) =>
        var c := Canvas(k, MaskChoice(MaskMethod(cfg), Segments(f.results), i), rect, l, cfg.outputWidth, cfg.outputHeight);
        p1.(writer := WriteStep(p.writer, id, c, j.fps as real, j.suffix(id), cfg.videoExt))
  }

  /**
   * The state after the first `k` frames and the first `i` detections of
   * frame `k`, starting from `start`; an exception ends both loops.
   */
  function RunDets(j: Job, k: nat, i: nat, start: Pipe): Pipe
    requires k < |j.frames| && i <= |Dets(j, k)|
    decreases k, 1, i, 0
  {
    if i == 0 then RunFrames(j, k, start)
    else
      var q := RunDets(j, k, i - 1, start);
      if q.failure.Some? then q else DetStep(j, k, i - 1, start)
  }

  /** The state after the first `k` frames, starting from `start`. */
  function RunFrames(j: Job, k: nat, start: Pipe): Pipe
    requires k <= |j.frames|
    decreases k, 0, 0, 0
  {
    if k == 0 then start else RunDets(j, k - 1, |Dets(j, k - 1)|, start)
  }

  /**
   * `process_video` with the reset called as `reset_track_mapping()`: a video
   * that does not open changes nothing; an infinite rate raises before any
   * reset; otherwise the previous tracks are closed, the smoother is emptied,
   * every frame is processed, and unless an exception stopped the loop all
   * tracks are closed again.
   */
  function ProcessVideoSpec(cfg: Settings, alpha: real, v: Video, suffix: int -> string,
                            stuck: set<string>, p: Pipe): (r: Pipe)
    requires WellFormed(p.writer)
    ensures WellFormed(r.writer)
  {
    if !v.opens then p.(failure := None)
    else
      match NormalizeFps(v.fps)
      case RoundOverflow => p.(failure := Some(FpsOverflow))
      case Rate(fps) =>
        var j := Job(cfg, alpha, fps, v.frames, suffix);
        var start := Pipe(map[], CloseAllStep(p.writer, stuck, cfg.minTrackDurationSec, cfg.videoExt), None);
        RunFramesInVideo(j, |v.frames|, start);
        var end := RunFrames(j, |v.frames|, start);
        if end.failure.Some? then end
        else end.(writer := CloseAllStep(end.writer, stuck, cfg.minTrackDurationSec, cfg.videoExt))
  }

  /**
   * `process_video` as written: `reset_track_mapping(video_stem)` passes an
   * argument the method does not accept, so every video that opens with a
   * finite rate raises a TypeError before the writer or the smoother changes.
   */
  function ProcessVideoAsWritten(cfg: Settings, alpha: real, v: Video, suffix: int -> string,
                                 stuck: set<string>, p: Pipe): (r: Pipe)
    requires WellFormed(p.writer)
    ensures r.smoothed == p.smoothed && r.writer == p.writer
    ensures v.opens && v.fps != Infinite(true) ==> r.failure == Some(ArgumentMismatch)
  {
    if !v.opens then p.(failure := None)
    else
      match NormalizeFps(v.fps)
      case RoundOverflow => p.(failure := Some(FpsOverflow))
      case Rate(_) => p.(failure := Some(ArgumentMismatch))
  }

  // ---------------------------------------------------------------------------
  // Exceptions stop everything
  // ---------------------------------------------------------------------------

  /** Once detection `n - 1` of frame `k` has raised, the later detections change nothing. */
  lemma {:induction false} RunDetsAbsorbs(j: Job, k: nat, n: nat, m: nat, p: Pipe)
    requires k < |j.frames| && n <= m <= |Dets(j, k)|
    requires RunDets(j, k, n, p).failure.Some?
    ensures RunDets(j, k, m, p) == RunDets(j, k, n, p)
    decreases m
  {
    if m > n {
      RunDetsAbsorbs(j, k, n, m - 1, p);
    }
  }

  /** Once a frame has raised, the later frames change nothing. */
  lemma {:induction false} RunFramesAbsorbs(j: Job, n: nat, m: nat, p: Pipe)
    requires n <= m <= |j.frames|
    requires RunFrames(j, n, p).failure.Some?
    ensures RunFrames(j, m, p) == RunFrames(j, n, p)
    decreases m
  {
    if m > n {
      RunFramesAbsorbs(j, n, m - 1, p);
      assert RunDets(j, m - 1, 0, p) == RunFrames(j, m - 1, p);
      RunDetsAbsorbs(j, m - 1, 0, |Dets(j, m - 1)|, p);
    }
  }

  // ---------------------------------------------------------------------------
  // What holds while a video is processed
  // ---------------------------------------------------------------------------

  /** The rate write_frame stores for a new track of a video whose rate was normalised to `fps`. */
  function TrackRate(fps: int): real {
    if fps <= 0 then 30.0 else fps as real
  }

  /**
   * A written canvas has the configured size, comes from a non-empty crop,
   * is no larger than that crop, and its placed region lies on the canvas.
   */
  predicate CanvasFits(cfg: Settings, c: Canvas) {
    && c.width == cfg.outputWidth && c.height == cfg.outputHeight
    && !EmptyCrop(c.crop)
    && 0 < c.layout.width <= c.crop.w && 0 < c.layout.height <= c.crop.h
    && c.layout.xOffset + c.layout.width <= c.width
    && c.layout.yOffset + c.layout.height <= c.height
  }

  /**
   * The state of a video in progress: the writer is well formed, every live
   * track has been smoothed, carries the video's (fallback-adjusted) rate, and
   * every canvas written to it fits.
   */
  ghost predicate InVideo(cfg: Settings, fps: int, p: Pipe) {
    && WellFormed(p.writer)
    && p.writer.tracks.Keys <= p.smoothed.Keys
    && (forall id :: id in p.writer.tracks ==> p.writer.tracks[id].fps == TrackRate(fps))
    && (forall id, n :: id in p.writer.tracks && 0 <= n < |p.writer.tracks[id].sink| ==>
          CanvasFits(cfg, p.writer.tracks[id].sink[n]))
  }

  /** Smoothing a track and writing a fitting canvas to it keeps a video in progress. */
  lemma WriteCanvasInVideo(cfg: Settings, fps: int, p: Pipe, id: int, s: RealBox, c: Canvas, suffix: string)
    requires InVideo(cfg, fps, p) && CanvasFits(cfg, c)
    ensures InVideo(cfg, fps, p.(smoothed := p.smoothed[id := s], writer := WriteStep(p.writer, id, c, fps as real, suffix, cfg.videoExt)))
  {
    var r := p.(smoothed := p.smoothed[id := s], writer := WriteStep(p.writer, id, c, fps as real, suffix, cfg.videoExt));
    if id in p.writer.tracks {
      WriteRepeatedFrame(p.writer, id, c, fps as real, suffix, cfg.videoExt);
    } else {
      WriteFirstFrame(p.writer, id, c, fps as real, suffix, cfg.videoExt);
    }
    forall tid, n | tid in r.writer.tracks && 0 <= n < |r.writer.tracks[tid].sink|
      ensures CanvasFits(cfg, r.writer.tracks[tid].sink[n])
    {
      if tid == id && n == |r.writer.tracks[tid].sink| - 1 {
        assert r.writer.tracks[tid].sink[n] == c;
      } else if tid == id {
        assert r.writer.tracks[tid].sink[n] == (if id in p.writer.tracks then p.writer.tracks[id].sink[n] else c);
      }
    }
  }

  lemma CropAndWriteInVideo(j: Job, k: nat, i: nat, start: Pipe)
    requires k < |j.frames| && i < |Dets(j, k)|
    requires RunDets(j, k, i, start).failure.None? && InVideo(j.cfg, j.fps, RunDets(j, k, i, start))
    ensures InVideo(j.cfg, j.fps, CropAndWrite(j, k, i, start))
  {
    var p := RunDets(j, k, i, start);
    var f, cfg := j.frames[k], j.cfg;
    var box, id := Dets(j, k)[i].0, Dets(j, k)[i].1;
    var s := Smoothed(j.alpha, p.smoothed, id, box);
    var rect := Crop(PadClamp(TruncBox(s), CropPadding(cfg), f.width, f.height), f.width, f.height);
    if !EmptyCrop(rect) && Letterbox(rect.w, rect.h, cfg.outputWidth, cfg.outputHeight).Placed? {
      var l := Letterbox(rect.w, rect.h, cfg.outputWidth, cfg.outputHeight).layout;
      var c := Canvas(k, MaskChoice(MaskMethod(cfg), Segments(f.results), i), rect, l, cfg.outputWidth, cfg.outputHeight);
      assert CanvasFits(cfg, c);
      WriteCanvasInVideo(cfg, j.fps, p, id, s, c, j.suffix(id));
    }
  }

  lemma DetStepInVideo(j: Job, k: nat, i: nat, start: Pipe)
    requires k < |j.frames| && i < |Dets(j, k)|
    requires RunDets(j, k, i, start).failure.None? && InVideo(j.cfg, j.fps, RunDets(j, k, i, start))
    ensures InVideo(j.cfg, j.fps, DetStep(j, k, i, start))
  {
    var f := j.frames[k];
    if !TouchesBorder(Dets(j, k)[i].0, f.width, f.height, j.cfg.borderMargin) {
      CropAndWriteInVideo(j, k, i, start);
    }
  }

  /** One detection leaves the counter alone and never raises the argument error. */
  lemma DetStepKeeps(j: Job, k: nat, i: nat, start: Pipe)
    requires k < |j.frames| && i < |Dets(j, k)| && RunDets(j, k, i, start).failure.None?
    ensures DetStep(j, k, i, start).writer.counter == RunDets(j, k, i, start).writer.counter
    ensures DetStep(j, k, i, start).failure != Some(ArgumentMismatch)
  {
    var f := j.frames[k];
    if !TouchesBorder(Dets(j, k)[i].0, f.width, f.height, j.cfg.borderMargin) {
      assert DetStep(j, k, i, start) == CropAndWrite(j, k, i, start);
    }
  }

  lemma {:induction false} RunDetsInVideo(j: Job, k: nat, i: nat, p: Pipe)
    requires k < |j.frames| && i <= |Dets(j, k)| && InVideo(j.cfg, j.fps, p)
    ensures InVideo(j.cfg, j.fps, RunDets(j, k, i, p))
    decreases k, 1, i
  {
    if i == 0 {
      RunFramesInVideo(j, k, p);
    } else {
      RunDetsInVideo(j, k, i - 1, p);
      if RunDets(j, k, i - 1, p).failure.None? {
        DetStepInVideo(j, k, i - 1, p);
      }
    }
  }

  /**
   * While a video is processed, every open track belongs to an id the
   * smoother has seen, was opened at the video's normalised rate (30 when it
   * rounded to 0), and has received only canvases that fit.
   */
  lemma {:induction false} RunFramesInVideo(j: Job, k: nat, p: Pipe)
    requires k <= |j.frames| && InVideo(j.cfg, j.fps, p)
    ensures InVideo(j.cfg, j.fps, RunFrames(j, k, p))
    decreases k, 0, 0
  {
    if k > 0 {
      RunDetsInVideo(j, k - 1, |Dets(j, k - 1)|, p);
    }
  }

  /** Detections touching the border are dropped before the smoother sees them. */
  lemma {:induction false} BorderDetectionsIgnored(j: Job, k: nat, i: nat, p: Pipe)
    requires k < |j.frames| && i <= |Dets(j, k)|
    requires forall n :: 0 <= n < i ==>
      TouchesBorder(Dets(j, k)[n].0, j.frames[k].width, j.frames[k].height, j.cfg.borderMargin)
    ensures RunDets(j, k, i, p) == RunFrames(j, k, p)
    decreases i
  {
    if i > 0 {
      BorderDetectionsIgnored(j, k, i - 1, p);
      if RunDets(j, k, i - 1, p).failure.None? {
        assert DetStep(j, k, i - 1, p) == RunDets(j, k, i - 1, p);
      }
    }
  }

  /** A frame whose every detection touches the border changes nothing. */
  lemma BorderFrameIgnored(j: Job, k: nat, p: Pipe)
    requires k < |j.frames|
    requires forall n :: 0 <= n < |Dets(j, k)| ==>
      TouchesBorder(Dets(j, k)[n].0, j.frames[k].width, j.frames[k].height, j.cfg.borderMargin)
    ensures RunFrames(j, k + 1, p) == RunFrames(j, k, p)
  {
    BorderDetectionsIgnored(j, k, |Dets(j, k)|, p);
  }

  /**
   * A video that completes leaves no track open; its reset and final close
   * only ever advance the counter; the corrected call never raises the
   * argument error.
   */
  lemma ProcessVideoCloses(cfg: Settings, alpha: real, v: Video, suffix: int -> string, stuck: set<string>, p: Pipe)
    requires WellFormed(p.writer)
    ensures var r := ProcessVideoSpec(cfg, alpha, v, suffix, stuck, p);
      && r.writer.counter >= p.writer.counter
      && (v.opens && r.failure.None? ==> r.writer.tracks == map[] && r.writer.order == [])
      && (v.opens && v.fps != Infinite(true) ==> r.failure != Some(ArgumentMismatch))
  {
    if v.opens && NormalizeFps(v.fps).Rate? {
      var j := Job(cfg, alpha, NormalizeFps(v.fps).fps, v.frames, suffix);
      var ws := p.writer;
      FlushCounter(Infos(ws), Store(ws.disk, ws.counter), stuck, cfg.minTrackDurationSec, cfg.videoExt);
      var start := Pipe(map[], CloseAllStep(ws, stuck, cfg.minTrackDurationSec, cfg.videoExt), None);
      RunFramesCounter(j, |v.frames|, start);
      RunFramesInVideo(j, |v.frames|, start);
      RunFramesNoArgumentMismatch(j, |v.frames|, start);
      var end := RunFrames(j, |v.frames|, start);
      if end.failure.None? {
        var e := end.writer;
        FlushCounter(Infos(e), Store(e.disk, e.counter), stuck, cfg.minTrackDurationSec, cfg.videoExt);
      }
    }
  }

  lemma {:induction false} RunDetsCounter(j: Job, k: nat, i: nat, p: Pipe)
    requires k < |j.frames| && i <= |Dets(j, k)|
    ensures RunDets(j, k, i, p).writer.counter == p.writer.counter
    decreases k, 1, i
  {
    if i == 0 {
      RunFramesCounter(j, k, p);
    } else {
      RunDetsCounter(j, k, i - 1, p);
      if RunDets(j, k, i - 1, p).failure.None? {
        DetStepKeeps(j, k, i - 1, p);
      }
    }
  }

  /** Writing never changes the counter; only closing does. */
  lemma {:induction false} RunFramesCounter(j: Job, k: nat, p: Pipe)
    requires k <= |j.frames|
    ensures RunFrames(j, k, p).writer.counter == p.writer.counter
    decreases k, 0, 0
  {
    if k > 0 {
      RunDetsCounter(j, k - 1, |Dets(j, k - 1)|, p);
    }
  }

  lemma {:induction false} RunDetsNoArgumentMismatch(j: Job, k: nat, i: nat, p: Pipe)
    requires k < |j.frames| && i <= |Dets(j, k)| && p.failure.None?
    ensures RunDets(j, k, i, p).failure != Some(ArgumentMismatch)
    decreases k, 1, i
  {
    if i == 0 {
      RunFramesNoArgumentMismatch(j, k, p);
    } else {
      RunDetsNoArgumentMismatch(j, k, i - 1, p);
      if RunDets(j, k, i - 1, p).failure.None? {
        DetStepKeeps(j, k, i - 1, p);
      }
    }
  }

  /** The frame loop itself never raises the argument error. */
  lemma {:induction false} RunFramesNoArgumentMismatch(j: Job, k: nat, p: Pipe)
    requires k <= |j.frames| && p.failure.None?
    ensures RunFrames(j, k, p).failure != Some(ArgumentMismatch)
    decreases k, 0, 0
  {
    if k > 0 {
      RunDetsNoArgumentMismatch(j, k - 1, |Dets(j, k - 1)|, p);
    }
  }

  /**
   * The effect of the wrong reset call: with the argument passed, no opened
   * video with a finite rate produces anything, while with the call corrected
   * the argument error never arises.
   */
  lemma ResetArgumentDiscrepancy(cfg: Settings, alpha: real, v: Video, suffix: int -> string, stuck: set<string>, p: Pipe)
    requires WellFormed(p.writer) && v.opens && v.fps != Infinite(true)
    ensures ProcessVideoAsWritten(cfg, alpha, v, suffix, stuck, p).failure == Some(ArgumentMismatch)
    ensures ProcessVideoAsWritten(cfg, alpha, v, suffix, stuck, p).writer == p.writer
    ensures ProcessVideoSpec(cfg, alpha, v, suffix, stuck, p).failure != Some(ArgumentMismatch)
  {
    ProcessVideoCloses(cfg, alpha, v, suffix, stuck, p);
  }

  // ---------------------------------------------------------------------------
  // All videos
  // ---------------------------------------------------------------------------

  /**
   * `process_all_videos(skip_list)` over the first videos found: each video
   * whose path is not in the skip list is processed in turn, and an exception
   * ends the run. `suffixes` stands for the random temp-name suffixes.
   */
  function ProcessAllSpec(cfg: Settings, alpha: real, videos: seq<Video>, skip: seq<string>,
                          suffixes: string -> int -> string, stuck: set<string>, p: Pipe): (r: Pipe)
    requires WellFormed(p.writer)
    ensures WellFormed(r.writer)
    decreases |videos|
  {
    if videos == [] then p
    else
      var q := ProcessAllSpec(cfg, alpha, videos[..|videos| - 1], skip, suffixes, stuck, p);
      var v := videos[|videos| - 1];
      if q.failure.Some? || v.path in skip then q
      else ProcessVideoSpec(cfg, alpha, v, suffixes(v.path), stuck, q)
  }

  /** One more video: skipped, or processed from the state the earlier ones left, unless that state has raised. */
  lemma ProcessAllStep(cfg: Settings, alpha: real, videos: seq<Video>, i: nat, skip: seq<string>,
                       suffixes: string -> int -> string, stuck: set<string>, p: Pipe)
    requires WellFormed(p.writer) && i < |videos|
    ensures var q := ProcessAllSpec(cfg, alpha, videos[..i], skip, suffixes, stuck, p);
      ProcessAllSpec(cfg, alpha, videos[..i + 1], skip, suffixes, stuck, p)
        == if q.failure.Some? || videos[i].path in skip then q
           else ProcessVideoSpec(cfg, alpha, videos[i], suffixes(videos[i].path), stuck, q)
  {
    assert videos[..i + 1][..i] == videos[..i] && videos[..i + 1][i] == videos[i];
  }

  /** The videos whose path is not in `skip`, in order. */
  function Unskipped(videos: seq<Video>, skip: seq<string>): (r: seq<Video>)
    ensures forall j :: 0 <= j < |r| ==> r[j] in videos && r[j].path !in skip
    ensures forall v :: v in videos && v.path !in skip ==> v in r
    decreases |videos|
  {
    if videos == [] then []
    else
      var v := videos[|videos| - 1];
      var front := videos[..|videos| - 1];
      assert forall u :: u in front ==> u in videos;
      Unskipped(front, skip) + (if v.path in skip then [] else [v])
  }

  /** A video on the skip list is never processed: the run equals the run over the other videos alone. */
  lemma {:induction false} SkippedVideosUntouched(cfg: Settings, alpha: real, videos: seq<Video>, skip: seq<string>,
                                                  suffixes: string -> int -> string, stuck: set<string>, p: Pipe)
    requires WellFormed(p.writer)
    ensures ProcessAllSpec(cfg, alpha, videos, skip, suffixes, stuck, p)
         == ProcessAllSpec(cfg, alpha, Unskipped(videos, skip), [], suffixes, stuck, p)
    decreases |videos|
  {
    if videos != [] {
      var front := videos[..|videos| - 1];
      var v := videos[|videos| - 1];
      SkippedVideosUntouched(cfg, alpha, front, skip, suffixes, stuck, p);
      var q := ProcessAllSpec(cfg, alpha, front, skip, suffixes, stuck, p);
      var u := Unskipped(videos, skip);
      if v.path in skip {
        assert u == Unskipped(front, skip) + [];
        assert u == Unskipped(front, skip);
      } else {
        assert u == Unskipped(front, skip) + [v];
        assert u[|u| - 1] == v && u[..|u| - 1] == Unskipped(front, skip);
        assert ProcessAllSpec(cfg, alpha, u, [], suffixes, stuck, p)
            == if q.failure.Some? then q else ProcessVideoSpec(cfg, alpha, v, suffixes(v.path), stuck, q);
      }
    }
  }

  /** Once a video has raised, the later videos are not processed. */
  lemma {:induction false} ProcessAllAbsorbs(cfg: Settings, alpha: real, videos: seq<Video>, skip: seq<string>,
                                             suffixes: string -> int -> string, stuck: set<string>, p: Pipe, n: nat)
    requires WellFormed(p.writer) && n <= |videos|
    requires ProcessAllSpec(cfg, alpha, videos[..n], skip, suffixes, stuck, p).failure.Some?
    ensures ProcessAllSpec(cfg, alpha, videos, skip, suffixes, stuck, p)
         == ProcessAllSpec(cfg, alpha, videos[..n], skip, suffixes, stuck, p)
    decreases |videos|
  {
    if n < |videos| {
      var front := videos[..|videos| - 1];
      assert front[..n] == videos[..n];
      ProcessAllAbsorbs(cfg, alpha, front, skip, suffixes, stuck, p, n);
    } else {
      assert videos[..n] == videos;
    }
  }

  /** The counter never decreases over a run: artifact numbers are never reused. */
  lemma {:induction false} ProcessAllCounterMonotone(cfg: Settings, alpha: real, videos: seq<Video>, skip: seq<string>,
                                                     suffixes: string -> int -> string, stuck: set<string>, p: Pipe)
    requires WellFormed(p.writer)
    ensures ProcessAllSpec(cfg, alpha, videos, skip, suffixes, stuck, p).writer.counter >= p.writer.counter
    decreases |videos|
  {
    if videos != [] {
      var front := videos[..|videos| - 1];
      ProcessAllCounterMonotone(cfg, alpha, front, skip, suffixes, stuck, p);
      var q := ProcessAllSpec(cfg, alpha, front, skip, suffixes, stuck, p);
      var v := videos[|videos| - 1];
      ProcessVideoCloses(cfg, alpha, v, suffixes(v.path), stuck, q);
    }
  }

  /**
   * `process_all_videos` with `process_video` as written: every video that
   * opens raises, either the argument error or, at a rate of +inf, the
   * overflow, before anything is written.
   */
  function ProcessAllAsWritten(cfg: Settings, alpha: real, videos: seq<Video>, skip: seq<string>,
                               suffixes: string -> int -> string, stuck: set<string>, p: Pipe): (r: Pipe)
    requires WellFormed(p.writer)
    ensures r.smoothed == p.smoothed && r.writer == p.writer
    decreases |videos|
  {
    if videos == [] then p
    else
      var q := ProcessAllAsWritten(cfg, alpha, videos[..|videos| - 1], skip, suffixes, stuck, p);
      var v := videos[|videos| - 1];
      if q.failure.Some? || v.path in skip then q
      else ProcessVideoAsWritten(cfg, alpha, v, suffixes(v.path), stuck, q)
  }

  /** As written, the run ends with an exception as soon as one unskipped video opens. */
  lemma {:induction false} AsWrittenRunStops(cfg: Settings, alpha: real, videos: seq<Video>, skip: seq<string>,
                                             suffixes: string -> int -> string, stuck: set<string>, p: Pipe, k: nat)
    requires WellFormed(p.writer)
    requires k < |videos| && videos[k].path !in skip && videos[k].opens
    ensures ProcessAllAsWritten(cfg, alpha, videos, skip, suffixes, stuck, p).failure.Some?
    decreases |videos|
  {
    var front := videos[..|videos| - 1];
    if k < |front| {
      assert front[k] == videos[k];
      AsWrittenRunStops(cfg, alpha, front, skip, suffixes, stuck, p, k);
    }
  }

  // ---------------------------------------------------------------------------
  // The processor object
  // ---------------------------------------------------------------------------

  /** `CowExtractionProcessor`: the settings, its own box smoother, and the writer manager it was given. */
  class ExtractionProcessor {
    const cfg: Settings
    const smoother: BoxSmoother
    const writer: TrackWriterManager<Canvas>

    ghost predicate Valid()
      reads this, writer
    {
      && writer.Valid()
      && writer.minDuration == cfg.minTrackDurationSec
      && writer.ext == cfg.videoExt
    }

    function Current(failure: Option<Failure>): Pipe
      reads this, smoother, writer
    {
      Pipe(smoother.tracks, writer.State(), failure)
    }

    constructor (cfg: Settings, writer: TrackWriterManager<Canvas>)
      requires writer.Valid() && writer.minDuration == cfg.minTrackDurationSec && writer.ext == cfg.videoExt
      ensures Valid() && this.cfg == cfg && this.writer == writer
      ensures fresh(smoother) && smoother.alpha == cfg.smoothingAlpha && smoother.tracks == map[]
    {
      this.cfg := cfg;
      this.writer := writer;
      smoother := new BoxSmoother(None, cfg.smoothingAlpha);
    }

    /** The fixed inputs of the video being processed. */
    function JobFor(fps: int, frames: seq<VideoFrame>, suffix: int -> string): Job {
      Job(cfg, smoother.alpha, fps, frames, suffix)
    }

    /**
     * One pass of the loop over detections of `process_video` (lines 74-144)
     * for detection `i` of frame `k`: filter, smooth, pad and clamp, choose
     * the mask, crop, letterbox, write. `start` is the state after the reset.
     */
    method HandleDetection(fps: int, frames: seq<VideoFrame>, k: nat, i: nat, suffix: int -> string,
                           ghost start: Pipe) returns (raised: Option<Failure>)
      requires Valid() && k < |frames| && i < |Detections(frames[k].results)|
      requires Current(None) == RunDets(JobFor(fps, frames, suffix), k, i, start)
      modifies smoother, writer
      ensures Valid()
      ensures Current(raised) == RunDets(JobFor(fps, frames, suffix), k, i + 1, start)
    {
      ghost var j := JobFor(fps, frames, suffix);
      assert RunDets(j, k, i + 1, start) == DetStep(j, k, i, start);
      var f := frames[k];
      var det := Detections(f.results)[i];
      var box, id := det.0, det.1;
      if TouchesBorder(box, f.width, f.height, cfg.borderMargin) {
        return None;
      }
      assert DetStep(j, k, i, start) == CropAndWrite(j, k, i, start);
      var smoothed := smoother.Update(id, box);
      var rect := Crop(PadClamp(smoothed, CropPadding(cfg), f.width, f.height), f.width, f.height);
      if EmptyCrop(rect) {
        return None;
      }
      var fit := Letterbox(rect.w, rect.h, cfg.outputWidth, cfg.outputHeight);
      if fit.ResizeRejected? {
        return Some(ResizeError);
      }
      var mask := MaskChoice(MaskMethod(cfg), Segments(f.results), i);
      var canvas := Canvas(k, mask, rect, fit.layout, cfg.outputWidth, cfg.outputHeight);
      writer.WriteFrame(id, canvas, fps as real, suffix(id));
      return None;
    }

    /**
     * One pass of `process_video`'s frame loop for frame `k`: every (box, id)
     * pair of the tracker's first result, until one raises.
     */
    method HandleFrame(fps: int, frames: seq<VideoFrame>, k: nat, suffix: int -> string, ghost start: Pipe)
      returns (raised: Option<Failure>)
      requires Valid() && k < |frames|
      requires Current(None) == RunFrames(JobFor(fps, frames, suffix), k, start)
      modifies smoother, writer
      ensures Valid()
      ensures Current(raised) == RunFrames(JobFor(fps, frames, suffix), k + 1, start)
    {
      ghost var j := JobFor(fps, frames, suffix);
      var n := |Detections(frames[k].results)|;
      assert |Dets(j, k)| == n;
      assert RunDets(j, k, 0, start) == RunFrames(j, k, start);
      assert RunFrames(j, k + 1, start) == RunDets(j, k, n, start);
      raised := None;
      var i := 0;
      while i < n && raised.None?
        invariant 0 <= i <= n
        invariant Valid()
        invariant Current(raised) == RunDets(j, k, i, start)
      {
        raised := HandleDetection(fps, frames, k, i, suffix, start);
        i := i + 1;
      }
      if raised.Some? {
        RunDetsAbsorbs(j, k, i, n, start);
      } else {
        assert i == n;
      }
    }

    /**
     * `process_video` with the reset called as `reset_track_mapping()`. The
     * result is the exception raised, if any; `suffix` gives the random part
     * of each new track's temporary name, `stuck` the paths whose removal or
     * move fails.
     */
    method ProcessVideo(v: Video, suffix: int -> string, stuck: set<string>) returns (raised: Option<Failure>)
      requires Valid()
      modifies smoother, writer
      ensures Valid()
      ensures Current(raised) == ProcessVideoSpec(cfg, smoother.alpha, v, suffix, stuck, old(Current(None)))
    {
      if !v.opens {
        return None;
      }
      var rate := NormalizeFps(v.fps);
      if rate.RoundOverflow? {
        return Some(FpsOverflow);
      }
      var fps := rate.fps;
      writer.ResetTrackMapping(stuck);
      smoother.Reset();
      raised := HandleFrames(fps, v.frames, suffix);
      if raised.None? {
        writer.CloseAll(stuck);
      }
    }

    /** The frame loop of `process_video` (lines 60-144): frames in order until one raises. */
    method HandleFrames(fps: int, frames: seq<VideoFrame>, suffix: int -> string) returns (raised: Option<Failure>)
      requires Valid()
      modifies smoother, writer
      ensures Valid()
      ensures Current(raised) == RunFrames(JobFor(fps, frames, suffix), |frames|, old(Current(None)))
    {
      ghost var start := Current(None);
      ghost var j := JobFor(fps, frames, suffix);
      raised := None;
      var k := 0;
      while k < |frames| && raised.None?
        invariant 0 <= k <= |frames|
        invariant Valid()
        invariant Current(raised) == RunFrames(j, k, start)
      {
        raised := HandleFrame(fps, frames, k, suffix, start);
        k := k + 1;
      }
      if raised.Some? {
        RunFramesAbsorbs(j, k, |frames|, start);
      }
    }

    /** One pass of `process_all_videos`' loop: video `i` is skipped or processed. */
    method ProcessListed(videos: seq<Video>, i: nat, skip: seq<string>, suffixes: string -> int -> string,
                         stuck: set<string>, ghost start: Pipe) returns (raised: Option<Failure>)
      requires Valid() && i < |videos| && WellFormed(start.writer)
      requires Current(None) == ProcessAllSpec(cfg, smoother.alpha, videos[..i], skip, suffixes, stuck, start)
      modifies smoother, writer
      ensures Valid()
      ensures Current(raised) == ProcessAllSpec(cfg, smoother.alpha, videos[..i + 1], skip, suffixes, stuck, start)
    {
      ProcessAllStep(cfg, smoother.alpha, videos, i, skip, suffixes, stuck, start);
      raised := None;
      if videos[i].path !in skip {
        raised := ProcessVideo(videos[i], suffixes(videos[i].path), stuck);
      }
    }

    /**
     * `process_all_videos(skip_list)`: `videos` is what the glob finds, in
     * its order; a missing skip list means none. The result is the exception
     * that ended the run, if any.
     */
    method ProcessAllVideos(videos: seq<Video>, skipList: Option<seq<string>>,
                            suffixes: string -> int -> string, stuck: set<string>) returns (raised: Option<Failure>)
      requires Valid()
      modifies smoother, writer
      ensures Valid()
      ensures Current(raised)
           == ProcessAllSpec(cfg, smoother.alpha, videos, skipList.GetOr([]), suffixes, stuck, old(Current(None)))
    {
      var skip := skipList.GetOr([]);
      ghost var start := Current(None);
      raised := None;
      var i := 0;
      while i < |videos| && raised.None?
        invariant 0 <= i <= |videos|
        invariant Valid()
        invariant Current(raised) == ProcessAllSpec(cfg, smoother.alpha, videos[..i], skip, suffixes, stuck, start)
      {
        raised := ProcessListed(videos, i, skip, suffixes, stuck, start);
        i := i + 1;
      }
      if raised.Some? {
        ProcessAllAbsorbs(cfg, smoother.alpha, videos, skip, suffixes, stuck, start, i);
      } else {
        assert videos[..i] == videos;
      }
    }
  }
}
