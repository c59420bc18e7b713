/**
 * The single-subject filter of src/scanner.py. A video qualifies when it
 * opens and the largest number of tracked subjects the tracker reports on
 * any sampled frame (every fifth frame, from frame 0) is exactly one. The
 * scan stops early once a sampled frame shows two or more subjects.
 * `scan_and_filter` keeps, in input order, the qualifying videos whose copy
 * into the single-subject folder succeeds.
 */
module Scanner {
  import opened Wrappers
  import opened Boxes
  import opened Text
  import opened Detection

  /** `skip_frames`: only frames whose index is a multiple of this are passed to the tracker. */
  const SkipFrames: nat := 5

  predicate Sampled(k: nat) {
    k % SkipFrames == 0
  }

  /** `max_simultaneous_cows` after the first `n` frames: the running maximum of the sampled counts. */
  function MaxSampled(frames: seq<seq<DetResult>>, n: nat): nat
    requires n <= |frames|
  {
    if n == 0 then 0
    else
      var m := MaxSampled(frames, n - 1);
      if Sampled(n - 1) && CowCount(frames[n - 1]) > m then CowCount(frames[n - 1]) else m
  }

  /** `frames_with_cows` after the first `n` frames: sampled frames with at least one subject. */
  function WithSubjects(frames: seq<seq<DetResult>>, n: nat): nat
    requires n <= |frames|
  {
    if n == 0 then 0
    else WithSubjects(frames, n - 1) + (if Sampled(n - 1) && CowCount(frames[n - 1]) > 0 then 1 else 0)
  }

  /** The verdict of a full scan: the video opens and its sampled maximum is exactly one. */
  predicate SingleSubject(opens: bool, frames: seq<seq<DetResult>>) {
    opens && MaxSampled(frames, |frames|) == 1
  }

  /** The running maximum never decreases as more frames are read. */
  lemma {:induction false} MaxSampledMonotone(frames: seq<seq<DetResult>>, n: nat, m: nat)
    requires n <= m <= |frames|
    ensures MaxSampled(frames, n) <= MaxSampled(frames, m)
    decreases m
  {
    if n < m {
      MaxSampledMonotone(frames, n, m - 1);
    }
  }

  /** The running maximum bounds every sampled count read so far. */
  lemma {:induction false} MaxSampledBounds(frames: seq<seq<DetResult>>, n: nat)
    requires n <= |frames|
    ensures forall k :: 0 <= k < n && Sampled(k) ==> CowCount(frames[k]) <= MaxSampled(frames, n)
    decreases n
  {
    if n > 0 {
      MaxSampledBounds(frames, n - 1);
      var m, c := MaxSampled(frames, n - 1), CowCount(frames[n - 1]);
      assert MaxSampled(frames, n) == if Sampled(n - 1) && c > m then c else m;
    }
  }

  /** Unless it is 0, the running maximum is the count of some sampled frame read so far. */
  lemma {:induction false} MaxSampledAttained(frames: seq<seq<DetResult>>, n: nat)
    requires n <= |frames|
    ensures MaxSampled(frames, n) == 0 ||
      exists k :: 0 <= k < n && Sampled(k) && CowCount(frames[k]) == MaxSampled(frames, n)
    decreases n
  {
    if n > 0 {
      MaxSampledAttained(frames, n - 1);
      var m, c := MaxSampled(frames, n - 1), CowCount(frames[n - 1]);
      assert MaxSampled(frames, n) == if Sampled(n - 1) && c > m then c else m;
      if Sampled(n - 1) && c > m {
        assert CowCount(frames[n - 1]) == MaxSampled(frames, n);
      } else if m > 0 {
        var k :| 0 <= k < n - 1 && Sampled(k) && CowCount(frames[k]) == m;
        assert 0 <= k < n && Sampled(k) && CowCount(frames[k]) == MaxSampled(frames, n);
      }
    }
  }

  /**
   * The running maximum bounds every sampled count read so far and, unless
   * it is 0, is the count of one of them.
   */
  lemma MaxSampledIsMax(frames: seq<seq<DetResult>>, n: nat)
    requires n <= |frames|
    ensures forall k :: 0 <= k < n && Sampled(k) ==> CowCount(frames[k]) <= MaxSampled(frames, n)
    ensures MaxSampled(frames, n) == 0 ||
      exists k :: 0 <= k < n && Sampled(k) && CowCount(frames[k]) == MaxSampled(frames, n)
  {
    MaxSampledBounds(frames, n);
    MaxSampledAttained(frames, n);
  }

  /**
   * src/scanner.py lines 63-64, 70-71 and 79: once the running maximum exceeds one the
   * answer is already "no", so stopping there agrees with a full scan.
   */
  lemma EarlyExitAgrees(opens: bool, frames: seq<seq<DetResult>>, n: nat)
    requires n <= |frames| && MaxSampled(frames, n) > 1
    ensures !SingleSubject(opens, frames)
  {
    MaxSampledMonotone(frames, n, |frames|);
  }

  /**
   * The verdict in terms of the sampled frames alone: the video opens, some
   * sampled frame shows exactly one subject, and none shows more than one.
   */
  lemma SingleSubjectIff(opens: bool, frames: seq<seq<DetResult>>)
    ensures SingleSubject(opens, frames) <==>
      && opens
      && (exists k :: 0 <= k < |frames| && Sampled(k) && CowCount(frames[k]) == 1)
      && (forall k :: 0 <= k < |frames| && Sampled(k) ==> CowCount(frames[k]) <= 1)
  {
    MaxSampledIsMax(frames, |frames|);
  }

  /** Sampled frames with no tracked subject at all, or a video that does not open, never qualify. */
  lemma NoSubjectRejected(opens: bool, frames: seq<seq<DetResult>>)
    requires !opens || forall k :: 0 <= k < |frames| && Sampled(k) ==> CowCount(frames[k]) == 0
    ensures !SingleSubject(opens, frames)
  {
    MaxSampledIsMax(frames, |frames|);
  }

  /** A sampled frame with two or more subjects rules the video out. */
  lemma CrowdedFrameRejected(opens: bool, frames: seq<seq<DetResult>>, k: nat)
    requires k < |frames| && Sampled(k) && CowCount(frames[k]) >= 2
    ensures !SingleSubject(opens, frames)
  {
    MaxSampledIsMax(frames, |frames|);
  }

  lemma {:induction false} SameSampledCounts(f1: seq<seq<DetResult>>, f2: seq<seq<DetResult>>, n: nat)
    requires n <= |f1| == |f2|
    requires forall k :: 0 <= k < |f1| && Sampled(k) ==> CowCount(f1[k]) == CowCount(f2[k])
    ensures MaxSampled(f1, n) == MaxSampled(f2, n)
    decreases n
  {
    if n > 0 {
      SameSampledCounts(f1, f2, n - 1);
    }
  }

  /**
   * What the tracker reports on frames between samples never matters: a
   * second subject that appears only there goes unnoticed.
   */
  lemma UnsampledFramesIgnored(opens: bool, f1: seq<seq<DetResult>>, f2: seq<seq<DetResult>>)
    requires |f1| == |f2|
    requires forall k :: 0 <= k < |f1| && Sampled(k) ==> CowCount(f1[k]) == CowCount(f2[k])
    ensures SingleSubject(opens, f1) == SingleSubject(opens, f2)
  {
    SameSampledCounts(f1, f2, |f1|);
  }

  /** A frame result with `n` tracked boxes. */
  function Tracking(n: nat): (r: seq<DetResult>)
    ensures CowCount(r) == n
  {
    [DetResult(Some(BoxSet(seq(n, _ => RealBox(0.0, 0.0, 1.0, 1.0)), Some(seq(n, j => j)))), None)]
  }

  /** Two subjects on frame 1 only (not sampled) still leave a one-subject verdict. */
  lemma SecondSubjectBetweenSamplesMissed()
    ensures SingleSubject(true, [Tracking(1), Tracking(2)])
  {
    var frames := [Tracking(1), Tracking(2)];
    assert MaxSampled(frames, 1) == 1;
    assert !Sampled(1);
  }

  /**
   * `is_single_cow_video`: read frames in order, pass every fifth one to the
   * tracker, keep the running maximum and the number of sampled frames with
   * a subject, and stop as soon as the maximum exceeds one. A video that does
   * not open is rejected.
   */
  method IsSingleSubjectVideo(opens: bool, frames: seq<seq<DetResult>>) returns (single: bool)
    ensures single == SingleSubject(opens, frames)
  {
    if !opens {
      return false;
    }
    var maxCount := 0;
    var withSubjects := 0;
    var frameIdx := 0;
    while frameIdx < |frames|
      invariant 0 <= frameIdx <= |frames|
      invariant maxCount == MaxSampled(frames, frameIdx) && maxCount <= 1
      invariant withSubjects == WithSubjects(frames, frameIdx)
    {
      if frameIdx % SkipFrames == 0 {
        var count := CowCount(frames[frameIdx]);
        if count > maxCount {
          maxCount := count;
        }
        if count > 0 {
          withSubjects := withSubjects + 1;
        }
        if maxCount > 1 {
          EarlyExitAgrees(opens, frames, frameIdx + 1);
          break;
        }
      }
      frameIdx := frameIdx + 1;
    }
    single := maxCount == 1;
  }

  // ---------------------------------------------------------------------------
  // scan_and_filter
  // ---------------------------------------------------------------------------

  /** A listed video: its path, whether it opens, and what the tracker reports for each frame. */
  datatype ScanVideo = ScanVideo(path: string, opens: bool, frames: seq<seq<DetResult>>)

  /** The paths `scan_and_filter` returns: qualifying videos whose copy succeeds, in input order. */
  function Selected(videos: seq<ScanVideo>, copyOk: string -> bool): seq<string>
  {
    if videos == [] then []
    else
      var v := videos[|videos| - 1];
      Selected(videos[..|videos| - 1], copyOk)
        + (if SingleSubject(v.opens, v.frames) && copyOk(v.path) then [v.path] else [])
  }

  /** Video `i` of the list has path `p`, qualifies, and its copy succeeds. */
  predicate CopiedAt(videos: seq<ScanVideo>, copyOk: string -> bool, p: string, i: int) {
    0 <= i < |videos| && videos[i].path == p && SingleSubject(videos[i].opens, videos[i].frames) && copyOk(p)
  }

  /** The last video adds its own path, if it qualifies, to what the others return. */
  lemma SelectedStep(videos: seq<ScanVideo>, copyOk: string -> bool)
    requires videos != []
    ensures forall p :: p in Selected(videos, copyOk) <==>
      p in Selected(videos[..|videos| - 1], copyOk) || CopiedAt(videos, copyOk, p, |videos| - 1)
  {
  }

  /**
   * A path is returned exactly when some listed video with that path
   * qualifies and its copy succeeds; no more paths than videos come back.
   */
  lemma {:induction false} SelectedMembers(videos: seq<ScanVideo>, copyOk: string -> bool)
    ensures |Selected(videos, copyOk)| <= |videos|
    ensures forall p :: p in Selected(videos, copyOk) <==> exists i :: CopiedAt(videos, copyOk, p, i)
    decreases |videos|
  {
    if videos != [] {
      var front := videos[..|videos| - 1];
      SelectedMembers(front, copyOk);
      SelectedStep(videos, copyOk);
      forall p
        ensures p in Selected(videos, copyOk) <==> exists i :: CopiedAt(videos, copyOk, p, i)
      {
        if p in Selected(front, copyOk) {
          var i :| CopiedAt(front, copyOk, p, i);
          assert videos[i] == front[i];
          assert CopiedAt(videos, copyOk, p, i);
        }
        if exists i :: CopiedAt(videos, copyOk, p, i) {
          var i :| CopiedAt(videos, copyOk, p, i);
          if i < |front| {
            assert front[i] == videos[i];
            assert CopiedAt(front, copyOk, p, i);
          }
        }
      }
    }
  }

  /** The file names the single-subject folder gains: the basename of each returned path. */
  function CopiedNames(selected: seq<string>): set<string> {
    set p | p in selected :: Basename(p)
  }

  /** One more listed video adds its path, if it qualifies and is copied, to what the earlier ones return. */
  lemma SelectedPrefixStep(videos: seq<ScanVideo>, copyOk: string -> bool, i: nat)
    requires i < |videos|
    ensures Selected(videos[..i + 1], copyOk) == Selected(videos[..i], copyOk)
      + (if SingleSubject(videos[i].opens, videos[i].frames) && copyOk(videos[i].path) then [videos[i].path] else [])
  {
    assert videos[..i + 1][..i] == videos[..i] && videos[..i + 1][i] == videos[i];
  }

  /** Returning one more path adds its basename to the copied names. */
  lemma CopiedNamesAppend(selected: seq<string>, p: string)
    ensures CopiedNames(selected + [p]) == CopiedNames(selected) + {Basename(p)}
  {
    assert forall q :: q in selected + [p] <==> q in selected || q == p;
  }

  /**
   * `scan_and_filter`: classify every listed video in order; copy each
   * qualifying one into the single-subject folder under its basename
   * (`copyOk` says whether `shutil.copy2` succeeds for a path) and return it
   * only when the copy succeeded; a failed copy does not stop the scan.
   */
  method ScanAndFilter(videos: seq<ScanVideo>, copyOk: string -> bool, folder: set<string>)
    returns (selected: seq<string>, folderAfter: set<string>)
    ensures selected == Selected(videos, copyOk)
    ensures folderAfter == folder + CopiedNames(selected)
  {
    selected := [];
    folderAfter := folder;
    var i := 0;
    while i < |videos|
      invariant 0 <= i <= |videos|
      invariant selected == Selected(videos[..i], copyOk)
      invariant folderAfter == folder + CopiedNames(selected)
    {
      SelectedPrefixStep(videos, copyOk, i);
      var v := videos[i];
      var single := IsSingleSubjectVideo(v.opens, v.frames);
      if single {
        if copyOk(v.path) {
          CopiedNamesAppend(selected, v.path);
          folderAfter := folderAfter + {Basename(v.path)};
          selected := selected + [v.path];
        }
      }
      i := i + 1;
    }
    assert videos[..i] == videos;
  }
}
