/**
 * The track writer manager of src/writer.py. One sink per track id is opened
 * lazily at a temporary path; `close_all` keeps each track whose duration
 * reaches the minimum, giving it the next `cow_NNNN` name, and deletes the
 * others. The output directory is a map from file name to the frames the
 * file holds; file operations that fail are named by a set of `stuck` paths.
 */
module Writer {
  import opened Text

  /**
   * One live track: the frames its VideoWriter has received (`sink`), its
   * temporary file, its frame rate and its frame count.
   */
  datatype TrackInfo<F> = TrackInfo(sink: seq<F>, tempPath: string, fps: real, frameCount: nat)

  /** The output directory: file name -> frames stored in that file. */
  type Disk<F> = map<string, seq<F>>

  /** The manager's fields: `current_video_writers` (with its key order), `global_cow_counter`, and the directory. */
  datatype WriterState<F> = WriterState(tracks: map<int, TrackInfo<F>>, order: seq<int>, counter: nat, disk: Disk<F>)

  const FallbackFps: real := 30.0

  // ---------------------------------------------------------------------------
  // File names
  // ---------------------------------------------------------------------------

  /** `temp_{track_id}_{random hex}{ext}` */
  function TempName(id: int, suffix: string, ext: string): string {
    "temp_" + Decimal(id) + "_" + suffix + ext
  }

  predicate IsTempName(p: string) {
    |p| >= 5 && p[..5] == "temp_"
  }

  /** In a temporary name the id runs from index 5 up to the next `_`. */
  lemma TempNameShape(id: int, suffix: string, ext: string)
    ensures var n, d := TempName(id, suffix, ext), Decimal(id);
      && 5 + |d| < |n| && n[5 + |d|] == '_' && n[5..5 + |d|] == d
      && forall j :: 5 <= j < 5 + |d| ==> n[j] != '_'
  {
    var n, d := TempName(id, suffix, ext), Decimal(id);
    assert n == "temp_" + d + ("_" + suffix + ext);
    forall j | 5 <= j < 5 + |d|
      ensures n[j] != '_'
    {
      assert n[j] == d[j - 5];
    }
  }

  /** Distinct track ids give distinct temporary names, whatever their random suffixes. */
  lemma TempNameInjective(a: int, b: int, s: string, t: string, ext: string)
    requires TempName(a, s, ext) == TempName(b, t, ext)
    ensures a == b
  {
    TempNameShape(a, s, ext);
    TempNameShape(b, t, ext);
    var da, db := Decimal(a), Decimal(b);
    assert |da| == |db|;
    DecimalInjective(a, b);
  }

  /** `cow_{n:04d}{ext}`: the name `get_next_filename` gives the n-th kept track. */
  function ArtifactName(n: nat, ext: string): string {
    "cow_" + ZeroPad(n, 4) + ext
  }

  /** Distinct counter values give distinct artifact names, and none is a temporary name. */
  lemma ArtifactNameInjective(a: nat, b: nat, ext: string)
    ensures ArtifactName(a, ext) == ArtifactName(b, ext) <==> a == b
    ensures !IsTempName(ArtifactName(a, ext))
  {
    var na, nb := ArtifactName(a, ext), ArtifactName(b, ext);
    assert na[0] == 'c';
    if na == nb {
      ZeroPadRoundTrip(a, 4);
      ZeroPadRoundTrip(b, 4);
      var pa, pb := ZeroPad(a, 4), ZeroPad(b, 4);
      assert |pa| == |na| - 4 - |ext| == |pb|;
      assert pa == na[4..4 + |pa|];
      assert pb == nb[4..4 + |pb|];
      ZeroPadInjective(a, b, 4);
    }
  }

  // ---------------------------------------------------------------------------
  // Well-formed states
  // ---------------------------------------------------------------------------

  predicate NoDuplicates(s: seq<int>) {
    forall i, j :: 0 <= i < j < |s| ==> s[i] != s[j]
  }

  /** A live track has received at least one frame, has a positive rate and a temporary name. */
  predicate TrackOk<F>(t: TrackInfo<F>) {
    && t.frameCount == |t.sink|
    && t.frameCount >= 1
    && t.fps > 0.0
    && IsTempName(t.tempPath)
  }

  /** The key order lists every live track exactly once, and every live track is TrackOk. */
  ghost predicate WellFormed<F>(ws: WriterState<F>) {
    && (forall id :: id in ws.tracks <==> id in ws.order)
    && (forall k :: 0 <= k < |ws.order| ==> ws.order[k] in ws.tracks)
    && NoDuplicates(ws.order)
    && (forall id :: id in ws.tracks ==> TrackOk(ws.tracks[id]))
  }

  // ---------------------------------------------------------------------------
  // write_frame
  // ---------------------------------------------------------------------------

  /**
   * The state after the `if track_id not in current_video_writers` block: a new
   * id gets a fresh sink (created empty on disk) with frame count 0, and a
   * non-positive rate is replaced by 30.
   */
  function Opened<F>(ws: WriterState<F>, id: int, fps: real, suffix: string, ext: string): WriterState<F> {
    if id in ws.tracks then ws
    else
      var path := TempName(id, suffix, ext);
      var rate := if fps <= 0.0 then FallbackFps else fps;
      ws.(tracks := ws.tracks[id := TrackInfo([], path, rate, 0)],
          order := ws.order + [id],
          disk := ws.disk[path := []])
  }

  /** `write_frame(track_id, frame, fps)`: open the sink if needed, then append the frame and count it. */
  function WriteStep<F>(ws: WriterState<F>, id: int, frame: F, fps: real, suffix: string, ext: string): WriterState<F> {
    var o := Opened(ws, id, fps, suffix, ext);
    var t := o.tracks[id];
    o.(tracks := o.tracks[id := t.(sink := t.sink + [frame], frameCount := t.frameCount + 1)])
  }

  /**
   * The first write for an unseen id inserts it at the end of the key order
   * with one frame and its fallback-adjusted rate; nothing else changes but
   * the new (empty) temporary file.
   */
  lemma WriteFirstFrame<F>(ws: WriterState<F>, id: int, frame: F, fps: real, suffix: string, ext: string)
    requires WellFormed(ws) && id !in ws.tracks
    ensures var r := WriteStep(ws, id, frame, fps, suffix, ext);
      && WellFormed(r)
      && r.tracks.Keys == ws.tracks.Keys + {id}
      && r.order == ws.order + [id]
      && r.tracks[id].frameCount == 1 && r.tracks[id].sink == [frame]
      && r.tracks[id].fps == (if fps <= 0.0 then 30.0 else fps)
      && r.tracks[id].tempPath == TempName(id, suffix, ext)
      && (forall other :: other in ws.tracks ==> r.tracks[other] == ws.tracks[other])
      && r.counter == ws.counter
      && r.disk == ws.disk[TempName(id, suffix, ext) := []]
  {
    var r := WriteStep(ws, id, frame, fps, suffix, ext);
    forall i, j | 0 <= i < j < |r.order| ensures r.order[i] != r.order[j] {
      if j == |ws.order| {
        assert r.order[i] == ws.order[i] && ws.order[i] in ws.tracks;
      }
    }
    assert IsTempName(TempName(id, suffix, ext));
  }

  /**
   * A later write for a live id adds one frame to that track alone; its rate,
   * the key order, the counter and the directory are unchanged, whatever rate
   * the caller passes.
   */
  lemma WriteRepeatedFrame<F>(ws: WriterState<F>, id: int, frame: F, fps: real, suffix: string, ext: string)
    requires WellFormed(ws) && id in ws.tracks
    ensures var r := WriteStep(ws, id, frame, fps, suffix, ext);
      && WellFormed(r)
      && r.tracks.Keys == ws.tracks.Keys
      && r.order == ws.order && r.counter == ws.counter && r.disk == ws.disk
      && r.tracks[id].frameCount == ws.tracks[id].frameCount + 1
      && r.tracks[id].sink == ws.tracks[id].sink + [frame]
      && r.tracks[id].fps == ws.tracks[id].fps
      && r.tracks[id].tempPath == ws.tracks[id].tempPath
      && (forall other :: other in ws.tracks && other != id ==> r.tracks[other] == ws.tracks[other])
  {
  }

  // ---------------------------------------------------------------------------
  // close_all
  // ---------------------------------------------------------------------------

  /** `frame_count / fps if fps > 0 else 0` */
  function Duration<F>(t: TrackInfo<F>): real {
    if t.fps > 0.0 then t.frameCount as real / t.fps else 0.0
  }

  /** The duration gate of close_all. */
  predicate Keeps<F>(t: TrackInfo<F>, minDuration: real) {
    Duration(t) >= minDuration
  }

  /** `os.path.exists(p)` followed by an `os.remove(p)` whose OSError is ignored. */
  function Remove<F>(disk: Disk<F>, stuck: set<string>, p: string): Disk<F> {
    if p in disk && p !in stuck then disk - {p} else disk
  }

  /** `shutil.move(src, dst)` whose OSError is ignored: all or nothing, overwriting `dst`. */
  function Move<F>(disk: Disk<F>, stuck: set<string>, src: string, dst: string): Disk<F> {
    if src in disk && src !in stuck && dst !in stuck then (disk - {src})[dst := disk[src]] else disk
  }

  /** The directory and the counter, the part of the state close_all changes as it goes. */
  datatype Store<F> = Store(disk: Disk<F>, counter: nat)

  /**
   * One iteration of close_all's loop: release the writer (its frames land in
   * the temporary file), then either take the next counter value and move the
   * file to that name, or delete it.
   */
  function Finish<F>(t: TrackInfo<F>, st: Store<F>, stuck: set<string>, minDuration: real, ext: string): Store<F> {
    var released := st.disk[t.tempPath := t.sink];
    if Keeps(t, minDuration) then
      var n := st.counter + 1;
      var final := ArtifactName(n, ext);
      Store(Move(Remove(released, stuck, final), stuck, t.tempPath, final), n)
    else
      Store(Remove(released, stuck, t.tempPath), st.counter)
  }

  /** close_all's loop over the tracks, in key order. */
  function FlushAll<F>(infos: seq<TrackInfo<F>>, st: Store<F>, stuck: set<string>, minDuration: real, ext: string): Store<F>
    decreases |infos|
  {
    if infos == [] then st
    else FlushAll(infos[1..], Finish(infos[0], st, stuck, minDuration, ext), stuck, minDuration, ext)
  }

  /** Flushing from track `i` on is finishing track `i`, then flushing the rest. */
  lemma FlushAllStep<F>(infos: seq<TrackInfo<F>>, i: nat, st: Store<F>, stuck: set<string>, minDuration: real, ext: string)
    requires i < |infos|
    ensures FlushAll(infos[i..], st, stuck, minDuration, ext)
         == FlushAll(infos[i + 1..], Finish(infos[i], st, stuck, minDuration, ext), stuck, minDuration, ext)
  {
    assert infos[i..][0] == infos[i] && infos[i..][1..] == infos[i + 1..];
  }

  /** The live tracks in key order (Python dict iteration order). */
  function Infos<F>(ws: WriterState<F>): (infos: seq<TrackInfo<F>>)
    requires forall k :: 0 <= k < |ws.order| ==> ws.order[k] in ws.tracks
    ensures |infos| == |ws.order|
    ensures forall k :: 0 <= k < |ws.order| ==> infos[k] == ws.tracks[ws.order[k]]
  {
    seq(|ws.order|, k requires 0 <= k < |ws.order| => ws.tracks[ws.order[k]])
  }

  /** `close_all()`: flush every track in key order, then clear the map. */
  function CloseAllStep<F>(ws: WriterState<F>, stuck: set<string>, minDuration: real, ext: string): WriterState<F>
    requires WellFormed(ws)
  {
    var st := FlushAll(Infos(ws), Store(ws.disk, ws.counter), stuck, minDuration, ext);
    WriterState(map[], [], st.counter, st.disk)
  }

  /** How many of the tracks pass the duration gate. */
  function KeptCount<F>(infos: seq<TrackInfo<F>>, minDuration: real): (n: nat)
    ensures n <= |infos|
    decreases |infos|
  {
    if infos == [] then 0
    else (if Keeps(infos[0], minDuration) then 1 else 0) + KeptCount(infos[1..], minDuration)
  }

  /**
   * The counter grows by exactly the number of kept tracks: each kept track
   * consumes one value, a discarded one none, and nothing resets it.
   */
  lemma {:induction false} FlushCounter<F>(infos: seq<TrackInfo<F>>, st: Store<F>, stuck: set<string>, minDuration: real, ext: string)
    ensures FlushAll(infos, st, stuck, minDuration, ext).counter == st.counter + KeptCount(infos, minDuration)
    decreases |infos|
  {
    if infos != [] {
      FlushCounter(infos[1..], Finish(infos[0], st, stuck, minDuration, ext), stuck, minDuration, ext);
    }
  }

  /** An artifact name already used (numbered at most the counter) survives the rest of the flush. */
  lemma {:induction false} FlushKeepsEarlierArtifact<F>(infos: seq<TrackInfo<F>>, st: Store<F>, stuck: set<string>,
                                                        minDuration: real, ext: string, m: nat)
    requires forall k :: 0 <= k < |infos| ==> IsTempName(infos[k].tempPath)
    requires m <= st.counter && ArtifactName(m, ext) in st.disk
    ensures var r := FlushAll(infos, st, stuck, minDuration, ext);
      ArtifactName(m, ext) in r.disk && r.disk[ArtifactName(m, ext)] == st.disk[ArtifactName(m, ext)]
    decreases |infos|
  {
    if infos != [] {
      var t := infos[0];
      var p := ArtifactName(m, ext);
      ArtifactNameInjective(m, st.counter + 1, ext);
      assert t.tempPath != p;
      var st' := Finish(t, st, stuck, minDuration, ext);
      assert p in st'.disk && st'.disk[p] == st.disk[p];
      FlushKeepsEarlierArtifact(infos[1..], st', stuck, minDuration, ext, m);
    }
  }

  /** FlushNumbering for the first track: it becomes the file numbered `counter + 1`. */
  lemma FlushNumberingFirst<F>(infos: seq<TrackInfo<F>>, st: Store<F>, minDuration: real, ext: string)
    requires forall j :: 0 <= j < |infos| ==> IsTempName(infos[j].tempPath)
    requires 0 < |infos| && Keeps(infos[0], minDuration)
    ensures var r := FlushAll(infos, st, {}, minDuration, ext);
      var name := ArtifactName(st.counter + 1, ext);
      name in r.disk && r.disk[name] == infos[0].sink
  {
    var t := infos[0];
    var st' := Finish(t, st, {}, minDuration, ext);
    var n := st.counter + 1;
    ArtifactNameInjective(n, n, ext);
    assert st'.disk[ArtifactName(n, ext)] == t.sink;
    FlushKeepsEarlierArtifact(infos[1..], st', {}, minDuration, ext, n);
  }

  /**
   * With no failing file operation, the k-th track (in key order) that passes
   * the gate ends up as the file numbered `counter + (kept tracks before it) + 1`,
   * holding exactly the frames written to that track.
   */
  lemma {:induction false} FlushNumbering<F>(infos: seq<TrackInfo<F>>, st: Store<F>, minDuration: real, ext: string, k: nat)
    requires forall j :: 0 <= j < |infos| ==> IsTempName(infos[j].tempPath)
    requires k < |infos| && Keeps(infos[k], minDuration)
    ensures var r := FlushAll(infos, st, {}, minDuration, ext);
      var name := ArtifactName(st.counter + KeptCount(infos[..k], minDuration) + 1, ext);
      name in r.disk && r.disk[name] == infos[k].sink
    decreases |infos|
  {
    var t := infos[0];
    var st' := Finish(t, st, {}, minDuration, ext);
    assert FlushAll(infos, st, {}, minDuration, ext) == FlushAll(infos[1..], st', {}, minDuration, ext);
    if k == 0 {
      assert infos[..0] == [];
      FlushNumberingFirst(infos, st, minDuration, ext);
    } else {
      assert infos[..k][0] == t && infos[..k][1..] == infos[1..][..k - 1] && infos[1..][k - 1] == infos[k];
      assert KeptCount(infos[..k], minDuration)
          == (if Keeps(t, minDuration) then 1 else 0) + KeptCount(infos[1..][..k - 1], minDuration);
      assert st'.counter == st.counter + (if Keeps(t, minDuration) then 1 else 0);
      FlushNumbering(infos[1..], st', minDuration, ext, k - 1);
    }
  }

  /** A temporary path absent from the directory stays absent unless a later track re-creates it. */
  lemma {:induction false} FlushKeepsTempAbsent<F>(infos: seq<TrackInfo<F>>, st: Store<F>, minDuration: real, ext: string, p: string)
    requires IsTempName(p) && p !in st.disk
    requires forall j :: 0 <= j < |infos| ==> infos[j].tempPath != p
    ensures p !in FlushAll(infos, st, {}, minDuration, ext).disk
    decreases |infos|
  {
    if infos != [] {
      ArtifactNameInjective(st.counter + 1, st.counter + 1, ext);
      FlushKeepsTempAbsent(infos[1..], Finish(infos[0], st, {}, minDuration, ext), minDuration, ext, p);
    }
  }

  /**
   * With no failing file operation, no temporary file survives a flush: a
   * discarded track's file is deleted and a kept track's file is renamed.
   */
  lemma {:induction false} FlushLeavesNoTemp<F>(infos: seq<TrackInfo<F>>, st: Store<F>, minDuration: real, ext: string, k: nat)
    requires forall j :: 0 <= j < |infos| ==> IsTempName(infos[j].tempPath)
    requires k < |infos|
    ensures infos[k].tempPath !in FlushAll(infos, st, {}, minDuration, ext).disk
    decreases |infos|
  {
    var t := infos[0];
    var st' := Finish(t, st, {}, minDuration, ext);
    if k == 0 {
      ArtifactNameInjective(st.counter + 1, st.counter + 1, ext);
      assert t.tempPath !in st'.disk;
      if j :| 1 <= j < |infos| && infos[j].tempPath == t.tempPath {
        FlushLeavesNoTemp(infos[1..], st', minDuration, ext, j - 1);
      } else {
        FlushKeepsTempAbsent(infos[1..], st', minDuration, ext, t.tempPath);
      }
    } else {
      FlushLeavesNoTemp(infos[1..], st', minDuration, ext, k - 1);
    }
  }

  /**
   * The repository's own scenario: at 30 fps with a 0.5 s minimum, a 5-frame
   * track is dropped and a 20-frame track written after it becomes
   * `cow_0001.mp4`, holding its 20 frames, on a fresh counter.
   */
  lemma ShortTrackDroppedLongTrackKept<F>(short: seq<F>, long: seq<F>, s1: string, s2: string)
    requires |short| == 5 && |long| == 20
    ensures var a := TrackInfo(short, TempName(1, s1, ".mp4"), 30.0, 5);
      var b := TrackInfo(long, TempName(2, s2, ".mp4"), 30.0, 20);
      var r := FlushAll([a, b], Store(map[], 0), {}, 0.5, ".mp4");
      && r.counter == 1
      && "cow_0001.mp4" in r.disk && r.disk["cow_0001.mp4"] == long
      && a.tempPath !in r.disk && b.tempPath !in r.disk
      && r.disk.Keys == {"cow_0001.mp4"}
  {
    var a := TrackInfo(short, TempName(1, s1, ".mp4"), 30.0, 5);
    var b := TrackInfo(long, TempName(2, s2, ".mp4"), 30.0, 20);
    assert !Keeps(a, 0.5) && Keeps(b, 0.5);
    assert Digits(1) == "1";
    assert ArtifactName(1, ".mp4") == "cow_0001.mp4";
    assert b.tempPath[0] != "cow_0001.mp4"[0];
    var st0 := Store(map[], 0);
    var st1 := Finish(a, st0, {}, 0.5, ".mp4");
    assert st1 == st0;
    var st2 := Finish(b, st1, {}, 0.5, ".mp4");
    assert st2 == Store(map["cow_0001.mp4" := long], 1);
    assert [a, b][1..] == [b] && [b][1..] == [];
    assert FlushAll([a, b], st0, {}, 0.5, ".mp4") == FlushAll([b], st1, {}, 0.5, ".mp4") == st2;
  }

  // ---------------------------------------------------------------------------
  // The manager object
  // ---------------------------------------------------------------------------

  /**
   * `CowVideoWriterManager`. Paths are names inside its output directory;
   * MIN_TRACK_DURATION_SEC and VIDEO_EXT are fixed at construction.
   */
  class TrackWriterManager<F> {
    const minDuration: real
    const ext: string
    var counter: nat
    var tracks: map<int, TrackInfo<F>>
    var order: seq<int>
    var disk: Disk<F>

    function State(): WriterState<F>
      reads this
    {
      WriterState(tracks, order, counter, disk)
    }

    ghost predicate Valid()
      reads this
    {
      WellFormed(State())
    }

    /** A manager over an output directory whose existing files are `existing`. */
    constructor (existing: Disk<F>, minDuration: real, ext: string)
      ensures Valid() && this.minDuration == minDuration && this.ext == ext
      ensures State() == WriterState(map[], [], 0, existing)
    {
      this.minDuration := minDuration;
      this.ext := ext;
      counter := 0;
      tracks := map[];
      order := [];
      disk := existing;
    }

    /** `get_next_filename()`: advance the counter and name the file after its new value. */
    method GetNextFilename() returns (name: string)
      modifies this`counter
      ensures counter == old(counter) + 1
      ensures name == ArtifactName(counter, ext)
    {
      counter := counter + 1;
      name := "cow_" + ZeroPad(counter, 4) + ext;
    }

    /** `write_frame(track_id, frame, fps)`; `suffix` stands for `os.urandom(4).hex()`. */
    method WriteFrame(id: int, frame: F, fps: real, suffix: string)
      requires Valid()
      modifies this
      ensures Valid()
      ensures State() == WriteStep(old(State()), id, frame, fps, suffix, ext)
    {
      ghost var ws := State();
      if id !in tracks {
        var path := "temp_" + Decimal(id) + "_" + suffix + ext;
        var rate := fps;
        if rate <= 0.0 {
          rate := 30.0;
        }
        disk := disk[path := []];
        tracks := tracks[id := TrackInfo([], path, rate, 0)];
        order := order + [id];
      }
      var t := tracks[id];
      tracks := tracks[id := t.(sink := t.sink + [frame], frameCount := t.frameCount + 1)];
      if id in ws.tracks {
        WriteRepeatedFrame(ws, id, frame, fps, suffix, ext);
      } else {
        WriteFirstFrame(ws, id, frame, fps, suffix, ext);
      }
    }

    /**
     * One pass of close_all's loop for track `t`: release its writer, then
     * move the file to the next numbered name or delete it.
     */
    method FinishTrack(t: TrackInfo<F>, stuck: set<string>)
      modifies this`disk, this`counter
      ensures Store(disk, counter) == Finish(t, old(Store(disk, counter)), stuck, minDuration, ext)
    {
      disk := disk[t.tempPath := t.sink];
      ghost var released := disk;
      var duration := if t.fps > 0.0 then t.frameCount as real / t.fps else 0.0;
      if duration >= minDuration {
        var finalPath := GetNextFilename();
        if finalPath in disk && finalPath !in stuck {
          disk := disk - {finalPath};
        }
        assert disk == Remove(released, stuck, finalPath);
        if t.tempPath in disk && t.tempPath !in stuck && finalPath !in stuck {
          disk := (disk - {t.tempPath})[finalPath := disk[t.tempPath]];
        }
        assert disk == Move(Remove(released, stuck, finalPath), stuck, t.tempPath, finalPath);
      } else {
        if t.tempPath in disk && t.tempPath !in stuck {
          disk := disk - {t.tempPath};
        }
        assert disk == Remove(released, stuck, t.tempPath);
      }
    }

    /**
     * `close_all()`: release, gate and move or delete every track in key order,
     * swallowing failed file operations, then clear the map.
     */
    method CloseAll(stuck: set<string>)
      requires Valid()
      modifies this
      ensures Valid() && tracks == map[] && order == []
      ensures State() == CloseAllStep(old(State()), stuck, minDuration, ext)
    {
      ghost var infos := Infos(State());
      var i := 0;
      while i < |order|
        invariant 0 <= i <= |order|
        invariant tracks == old(tracks) && order == old(order)
        invariant FlushAll(infos[i..], Store(disk, counter), stuck, minDuration, ext)
               == FlushAll(infos, Store(old(disk), old(counter)), stuck, minDuration, ext)
      {
        ghost var before := Store(disk, counter);
        FinishTrack(tracks[order[i]], stuck);
        assert Store(disk, counter) == Finish(infos[i], before, stuck, minDuration, ext);
        FlushAllStep(infos, i, before, stuck, minDuration, ext);
        i := i + 1;
      }
      tracks := map[];
      order := [];
    }

    /** `reset_track_mapping()`: exactly `close_all()`; the counter is not reset. */
    method ResetTrackMapping(stuck: set<string>)
      requires Valid()
      modifies this
      ensures Valid() && tracks == map[] && order == []
      ensures State() == CloseAllStep(old(State()), stuck, minDuration, ext)
      ensures counter >= old(counter)
    {
      ghost var ws := State();
      CloseAll(stuck);
      FlushCounter(Infos(ws), Store(ws.disk, ws.counter), stuck, minDuration, ext);
    }
  }
}
