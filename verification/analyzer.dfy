/**
 * Frame segmentation and frame records (analyzer.py).
 *
 * A sound is cut into frames, either of a fixed even size or between consecutive beat
 * positions, and every frame becomes one row of the analysis table: the sound's id, a frame id
 * "<sound id>_f<k>", the file path, the frame's sample range and its feature columns. The
 * audio library's loader, beat tracker and descriptors are not modelled: decoded files are a
 * map from path to samples, beat positions are given, and the descriptors of a frame are
 * the result of a function `describe`, where `None` is the library's RuntimeError.
 */
module Analyzer {
  import opened Results
  import opened Slicing
  import Decimal

  type Sample = real

  /** One row of an analysis table. */
  datatype FrameRecord = FrameRecord(
    freesoundId: string,         // id of the sound the frame was cut from
    id: string,                  // "<freesoundId>_f<k>" for the k-th frame of that sound
    path: string,                // file the samples come from
    startSample: int,
    endSample: int,
    features: map<string, real>) // feature columns: "loudness", "mfcc_0", "mfcc_1", ...

  /** What the audio library reports for one frame: its loudness divided by the frame length, and its MFCC coefficients. */
  datatype Descriptors = Descriptors(loudness: real, mfcc: seq<real>)

  /** How a sound is cut into frames: by the frame size, or between the beat positions found in it (in samples). */
  datatype Segmentation = FixedSize | BeatSynced(beats: seq<int>)

  /** One row of the collection table that the analysis walks through. */
  datatype Sound = Sound(freesoundId: string, path: string)

  // ---------------------------------------------------------------------------------------
  // Frame boundaries

  /**
   * The frame size actually used for a file of `n` samples: the requested one, or the file
   * length when none is requested, raised to the next even number when odd.
   */
  function UsedFrameSize(frameSize: Option<int>, n: nat): (fs: int)
    ensures var requested := if frameSize.Some? then frameSize.value else n;
            fs % 2 == 0 && requested <= fs <= requested + 1
  {
    var requested := if frameSize.None? then n else frameSize.value;
    // Python's % floors and Dafny's is Euclidean: for the divisor 2 both give 0 or 1
    if requested % 2 != 0 then requested + 1 else requested
  }

  /**
   * `range(0, stop, step)`. A zero step is a ValueError; a negative step from 0 towards a
   * non-negative stop gives nothing.
   */
  function Range(stop: nat, step: int): Result<seq<int>> {
    if step == 0 then Err(ValueError)
    else if step < 0 then Ok([])
    else Ok(seq((stop + step - 1) / step, i => i * step))
  }

  /**
   * `range(0, stop, step)` with a positive step lists every multiple of `step` in
   * `[0, stop)` once, in ascending order, the `i`-th being `i * step`.
   */
  lemma RangeMultiples(stop: nat, step: int)
    requires step > 0
    ensures Range(stop, step).Ok?
    ensures var r := Range(stop, step).value;
            (forall x :: x in r <==> 0 <= x < stop && x % step == 0) &&
            (forall i :: 0 <= i < |r| ==> r[i] == i * step) &&
            (forall i, j :: 0 <= i < j < |r| ==> r[i] < r[j])
  {
    var r := Range(stop, step).value;
    forall i, j | 0 <= i < j < |r| ensures r[i] < r[j] {
      MulLt(i, j, step);
    }
    forall x | x in r ensures 0 <= x < stop && x % step == 0 {
      var i :| 0 <= i < |r| && r[i] == x;
      MultipleInRange(stop, step, i);
    }
    forall x | 0 <= x < stop && x % step == 0 ensures x in r {
      RangeHits(stop, step, x);
      assert r[x / step] == x;
    }
  }

  /** The number of elements of `range(0, stop, step)`, `ceil(stop / step)`, bounds `stop` from both sides. */
  lemma CeilingCount(stop: nat, step: int)
    requires step > 0
    ensures var count := (stop + step - 1) / step;
            count >= 0 && count * step >= stop && (count >= 1 ==> (count - 1) * step < stop)
    ensures stop == 0 <==> (stop + step - 1) / step == 0
  {
    var count := (stop + step - 1) / step;
    assert count * step + (stop + step - 1) % step == stop + step - 1;
    assert (count - 1) * step == count * step - step;
    if stop == 0 {
      DivOfSum(0, step - 1, step);
    } else if count <= 0 {
      MulLe(count, 0, step);
    }
  }

  lemma MultipleInRange(stop: nat, step: int, i: int)
    requires step > 0 && 0 <= i < (stop + step - 1) / step
    ensures 0 <= i * step < stop && (i * step) % step == 0
  {
    var count := (stop + step - 1) / step;
    CeilingCount(stop, step);
    MulLe(0, i, step);
    MulLe(i, count - 1, step);
    DivOfSum(i, 0, step);
  }

  lemma RangeHits(stop: nat, step: int, x: int)
    requires step > 0 && 0 <= x < stop && x % step == 0
    ensures 0 <= x / step < (stop + step - 1) / step && (x / step) * step == x
  {
    var count := (stop + step - 1) / step;
    var q := x / step;
    assert x == q * step;
    CeilingCount(stop, step);
    if q < 0 {
      MulLt(q, 0, step);
    }
    if q >= count {
      MulLe(count, q, step);
    }
  }

  // Facts of integer multiplication and division, proved without non-linear reasoning.

  lemma MulAtLeast(a: int, d: int)
    requires a >= 1 && d > 0
    ensures a * d >= d
    decreases a
  {
    if a > 1 {
      MulAtLeast(a - 1, d);
      assert a * d == (a - 1) * d + d;
    }
  }

  lemma MulLt(i: int, j: int, d: int)
    requires i < j && d > 0
    ensures i * d < j * d
  {
    MulAtLeast(j - i, d);
    assert j * d - i * d == (j - i) * d;
  }

  lemma MulLe(i: int, j: int, d: int)
    requires i <= j && d > 0
    ensures i * d <= j * d
  {
    if i < j {
      MulLt(i, j, d);
    }
  }

  lemma DivOfSum(q: int, r: int, d: int)
    requires d > 0 && 0 <= r < d
    ensures (q * d + r) / d == q && (q * d + r) % d == r
  {
    var x := q * d + r;
    var quotient, rest := x / d, x % d;
    assert quotient * d + rest == q * d + r;
    assert (quotient - q) * d == r - rest;
    if quotient - q >= 1 {
      MulAtLeast(quotient - q, d);
    } else if q - quotient >= 1 {
      MulAtLeast(q - quotient, d);
    }
  }

  /** Pairs the elements of `a` and `b` position by position, stopping at the shorter one (Python's `zip`). */
  function Zip<A, B>(a: seq<A>, b: seq<B>): (r: seq<(A, B)>)
    ensures |r| == Min(|a|, |b|)
    ensures forall i :: 0 <= i < |r| ==> r[i] == (a[i], b[i])
  {
    if a == [] || b == [] then [] else [(a[0], b[0])] + Zip(a[1..], b[1..])
  }

  /**
   * `zip(b[:-1], b[1:])`: every boundary paired with the next one, so that `n` boundaries
   * give `max(0, n - 1)` frames and the last boundary starts no frame.
   */
  function Pairs(b: seq<int>): (r: seq<(int, int)>)
    ensures |r| == Max(0, |b| - 1)
    ensures forall i :: 0 <= i < |r| ==> r[i] == (b[i], b[i + 1])
  {
    Zip(Slice(b, 0, -1), Slice(b, 1, |b|))
  }

  /** The `(start, end)` sample ranges of the frames of a file of `n` samples, in order, for frame size `fs`. */
  function FrameBounds(mode: Segmentation, n: nat, fs: int): Result<seq<(int, int)>>
  {
    match mode
    case BeatSynced(beats) => Ok(Pairs(beats))
    case FixedSize =>
      var starts :- Range(n, fs);
      Ok(Pairs(starts))
  }

  // ---------------------------------------------------------------------------------------
  // Frame records

  /** The frame id `f"{audio_id}_f{count}"`. */
  function FrameId(audioId: string, k: nat): string {
    audioId + "_f" + Decimal.NatToString(k)
  }

  /** The column name `f"mfcc_{j}"`. */
  function MfccName(j: nat): string {
    "mfcc_" + Decimal.NatToString(j)
  }

  /** A column name of the form "mfcc_...". */
  predicate IsMfccColumn(name: string) {
    |name| >= 5 && name[..5] == "mfcc_"
  }

  lemma FrameIdInjective(audioId: string, k: nat, l: nat)
    requires FrameId(audioId, k) == FrameId(audioId, l)
    ensures k == l
  {
    var n := |audioId| + 2;
    assert FrameId(audioId, k)[n..] == Decimal.NatToString(k);
    assert FrameId(audioId, l)[n..] == Decimal.NatToString(l);
    Decimal.NatToStringInjective(k, l);
  }

  lemma MfccNameInjective(j: nat, l: nat)
    requires MfccName(j) == MfccName(l)
    ensures j == l
  {
    assert MfccName(j)[5..] == Decimal.NatToString(j);
    assert MfccName(l)[5..] == Decimal.NatToString(l);
    Decimal.NatToStringInjective(j, l);
  }

  /** One column `mfcc_j` per coefficient, holding coefficient `j`. */
  function MfccColumns(coeffs: seq<real>): (columns: map<string, real>)
    ensures forall j :: 0 <= j < |coeffs| ==> MfccName(j) in columns && columns[MfccName(j)] == coeffs[j]
    ensures forall k :: k in columns ==> exists j :: 0 <= j < |coeffs| && k == MfccName(j)
    ensures forall k :: k in columns ==> IsMfccColumn(k)
  {
    if coeffs == [] then map[]
    else
      var last := |coeffs| - 1;
      var columns := MfccColumns(coeffs[..last])[MfccName(last) := coeffs[last]];
      assert forall j :: 0 <= j < last ==> MfccName(j) != MfccName(last) by {
        forall j | 0 <= j < last && MfccName(j) == MfccName(last) ensures false {
          MfccNameInjective(j, last);
        }
      }
      columns
  }

  /** The feature columns of one frame: "loudness" and one "mfcc_j" per coefficient, and nothing else. */
  function FeatureColumns(d: Descriptors): (columns: map<string, real>)
    ensures "loudness" in columns && columns["loudness"] == d.loudness
    ensures forall j :: 0 <= j < |d.mfcc| ==> MfccName(j) in columns && columns[MfccName(j)] == d.mfcc[j]
    ensures forall k :: k in columns ==> k == "loudness" || exists j :: 0 <= j < |d.mfcc| && k == MfccName(j)
    ensures forall k :: k in columns ==> k == "loudness" || IsMfccColumn(k)
  {
    assert forall j: nat :: MfccName(j) != "loudness" by {
      forall j: nat ensures MfccName(j) != "loudness" {
        assert MfccName(j)[0] == 'm';
      }
    }
    MfccColumns(d.mfcc)["loudness" := d.loudness]
  }

  /** The samples `audio[fstart:fend]` of one frame. */
  function FrameSamples(audio: seq<Sample>, bounds: (int, int)): seq<Sample> {
    Slice(audio, bounds.0, bounds.1)
  }

  /** The row of the `k`-th frame of the sound `audioId` stored at `path`. */
  function MakeRecord(audioId: string, path: string, k: nat, bounds: (int, int), d: Descriptors): FrameRecord {
    FrameRecord(audioId, FrameId(audioId, k), path, bounds.0, bounds.1, FeatureColumns(d))
  }

  /**
   * The rows of the frames `bounds` of one sound, in order, or RuntimeError as soon as the
   * library fails on a frame.
   */
  function DescribeFrames(
    audio: seq<Sample>, path: string, audioId: string, bounds: seq<(int, int)>,
    describe: seq<Sample> -> Option<Descriptors>): Result<seq<FrameRecord>>
    decreases |bounds|
  {
    if bounds == [] then Ok([])
    else
      var k := |bounds| - 1;
      var earlier :- DescribeFrames(audio, path, audioId, bounds[..k], describe);
      match describe(FrameSamples(audio, bounds[k]))
      case None => Err(RuntimeError)
      case Some(d) => Ok(earlier + [MakeRecord(audioId, path, k, bounds[k], d)])
  }

  /** Describing the frames succeeds exactly when the library describes every frame; otherwise it raises RuntimeError. */
  lemma {:induction false} DescribedFramesSucceed(
    audio: seq<Sample>, path: string, audioId: string, bounds: seq<(int, int)>,
    describe: seq<Sample> -> Option<Descriptors>)
    ensures var r := DescribeFrames(audio, path, audioId, bounds, describe);
            && (r.Ok? <==> forall k :: 0 <= k < |bounds| ==> describe(FrameSamples(audio, bounds[k])).Some?)
            && (r.Err? ==> r.error == RuntimeError)
    decreases |bounds|
  {
    if bounds != [] {
      var k := |bounds| - 1;
      DescribedFramesSucceed(audio, path, audioId, bounds[..k], describe);
      assert forall j :: 0 <= j < k ==> bounds[..k][j] == bounds[j];
    }
  }

  /** When describing the frames succeeds, the `k`-th row is built from the `k`-th frame's bounds and descriptors. */
  lemma {:induction false} DescribedFrames(
    audio: seq<Sample>, path: string, audioId: string, bounds: seq<(int, int)>,
    describe: seq<Sample> -> Option<Descriptors>)
    requires DescribeFrames(audio, path, audioId, bounds, describe).Ok?
    ensures var rows := DescribeFrames(audio, path, audioId, bounds, describe).value;
            && |rows| == |bounds|
            && forall k :: 0 <= k < |bounds| ==>
                 && describe(FrameSamples(audio, bounds[k])).Some?
                 && rows[k] == MakeRecord(audioId, path, k, bounds[k], describe(FrameSamples(audio, bounds[k])).value)
    decreases |bounds|
  {
    if bounds != [] {
      var k := |bounds| - 1;
      var earlier := DescribeFrames(audio, path, audioId, bounds[..k], describe).value;
      DescribedFrames(audio, path, audioId, bounds[..k], describe);
      var d := describe(FrameSamples(audio, bounds[k])).value;
      assert DescribeFrames(audio, path, audioId, bounds, describe).value == earlier + [MakeRecord(audioId, path, k, bounds[k], d)];
      forall j | 0 <= j < k
        ensures describe(FrameSamples(audio, bounds[j])).Some?
        ensures (earlier + [MakeRecord(audioId, path, k, bounds[k], d)])[j]
             == MakeRecord(audioId, path, j, bounds[j], describe(FrameSamples(audio, bounds[j])).value)
      {
        assert bounds[..k][j] == bounds[j];
      }
    }
  }

  /**
   * `analyze_sound(path, frame_size, audio_id, sync_with_beats)`: load the file, fix the
   * frame size, cut the frames and describe each one.
   */
  function SoundAnalysis(
    files: map<string, seq<Sample>>, path: string, frameSize: Option<int>, audioId: string,
    mode: Segmentation, describe: seq<Sample> -> Option<Descriptors>): Result<seq<FrameRecord>>
  {
    if path !in files then Err(RuntimeError)
    else
      var audio := files[path];
      var bounds :- FrameBounds(mode, |audio|, UsedFrameSize(frameSize, |audio|));
      DescribeFrames(audio, path, audioId, bounds, describe)
  }

  method AnalyzeSound(
    files: map<string, seq<Sample>>, path: string, frameSize: Option<int>, audioId: string,
    mode: Segmentation, describe: seq<Sample> -> Option<Descriptors>)
    returns (r: Result<seq<FrameRecord>>)
    ensures r == SoundAnalysis(files, path, frameSize, audioId, mode, describe)
  {
    if path !in files {
      return Err(RuntimeError);
    }
    var audio := files[path];
    var fs := UsedFrameSize(frameSize, |audio|);
    var framing := FrameBounds(mode, |audio|, fs);
    if framing.Err? {
      return Err(framing.error);
    }
    r := DescribeEachFrame(audio, path, audioId, framing.value, describe);
  }

  /** The frame loop of `analyze_sound`: one row per frame, in order, the loop ending at the first frame the library fails on. */
  method DescribeEachFrame(
    audio: seq<Sample>, path: string, audioId: string, bounds: seq<(int, int)>,
    describe: seq<Sample> -> Option<Descriptors>)
    returns (r: Result<seq<FrameRecord>>)
    ensures r == DescribeFrames(audio, path, audioId, bounds, describe)
  {
    var analysis: seq<FrameRecord> := [];
    var count := 0;
    while count < |bounds|
      invariant 0 <= count <= |bounds|
      invariant DescribeFrames(audio, path, audioId, bounds[..count], describe) == Ok(analysis)
    {
      var frame := FrameSamples(audio, bounds[count]);
      var descriptors := describe(frame);
      assert bounds[..count + 1][..count] == bounds[..count];
      if descriptors.None? {
        DescribeFramesStops(audio, path, audioId, bounds, count + 1, describe);
        return Err(RuntimeError);
      }
      analysis := analysis + [MakeRecord(audioId, path, count, bounds[count], descriptors.value)];
      count := count + 1;
    }
    assert bounds[..count] == bounds;
    return Ok(analysis);
  }

  /** Once the frames up to `i` fail to be described, so do all frames. */
  lemma {:induction false} DescribeFramesStops(
    audio: seq<Sample>, path: string, audioId: string, bounds: seq<(int, int)>, i: nat,
    describe: seq<Sample> -> Option<Descriptors>)
    requires i <= |bounds|
    requires DescribeFrames(audio, path, audioId, bounds[..i], describe).Err?
    ensures DescribeFrames(audio, path, audioId, bounds, describe)
         == DescribeFrames(audio, path, audioId, bounds[..i], describe)
    decreases |bounds| - i
  {
    if i < |bounds| {
      assert bounds[..i + 1][..i] == bounds[..i];
      DescribeFramesStops(audio, path, audioId, bounds, i + 1, describe);
    } else {
      assert bounds[..i] == bounds;
    }
  }

  /** `analyze_target`: the target is analysed like any sound, with its path as its id. */
  method AnalyzeTarget(
    files: map<string, seq<Sample>>, path: string, frameSize: Option<int>, mode: Segmentation,
    describe: seq<Sample> -> Option<Descriptors>)
    returns (r: Result<seq<FrameRecord>>)
    ensures r == SoundAnalysis(files, path, frameSize, path, mode, describe)
    ensures r.Ok? ==> forall k :: 0 <= k < |r.value| ==> r.value[k].freesoundId == path && r.value[k].path == path
  {
    r := AnalyzeSound(files, path, frameSize, path, mode, describe);
    if r.Ok? {
      SoundRecords(files, path, frameSize, path, mode, describe);
    }
  }

  // ---------------------------------------------------------------------------------------
  // Collection analysis

  /** The outcome of analysing one sound of the collection, with fixed-size frames. */
  function Outcome(
    files: map<string, seq<Sample>>, sound: Sound, frameSize: Option<int>,
    describe: seq<Sample> -> Option<Descriptors>): Result<seq<FrameRecord>>
  {
    SoundAnalysis(files, sound.path, frameSize, sound.freesoundId, FixedSize, describe)
  }

  /** The analysis of one sound, as a function of the sound. */
  function OutcomeOf(files: map<string, seq<Sample>>, frameSize: Option<int>, describe: seq<Sample> -> Option<Descriptors>): Sound -> Result<seq<FrameRecord>> {
    sound => Outcome(files, sound, frameSize, describe)
  }

  /** `f` applied to each element of `s`, in order. */
  function MapSeq<T, U>(f: T -> U, s: seq<T>): (r: seq<U>)
    ensures |r| == |s|
    ensures forall i :: 0 <= i < |s| ==> r[i] == f(s[i])
  {
    seq(|s|, i requires 0 <= i < |s| => f(s[i]))
  }

  /** Mapping distributes over concatenation. */
  lemma MapConcat<T, U>(f: T -> U, a: seq<T>, b: seq<T>)
    ensures MapSeq(f, a + b) == MapSeq(f, a) + MapSeq(f, b)
  {
    var whole := MapSeq(f, a + b);
    var parts := MapSeq(f, a) + MapSeq(f, b);
    forall k | 0 <= k < |whole| ensures whole[k] == parts[k] {
      if k < |a| {
        assert (a + b)[k] == a[k];
      } else {
        assert (a + b)[k] == b[k - |a|];
      }
    }
  }

  /** Mapping a sequence split around its `i`-th element, and with that element removed. */
  lemma MapAround<T, U>(f: T -> U, s: seq<T>, i: nat)
    requires i < |s|
    ensures MapSeq(f, s) == MapSeq(f, s[..i]) + ([f(s[i])] + MapSeq(f, s[i + 1..]))
    ensures MapSeq(f, s[..i] + s[i + 1..]) == MapSeq(f, s[..i]) + MapSeq(f, s[i + 1..])
  {
    assert s == s[..i] + ([s[i]] + s[i + 1..]);
    MapConcat(f, s[..i], [s[i]] + s[i + 1..]);
    MapConcat(f, [s[i]], s[i + 1..]);
    assert MapSeq(f, [s[i]]) == [f(s[i])];
    MapConcat(f, s[..i], s[i + 1..]);
  }

  /** The outcome of analysing each sound of the collection, in order. */
  function Outcomes(
    files: map<string, seq<Sample>>, sounds: seq<Sound>, frameSize: Option<int>,
    describe: seq<Sample> -> Option<Descriptors>): (outcomes: seq<Result<seq<FrameRecord>>>)
    ensures |outcomes| == |sounds|
    ensures forall i :: 0 <= i < |sounds| ==> outcomes[i] == Outcome(files, sounds[i], frameSize, describe)
  {
    MapSeq(OutcomeOf(files, frameSize, describe), sounds)
  }


  /**
   * How `analyze_collection` combines the outcomes of its sounds: the rows of the successful
   * ones, in order; an outcome that is a RuntimeError is skipped, any other error ends the
   * analysis with that error.
   */
  function Collect(outcomes: seq<Result<seq<FrameRecord>>>): Result<seq<FrameRecord>>
    decreases |outcomes|
  {
    if outcomes == [] then Ok([])
    else
      var before :- Collect(outcomes[..|outcomes| - 1]);
      match outcomes[|outcomes| - 1]
      case Ok(rows) => Ok(before + rows)
      case Err(RuntimeError) => Ok(before)
      case Err(e) => Err(e)
  }

  /** `analyze_collection`: the collected outcomes of the sounds of the collection. */
  function CollectionAnalysis(
    files: map<string, seq<Sample>>, sounds: seq<Sound>, frameSize: Option<int>,
    describe: seq<Sample> -> Option<Descriptors>): Result<seq<FrameRecord>>
  {
    Collect(Outcomes(files, sounds, frameSize, describe))
  }

  method AnalyzeCollection(
    files: map<string, seq<Sample>>, sounds: seq<Sound>, frameSize: Option<int>,
    describe: seq<Sample> -> Option<Descriptors>)
    returns (r: Result<seq<FrameRecord>>)
    ensures r == CollectionAnalysis(files, sounds, frameSize, describe)
  {
    ghost var outcomes := Outcomes(files, sounds, frameSize, describe);
    var analyses: seq<FrameRecord> := [];
    var i := 0;
    while i < |sounds|
      invariant 0 <= i <= |sounds|
      invariant Collect(outcomes[..i]) == Ok(analyses)
    {
      var sound := sounds[i];
      var analysis := AnalyzeSound(files, sound.path, frameSize, sound.freesoundId, FixedSize, describe);
      assert analysis == outcomes[i];
      CollectStep(outcomes, i);
      if analysis.Ok? {
        analyses := analyses + analysis.value;
      } else if analysis.error != RuntimeError {
        return Err(analysis.error);
      }
      i := i + 1;
    }
    assert outcomes[..i] == outcomes;
    return Ok(analyses);
  }

  /** One step of `analyze_collection`'s loop, from the outcomes of the first `i` sounds to those of the first `i + 1`. */
  lemma CollectStep(outcomes: seq<Result<seq<FrameRecord>>>, i: nat)
    requires i < |outcomes|
    ensures Collect(outcomes[..i]).Ok? && outcomes[i].Ok? ==>
              Collect(outcomes[..i + 1]) == Ok(Collect(outcomes[..i]).value + outcomes[i].value)
    ensures Collect(outcomes[..i]).Ok? && outcomes[i] == Err(RuntimeError) ==>
              Collect(outcomes[..i + 1]) == Collect(outcomes[..i])
    ensures Collect(outcomes[..i]).Ok? && Fatal(outcomes[i]) ==>
              Collect(outcomes) == Err(outcomes[i].error)
  {
    assert outcomes[..i + 1][..i] == outcomes[..i];
    CollectSplit(outcomes[..i + 1], outcomes[i + 1..]);
    assert outcomes[..i + 1] + outcomes[i + 1..] == outcomes;
  }

  /** Sequencing of two analyses: the first error, or the rows of both in order. */
  function Then(first: Result<seq<FrameRecord>>, second: Result<seq<FrameRecord>>): Result<seq<FrameRecord>> {
    if first.Err? then first
    else if second.Err? then second
    else Ok(first.value + second.value)
  }

  /**
   * Collecting the outcomes of a collection is collecting those of its first part, then
   * those of its second part: the rows come out in input order, and the first error of
   * either part wins.
   */
  lemma {:induction false} CollectSplit(a: seq<Result<seq<FrameRecord>>>, b: seq<Result<seq<FrameRecord>>>)
    ensures Collect(a + b) == Then(Collect(a), Collect(b))
    decreases |b|
  {
    if b == [] {
      assert a + b == a;
      if Collect(a).Ok? {
        assert Collect(a).value + [] == Collect(a).value;
      }
    } else {
      var last := |b| - 1;
      assert (a + b)[..|a + b| - 1] == a + b[..last];
      assert (a + b)[|a + b| - 1] == b[last];
      CollectSplit(a, b[..last]);
      if Collect(a).Ok? && Collect(b[..last]).Ok? && b[last].Ok? {
        var x, y, z := Collect(a).value, Collect(b[..last]).value, b[last].value;
        assert (x + y) + z == x + (y + z);
      }
    }
  }

  /** Outcomes of a collection split around its `i`-th sound. */
  lemma OutcomesAround(
    files: map<string, seq<Sample>>, sounds: seq<Sound>, i: nat, frameSize: Option<int>,
    describe: seq<Sample> -> Option<Descriptors>)
    requires i < |sounds|
    ensures Outcomes(files, sounds, frameSize, describe)
         == Outcomes(files, sounds[..i], frameSize, describe)
          + ([Outcome(files, sounds[i], frameSize, describe)] + Outcomes(files, sounds[i + 1..], frameSize, describe))
    ensures Outcomes(files, sounds[..i] + sounds[i + 1..], frameSize, describe)
         == Outcomes(files, sounds[..i], frameSize, describe) + Outcomes(files, sounds[i + 1..], frameSize, describe)
  {
    MapAround(OutcomeOf(files, frameSize, describe), sounds, i);
  }

  /** An outcome that is a RuntimeError is skipped: collecting is as if it were not there. */
  lemma CollectSkipsRuntimeError(
    before: seq<Result<seq<FrameRecord>>>, outcome: Result<seq<FrameRecord>>, after: seq<Result<seq<FrameRecord>>>)
    requires outcome == Err(RuntimeError)
    ensures Collect(before + ([outcome] + after)) == Collect(before + after)
  {
    CollectSplit(before, [outcome] + after);
    CollectSplit([outcome], after);
    assert [outcome][..0] == [];
    if Collect(after).Ok? {
      assert [] + Collect(after).value == Collect(after).value;
    }
    CollectSplit(before, after);
  }

  /** A successful outcome contributes its rows between those collected before and after it. */
  lemma CollectKeepsRows(
    before: seq<Result<seq<FrameRecord>>>, outcome: Result<seq<FrameRecord>>, after: seq<Result<seq<FrameRecord>>>)
    requires outcome.Ok?
    requires Collect(before + ([outcome] + after)).Ok?
    ensures Collect(before).Ok? && Collect(after).Ok?
    ensures Collect(before + ([outcome] + after)).value == Collect(before).value + outcome.value + Collect(after).value
  {
    CollectSplit(before, [outcome] + after);
    CollectSplit([outcome], after);
    assert [outcome][..0] == [];
    assert [] + outcome.value == outcome.value;
  }

  /** A sound whose analysis raises RuntimeError contributes no row: the result is that of the collection without it. */
  lemma FailingSoundSkipped(
    files: map<string, seq<Sample>>, sounds: seq<Sound>, i: nat, frameSize: Option<int>,
    describe: seq<Sample> -> Option<Descriptors>)
    requires i < |sounds|
    requires Outcome(files, sounds[i], frameSize, describe) == Err(RuntimeError)
    ensures CollectionAnalysis(files, sounds, frameSize, describe)
         == CollectionAnalysis(files, sounds[..i] + sounds[i + 1..], frameSize, describe)
  {
    OutcomesAround(files, sounds, i, frameSize, describe);
    CollectSkipsRuntimeError(
      Outcomes(files, sounds[..i], frameSize, describe), Outcome(files, sounds[i], frameSize, describe),
      Outcomes(files, sounds[i + 1..], frameSize, describe));
  }

  /** A sound whose analysis succeeds contributes exactly its own rows, between those of the sounds before and after it. */
  lemma AnalysedSoundKept(
    files: map<string, seq<Sample>>, sounds: seq<Sound>, i: nat, frameSize: Option<int>,
    describe: seq<Sample> -> Option<Descriptors>)
    requires i < |sounds|
    requires CollectionAnalysis(files, sounds, frameSize, describe).Ok?
    requires Outcome(files, sounds[i], frameSize, describe).Ok?
    ensures CollectionAnalysis(files, sounds[..i], frameSize, describe).Ok?
    ensures CollectionAnalysis(files, sounds[i + 1..], frameSize, describe).Ok?
    ensures CollectionAnalysis(files, sounds, frameSize, describe).value
         == CollectionAnalysis(files, sounds[..i], frameSize, describe).value
          + Outcome(files, sounds[i], frameSize, describe).value
          + CollectionAnalysis(files, sounds[i + 1..], frameSize, describe).value
  {
    OutcomesAround(files, sounds, i, frameSize, describe);
    CollectKeepsRows(
      Outcomes(files, sounds[..i], frameSize, describe), Outcome(files, sounds[i], frameSize, describe),
      Outcomes(files, sounds[i + 1..], frameSize, describe));
  }

  /** An outcome that `analyze_collection` does not catch: an error other than RuntimeError. */
  predicate Fatal(outcome: Result<seq<FrameRecord>>) {
    outcome.Err? && outcome.error != RuntimeError
  }

  /**
   * Collecting fails exactly when some outcome is fatal, and then it raises the first fatal
   * error.
   */
  lemma {:induction false} CollectErrors(outcomes: seq<Result<seq<FrameRecord>>>)
    ensures Collect(outcomes).Err? <==> exists i :: 0 <= i < |outcomes| && Fatal(outcomes[i])
    ensures Collect(outcomes).Err? ==>
              exists i :: (0 <= i < |outcomes| && Fatal(outcomes[i])
                && (forall j :: 0 <= j < i ==> !Fatal(outcomes[j]))
                && Collect(outcomes).error == outcomes[i].error)
    decreases |outcomes|
  {
    if outcomes != [] {
      var init := outcomes[..|outcomes| - 1];
      CollectErrors(init);
      assert forall i :: 0 <= i < |init| ==> init[i] == outcomes[i];
    }
  }

  /**
   * The collection analysis fails exactly when some sound's analysis raises an error other
   * than RuntimeError, and then it raises the first such error.
   */
  lemma CollectionErrors(
    files: map<string, seq<Sample>>, sounds: seq<Sound>, frameSize: Option<int>,
    describe: seq<Sample> -> Option<Descriptors>)
    ensures var r := CollectionAnalysis(files, sounds, frameSize, describe);
            r.Err? <==> exists i :: 0 <= i < |sounds| && Fatal(Outcome(files, sounds[i], frameSize, describe))
    ensures var r := CollectionAnalysis(files, sounds, frameSize, describe);
            r.Err? ==> exists i :: (0 <= i < |sounds| && Fatal(Outcome(files, sounds[i], frameSize, describe))
              && (forall j :: 0 <= j < i ==> !Fatal(Outcome(files, sounds[j], frameSize, describe)))
              && r.error == Outcome(files, sounds[i], frameSize, describe).error)
  {
    CollectErrors(Outcomes(files, sounds, frameSize, describe));
  }

  // ---------------------------------------------------------------------------------------
  // Properties of the segmentation and of the rows

  /**
   * Fixed-size frames: frame `k` is `[k * fs, (k + 1) * fs)`, every frame is `fs` samples
   * long and ends before the end of the file, and each frame ends where the next begins.
   */
  lemma FixedFrames(n: nat, fs: int)
    requires fs > 0
    ensures FrameBounds(FixedSize, n, fs).Ok?
    ensures var frames := FrameBounds(FixedSize, n, fs).value;
            forall k :: 0 <= k < |frames| ==>
              frames[k] == (k * fs, (k + 1) * fs) && frames[k].1 - frames[k].0 == fs && frames[k].1 < n
    ensures var frames := FrameBounds(FixedSize, n, fs).value;
            forall k :: 0 <= k < |frames| - 1 ==> frames[k].1 == frames[k + 1].0
  {
    RangeMultiples(n, fs);
    var starts := Range(n, fs).value;
    var frames := FrameBounds(FixedSize, n, fs).value;
    forall k | 0 <= k < |frames|
      ensures frames[k] == (k * fs, (k + 1) * fs) && frames[k].1 - frames[k].0 == fs && frames[k].1 < n
    {
      assert frames[k] == (starts[k], starts[k + 1]);
      assert (k + 1) * fs == k * fs + fs;
      assert starts[k + 1] in starts;
    }
  }

  /**
   * The number of fixed-size frames of a non-empty file is `ceil(n / fs) - 1`; an empty file
   * has no frame.
   */
  lemma FixedFrameCeiling(n: nat, fs: int)
    requires fs > 0
    ensures FrameBounds(FixedSize, n, fs).Ok?
    ensures n == 0 ==> |FrameBounds(FixedSize, n, fs).value| == 0
    ensures n > 0 ==> |FrameBounds(FixedSize, n, fs).value| == (n + fs - 1) / fs - 1
  {
    CeilingCount(n, fs);
    assert |Range(n, fs).value| == (n + fs - 1) / fs;
  }

  /**
   * Equivalently, a trailing partial span is dropped, and when `fs` divides `n` the last
   * full span is dropped too, so that between 1 and `fs` samples at the end of a non-empty
   * file belong to no frame.
   */
  lemma FixedFrameCount(n: nat, fs: int)
    requires fs > 0
    ensures FrameBounds(FixedSize, n, fs).Ok?
    ensures var count := |FrameBounds(FixedSize, n, fs).value|;
            (n > 0 ==> count == if n % fs == 0 then n / fs - 1 else n / fs) &&
            (n > 0 ==> 0 < n - count * fs <= fs)
  {
    FixedFrameCeiling(n, fs);
    if n > 0 {
      var count := |FrameBounds(FixedSize, n, fs).value|;
      CeilingOfQuotient(n, fs);
      var q, r := n / fs, n % fs;
      if r == 0 {
        assert count == q - 1;
        assert count * fs == q * fs - fs;
      } else {
        assert count == q;
      }
    }
  }

  /** `ceil(n / d)` is the quotient when `d` divides `n`, and one more otherwise. */
  lemma CeilingOfQuotient(n: nat, d: int)
    requires d > 0
    ensures n % d == 0 ==> (n + d - 1) / d == n / d
    ensures n % d != 0 ==> (n + d - 1) / d == n / d + 1
    ensures n == (n / d) * d + n % d
  {
    var q, r := n / d, n % d;
    if r == 0 {
      assert n + d - 1 == q * d + (d - 1);
      DivOfSum(q, d - 1, d);
    } else {
      assert n + d - 1 == (q + 1) * d + (r - 1);
      DivOfSum(q + 1, r - 1, d);
    }
  }

  /**
   * Without a frame size the frame size is the whole file, so there is one boundary, 0, and
   * no frame at all; an empty file then makes `range` raise ValueError.
   */
  lemma NoFrameSizeGivesNoFrames(n: nat)
    ensures n > 0 ==> FrameBounds(FixedSize, n, UsedFrameSize(None, n)) == Ok([])
    ensures n == 0 ==> FrameBounds(FixedSize, n, UsedFrameSize(None, n)) == Err(ValueError)
  {
    if n > 0 {
      var fs := UsedFrameSize(None, n);
      assert (n + fs - 1) / fs == 1 by {
        DivOfSum(1, n - 1, fs);
      }
      assert Range(n, fs).value == [0];
    }
  }

  /** The same, for a whole sound: a file analysed without a frame size yields an empty table. */
  lemma NoFrameSizeGivesEmptyAnalysis(
    files: map<string, seq<Sample>>, path: string, audioId: string, describe: seq<Sample> -> Option<Descriptors>)
    requires path in files && |files[path]| > 0
    ensures SoundAnalysis(files, path, None, audioId, FixedSize, describe) == Ok([])
  {
    NoFrameSizeGivesNoFrames(|files[path]|);
  }

  /** Beat-synchronised frames: `m` beat positions give `max(0, m - 1)` frames, frame `k` spanning beats `k` and `k + 1`. */
  lemma BeatSyncedFrames(beats: seq<int>, n: nat, fs: int)
    ensures FrameBounds(BeatSynced(beats), n, fs).Ok?
    ensures var frames := FrameBounds(BeatSynced(beats), n, fs).value;
            |frames| == Max(0, |beats| - 1) &&
            forall k :: 0 <= k < |frames| ==> frames[k] == (beats[k], beats[k + 1])
  {
  }

  /**
   * The rows of a sound: the `k`-th row carries the sound's id, the frame id
   * "<id>_f<k>", the path and the `k`-th frame's bounds, and the analysis succeeds exactly
   * when the library describes every frame.
   */
  lemma SoundRecords(
    files: map<string, seq<Sample>>, path: string, frameSize: Option<int>, audioId: string,
    mode: Segmentation, describe: seq<Sample> -> Option<Descriptors>)
    requires path in files
    requires FrameBounds(mode, |files[path]|, UsedFrameSize(frameSize, |files[path]|)).Ok?
    ensures var audio := files[path];
            var bounds := FrameBounds(mode, |audio|, UsedFrameSize(frameSize, |audio|)).value;
            var r := SoundAnalysis(files, path, frameSize, audioId, mode, describe);
            && (r.Ok? <==> forall k :: 0 <= k < |bounds| ==> describe(FrameSamples(audio, bounds[k])).Some?)
            && (r.Err? ==> r.error == RuntimeError)
            && (r.Ok? ==> |r.value| == |bounds| && forall k :: 0 <= k < |bounds| ==>
                  && r.value[k].freesoundId == audioId
                  && r.value[k].id == FrameId(audioId, k)
                  && r.value[k].path == path
                  && (r.value[k].startSample, r.value[k].endSample) == bounds[k]
                  && r.value[k].features == FeatureColumns(describe(FrameSamples(audio, bounds[k])).value))
  {
    var audio := files[path];
    var bounds := FrameBounds(mode, |audio|, UsedFrameSize(frameSize, |audio|)).value;
    DescribedFramesSucceed(audio, path, audioId, bounds, describe);
    if DescribeFrames(audio, path, audioId, bounds, describe).Ok? {
      DescribedFrames(audio, path, audioId, bounds, describe);
    }
  }

  /** A successful analysis has read an existing file and yields one row per frame. */
  lemma RowPerFrame(
    files: map<string, seq<Sample>>, path: string, frameSize: Option<int>, audioId: string,
    mode: Segmentation, describe: seq<Sample> -> Option<Descriptors>)
    requires SoundAnalysis(files, path, frameSize, audioId, mode, describe).Ok?
    ensures path in files
    ensures FrameBounds(mode, |files[path]|, UsedFrameSize(frameSize, |files[path]|)).Ok?
    ensures |SoundAnalysis(files, path, frameSize, audioId, mode, describe).value|
         == |FrameBounds(mode, |files[path]|, UsedFrameSize(frameSize, |files[path]|)).value|
  {
    assert path in files;
    SoundRecords(files, path, frameSize, audioId, mode, describe);
  }

  /** The frame ids of one sound are pairwise distinct. */
  lemma FrameIdsDistinct(
    files: map<string, seq<Sample>>, path: string, frameSize: Option<int>, audioId: string,
    mode: Segmentation, describe: seq<Sample> -> Option<Descriptors>)
    requires SoundAnalysis(files, path, frameSize, audioId, mode, describe).Ok?
    ensures var rows := SoundAnalysis(files, path, frameSize, audioId, mode, describe).value;
            forall k, l :: 0 <= k < l < |rows| ==> rows[k].id != rows[l].id
  {
    assert path in files;
    assert FrameBounds(mode, |files[path]|, UsedFrameSize(frameSize, |files[path]|)).Ok?;
    SoundRecords(files, path, frameSize, audioId, mode, describe);
    var rows := SoundAnalysis(files, path, frameSize, audioId, mode, describe).value;
    forall k, l | 0 <= k < l < |rows| ensures rows[k].id != rows[l].id {
      if rows[k].id == rows[l].id {
        FrameIdInjective(audioId, k, l);
      }
    }
  }

  /**
   * With an even frame size `fs`, row `k` covers `[k * fs, (k + 1) * fs)`, ends before the
   * end of the file, and ends where row `k + 1` begins.
   */
  lemma FixedRecordsLayout(
    files: map<string, seq<Sample>>, path: string, fs: nat, audioId: string,
    describe: seq<Sample> -> Option<Descriptors>)
    requires fs > 0 && fs % 2 == 0
    requires SoundAnalysis(files, path, Some(fs), audioId, FixedSize, describe).Ok?
    ensures path in files
    ensures var rows := SoundAnalysis(files, path, Some(fs), audioId, FixedSize, describe).value;
            forall k :: 0 <= k < |rows| ==>
              rows[k].startSample == k * fs && rows[k].endSample == (k + 1) * fs && rows[k].endSample < |files[path]|
    ensures var rows := SoundAnalysis(files, path, Some(fs), audioId, FixedSize, describe).value;
            forall k :: 0 <= k < |rows| - 1 ==> rows[k].endSample == rows[k + 1].startSample
  {
    assert path in files;
    var n := |files[path]|;
    assert UsedFrameSize(Some(fs), n) == fs;
    FixedFrames(n, fs);
    SoundRecords(files, path, Some(fs), audioId, FixedSize, describe);
  }

  /** The frame size 8192 applied to four seconds at 44100 Hz (176400 samples) gives 21 frames, the last ending at 172032. */
  lemma FourSecondsAt8192()
    ensures |FrameBounds(FixedSize, 176400, 8192).value| == 21
    ensures FrameBounds(FixedSize, 176400, 8192).value[20] == (163840, 172032)
  {
    FixedFrameCeiling(176400, 8192);
    FixedFrames(176400, 8192);
  }
}
