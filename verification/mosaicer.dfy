/**
 * The mosaicing step: every frame of the target is replaced by a frame of the source
 * collection that is close to it in feature space, read through a cache of loaded files
 * and pasted into a buffer of silence as long as the target.
 *
 * The nearest-neighbour search is given by its contract: for each target row a ranking of
 * source rows is supplied, and the model requires it to be a nearest-first ranking whenever
 * the search would succeed. The random choice among the candidates is a supplied index.
 */
module Mosaicer {
  import opened Results
  import opened Slicing
  import opened Analyzer

  /** How many candidates the choice of a source frame asks the search for. */
  const NeighbourCount: nat := 10

  /** The default feature list used for the similarity search. */
  const DefaultFeatures: seq<string> := [
    "mfcc_0", "mfcc_1", "mfcc_2", "mfcc_3", "mfcc_4", "mfcc_5", "mfcc_6", "mfcc_7", "mfcc_8",
    "mfcc_9", "mfcc_10", "mfcc_11", "mfcc_12",
    "loudness",
    "spectral_centroid", "danceability", "flux", "hfc", "spectral_complexity", "pitch_salience",
    "intensity"]

  /** The part of the default list that the analysis does emit: 13 MFCC coefficients and the loudness. */
  const AnalyzerFeatures: seq<string> := [
    "mfcc_0", "mfcc_1", "mfcc_2", "mfcc_3", "mfcc_4", "mfcc_5", "mfcc_6", "mfcc_7", "mfcc_8",
    "mfcc_9", "mfcc_10", "mfcc_11", "mfcc_12",
    "loudness"]

  // ---------------------------------------------------------------------------------------
  // Segment cache

  /** The cache of loaded audio files, keyed by path, that segment reads go through. */
  class SegmentCache {
    var loaded: map<string, seq<Sample>>

    constructor()
      ensures loaded == map[]
    {
      loaded := map[];
    }

    /**
     * What a read through the cache sees when the file system holds `files`: the cached
     * buffer of a path when there is one (even if the file has changed since), else the file.
     */
    function View(files: map<string, seq<Sample>>): (view: map<string, seq<Sample>>)
      reads this
      ensures forall path :: path in view <==> path in files || path in loaded
      ensures forall path :: path in loaded ==> view[path] == loaded[path]
      ensures forall path :: path in files && path !in loaded ==> view[path] == files[path]
    {
      files + loaded
    }

    /**
     * `get_audio_file_segment`: the samples `[start, start + count)` of the file at `path`,
     * as a Python slice (clamped, never padded). A path that is not cached yet is loaded and
     * cached; a cached path is not reloaded and no other entry changes. A missing file
     * raises RuntimeError and caches nothing.
     */
    method GetSegment(files: map<string, seq<Sample>>, path: string, start: int, count: int)
      returns (r: Result<seq<Sample>>)
      modifies this
      ensures path in old(loaded) ==> loaded == old(loaded) && r == Ok(Slice(old(loaded)[path], start, start + count))
      ensures path !in old(loaded) && path in files ==>
                loaded == old(loaded)[path := files[path]] && r == Ok(Slice(files[path], start, start + count))
      ensures path !in old(loaded) && path !in files ==> loaded == old(loaded) && r == Err(RuntimeError)
      ensures r.Ok? <==> path in loaded
      ensures View(files) == old(View(files))
    {
      var audio: seq<Sample>;
      if path in loaded {
        audio := loaded[path];
      } else {
        if path !in files {
          return Err(RuntimeError);
        }
        audio := files[path];
        loaded := loaded[path := audio];
        assert files + loaded == files + old(loaded);
      }
      r := Ok(Slice(audio, start, start + count));
    }
  }

  // ---------------------------------------------------------------------------------------
  // Feature projection and the similarity search

  /** The columns of a table built from records: every feature name that some row carries. */
  function Columns(rows: seq<FrameRecord>): (columns: set<string>)
    ensures forall k, name :: 0 <= k < |rows| && name in rows[k].features ==> name in columns
    ensures forall name :: name in columns ==> exists k :: 0 <= k < |rows| && name in rows[k].features
  {
    set k, name | 0 <= k < |rows| && name in rows[k].features :: name
  }

  /** The row has a value for every feature (a row of the table lacking one holds NaN there). */
  predicate HasAll(row: map<string, real>, features: seq<string>) {
    forall f :: f in features ==> f in row
  }

  /** The squared Euclidean distance between two rows over the feature columns. */
  function SquaredDistance(a: map<string, real>, b: map<string, real>, features: seq<string>): (d: real)
    requires HasAll(a, features) && HasAll(b, features)
    ensures d >= 0.0
    decreases |features|
  {
    if features == [] then 0.0
    else
      var x := a[features[0]] - b[features[0]];
      x * x + SquaredDistance(a, b, features[1..])
  }

  /**
   * The search can run: at least one feature, `n` between 1 and the number of source rows,
   * and no missing value (NaN) in the query or in the source table.
   */
  predicate Searchable(query: map<string, real>, rows: seq<FrameRecord>, n: nat, features: seq<string>) {
    && features != []
    && 0 < n <= |rows|
    && HasAll(query, features)
    && forall k :: 0 <= k < |rows| ==> HasAll(rows[k].features, features)
  }

  /**
   * `ranking` lists `n` distinct source rows, nearest first, and every source row left out
   * is at least as far from the query as every row listed. Ties may be ordered either way.
   */
  predicate IsNearestRanking(query: map<string, real>, rows: seq<FrameRecord>, n: nat, features: seq<string>, ranking: seq<nat>)
    requires Searchable(query, rows, n, features)
  {
    && |ranking| == n
    && (forall i :: 0 <= i < n ==> ranking[i] < |rows|)
    && (forall i, j :: 0 <= i < j < n ==> ranking[i] != ranking[j])
    && (forall i, j :: 0 <= i < j < n ==>
          SquaredDistance(query, rows[ranking[i]].features, features) <= SquaredDistance(query, rows[ranking[j]].features, features))
    && (forall i, k :: 0 <= i < n && 0 <= k < |rows| && k !in ranking ==>
          SquaredDistance(query, rows[ranking[i]].features, features) <= SquaredDistance(query, rows[k].features, features))
  }

  /** The supplied ranking is what the search returns whenever the search can run. */
  predicate RankingFits(query: map<string, real>, rows: seq<FrameRecord>, n: nat, features: seq<string>, ranking: seq<nat>) {
    Searchable(query, rows, n, features) ==> IsNearestRanking(query, rows, n, features, ranking)
  }

  /**
   * `find_similar_frames`: the `n` source rows nearest to the query over `features`,
   * nearest first. A feature that is no column of the source table raises KeyError; an
   * empty feature list, too few rows or a missing value raises ValueError.
   */
  function FindSimilarFrames(
    query: map<string, real>, rows: seq<FrameRecord>, n: nat, features: seq<string>, ranking: seq<nat>)
    : (r: Result<seq<FrameRecord>>)
    requires RankingFits(query, rows, n, features, ranking)
    ensures r.Ok? <==> Searchable(query, rows, n, features)
    ensures r == Err(KeyError) <==> exists f :: f in features && f !in Columns(rows)
    ensures r.Err? ==> r.error == KeyError || r.error == ValueError
    ensures r.Ok? ==> |r.value| == n && forall i :: 0 <= i < n ==> r.value[i] == rows[ranking[i]]
    ensures r.Ok? ==> forall i, j :: 0 <= i < j < n ==>
              SquaredDistance(query, r.value[i].features, features) <= SquaredDistance(query, r.value[j].features, features)
  {
    if exists f :: f in features && f !in Columns(rows) then
      SearchableHasColumns(query, rows, n, features);
      Err(KeyError)
    else if !Searchable(query, rows, n, features) then Err(ValueError)
    else Ok(seq(n, i requires 0 <= i < n => rows[ranking[i]]))
  }

  /** A searchable table has every feature as a column. */
  lemma SearchableHasColumns(query: map<string, real>, rows: seq<FrameRecord>, n: nat, features: seq<string>)
    ensures Searchable(query, rows, n, features) ==> forall f :: f in features ==> f in Columns(rows)
  {
    if Searchable(query, rows, n, features) {
      assert HasAll(rows[0].features, features);
    }
  }

  /**
   * `choose_frame_from_source_collection`: the query is the target row's features, looked
   * up among the target table's `columns` (KeyError for a feature that is none of them); the
   * ten nearest source rows are searched for; "best" takes the nearest, "random" the
   * candidate at `pick`, and any other choice raises ValueError once the search has run.
   * When the target has every feature, the search's own error is raised: KeyError for a
   * feature the source table lacks, ValueError when the search cannot run.
   */
  function ChooseFrame(
    columns: set<string>, target: FrameRecord, source: seq<FrameRecord>, features: seq<string>,
    choice: string, ranking: seq<nat>, pick: nat): (r: Result<FrameRecord>)
    requires pick < NeighbourCount
    requires RankingFits(target.features, source, NeighbourCount, features, ranking)
    ensures r.Ok? <==>
              && (forall f :: f in features ==> f in columns)
              && Searchable(target.features, source, NeighbourCount, features)
              && (choice == "best" || choice == "random")
    ensures (exists f :: f in features && f !in columns) ==> r == Err(KeyError)
    ensures && (forall f :: f in features ==> f in columns)
            && Searchable(target.features, source, NeighbourCount, features)
            && choice != "best" && choice != "random"
            ==> r == Err(ValueError)
    ensures && (forall f :: f in features ==> f in columns)
            && (exists f :: f in features && f !in Columns(source))
            ==> r == Err(KeyError)
    ensures && (forall f :: f in features ==> f in columns)
            && (forall f :: f in features ==> f in Columns(source))
            && !Searchable(target.features, source, NeighbourCount, features)
            ==> r == Err(ValueError)
    ensures r.Ok? && choice == "best" ==>
              && r.value == source[ranking[0]]
              && forall k :: 0 <= k < |source| ==>
                   SquaredDistance(target.features, r.value.features, features)
                   <= SquaredDistance(target.features, source[k].features, features)
    ensures r.Ok? && choice == "random" ==>
              && r.value == source[ranking[pick]]
              && forall k :: 0 <= k < |source| && k !in ranking ==>
                   SquaredDistance(target.features, r.value.features, features)
                   <= SquaredDistance(target.features, source[k].features, features)
  {
    if exists f :: f in features && f !in columns then Err(KeyError)
    else
      var similar :- FindSimilarFrames(target.features, source, NeighbourCount, features, ranking);
      if choice == "random" then Ok(similar[pick])
      else if choice == "best" then
        NearestOverall(target.features, source, features, ranking);
        Ok(similar[0])
      else Err(ValueError)
  }

  /** The first row of a nearest-first ranking is at least as near as every source row. */
  lemma NearestOverall(query: map<string, real>, rows: seq<FrameRecord>, features: seq<string>, ranking: seq<nat>)
    requires Searchable(query, rows, NeighbourCount, features)
    requires IsNearestRanking(query, rows, NeighbourCount, features, ranking)
    ensures forall k :: 0 <= k < |rows| ==>
              SquaredDistance(query, rows[ranking[0]].features, features) <= SquaredDistance(query, rows[k].features, features)
  {
    forall k | 0 <= k < |rows|
      ensures SquaredDistance(query, rows[ranking[0]].features, features) <= SquaredDistance(query, rows[k].features, features)
    {
      if k in ranking {
        var j :| 0 <= j < |ranking| && ranking[j] == k;
        if j > 0 {
          assert SquaredDistance(query, rows[ranking[0]].features, features)
              <= SquaredDistance(query, rows[ranking[j]].features, features);
        }
      }
    }
  }

  // ---------------------------------------------------------------------------------------
  // Pasting a segment into the output buffer

  /** A buffer of `n` samples of silence. */
  function Zeros(n: nat): (z: seq<Sample>)
    ensures |z| == n && forall j :: 0 <= j < n ==> z[j] == 0.0
  {
    seq(n, _ => 0.0)
  }

  /**
   * numpy's `out[start : start + len(seg)] = seg`: the slice bounds are clamped like those of
   * any Python slice; a segment as long as the slice is copied into it, a one-sample segment
   * is broadcast over it, and any other length raises ValueError.
   */
  function Paste(out: seq<Sample>, start: int, seg: seq<Sample>): (r: Result<seq<Sample>>)
    ensures r.Ok? ==> |r.value| == |out|
    ensures r.Err? ==> r.error == ValueError
    ensures 0 <= start && start + |seg| <= |out| ==> r.Ok? && r.value == out[..start] + seg + out[start + |seg|..]
    ensures 0 <= start && r.Ok? ==>
              forall j :: 0 <= j < |out| && !(start <= j < start + |seg|) ==> r.value[j] == out[j]
  {
    var lo := Clamp(start, |out|);
    var hi := Max(lo, Clamp(start + |seg|, |out|));
    if hi - lo != |seg| && |seg| != 1 then Err(ValueError)
    else
      var pasted := seq(|out|, j requires 0 <= j < |out| =>
        if lo <= j < hi then (if |seg| == 1 then seg[0] else seg[j - lo]) else out[j]);
      assert 0 <= start && start + |seg| <= |out| ==> pasted == out[..start] + seg + out[start + |seg|..];
      Ok(pasted)
  }

  /** The slice assignment, in place on the output buffer; on ValueError the buffer is left as it was. */
  method PasteInto(out: array<Sample>, start: int, seg: seq<Sample>) returns (ok: bool)
    modifies out
    ensures ok <==> Paste(old(out[..]), start, seg).Ok?
    ensures ok ==> out[..] == Paste(old(out[..]), start, seg).value
    ensures !ok ==> out[..] == old(out[..])
  {
    var lo := Clamp(start, out.Length);
    var hi := Max(lo, Clamp(start + |seg|, out.Length));
    if hi - lo != |seg| && |seg| != 1 {
      return false;
    }
    ghost var before := out[..];
    var j := lo;
    while j < hi
      invariant lo <= j <= hi
      invariant forall t :: 0 <= t < out.Length ==>
                  out[t] == if lo <= t < j then (if |seg| == 1 then seg[0] else seg[t - lo]) else before[t]
    {
      out[j] := if |seg| == 1 then seg[0] else seg[j - lo];
      j := j + 1;
    }
    return true;
  }

  // ---------------------------------------------------------------------------------------
  // Reconstruction

  /** The result of `reconstruct_audio`: the generated buffer, the target audio and the chosen source ids. */
  datatype Mosaic = Mosaic(generated: seq<Sample>, targetAudio: seq<Sample>, selectedIds: seq<string>)

  /** The buffer and the ids after some of the target rows. */
  datatype Assembly = Assembly(generated: seq<Sample>, ids: seq<string>)

  /**
   * What the model takes as given for each target row: a ranking of the source rows that is
   * the search's answer whenever the search can run, and a pick among the ten candidates.
   */
  predicate Supplied(source: seq<FrameRecord>, target: seq<FrameRecord>, features: seq<string>, rankings: seq<seq<nat>>, picks: seq<nat>) {
    && |rankings| == |target|
    && |picks| == |target|
    && (forall i :: 0 <= i < |target| ==> picks[i] < NeighbourCount)
    && (forall i :: 0 <= i < |target| ==> RankingFits(target[i].features, source, NeighbourCount, features, rankings[i]))
  }

  /** The source frame chosen for target row `i`. */
  function Chosen(
    source: seq<FrameRecord>, target: seq<FrameRecord>, features: seq<string>, choice: string,
    rankings: seq<seq<nat>>, picks: seq<nat>, i: nat): Result<FrameRecord>
    requires Supplied(source, target, features, rankings, picks) && i < |target|
  {
    ChooseFrame(Columns(target), target[i], source, features, choice, rankings[i], picks[i])
  }

  /**
   * The segment pasted for a target row: as many samples as the row spans, read through
   * the cache from the chosen frame's start; a missing file raises RuntimeError.
   */
  function SegmentFor(view: map<string, seq<Sample>>, chosen: FrameRecord, row: FrameRecord): Result<seq<Sample>> {
    if chosen.path !in view then Err(RuntimeError)
    else Ok(Slice(view[chosen.path], chosen.startSample, chosen.startSample + (row.endSample - row.startSample)))
  }

  /** What one target row contributes: the chosen frame's id, and the segment to paste at the row's start. */
  datatype Piece = Piece(id: string, start: int, samples: seq<Sample>)

  /** The piece of a target row, or the error that choosing its frame or reading its segment raises. */
  function Placement(view: map<string, seq<Sample>>, chosen: Result<FrameRecord>, row: FrameRecord): Result<Piece> {
    var frame :- chosen;
    var segment :- SegmentFor(view, frame, row);
    Ok(Piece(frame.freesoundId, row.startSample, segment))
  }

  /** The pieces of all target rows, in row order. */
  function Pieces(
    view: map<string, seq<Sample>>, source: seq<FrameRecord>, target: seq<FrameRecord>, features: seq<string>,
    choice: string, rankings: seq<seq<nat>>, picks: seq<nat>): (pieces: seq<Result<Piece>>)
    requires Supplied(source, target, features, rankings, picks)
    ensures |pieces| == |target|
    ensures forall i :: 0 <= i < |target| ==>
              pieces[i] == Placement(view, Chosen(source, target, features, choice, rankings, picks, i), target[i])
  {
    seq(|target|, i requires 0 <= i < |target| => Placement(view, Chosen(source, target, features, choice, rankings, picks, i), target[i]))
  }

  /**
   * The buffer and ids after the first `count` pieces, starting from `length` samples of
   * silence: each piece's id is appended and its samples pasted at its start, in order; the
   * first error ends the reconstruction.
   */
  function Assemble(pieces: seq<Result<Piece>>, count: nat, length: nat): Result<Assembly>
    requires count <= |pieces|
  {
    if count == 0 then Ok(Assembly(Zeros(length), []))
    else
      var before :- Assemble(pieces, count - 1, length);
      var piece :- pieces[count - 1];
      var generated :- Paste(before.generated, piece.start, piece.samples);
      Ok(Assembly(generated, before.ids + [piece.id]))
  }

  /** `r` is a successful assembly with exactly this buffer and these ids. */
  predicate Assembled(r: Result<Assembly>, generated: seq<Sample>, ids: seq<string>) {
    r.Ok? && r.value.generated == generated && r.value.ids == ids
  }

  /**
   * `reconstruct_audio`: the target audio is read from the first target row's path (an
   * empty target table raises IndexError, a missing file RuntimeError), and the buffer of
   * silence as long as it is filled row by row; segments are read through `view`, the cache
   * as it was when the reconstruction started.
   */
  function Reconstruction(
    files: map<string, seq<Sample>>, view: map<string, seq<Sample>>, source: seq<FrameRecord>,
    target: seq<FrameRecord>, features: seq<string>, choice: string, rankings: seq<seq<nat>>,
    picks: seq<nat>): Result<Mosaic>
    requires Supplied(source, target, features, rankings, picks)
  {
    if target == [] then Err(IndexError)
    else if target[0].path !in files then Err(RuntimeError)
    else
      var audio := files[target[0].path];
      var assembly :- Assemble(Pieces(view, source, target, features, choice, rankings, picks), |target|, |audio|);
      Ok(Mosaic(assembly.generated, audio, assembly.ids))
  }

  /**
   * One pass of the reconstruction loop, for target row `i`: choose a source frame, append
   * its id, read its segment through the cache and paste it into the buffer in place. The
   * result is the new id list, or the error that ends the reconstruction.
   */
  method PlaceRow(
    cache: SegmentCache, files: map<string, seq<Sample>>, ghost view: map<string, seq<Sample>>, columns: set<string>,
    source: seq<FrameRecord>, target: seq<FrameRecord>, features: seq<string>, choice: string,
    rankings: seq<seq<nat>>, picks: seq<nat>, ghost pieces: seq<Result<Piece>>, i: nat,
    generated: array<Sample>, ids: seq<string>)
    returns (r: Result<seq<string>>)
    requires Supplied(source, target, features, rankings, picks) && i < |target| && |pieces| == |target|
    requires pieces[i] == Placement(view, ChooseFrame(columns, target[i], source, features, choice, rankings[i], picks[i]), target[i])
    requires cache.View(files) == view
    requires Assembled(Assemble(pieces, i, generated.Length), generated[..], ids)
    modifies cache, generated
    ensures cache.View(files) == view
    ensures forall path :: path in old(cache.loaded) ==> path in cache.loaded && cache.loaded[path] == old(cache.loaded[path])
    ensures r.Ok? ==> Assembled(Assemble(pieces, i + 1, generated.Length), generated[..], r.value)
    ensures r.Err? ==> Assemble(pieces, i + 1, generated.Length).Err? && Assemble(pieces, i + 1, generated.Length).error == r.error
  {
    AssembleNext(pieces, i, generated.Length);
    var chosen := ChooseFrame(columns, target[i], source, features, choice, rankings[i], picks[i]);
    if chosen.Err? {
      return Err(chosen.error);
    }
    var frame := chosen.value;
    var frameLength := target[i].endSample - target[i].startSample;
    var segment := cache.GetSegment(files, frame.path, frame.startSample, frameLength);
    assert segment == SegmentFor(view, frame, target[i]);
    if segment.Err? {
      return Err(segment.error);
    }
    assert pieces[i] == Ok(Piece(frame.freesoundId, target[i].startSample, segment.value));
    var ok := PasteInto(generated, target[i].startSample, segment.value);
    if !ok {
      return Err(ValueError);
    }
    return Ok(ids + [frame.freesoundId]);
  }

  /** What the next piece does to a successful assembly: its error ends it, or its samples are pasted and its id appended. */
  lemma AssembleNext(pieces: seq<Result<Piece>>, count: nat, length: nat)
    requires count < |pieces| && Assemble(pieces, count, length).Ok?
    ensures pieces[count].Err? ==>
              Assemble(pieces, count + 1, length).Err? && Assemble(pieces, count + 1, length).error == pieces[count].error
    ensures pieces[count].Ok? ==>
              var before := Assemble(pieces, count, length).value;
              var piece := pieces[count].value;
              var pasted := Paste(before.generated, piece.start, piece.samples);
              && (pasted.Err? ==> Assemble(pieces, count + 1, length).Err? && Assemble(pieces, count + 1, length).error == pasted.error)
              && (pasted.Ok? ==> Assembled(Assemble(pieces, count + 1, length), pasted.value, before.ids + [piece.id]))
  {
  }

  /** An error in the first `count` pieces is the error of the first `count + 1`. */
  lemma AssembleErrorPersists(pieces: seq<Result<Piece>>, count: nat, length: nat)
    requires count < |pieces|
    requires Assemble(pieces, count, length).Err?
    ensures Assemble(pieces, count + 1, length).Err?
    ensures Assemble(pieces, count + 1, length).error == Assemble(pieces, count, length).error
  {
  }

  /** Once the pieces up to `count` fail, every longer prefix fails with the same error. */
  lemma {:induction false} AssembleStops(pieces: seq<Result<Piece>>, count: nat, length: nat)
    requires count <= |pieces|
    requires Assemble(pieces, count, length).Err?
    ensures Assemble(pieces, |pieces|, length).Err?
    ensures Assemble(pieces, |pieces|, length).error == Assemble(pieces, count, length).error
    decreases |pieces| - count
  {
    if count < |pieces| {
      AssembleErrorPersists(pieces, count, length);
      AssembleStops(pieces, count + 1, length);
    }
  }

  /**
   * The reconstruction loop: the buffer is an array of silence that each target row's
   * segment is pasted into in place, the ids a list that grows by one per row, and segments
   * are read through `cache`, which only gains entries and whose view does not change.
   */
  method ReconstructAudio(
    cache: SegmentCache, files: map<string, seq<Sample>>, source: seq<FrameRecord>, target: seq<FrameRecord>,
    features: seq<string>, choice: string, rankings: seq<seq<nat>>, picks: seq<nat>)
    returns (r: Result<Mosaic>)
    requires Supplied(source, target, features, rankings, picks)
    modifies cache
    ensures r == Reconstruction(files, old(cache.View(files)), source, target, features, choice, rankings, picks)
    ensures cache.View(files) == old(cache.View(files))
    ensures forall path :: path in old(cache.loaded) ==> path in cache.loaded && cache.loaded[path] == old(cache.loaded[path])
  {
    if |target| == 0 {
      return Err(IndexError);
    }
    var targetPath := target[0].path;
    if targetPath !in files {
      return Err(RuntimeError);
    }
    var targetAudio := files[targetPath];
    var generated := new Sample[|targetAudio|](_ => 0.0);
    assert generated[..] == Zeros(|targetAudio|);
    var ids := FillBuffer(cache, files, cache.View(files), source, target, features, choice, rankings, picks, generated);
    if ids.Err? {
      return Err(ids.error);
    }
    return Ok(Mosaic(generated[..], targetAudio, ids.value));
  }

  /** The loop of `reconstruct_audio` over all target rows, pasting into `generated` in place; the result is the id list. */
  method FillBuffer(
    cache: SegmentCache, files: map<string, seq<Sample>>, ghost view: map<string, seq<Sample>>,
    source: seq<FrameRecord>, target: seq<FrameRecord>, features: seq<string>, choice: string,
    rankings: seq<seq<nat>>, picks: seq<nat>, generated: array<Sample>)
    returns (r: Result<seq<string>>)
    requires Supplied(source, target, features, rankings, picks)
    requires cache.View(files) == view
    requires generated[..] == Zeros(generated.Length)
    modifies cache, generated
    ensures cache.View(files) == view
    ensures forall path :: path in old(cache.loaded) ==> path in cache.loaded && cache.loaded[path] == old(cache.loaded[path])
    ensures var pieces := Pieces(view, source, target, features, choice, rankings, picks);
            r.Ok? ==> Assembled(Assemble(pieces, |target|, generated.Length), generated[..], r.value)
    ensures var pieces := Pieces(view, source, target, features, choice, rankings, picks);
            r.Err? ==> Assemble(pieces, |target|, generated.Length).Err? && Assemble(pieces, |target|, generated.Length).error == r.error
  {
    ghost var pieces := Pieces(view, source, target, features, choice, rankings, picks);
    var ids: seq<string> := [];
    var columns := Columns(target);
    var i := 0;
    while i < |target|
      invariant 0 <= i <= |target|
      invariant cache.View(files) == view
      invariant forall path :: path in old(cache.loaded) ==> path in cache.loaded && cache.loaded[path] == old(cache.loaded[path])
      invariant Assembled(Assemble(pieces, i, generated.Length), generated[..], ids)
    {
      var placed := PlaceRow(cache, files, view, columns, source, target, features, choice, rankings, picks, pieces, i, generated, ids);
      if placed.Err? {
        AssembleStops(pieces, i + 1, generated.Length);
        return Err(placed.error);
      }
      ids := placed.value;
      i := i + 1;
    }
    return Ok(ids);
  }
}
