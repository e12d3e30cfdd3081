/**
 * What the reconstruction guarantees about its output: one id per target row, a buffer as
 * long as the target audio, writes that stay inside each target frame, silence wherever no
 * target frame reaches, and later rows overwriting earlier ones.
 */
module MosaicProperties {
  import opened Results
  import opened Slicing
  import opened Analyzer
  import opened Mosaicer

  // ---------------------------------------------------------------------------------------
  // Laying pieces over silence

  /** Piece `p` was laid and covers buffer position `j`. */
  predicate Covers(p: Result<Piece>, j: int) {
    p.Ok? && p.value.start <= j < p.value.start + |p.value.samples|
  }

  /** Every piece that was built starts at a non-negative position. */
  predicate StartsNonNegative(pieces: seq<Result<Piece>>) {
    forall k :: 0 <= k < |pieces| && pieces[k].Ok? ==> pieces[k].value.start >= 0
  }

  /** Every piece that was built lies inside a buffer of `length` samples. */
  predicate Fits(pieces: seq<Result<Piece>>, length: nat) {
    forall k :: 0 <= k < |pieces| && pieces[k].Ok? ==>
      0 <= pieces[k].value.start && pieces[k].value.start + |pieces[k].value.samples| <= length
  }

  /** One step of the assembly, read backwards from a successful prefix of `count` pieces. */
  lemma AssembleStep(pieces: seq<Result<Piece>>, count: nat, length: nat)
    requires 0 < count <= |pieces|
    requires Assemble(pieces, count, length).Ok?
    ensures Assemble(pieces, count - 1, length).Ok?
    ensures pieces[count - 1].Ok?
    ensures var before := Assemble(pieces, count - 1, length).value;
            var piece := pieces[count - 1].value;
            && Paste(before.generated, piece.start, piece.samples).Ok?
            && Assemble(pieces, count, length).value.generated == Paste(before.generated, piece.start, piece.samples).value
            && Assemble(pieces, count, length).value.ids == before.ids + [piece.id]
  {
  }

  /** After `count` pieces the buffer still has `length` samples and there is one id per piece. */
  lemma {:induction false} AssembledLength(pieces: seq<Result<Piece>>, count: nat, length: nat)
    requires count <= |pieces|
    requires Assemble(pieces, count, length).Ok?
    ensures |Assemble(pieces, count, length).value.generated| == length
    ensures |Assemble(pieces, count, length).value.ids| == count
  {
    if count > 0 {
      AssembleStep(pieces, count, length);
      AssembledLength(pieces, count - 1, length);
    }
  }

  /** A successful assembly of `count` pieces built every one of them, and its ids are theirs, in order. */
  lemma {:induction false} AssembledIds(pieces: seq<Result<Piece>>, count: nat, length: nat)
    requires count <= |pieces|
    requires Assemble(pieces, count, length).Ok?
    ensures forall i :: 0 <= i < count ==> pieces[i].Ok?
    ensures |Assemble(pieces, count, length).value.ids| == count
    ensures forall i :: 0 <= i < count ==> Assemble(pieces, count, length).value.ids[i] == pieces[i].value.id
  {
    AssembledLength(pieces, count, length);
    if count > 0 {
      AssembleStep(pieces, count, length);
      AssembledIds(pieces, count - 1, length);
    }
  }

  /** Pasting leaves a sample outside the pasted span as it was. */
  lemma PasteKeepsOutside(out: seq<Sample>, start: int, seg: seq<Sample>, j: int)
    requires 0 <= start && Paste(out, start, seg).Ok?
    requires 0 <= j < |out| && !(start <= j < start + |seg|)
    ensures Paste(out, start, seg).value[j] == out[j]
  {
  }

  /** Pasting a segment that fits puts its samples at the positions from `start` on. */
  lemma PastePlaces(out: seq<Sample>, start: int, seg: seq<Sample>, t: nat)
    requires 0 <= start && start + |seg| <= |out| && t < |seg|
    ensures Paste(out, start, seg).Ok? && Paste(out, start, seg).value[start + t] == seg[t]
  {
    assert Paste(out, start, seg).value == out[..start] + seg + out[start + |seg|..];
  }

  /** Wherever none of the first `count` pieces reaches, the buffer still holds the silence it started with. */
  lemma {:induction false} SilenceOutside(pieces: seq<Result<Piece>>, count: nat, length: nat, j: int)
    requires count <= |pieces| && StartsNonNegative(pieces)
    requires Assemble(pieces, count, length).Ok?
    requires 0 <= j < length && forall i :: 0 <= i < count ==> !Covers(pieces[i], j)
    ensures |Assemble(pieces, count, length).value.generated| == length
    ensures Assemble(pieces, count, length).value.generated[j] == 0.0
  {
    AssembledLength(pieces, count, length);
    if count > 0 {
      AssembleStep(pieces, count, length);
      SilenceOutside(pieces, count - 1, length, j);
      var piece := pieces[count - 1].value;
      PasteKeepsOutside(Assemble(pieces, count - 1, length).value.generated, piece.start, piece.samples, j);
    }
  }

  /**
   * Later pieces overwrite earlier ones: sample `t` of piece `i`, when none of the later
   * pieces among the first `count` covers its position, is what the buffer holds there.
   */
  lemma {:induction false} LastWriterWins(pieces: seq<Result<Piece>>, count: nat, length: nat, i: nat, t: nat)
    requires i < count <= |pieces| && Fits(pieces, length)
    requires Assemble(pieces, count, length).Ok?
    requires pieces[i].Ok? && t < |pieces[i].value.samples|
    requires forall l :: i < l < count ==> !Covers(pieces[l], pieces[i].value.start + t)
    ensures |Assemble(pieces, count, length).value.generated| == length
    ensures pieces[i].value.start + t < length
    ensures Assemble(pieces, count, length).value.generated[pieces[i].value.start + t] == pieces[i].value.samples[t]
  {
    var last := count - 1;
    AssembleStep(pieces, count, length);
    AssembledLength(pieces, last, length);
    AssembledLength(pieces, count, length);
    var before := Assemble(pieces, last, length).value.generated;
    var piece := pieces[last].value;
    if i < last {
      LastWriterWins(pieces, last, length, i, t);
      PasteKeepsOutside(before, piece.start, piece.samples, pieces[i].value.start + t);
    } else {
      PastePlaces(before, piece.start, piece.samples, t);
    }
  }

  // ---------------------------------------------------------------------------------------
  // The pieces of a reconstruction

  /** No target frame ends before it starts, and none starts before the first sample. */
  predicate FramesOrdered(rows: seq<FrameRecord>) {
    forall k :: 0 <= k < |rows| ==> 0 <= rows[k].startSample <= rows[k].endSample
  }

  /** Every target frame `[start, end)` lies inside a buffer of `length` samples. */
  predicate FramesInside(rows: seq<FrameRecord>, length: nat) {
    forall k :: 0 <= k < |rows| ==> 0 <= rows[k].startSample <= rows[k].endSample <= length
  }

  /** A frame chosen by the search is one of the source rows. */
  lemma ChosenFromSource(
    source: seq<FrameRecord>, target: seq<FrameRecord>, features: seq<string>, choice: string,
    rankings: seq<seq<nat>>, picks: seq<nat>, i: nat)
    requires Supplied(source, target, features, rankings, picks) && i < |target|
    ensures Chosen(source, target, features, choice, rankings, picks, i).Ok? ==>
              Chosen(source, target, features, choice, rankings, picks, i).value in source
  {
    var r := Chosen(source, target, features, choice, rankings, picks, i);
    if r.Ok? {
      assert IsNearestRanking(target[i].features, source, NeighbourCount, features, rankings[i]);
      if choice == "best" {
        assert r.value == source[rankings[i][0]];
      } else {
        assert r.value == source[rankings[i][picks[i]]];
      }
    }
  }

  /**
   * The piece of a target row carries the chosen frame's id, starts at the row's start and,
   * when the chosen frame starts at a non-negative sample, spans at most the row's frame:
   * the segment is cut to the frame's length, never padded.
   */
  lemma PlacementWithinFrame(view: map<string, seq<Sample>>, chosen: FrameRecord, row: FrameRecord)
    requires chosen.startSample >= 0 && row.startSample <= row.endSample
    ensures var p := Placement(view, Ok(chosen), row);
            p.Ok? ==>
              && p.value.id == chosen.freesoundId
              && p.value.start == row.startSample
              && |p.value.samples| <= row.endSample - row.startSample
              && forall t :: 0 <= t < |p.value.samples| ==> p.value.samples[t] == view[chosen.path][chosen.startSample + t]
  {
    if chosen.path in view {
      SliceFrom(view[chosen.path], chosen.startSample, row.endSample - row.startSample);
    }
  }

  /**
   * With source frames starting at non-negative samples and ordered target frames, each
   * target row's piece starts at the row's start and stays inside the row's frame.
   */
  lemma PiecesWithinFrames(
    view: map<string, seq<Sample>>, source: seq<FrameRecord>, target: seq<FrameRecord>, features: seq<string>,
    choice: string, rankings: seq<seq<nat>>, picks: seq<nat>)
    requires Supplied(source, target, features, rankings, picks)
    requires (forall k :: 0 <= k < |source| ==> source[k].startSample >= 0) && FramesOrdered(target)
    ensures var pieces := Pieces(view, source, target, features, choice, rankings, picks);
            forall i :: 0 <= i < |target| && pieces[i].Ok? ==>
              && pieces[i].value.start == target[i].startSample
              && pieces[i].value.start + |pieces[i].value.samples| <= target[i].endSample
  {
    var pieces := Pieces(view, source, target, features, choice, rankings, picks);
    forall i | 0 <= i < |target| && pieces[i].Ok?
      ensures pieces[i].value.start == target[i].startSample
      ensures pieces[i].value.start + |pieces[i].value.samples| <= target[i].endSample
    {
      ChosenFromSource(source, target, features, choice, rankings, picks, i);
      PlacementWithinFrame(view, Chosen(source, target, features, choice, rankings, picks, i).value, target[i]);
    }
  }

  /**
   * The piece of target row `i`, when built, comes from the frame chosen for the row: it
   * starts at the row's start and holds the chosen file's samples from the chosen frame's
   * start, as many as the row spans and the file still has.
   */
  lemma RowPiece(
    view: map<string, seq<Sample>>, source: seq<FrameRecord>, target: seq<FrameRecord>, features: seq<string>,
    choice: string, rankings: seq<seq<nat>>, picks: seq<nat>, i: nat)
    requires Supplied(source, target, features, rankings, picks) && i < |target|
    requires (forall k :: 0 <= k < |source| ==> source[k].startSample >= 0) && target[i].startSample <= target[i].endSample
    ensures var piece := Pieces(view, source, target, features, choice, rankings, picks)[i];
            var chosen := Chosen(source, target, features, choice, rankings, picks, i);
            piece.Ok? ==>
              && chosen.Ok? && chosen.value.path in view && chosen.value.startSample >= 0
              && piece.value.start == target[i].startSample
              && |piece.value.samples|
                 == Max(0, Min(target[i].endSample - target[i].startSample, |view[chosen.value.path]| - chosen.value.startSample))
              && forall t :: 0 <= t < |piece.value.samples| ==>
                   && chosen.value.startSample + t < |view[chosen.value.path]|
                   && piece.value.samples[t] == view[chosen.value.path][chosen.value.startSample + t]
  {
    var pieces := Pieces(view, source, target, features, choice, rankings, picks);
    if pieces[i].Ok? {
      ChosenFromSource(source, target, features, choice, rankings, picks, i);
      var chosen := Chosen(source, target, features, choice, rankings, picks, i).value;
      assert pieces[i] == Placement(view, Ok(chosen), target[i]);
      SliceFrom(view[chosen.path], chosen.startSample, target[i].endSample - target[i].startSample);
    }
  }

  /** With target frames inside the buffer and source frames starting at non-negative samples, every piece fits the buffer. */
  lemma PiecesFit(
    view: map<string, seq<Sample>>, source: seq<FrameRecord>, target: seq<FrameRecord>, features: seq<string>,
    choice: string, rankings: seq<seq<nat>>, picks: seq<nat>, length: nat)
    requires Supplied(source, target, features, rankings, picks)
    requires (forall k :: 0 <= k < |source| ==> source[k].startSample >= 0) && FramesInside(target, length)
    ensures Fits(Pieces(view, source, target, features, choice, rankings, picks), length)
  {
    assert FramesOrdered(target);
    PiecesWithinFrames(view, source, target, features, choice, rankings, picks);
  }

  // ---------------------------------------------------------------------------------------
  // The reconstruction

  /** A successful reconstruction is the assembly of the target rows' pieces over the target audio's length. */
  lemma ReconstructionAssembles(
    files: map<string, seq<Sample>>, view: map<string, seq<Sample>>, source: seq<FrameRecord>,
    target: seq<FrameRecord>, features: seq<string>, choice: string, rankings: seq<seq<nat>>, picks: seq<nat>)
    requires Supplied(source, target, features, rankings, picks)
    ensures var r := Reconstruction(files, view, source, target, features, choice, rankings, picks);
            r.Ok? ==>
              && target != [] && target[0].path in files
              && var a := Assemble(Pieces(view, source, target, features, choice, rankings, picks), |target|, |files[target[0].path]|);
                 && a.Ok?
                 && r.value.generated == a.value.generated
                 && r.value.selectedIds == a.value.ids
                 && r.value.targetAudio == files[target[0].path]
  {
  }

  /**
   * The reconstruction's result: an empty target table raises IndexError and a missing
   * target file RuntimeError; otherwise the buffer is as long as the target audio, and
   * there is one selected id per target row, in row order, each the id of the frame chosen
   * for that row.
   */
  lemma ReconstructionShape(
    files: map<string, seq<Sample>>, view: map<string, seq<Sample>>, source: seq<FrameRecord>,
    target: seq<FrameRecord>, features: seq<string>, choice: string, rankings: seq<seq<nat>>, picks: seq<nat>)
    requires Supplied(source, target, features, rankings, picks)
    ensures var r := Reconstruction(files, view, source, target, features, choice, rankings, picks);
            target == [] ==> r.Err? && r.error == IndexError
    ensures var r := Reconstruction(files, view, source, target, features, choice, rankings, picks);
            target != [] && target[0].path !in files ==> r.Err? && r.error == RuntimeError
    ensures var r := Reconstruction(files, view, source, target, features, choice, rankings, picks);
            r.Ok? ==>
              && target != [] && target[0].path in files
              && r.value.targetAudio == files[target[0].path]
              && |r.value.generated| == |r.value.targetAudio|
              && |r.value.selectedIds| == |target|
              && forall i :: 0 <= i < |target| ==>
                   && Chosen(source, target, features, choice, rankings, picks, i).Ok?
                   && r.value.selectedIds[i] == Chosen(source, target, features, choice, rankings, picks, i).value.freesoundId
  {
    if target != [] && target[0].path in files {
      var length := |files[target[0].path]|;
      var pieces := Pieces(view, source, target, features, choice, rankings, picks);
      ReconstructionAssembles(files, view, source, target, features, choice, rankings, picks);
      if Assemble(pieces, |target|, length).Ok? {
        AssembledLength(pieces, |target|, length);
        AssembledIds(pieces, |target|, length);
      }
    }
  }

  /**
   * In the reconstructed buffer, every sample that no target frame reaches is silence,
   * when source frames start at non-negative samples and target frames are ordered.
   */
  lemma ReconstructionSilence(
    files: map<string, seq<Sample>>, view: map<string, seq<Sample>>, source: seq<FrameRecord>,
    target: seq<FrameRecord>, features: seq<string>, choice: string, rankings: seq<seq<nat>>, picks: seq<nat>,
    j: nat)
    requires Supplied(source, target, features, rankings, picks)
    requires (forall k :: 0 <= k < |source| ==> source[k].startSample >= 0) && FramesOrdered(target)
    requires forall i :: 0 <= i < |target| ==> !(target[i].startSample <= j < target[i].endSample)
    ensures var r := Reconstruction(files, view, source, target, features, choice, rankings, picks);
            r.Ok? && j < |r.value.generated| ==> r.value.generated[j] == 0.0
  {
    ReconstructionAssembles(files, view, source, target, features, choice, rankings, picks);
    if target != [] && target[0].path in files {
      var length := |files[target[0].path]|;
      var pieces := Pieces(view, source, target, features, choice, rankings, picks);
      if Assemble(pieces, |target|, length).Ok? {
        AssembledLength(pieces, |target|, length);
      }
      if Assemble(pieces, |target|, length).Ok? && j < length {
        PiecesWithinFrames(view, source, target, features, choice, rankings, picks);
        forall i | 0 <= i < |target| ensures !Covers(pieces[i], j) {
        }
        SilenceOutside(pieces, |target|, length, j);
      }
    }
  }

  /**
   * In the assembly of all target rows, the sample `t` past the start of row `i`, when no
   * later target frame reaches it and it lies within the segment read for the row, is the
   * chosen source frame's sample `t` past that frame's start.
   */
  lemma RowSampleSurvives(
    view: map<string, seq<Sample>>, source: seq<FrameRecord>, target: seq<FrameRecord>, features: seq<string>,
    choice: string, rankings: seq<seq<nat>>, picks: seq<nat>, length: nat, i: nat, t: nat)
    requires Supplied(source, target, features, rankings, picks)
    requires (forall k :: 0 <= k < |source| ==> source[k].startSample >= 0) && FramesInside(target, length)
    requires i < |target| && forall l :: i < l < |target| ==> !(target[l].startSample <= target[i].startSample + t < target[l].endSample)
    requires Assemble(Pieces(view, source, target, features, choice, rankings, picks), |target|, length).Ok?
    ensures Chosen(source, target, features, choice, rankings, picks, i).Ok?
    ensures var chosen := Chosen(source, target, features, choice, rankings, picks, i).value;
            var generated := Assemble(Pieces(view, source, target, features, choice, rankings, picks), |target|, length).value.generated;
            && chosen.path in view && chosen.startSample >= 0
            && (chosen.startSample + t < |view[chosen.path]| && t < target[i].endSample - target[i].startSample ==>
                && target[i].startSample + t < |generated|
                && generated[target[i].startSample + t] == view[chosen.path][chosen.startSample + t])
  {
    var pieces := Pieces(view, source, target, features, choice, rankings, picks);
    AssembledRow(view, source, target, features, choice, rankings, picks, length, i);
    var chosen := Chosen(source, target, features, choice, rankings, picks, i).value;
    if chosen.startSample + t < |view[chosen.path]| && t < target[i].endSample - target[i].startSample {
      PieceReadSurvives(pieces, target, length, i, t, view[chosen.path], chosen.startSample);
    }
  }

  /**
   * In a successful assembly of all target rows, with target frames inside the buffer, the
   * pieces fit the buffer and their frames, and row `i`'s piece was read from its chosen frame.
   */
  lemma AssembledRow(
    view: map<string, seq<Sample>>, source: seq<FrameRecord>, target: seq<FrameRecord>, features: seq<string>,
    choice: string, rankings: seq<seq<nat>>, picks: seq<nat>, length: nat, i: nat)
    requires Supplied(source, target, features, rankings, picks)
    requires (forall k :: 0 <= k < |source| ==> source[k].startSample >= 0) && FramesInside(target, length)
    requires i < |target|
    requires Assemble(Pieces(view, source, target, features, choice, rankings, picks), |target|, length).Ok?
    ensures var pieces := Pieces(view, source, target, features, choice, rankings, picks);
            var chosen := Chosen(source, target, features, choice, rankings, picks, i);
            && Fits(pieces, length)
            && (forall l :: 0 <= l < |target| && pieces[l].Ok? ==>
                  && pieces[l].value.start == target[l].startSample
                  && pieces[l].value.start + |pieces[l].value.samples| <= target[l].endSample)
            && pieces[i].Ok? && chosen.Ok? && chosen.value.path in view && chosen.value.startSample >= 0
            && |pieces[i].value.samples|
               == Max(0, Min(target[i].endSample - target[i].startSample, |view[chosen.value.path]| - chosen.value.startSample))
            && forall u :: 0 <= u < |pieces[i].value.samples| ==>
                 && chosen.value.startSample + u < |view[chosen.value.path]|
                 && pieces[i].value.samples[u] == view[chosen.value.path][chosen.value.startSample + u]
  {
    var pieces := Pieces(view, source, target, features, choice, rankings, picks);
    AssembledIds(pieces, |target|, length);
    RowPiece(view, source, target, features, choice, rankings, picks, i);
    PiecesFit(view, source, target, features, choice, rankings, picks, length);
    assert FramesOrdered(target);
    PiecesWithinFrames(view, source, target, features, choice, rankings, picks);
  }

  /**
   * When piece `i` is read from `file` at `from`, sample `t` of the file's segment survives
   * at the row's start plus `t` in the assembly, if no later target frame covers that place.
   */
  lemma PieceReadSurvives(pieces: seq<Result<Piece>>, target: seq<FrameRecord>, length: nat, i: nat, t: nat, file: seq<Sample>, from: int)
    requires |target| <= |pieces| && Fits(pieces, length)
    requires Assemble(pieces, |target|, length).Ok?
    requires forall l :: 0 <= l < |target| && pieces[l].Ok? ==>
               && pieces[l].value.start == target[l].startSample
               && pieces[l].value.start + |pieces[l].value.samples| <= target[l].endSample
    requires i < |target| && forall l :: i < l < |target| ==> !(target[l].startSample <= target[i].startSample + t < target[l].endSample)
    requires pieces[i].Ok? && 0 <= from
    requires |pieces[i].value.samples| == Max(0, Min(target[i].endSample - target[i].startSample, |file| - from))
    requires forall u :: 0 <= u < |pieces[i].value.samples| ==> from + u < |file| && pieces[i].value.samples[u] == file[from + u]
    requires from + t < |file| && t < target[i].endSample - target[i].startSample
    ensures target[i].startSample + t < |Assemble(pieces, |target|, length).value.generated|
    ensures Assemble(pieces, |target|, length).value.generated[target[i].startSample + t] == file[from + t]
  {
    PieceSampleSurvives(pieces, target, length, i, t);
  }

  /**
   * In the assembly of pieces that lie inside their target frames, sample `t` of piece `i`
   * survives at its place when no later target frame covers that place.
   */
  lemma PieceSampleSurvives(pieces: seq<Result<Piece>>, target: seq<FrameRecord>, length: nat, i: nat, t: nat)
    requires |target| <= |pieces| && Fits(pieces, length)
    requires Assemble(pieces, |target|, length).Ok?
    requires forall l :: 0 <= l < |target| && pieces[l].Ok? ==>
               && pieces[l].value.start == target[l].startSample
               && pieces[l].value.start + |pieces[l].value.samples| <= target[l].endSample
    requires i < |target| && forall l :: i < l < |target| ==> !(target[l].startSample <= target[i].startSample + t < target[l].endSample)
    requires pieces[i].Ok? && t < |pieces[i].value.samples|
    ensures pieces[i].value.start + t < |Assemble(pieces, |target|, length).value.generated|
    ensures Assemble(pieces, |target|, length).value.generated[pieces[i].value.start + t] == pieces[i].value.samples[t]
  {
    forall l | i < l < |target| ensures !Covers(pieces[l], pieces[i].value.start + t) {
    }
    LastWriterWins(pieces, |target|, length, i, t);
  }

  /**
   * In the reconstructed buffer, the sample `t` past the start of target row `i`, when no
   * later target frame reaches it and it lies within the segment read for the row, is the
   * chosen source frame's sample `t` past that frame's start. Target frames must lie inside
   * the target audio.
   */
  lemma ReconstructionLastWriterWins(
    files: map<string, seq<Sample>>, view: map<string, seq<Sample>>, source: seq<FrameRecord>,
    target: seq<FrameRecord>, features: seq<string>, choice: string, rankings: seq<seq<nat>>, picks: seq<nat>,
    i: nat, t: nat)
    requires Supplied(source, target, features, rankings, picks)
    requires forall k :: 0 <= k < |source| ==> source[k].startSample >= 0
    requires target != [] && target[0].path in files && FramesInside(target, |files[target[0].path]|)
    requires i < |target| && forall l :: i < l < |target| ==> !(target[l].startSample <= target[i].startSample + t < target[l].endSample)
    ensures var r := Reconstruction(files, view, source, target, features, choice, rankings, picks);
            r.Ok? ==> Chosen(source, target, features, choice, rankings, picks, i).Ok?
    ensures var r := Reconstruction(files, view, source, target, features, choice, rankings, picks);
            var chosen := Chosen(source, target, features, choice, rankings, picks, i);
            r.Ok? && chosen.Ok? ==>
              && chosen.value.path in view
              && (chosen.value.startSample + t < |view[chosen.value.path]| && t < target[i].endSample - target[i].startSample ==>
                  && target[i].startSample + t < |r.value.generated|
                  && r.value.generated[target[i].startSample + t] == view[chosen.value.path][chosen.value.startSample + t])
  {
    ReconstructionAssembles(files, view, source, target, features, choice, rankings, picks);
    var length := |files[target[0].path]|;
    if Assemble(Pieces(view, source, target, features, choice, rankings, picks), |target|, length).Ok? {
      RowSampleSurvives(view, source, target, features, choice, rankings, picks, length, i, t);
    }
  }

}
