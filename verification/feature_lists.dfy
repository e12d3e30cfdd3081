/**
 * The feature lists the similarity search may use, against the columns the analysis
 * actually writes: the default list names columns no analysed table has, while the list
 * of MFCC coefficients and loudness is always available.
 */
module FeatureLists {
  import opened Results
  import opened Analyzer
  import opened Mosaicer
  import Decimal

  /** Every feature column of the table is the loudness or an MFCC coefficient. */
  predicate EmittedColumnsOnly(rows: seq<FrameRecord>) {
    forall k, name :: 0 <= k < |rows| && name in rows[k].features ==> name == "loudness" || IsMfccColumn(name)
  }

  /** The rows of an analysed sound carry only the loudness and MFCC columns. */
  lemma AnalysedRowsEmitOnly(
    files: map<string, seq<Sample>>, path: string, frameSize: Option<int>, audioId: string,
    mode: Segmentation, describe: seq<Sample> -> Option<Descriptors>)
    requires SoundAnalysis(files, path, frameSize, audioId, mode, describe).Ok?
    ensures EmittedColumnsOnly(SoundAnalysis(files, path, frameSize, audioId, mode, describe).value)
  {
    RowPerFrame(files, path, frameSize, audioId, mode, describe);
    SoundRecords(files, path, frameSize, audioId, mode, describe);
  }

  /**
   * With the default feature list, reconstructing a target analysed by the analysis always
   * raises KeyError: "spectral_centroid" (and six more names) is no column of its table.
   */
  lemma DefaultFeaturesRaiseKeyError(
    files: map<string, seq<Sample>>, view: map<string, seq<Sample>>, source: seq<FrameRecord>,
    target: seq<FrameRecord>, choice: string, rankings: seq<seq<nat>>, picks: seq<nat>)
    requires Supplied(source, target, DefaultFeatures, rankings, picks)
    requires EmittedColumnsOnly(target)
    requires target != [] && target[0].path in files
    ensures Reconstruction(files, view, source, target, DefaultFeatures, choice, rankings, picks).Err?
    ensures Reconstruction(files, view, source, target, DefaultFeatures, choice, rankings, picks).error == KeyError
  {
    var name := "spectral_centroid";
    assert name in DefaultFeatures;
    assert name[..5] == "spect";
    NotEmitted(target, name);
    var length := |files[target[0].path]|;
    var pieces := Pieces(view, source, target, DefaultFeatures, choice, rankings, picks);
    var first := Chosen(source, target, DefaultFeatures, choice, rankings, picks, 0);
    assert first.Err? && first.error == KeyError;
    assert pieces[0] == Placement(view, first, target[0]);
    assert Assemble(pieces, 1, length).Err?;
    AssembleStops(pieces, 1, length);
  }

  /** A name that is neither the loudness nor an MFCC coefficient is no column of a table of analysed rows. */
  lemma NotEmitted(rows: seq<FrameRecord>, name: string)
    requires EmittedColumnsOnly(rows) && name != "loudness" && !IsMfccColumn(name)
    ensures name !in Columns(rows)
  {
  }

  /** A frame analysed with at least 13 MFCC coefficients carries every name of the corrected feature list. */
  lemma AnalyzerFeaturesEmitted(d: Descriptors)
    requires |d.mfcc| >= 13
    ensures HasAll(FeatureColumns(d), AnalyzerFeatures)
  {
    var columns := FeatureColumns(d);
    assert forall j :: 0 <= j < 13 ==> MfccName(j) in columns;
    CorrectedNamesPresent(columns);
  }

  /** A row holding the loudness and the first 13 MFCC columns has every name of the corrected feature list. */
  lemma CorrectedNamesPresent(columns: map<string, real>)
    requires "loudness" in columns && forall j :: 0 <= j < 13 ==> MfccName(j) in columns
    ensures HasAll(columns, AnalyzerFeatures)
  {
    OneDigitMfccNames();
    TwoDigitMfccNames();
    assert AnalyzerFeatures == [
      MfccName(0), MfccName(1), MfccName(2), MfccName(3), MfccName(4), MfccName(5), MfccName(6),
      MfccName(7), MfccName(8), MfccName(9), MfccName(10), MfccName(11), MfccName(12), "loudness"];
  }

  /** The column names of the first ten coefficients. */
  lemma OneDigitMfccNames()
    ensures MfccName(0) == "mfcc_0" && MfccName(1) == "mfcc_1" && MfccName(2) == "mfcc_2" && MfccName(3) == "mfcc_3"
    ensures MfccName(4) == "mfcc_4" && MfccName(5) == "mfcc_5" && MfccName(6) == "mfcc_6"
    ensures MfccName(7) == "mfcc_7" && MfccName(8) == "mfcc_8" && MfccName(9) == "mfcc_9"
  {
  }

  /** The column names of coefficients 10 to 12. */
  lemma TwoDigitMfccNames()
    ensures MfccName(10) == "mfcc_10" && MfccName(11) == "mfcc_11" && MfccName(12) == "mfcc_12"
  {
    assert Decimal.NatToString(10) == Decimal.NatToString(1) + ['0'];
    assert Decimal.NatToString(11) == Decimal.NatToString(1) + ['1'];
    assert Decimal.NatToString(12) == Decimal.NatToString(1) + ['2'];
  }

  /**
   * With the corrected feature list, tables whose rows all carry those columns, at least
   * ten source rows and a valid choice, the choice of a source frame succeeds for every
   * target row.
   */
  lemma AnalyzerFeaturesChoose(
    source: seq<FrameRecord>, target: seq<FrameRecord>, choice: string, rankings: seq<seq<nat>>, picks: seq<nat>, i: nat)
    requires Supplied(source, target, AnalyzerFeatures, rankings, picks) && i < |target|
    requires forall k :: 0 <= k < |target| ==> HasAll(target[k].features, AnalyzerFeatures)
    requires forall k :: 0 <= k < |source| ==> HasAll(source[k].features, AnalyzerFeatures)
    requires |source| >= NeighbourCount
    requires choice == "best" || choice == "random"
    ensures Chosen(source, target, AnalyzerFeatures, choice, rankings, picks, i).Ok?
  {
    forall f | f in AnalyzerFeatures ensures f in Columns(target) {
      assert f in target[i].features;
    }
  }
}
