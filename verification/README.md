# Audio mosaicing: analysis and reconstruction

This project models the two core modules of an audio-mosaicing tool:

- **analyzer.py** cuts a recording into frames and writes one record per frame. A record holds the sound id, a frame id `<sound id>_f<k>`, the path, the start and end samples, the loudness divided by the frame length, and one `mfcc_<j>` column per MFCC coefficient.
  - Frames are either fixed-size, from `range(0, len(audio), frame_size)`, or lie between consecutive beat positions. A trailing unmatched boundary is dropped in both modes.
  - A collection of sounds is analysed one sound after another. A sound whose analysis raises `RuntimeError` is skipped; any other error ends the run.
- **mosaicer.py** rebuilds a target recording from frames of a source collection. For each target frame, in order, it:
  1. runs a 10-nearest-neighbour search over chosen feature columns;
  2. picks the best or a random candidate;
  3. reads that candidate's samples through a module-level cache of loaded files;
  4. pastes them into a buffer of silence at the target frame's start, with numpy slice-assignment semantics.

The Dafny model follows the code's own shape:

- Pure computations are functions over datatypes: frame bounds, records, the search's contract, the choice of a frame, slice assignment, and the whole reconstruction as a value.
- The loops become methods proved against those functions:
  - `Analyzer.AnalyzeSound`, `Analyzer.DescribeEachFrame`, `Analyzer.AnalyzeCollection`;
  - `Mosaicer.FillBuffer`, `Mosaicer.PlaceRow`, `Mosaicer.ReconstructAudio`.
- The output buffer is an `array` pasted in place (`Mosaicer.PasteInto`).
- The module-level cache of loaded files is a class, `Mosaicer.SegmentCache`, whose `loaded` map the segment reads update.

Things the model takes as inputs:

- **The file system** is a map from path to samples. A missing path is the loader's `RuntimeError`.
- **Per-frame DSP** (loudness and MFCC) is a function parameter `describe`. It returns `None` where the audio library raises `RuntimeError`.
- **Beat positions** are given in samples.
- **The nearest-neighbour search** is its contract. For each target row the model receives a ranking of source rows, and `Mosaicer.RankingFits` requires that ranking to be a nearest-first answer whenever the search can run.
- **`random.choice`** becomes a supplied index below 10.

Python's behaviour is modelled exactly where it decides the outcome:

- slices with negative or out-of-range bounds (`Slicing.Slice`);
- `range` with a zero step, which raises `ValueError`;
- `zip(b[:-1], b[1:])`;
- pandas' `KeyError` for a feature that is no column;
- scikit-learn's `ValueError` for too few rows, or for missing values in rows that lack a column;
- numpy's `ValueError` for a slice assignment whose lengths differ, except when a single value is broadcast.

Where the code and its own documentation disagree, the model follows the code:

- **`frame_size=None`.** The docstring of `analyze_sound` (analyzer.py:12) says the entire file becomes one frame. The code sets the frame size to the file length, which gives exactly one start and so no frame pair. The result is zero frames for a non-empty file and `ValueError` for an empty one (`Analyzer.NoFrameSizeGivesNoFrames`, `Analyzer.NoFrameSizeGivesEmptyAnalysis`).

Frame counts follow from `range` and the pairing of consecutive starts. A 4-second file at 44100 Hz (176400 samples) with frame size 8192 gives 21 frames, the last one `[163840, 172032)` (`Analyzer.FourSecondsAt8192`). The trailing 4368 samples belong to no frame.

## Model

| member | source | states |
|---|---|---|
| Slicing.Clamp | analyzer.py:38 | a slice bound is counted from the end when negative and clamped to `[0, n]` |
| Slicing.Slice | analyzer.py:38 | the Python slice `s[start:stop]`: its length and elements in terms of the clamped bounds, and it is never longer than `s` |
| Slicing.SliceFrom | mosaicer.py:45 | reading `n` samples from a non-negative start yields `min(n, len - start)` samples (never negative), each equal to the file's sample at `start + j`; within bounds it is the plain subsequence |
| Slicing.SliceWithinBounds | analyzer.py:38 | with in-range bounds the Python slice is the ordinary subsequence |
| Decimal.DigitChar | analyzer.py:41 | a digit below ten is written as the character whose code is `'0'` plus the digit |
| Decimal.DigitValue | analyzer.py:41 | a digit character reads back as a value below ten |
| Decimal.NatToString | analyzer.py:41 | the decimal text of a count is non-empty, all digits, with no leading zero unless it is 0 |
| Decimal.StringToNatOfNatToString | analyzer.py:41 | reading the decimal text of a count back gives the count (partner of `NatToString`) |
| Decimal.NatToStringInjective | analyzer.py:58 | distinct counts have distinct decimal texts |
| Analyzer.UsedFrameSize | analyzer.py:21-24 | the frame size used is even, and is the requested size (or the file length when none is requested) or one more than it |
| Analyzer.Range | analyzer.py:32 | `range(0, n, step)`: `ValueError` for a zero step, nothing for a negative step, the multiples of a positive step below `n` otherwise; its properties are stated by `Analyzer.RangeMultiples` and `Analyzer.FixedFrameCeiling` |
| Analyzer.RangeMultiples | analyzer.py:32 | `range(0, n, step)` with a positive step holds exactly the multiples of the step below `n`, the i-th being `i * step`, strictly increasing |
| Analyzer.Zip | analyzer.py:30 | `zip` pairs elements position by position, as many pairs as the shorter input |
| Analyzer.Pairs | analyzer.py:33-35 | `zip(b[:-1], b[1:])` yields `len(b) - 1` pairs (none for fewer than two), each a boundary and its successor |
| Analyzer.FrameBounds | analyzer.py:26-35 | the frame bounds: consecutive beat pairs in beat mode, consecutive pairs of `range` starts in fixed mode, with `range`'s `ValueError`; stated by `Analyzer.FixedFrames`, `Analyzer.FixedFrameCount`, `Analyzer.BeatSyncedFrames` |
| Analyzer.FrameId | analyzer.py:41 | the frame id `<sound id>_f<k>`; stated by `Analyzer.FrameIdInjective` and `Analyzer.FrameIdsDistinct` |
| Analyzer.MfccName | analyzer.py:58 | the column name `mfcc_<j>`; stated by `Analyzer.MfccNameInjective`, `FeatureLists.OneDigitMfccNames`, `FeatureLists.TwoDigitMfccNames` |
| Analyzer.FrameIdInjective | analyzer.py:41 | frame ids of one sound are equal only for the same frame number |
| Analyzer.MfccNameInjective | analyzer.py:58 | `mfcc_<j>` column names are equal only for the same coefficient |
| Analyzer.MfccColumns | analyzer.py:57-58 | every coefficient `j` is stored under `mfcc_<j>`, and every key is `mfcc_<j>` for some coefficient `j` |
| Analyzer.FeatureColumns | analyzer.py:46-58 | a frame's feature columns are its loudness and every MFCC coefficient; every key is `loudness` or `mfcc_<j>` for some coefficient `j` |
| Analyzer.FrameSamples | analyzer.py:38 | a frame's samples are the Python slice `audio[fstart:fend]` |
| Analyzer.MakeRecord | analyzer.py:39-45 | the row of frame `k`: sound id, frame id, path, start and end sample, and the frame's feature columns |
| Analyzer.DescribeFrames | analyzer.py:37-60 | the rows of the frames in order, or `RuntimeError` at the first frame the library fails on; stated by `Analyzer.DescribedFramesSucceed`, `Analyzer.DescribedFrames`, `Analyzer.DescribeFramesStops` |
| Analyzer.DescribedFramesSucceed | analyzer.py:37-60 | describing the frames succeeds if and only if the DSP succeeds on every frame; otherwise the error is `RuntimeError` |
| Analyzer.DescribedFrames | analyzer.py:37-60 | on success there is one record per frame, record `k` built from frame `k`'s bounds and descriptors, in frame order |
| Analyzer.DescribeEachFrame | analyzer.py:37-60 | the per-frame loop computes exactly the records of the specification function, stopping at the first failing frame |
| Analyzer.DescribeFramesStops | analyzer.py:37-60 | once a frame fails, the later frames do not change the outcome |
| Analyzer.SoundAnalysis | analyzer.py:7-61 | the analysis of one sound: `RuntimeError` for a missing file, the frame size used, the frame bounds (or their `ValueError`), then the rows of the frames; stated by `Analyzer.SoundRecords`, `Analyzer.RowPerFrame`, `Analyzer.FrameIdsDistinct`, `Analyzer.FixedRecordsLayout` |
| Analyzer.AnalyzeSound | analyzer.py:7-61 | the method computes the analysis of one sound: load, frame size, bounds, records |
| Analyzer.AnalyzeTarget | analyzer.py:92-114 | the target is analysed with its path as its id, so every row's id and path are the target path |
| Analyzer.Outcome | analyzer.py:77-80 | one sound of the collection is analysed with fixed-size frames, its Freesound id as the audio id |
| Analyzer.Outcomes | analyzer.py:74-80 | one analysis outcome per sound of the collection, in order |
| Analyzer.MapSeq | analyzer.py:74 | mapping keeps the length and applies the function at each position |
| Analyzer.MapConcat | analyzer.py:74 | mapping a concatenation is the concatenation of the mappings |
| Analyzer.MapAround | analyzer.py:74 | mapping splits around a position, and mapping with that position removed drops its image |
| Analyzer.OutcomesAround | analyzer.py:74-80 | the outcomes split around one sound, and removing that sound removes exactly its outcome |
| Analyzer.Collect | analyzer.py:73-83 | the rows of the successful outcomes in order, skipping `RuntimeError`, ending with any other error; stated by `Analyzer.CollectStep`, `Analyzer.CollectSplit`, `Analyzer.CollectErrors` |
| Analyzer.CollectionAnalysis | analyzer.py:64-89 | `analyze_collection`: the collected outcomes of the sounds; stated by `Analyzer.FailingSoundSkipped`, `Analyzer.AnalysedSoundKept`, `Analyzer.CollectionErrors` |
| Analyzer.AnalyzeCollection | analyzer.py:64-89 | the loop over the collection computes exactly the collection analysis |
| Analyzer.CollectStep | analyzer.py:77-83 | one loop pass: a successful sound extends the rows, a `RuntimeError` is skipped, any other error ends the analysis with that error |
| Analyzer.CollectSplit | analyzer.py:73-83 | collecting a concatenation is collecting the first part, then the second |
| Analyzer.CollectSkipsRuntimeError | analyzer.py:82-83 | a sound raising `RuntimeError` can be removed without changing the result |
| Analyzer.CollectKeepsRows | analyzer.py:81 | a successful sound contributes its rows in place, between the rows before and after it |
| Analyzer.FailingSoundSkipped | analyzer.py:77-83 | the collection analysis with a `RuntimeError` sound equals the analysis without that sound |
| Analyzer.AnalysedSoundKept | analyzer.py:77-83 | when the collection analysis succeeds, a successfully analysed sound's rows appear, whole and in order, between the rows of the sounds before and after it |
| Analyzer.CollectErrors | analyzer.py:77-83 | collecting fails if and only if some outcome is an error other than `RuntimeError`, and then with the first such error |
| Analyzer.CollectionErrors | analyzer.py:64-89 | the collection analysis fails if and only if some sound raises an error other than `RuntimeError`, and then with the first one's error |
| Analyzer.FixedFrames | analyzer.py:32-35 | fixed frames are `[k*fs, (k+1)*fs)`, exactly `fs` long, end before the file's end and are contiguous |
| Analyzer.FixedFrameCeiling | analyzer.py:32-35 | an empty file has no frame; otherwise there is one frame fewer than the number of starts, `ceil(n / fs)` |
| Analyzer.FixedFrameCount | analyzer.py:32-35 | the frame count is `n / fs - 1` when `fs` divides `n` and `n / fs` otherwise; the uncovered tail is between 1 and `fs` samples |
| Analyzer.NoFrameSizeGivesNoFrames | analyzer.py:21-35 | without a frame size a non-empty file has no frame, and an empty file raises `ValueError` |
| Analyzer.NoFrameSizeGivesEmptyAnalysis | analyzer.py:7-61 | analysing a non-empty file without a frame size yields no rows |
| Analyzer.BeatSyncedFrames | analyzer.py:26-30 | beat-synced frames lie between consecutive beats, one fewer than the beats |
| Analyzer.SoundRecords | analyzer.py:37-60 | the analysis succeeds if and only if the DSP succeeds on every frame (otherwise `RuntimeError`); row `k` carries the sound id, frame id `k`, the path, frame `k`'s bounds and that frame's feature columns |
| Analyzer.RowPerFrame | analyzer.py:37-60 | a successful analysis has exactly one row per frame |
| Analyzer.FrameIdsDistinct | analyzer.py:41 | the frame ids of one analysed sound are pairwise distinct |
| Analyzer.FixedRecordsLayout | analyzer.py:32-45 | with an even frame size, row `k` spans `[k*fs, (k+1)*fs)` inside the file, and consecutive rows are contiguous |
| Analyzer.FourSecondsAt8192 | analyzer.py:32-35 | 176400 samples at frame size 8192 give 21 frames, the last `[163840, 172032)` |
| Mosaicer.SegmentCache.constructor | mosaicer.py:12 | the cache starts empty |
| Mosaicer.SegmentCache.View | mosaicer.py:39-44 | what a read sees: the cached audio for cached paths, the file system's for the rest |
| Mosaicer.SegmentCache.GetSegment | mosaicer.py:30-45 | a cached path is served from the cache; an uncached path is loaded and cached; a missing file raises `RuntimeError` and caches nothing; the segment is the Python slice of `n` samples from the start; what reads see never changes |
| Mosaicer.Columns | mosaicer.py:60 | the columns of a table are exactly the names some row carries |
| Mosaicer.SquaredDistance | mosaicer.py:59-62 | the squared Euclidean distance over the chosen features is never negative |
| Mosaicer.Searchable | mosaicer.py:58-62 | when `NearestNeighbors(n_neighbors=n).fit(...)` and `kneighbors` run without `ValueError`: at least one feature, between 1 and the number of source rows neighbours, and no missing value in the query or any source row |
| Mosaicer.IsNearestRanking | mosaicer.py:62-63 | what `kneighbors` returns for one query: `n` distinct source row indices, nearest first, every row left out at least as far as every row listed |
| Mosaicer.RankingFits | mosaicer.py:58-63 | the supplied ranking is the search's answer whenever the search can run |
| Mosaicer.FindSimilarFrames | mosaicer.py:48-63 | the search succeeds if and only if it can run; it raises `KeyError` exactly when a feature is no column, and `ValueError` for the other cases; on success it returns the `n` ranked rows, nearest first |
| Mosaicer.SearchableHasColumns | mosaicer.py:60 | a search that can run only names existing columns |
| Mosaicer.ChooseFrame | mosaicer.py:66-89 | the choice succeeds if and only if the features are target columns, the search can run and the choice is `best` or `random`; a feature missing from the target raises `KeyError`; with every target column present, a feature missing from the source table raises `KeyError`, a search that cannot run raises `ValueError`, and then an invalid choice raises `ValueError`; `best` returns the first ranked row, nearest of all rows; `random` returns the picked candidate, nearer than every row outside the ten |
| Mosaicer.NearestOverall | mosaicer.py:86-87 | the first row of a nearest-first ranking is at least as near as every source row |
| Mosaicer.Zeros | mosaicer.py:110 | the initial buffer is the target's length of silence |
| Mosaicer.Paste | mosaicer.py:127-130 | the slice assignment keeps the buffer length and fails only with `ValueError`; a segment that fits is placed at the start; samples outside the slice are unchanged |
| Mosaicer.PasteInto | mosaicer.py:127-130 | the in-place assignment on the array produces exactly `Paste`'s buffer, or leaves the array as it was when `Paste` fails |
| Mosaicer.Chosen | mosaicer.py:115-121 | the source frame chosen for target row `i`, with the target table's columns; stated by `Mosaicer.ChooseFrame` and `MosaicProperties.ChosenFromSource` |
| Mosaicer.SegmentFor | mosaicer.py:123-126 | the segment read for a row: `RuntimeError` for a missing file, else the Python slice of the row's length from the chosen frame's start; stated by `MosaicProperties.RowPiece` |
| Mosaicer.Placement | mosaicer.py:116-126 | a row's piece: the chosen frame's id, the row's start and the segment, or the error raised choosing or reading it; stated by `MosaicProperties.PlacementWithinFrame` |
| Mosaicer.Pieces | mosaicer.py:114-126 | one piece per target row: the chosen frame's id and the segment read for the row, or the error raised choosing or reading it |
| Mosaicer.Assemble | mosaicer.py:110-130 | the buffer and ids after the first `count` rows, from silence, pasting each piece and appending its id, the first error ending it; stated by `Mosaicer.AssembleNext`, `Mosaicer.AssembleStops`, `MosaicProperties.AssembledLength`, `MosaicProperties.SilenceOutside`, `MosaicProperties.LastWriterWins` |
| Mosaicer.Reconstruction | mosaicer.py:92-136 | `reconstruct_audio` as a value: `IndexError` for an empty target, `RuntimeError` for a missing target file, else the assembly over the target audio's length; stated by `MosaicProperties.ReconstructionShape`, `MosaicProperties.ReconstructionSilence`, `MosaicProperties.ReconstructionLastWriterWins` |
| Mosaicer.PlaceRow | mosaicer.py:115-130 | one loop pass extends the assembly by row `i` (its id appended, its segment pasted in place), or fails with the error the assembly of the first `i + 1` rows fails with; what reads see is unchanged and cached files stay cached |
| Mosaicer.AssembleNext | mosaicer.py:114-130 | the next piece either ends the assembly with its error or with the paste's error, or pastes its samples and appends its id |
| Mosaicer.AssembleErrorPersists | mosaicer.py:114-130 | an error in the reconstruction loop persists to the next row |
| Mosaicer.AssembleStops | mosaicer.py:114-130 | the first error ends the reconstruction: the full assembly fails with that error |
| Mosaicer.FillBuffer | mosaicer.py:114-130 | the loop over all target rows leaves in the array exactly the assembled buffer and returns the assembled ids, or returns the assembly's error |
| Mosaicer.ReconstructAudio | mosaicer.py:92-136 | the method computes exactly the reconstruction, over what the cache showed before the call, and leaves that view unchanged |
| MosaicProperties.AssembleStep | mosaicer.py:114-130 | a successful assembly of `count` rows comes from a successful assembly of `count - 1` rows, with the last piece pasted and its id appended |
| MosaicProperties.AssembledLength | mosaicer.py:110-130 | the buffer keeps the target's length, and one id is collected per row |
| MosaicProperties.AssembledIds | mosaicer.py:122 | on success every piece succeeded, and id `i` is piece `i`'s source id |
| MosaicProperties.PasteKeepsOutside | mosaicer.py:127-130 | a paste leaves every sample outside its slice unchanged |
| MosaicProperties.PastePlaces | mosaicer.py:127-130 | a segment that fits is placed sample by sample at the start |
| MosaicProperties.SilenceOutside | mosaicer.py:110-130 | a sample that no pasted piece covers stays silent |
| MosaicProperties.LastWriterWins | mosaicer.py:114-130 | when later pieces do not cover a sample, it holds the value the last piece covering it wrote |
| MosaicProperties.ChosenFromSource | mosaicer.py:116-121 | the chosen frame is a row of the source table |
| MosaicProperties.PlacementWithinFrame | mosaicer.py:122-126 | a row's piece carries the chosen frame's id, starts at the row's start, is no longer than the row and holds the chosen file's samples from the frame's start |
| MosaicProperties.PiecesWithinFrames | mosaicer.py:123-130 | every pasted piece lies inside its target frame |
| MosaicProperties.RowPiece | mosaicer.py:123-126 | a row's piece has `min(row length, samples left in the chosen file)` samples, read from the chosen frame's start |
| MosaicProperties.PiecesFit | mosaicer.py:127-130 | when target frames lie inside the target audio, so does every piece |
| MosaicProperties.ReconstructionAssembles | mosaicer.py:107-136 | a successful reconstruction returns the assembled buffer and ids, and the target audio |
| MosaicProperties.ReconstructionShape | mosaicer.py:92-136 | an empty target raises `IndexError`; a missing target file raises `RuntimeError`; on success the buffer is as long as the target audio, with one id per target row, and id `i` is the chosen frame's source id |
| MosaicProperties.ReconstructionSilence | mosaicer.py:110-130 | a target sample outside every target frame stays silent |
| MosaicProperties.PieceSampleSurvives | mosaicer.py:114-130 | when pieces lie inside their target frames, sample `t` of piece `i` survives at its place unless a later target frame covers that place |
| MosaicProperties.PieceReadSurvives | mosaicer.py:114-130 | a piece read from a file at an offset leaves the file's sample `t` past that offset at the row's start plus `t`, unless a later target frame covers that place |
| MosaicProperties.AssembledRow | mosaicer.py:110-130 | in a successful assembly with target frames inside the buffer, every piece fits its frame and the buffer, and row `i`'s piece was read from its chosen frame, starting at a non-negative sample |
| MosaicProperties.RowSampleSurvives | mosaicer.py:114-130 | in the assembled buffer, a sample of row `i` that no later frame covers is the chosen source frame's sample at the same offset |
| MosaicProperties.ReconstructionLastWriterWins | mosaicer.py:92-136 | in the reconstruction, a sample of row `i` that no later frame covers is the chosen source frame's sample at the same offset |
| FeatureLists.AnalysedRowsEmitOnly | analyzer.py:37-60 | the rows of an analysed sound carry only loudness and MFCC columns |
| FeatureLists.NotEmitted | analyzer.py:46-58 | a name that is neither loudness nor an MFCC column is no column of an analysed table |
| FeatureLists.DefaultFeaturesRaiseKeyError | mosaicer.py:16-26 | with the default feature list, reconstructing an analysed target always raises `KeyError` |
| FeatureLists.OneDigitMfccNames | analyzer.py:58 | coefficients 0 to 9 are stored as `mfcc_0` to `mfcc_9` |
| FeatureLists.TwoDigitMfccNames | analyzer.py:58 | coefficients 10 to 12 are stored as `mfcc_10` to `mfcc_12` |
| FeatureLists.AnalyzerFeaturesEmitted | analyzer.py:46-58 | a frame with at least 13 coefficients carries every column of the corrected feature list |
| FeatureLists.CorrectedNamesPresent | mosaicer.py:17-18 | a row holding `loudness` and `mfcc_0` to `mfcc_12` has every name of the corrected feature list |
| FeatureLists.AnalyzerFeaturesChoose | mosaicer.py:66-89 | with the corrected list, every row carrying those columns, at least ten source rows and a valid choice, choosing a frame succeeds for every target row |

## Left out

- The audio library is not modelled.
  - Audio loading and decoding (`MonoLoader`) is a map from path to samples.
  - Loudness, windowing, spectrum and MFCC are the `describe` parameter.
  - `BeatTrackerDegara` and the rounding of beat times to samples (analyzer.py:27-29) are not modelled: beat positions are given in samples.
- Writing the generated audio (`MonoWriter`, mosaicer.py:132-134) is an output side effect, so it is left out.
- pandas and CSV output are not modelled.
  - `to_csv` and the DataFrame wrappers (analyzer.py:84-85 and 109-110) are output side effects.
  - The table is a sequence of records.
- `print` progress messages are left out.
- Floating point is not modelled.
  - Samples, features and distances are exact reals.
  - Numpy's float32/float64 rounding is not captured.
- Mosaicer.FindSimilarFrames: does not compute the ball-tree search. It takes a supplied ranking that must be a nearest-first answer.
  - Among rows at equal distance, the model allows any order.
  - The library's actual tie-breaking order is not fixed.
- Mosaicer.ChooseFrame: takes the index `random.choice` would draw as a parameter. The random number generator is not modelled.
- Mosaicer.ChooseFrame: treats the record fields `freesound_id`, `id`, `path`, `start_sample` and `end_sample` as non-feature columns. A feature list naming one of them raises `KeyError` in the model, while pandas would read that column.
- Missing values are handled by the search's contract.
  - When some row lacks a feature column that others have, pandas fills it with NaN and scikit-learn refuses it.
  - The model reports `ValueError` through `Mosaicer.Searchable` rather than computing with NaN.
- Freesound ids are modelled as text. The collection table's `freesound_id` column holds numeric ids, which become text only inside the frame id (analyzer.py:41); the selected ids (mosaicer.py:122) are the raw column values. The model only compares and copies ids, so no behaviour depends on the difference.
- The module-level cache (mosaicer.py:12) is a `SegmentCache` object passed to the operations that use it. Its lifetime across separate program runs is not modelled.
- Plotting and notebook playback (`plot_waveform_with_frames`, `plot_audio_signals`, IPython display) are presentation only, so they are left out.
- streamlit_app.py, main.py and downloader.py are not part of this model.

## Findings

| source | as written | input that shows it | evidently intended | confidence | as-written member | corrected member |
|---|---|---|---|---|---|---|
| mosaicer.py:16-26 | the default `similarity_features` lists seven columns (`spectral_centroid`, `danceability`, `flux`, `hfc`, `spectral_complexity`, `pitch_salience`, `intensity`) that `analyze_sound` never writes, so `target_frame[similarity_features]` raises `KeyError` on the first target row | any non-empty target table produced by `analyze_sound`, reconstructed with the default features | search on the columns the analysis emits: `mfcc_0` … `mfcc_12` and `loudness` | not executed | FeatureLists.DefaultFeaturesRaiseKeyError | FeatureLists.AnalyzerFeaturesChoose |
