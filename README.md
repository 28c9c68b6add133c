# Overlap-based Monte Carlo localisation: a Dafny model of its grid bookkeeping

This project models the parts of overlap_localization that work on integer map
cells, file names, lookup tables and particle weights. That code surrounds a
neural network which scores how much a query scan overlaps the virtual scan of
a map cell.

- **Overlap sensor model** (`SensorModelOverlap`, class `SensorModel`).
  - Every particle is rounded to its grid cell.
  - A fresh lookup table holds, for each cell that has a stored feature volume, its index in the request list. Each such cell is requested once, in first-appearance order.
  - Each particle gets an overlap multiplier and, optionally, a yaw multiplier. The weights are multiplied in place.
  - A one-shot convergence step may keep only the heaviest particles.
  - Finally the weights are divided by their maximum.
- **Feature-volume names and batches** (`Names`, `FeatureVolumes`).
  - The signed fixed-point name `'{:+.2f}'.zfill(10)` of each coordinate, joined by `_`, and the six-digit index names.
  - Parsing a name back into its coordinates.
  - Splitting requests into volumes found on disk and volumes still to generate.
  - The ceil-division batching and the names the new volumes are saved under.
- **Initialisation and map bounds** (`Initialization`).
  - The uniform and road-based particle initialisers.
  - `check_mapsize`: name filtering, the `< 1000` mask, scaling by the resolution and rounded bounds.
- **Localisation loop** (`Localization`): the frame loop with its `is_initial` gate, the sensor update plus resampling, and the recording of each frame's particles.
- **Training-label interning** (`TrainingLabels`): dense reference indices for distinct cells, the yaw class and the six-column output table.
- **Map rasterisation** (`VirtualScans`): the table over the poses' extent, the local offsets, snapping to the grid, marking each cell once and skipping files that already exist.
- **Overlap rebalancing** (`OverlapNormalization`): ten bins by overlap, resampling of the eight lowest, concatenation, and the output path.

Shared pieces:

- `Grid`: Python's round-half-even, cells, and the box a table is laid over. Row is `y_max - y` and column is `x - x_min`.
- `Interning`: first-appearance deduplication. `Distinct` and `Slot` state what every table handing out dense indices holds.
- `Tables`: the imperative table of the sensor model and of the label converter.
- `Particles` and `Wrappers`.

Weights, coordinates and angles are exact reals, and coordinates inside names are integer hundredths. The network, `exp`, the random draws, the motion model, the command generator and the resampler are parameters. The file system is a set of existing names.

## Model

| member | source | states |
|---|---|---|
| Grid.Round | src/sensor_model_overlap.py:85-86 | Python's round: the result is within 0.5 of the argument, and a tie goes to the even integer |
| Grid.RoundMonotone | src/prepare_training/convert_training_labels.py:41-44 | rounding never reverses order, which keeps rows rounded between rounded bounds |
| Grid.Box.CellAt | src/prepare_training/convert_training_data.py:66-70 | the cell (x_min + column, y_max - row) read back from a table position is placed at exactly that row and column |
| Grid.PlacementRoundTrip | src/sensor_model_overlap.py:100-103 | placing a cell at (y_max - y, x - x_min) and reading it back gives the cell; a cell is in the box iff its slot is inside the table |
| Grid.SeqMax | src/initialization.py:92-94 | np.max of a non-empty column bounds every entry and is one of them |
| Grid.SeqMin | src/initialization.py:91-93 | np.min of a non-empty column is below every entry and is one of them |
| Grid.RoundedBounds | src/prepare_training/convert_training_labels.py:41-55 | each entry divided by the resolution and rounded lies between the rounded min and the rounded max |
| Grid.RoundedBoundsNegative | src/prepare_training/convert_training_labels.py:41-55 | with a negative resolution the order flips: the rounded max is the lower bound and the rounded min the upper bound of every rounded entry |
| Grid.SliceEnd | src/sensor_model_overlap.py:156 | the end of a slice xs[:m], a negative m counting from the end, never passes len(xs) |
| Interning.Distinct | src/sensor_model_overlap.py:99-104 | the first-appearance deduplication has no duplicates and is no longer than its input |
| Interning.DistinctSnoc | src/sensor_model_overlap.py:100-104 | one more value is appended to the distinct list iff it was not seen before |
| Interning.Slot | src/sensor_model_overlap.py:130-131 | the stored index is -1 iff the value was never entered, and otherwise the position holding the value |
| Interning.SlotSnoc | src/sensor_model_overlap.py:101-104 | entering a new value gives it the next index and leaves the index of every other value unchanged |
| Interning.DistinctPrefix | src/prepare_training/convert_training_labels.py:58-63 | the distinct values of a prefix are a prefix of the distinct values, so an index once handed out never changes |
| Interning.IndexOnArrival | src/prepare_training/convert_training_labels.py:58-63 | a value seen for the first time gets the number of distinct values before it; a repeated value keeps its earlier index |
| Interning.SlotAt | src/prepare_training/convert_training_labels.py:59 | in a list without duplicates, the index of the value at position k is k |
| Interning.DenseIndices | src/prepare_training/convert_training_labels.py:50-64 | every index lies in 0..k-1 for k distinct values, and two entries share an index iff they are equal |
| Interning.DistinctMembers | src/sensor_model_overlap.py:99-104 | a value is among the distinct values iff it occurs in the input |
| Interning.SlotInPrefix | src/prepare_training/convert_training_labels.py:58-59 | an index read from an earlier table agrees with the final table |
| Interning.DenseIndex | src/prepare_training/convert_training_labels.py:64 | reference_idxs has one entry per input row |
| Interning.DenseIndexSnoc | src/prepare_training/convert_training_labels.py:58-64 | the row appended to the input appends the index of its value among the distinct values seen so far |
| Names.DecimalValue | src/fast_infer.py:75 | str() of a natural number reads back as that number |
| Names.DecimalLength | src/fast_infer.py:75 | a number below 10^k has at most k decimal digits |
| Names.LeadingZeros | src/fast_infer.py:75 | zero padding in front of digits does not change their value |
| Names.ZFill | src/fast_infer.py:59-60 | zfill(width) gives a string of length max(len, width) |
| Names.ZFillSigned | src/fast_infer.py:59-60 | on a signed string, zfill puts the zeros after the sign, exactly width - len of them |
| Names.CoordName | src/fast_infer.py:53-61 | coord2filename: the two zero-filled signed parts joined by '_' (parsed back by CoordNameRoundTrip) |
| Names.IndexName | src/fast_infer.py:74 | str(i).zfill(6) (parsed back by IndexNameRoundTrip) |
| Names.FileName | src/fast_infer.py:63-76 | coord_or_idx2filename: the coordinate name for a coordinate pair, the index name for an index |
| Names.CellName | src/prepare_training/gen_virtual_scan.py:137-139 | a map cell's file name is the coordinate name of its centre x_global, y_global taken to hundredths |
| Names.Hundredths | src/fast_infer.py:59 | a coordinate taken to hundredths is within half a hundredth of the coordinate |
| Names.CoordPartForm | src/fast_infer.py:59-60 | a coordinate name is its sign, then zero padding, the integer part, '.' and two digits; for magnitudes below 10^6 it is exactly 10 characters |
| Names.PaddedShape | src/fast_infer.py:59 | the unsigned part is digits with a '.' exactly three from the end, and has no '_' |
| Names.SplitOnce | src/initialization.py:80 | splitting on a separator that occurs once gives the two sides |
| Names.ParseDotted | src/initialization.py:84 | float() of digits '.' digits is the whole part plus the fraction |
| Names.PaddedValue | src/initialization.py:84 | float() of the padded magnitude is q + r/100 |
| Names.CoordPartRoundTrip | src/fast_infer.py:59-60 | float() of a coordinate's name part gives back the coordinate h/100, and the part holds no '_' |
| Names.SignedValue | src/initialization.py:84 | float() honours the explicit '+' or '-' sign |
| Names.CoordNameRoundTrip | src/fast_infer.py:54-62 | a coordinate name splits on '_' into exactly its two parts, which parse back to x/100 and y/100 |
| Names.MetricNameRoundTrip | src/prepare_training/gen_virtual_scan.py:137-139 | the name of a point in metres splits into two fields that parse back to within half a hundredth of its coordinates |
| Names.IndexNameRoundTrip | src/fast_infer.py:75 | an index name is all digits, reads back as the index, and is zero-padded to width 6 |
| Names.FileNameInjective | src/fast_infer.py:64-77 | distinct coordinates or indices never share a file name |
| Particles.MaxWeight | src/sensor_model_overlap.py:160 | np.max of the weight column bounds every weight and is one of them |
| Tables.CountTableUpdate | src/sensor_model_overlap.py:150 | writing one entry changes the number of positive entries only by what that entry contributes |
| Tables.CountTableNonPositive | src/sensor_model_overlap.py:77 | a table of non-positive entries, such as the fresh -1 table, has no positive entry |
| Tables.TableLookup | src/sensor_model_overlap.py:130 | a cell of the box is looked up inside the table, where its request index (or -1) is stored |
| Tables.Enter | src/sensor_model_overlap.py:101-104 | storing a new cell gives it index len(infer_coords) and keeps every other entry; the positive count then equals the old number of requests |
| Tables.Visit | src/sensor_model_overlap.py:96-104 | a cell with a file that is not yet requested is appended and entered; otherwise nothing changes; the positive count stays one less than the requests |
| Tables.NewTable | src/sensor_model_overlap.py:77 | a fresh table of (y_max - y_min + 1) x (x_max - x_min + 1) entries, all -1, with no positive entry |
| Tables.TableInverse | src/prepare_training/convert_training_data.py:66-70 | a non-negative entry k at (row, column) is request k, and that request is the cell (x_min + column, y_max - row) |
| SensorModelOverlap.Reweighted | src/sensor_model_overlap.py:143-147 | multiplying the weight column keeps every particle's x, y and heading |
| SensorModelOverlap.InsertByWeight | src/sensor_model_overlap.py:155 | inserting into a descending population keeps it descending and adds exactly that particle |
| SensorModelOverlap.SortByWeight | src/sensor_model_overlap.py:155 | argsort(weights)[::-1]: a permutation of the population in descending weight order |
| SensorModelOverlap.Normalize | src/sensor_model_overlap.py:160 | dividing by the maximum weight keeps every pose |
| SensorModelOverlap.KnownCellsMembers | src/sensor_model_overlap.py:83-97 | a cell is a candidate iff it has a feature volume and some particle rounds onto it |
| SensorModelOverlap.RequestsAreDistinctCells | src/sensor_model_overlap.py:83-104 | infer_coords is the distinct candidate cells in first-appearance order |
| SensorModelOverlap.RequestedCells | src/sensor_model_overlap.py:83-104 | the requests have no duplicates; a particle's cell is requested iff it has a volume; every request has a volume and a particle on it |
| SensorModelOverlap.OverlapMultiplier | src/sensor_model_overlap.py:119-140 | one particle's overlap factor: invalid_weight, default_weight or its request's overlap |
| SensorModelOverlap.YawMultiplier | src/sensor_model_overlap.py:120-138 | one particle's yaw factor: default_weight, or the Gaussian of the angle difference (0 for sigma 0) |
| SensorModelOverlap.Reduce | src/sensor_model_overlap.py:155-157 | the particles in descending weight order, cut at num_reduced with Python slice semantics |
| SensorModelOverlap.UpdateWeightsSpec | src/sensor_model_overlap.py:66-162 | update_weights: unchanged without requests; else the multiplied weights, the one-shot reduction and the division by the maximum, or the outcome that stops the run |
| SensorModelOverlap.InsideOnMap | src/sensor_model_overlap.py:123-130 | a particle that passes the border test rounds to a cell inside the map box, so its table lookup is in range |
| SensorModelOverlap.OverlapMultiplierCases | src/sensor_model_overlap.py:119-140 | outside the border: invalid_weight; inside without a volume: default_weight; otherwise the overlap at the cell's request index |
| SensorModelOverlap.YawMultiplierCases | src/sensor_model_overlap.py:120-138 | the yaw factor is default_weight unless the particle is inside, requested, and its overlap is at least min_overlap_for_angle; then it is the Gaussian of the wrapped angle difference |
| SensorModelOverlap.NotANumberCases | src/sensor_model_overlap.py:134-160 | NaN weights are reported iff there are requests and particles and some requested particle has yaw_sigma 0 and a yaw difference of 0 (0/0 in the exponent); then use_yaw is set |
| SensorModelOverlap.YawBinRange | src/sensor_model_overlap.py:115-116 | a network output bin converts to a yaw in (-pi, pi], and to 0 exactly for bin 180 |
| SensorModelOverlap.AngularDistanceRange | src/sensor_model_overlap.py:136-137 | min(abs(d), 2 pi - abs(d)) lies in [0, pi] |
| SensorModelOverlap.SkippedIffNothingRequested | src/sensor_model_overlap.py:106-108 | the call returns its input unchanged, with the flag untouched, iff no particle is on a cell with a volume |
| SensorModelOverlap.ConvergenceOneShot | src/sensor_model_overlap.py:150-157 | is_converged afterwards iff it was set before or there were requests and (requests - 1) < converge_thres; once set, no reduction happens again |
| SensorModelOverlap.PosesKept | src/sensor_model_overlap.py:143-160 | when no reduction happens, the returned particles are the input particles with new weights only |
| SensorModelOverlap.ReductionKeepsHeaviest | src/sensor_model_overlap.py:155-157 | the reduced population is the first SliceEnd(num_reduced) particles of the descending order: none lighter than any dropped one, all from the input |
| SensorModelOverlap.NormalizeBounds | src/sensor_model_overlap.py:160 | after the division every weight lies in [0, 1] and some weight is exactly 1 |
| SensorModelOverlap.ReweightedNonNegative | src/sensor_model_overlap.py:143-147 | non-negative weights stay non-negative under non-negative multipliers |
| SensorModelOverlap.UpdatedWeightsInUnitInterval | src/sensor_model_overlap.py:143-160 | a completed update leaves weights in [0, 1] with a maximum of 1; an all-zero column is reported instead |
| SensorModelOverlap.Reduced | src/sensor_model_overlap.py:155-157 | new_particle[idxes[:num_reduced]] is a fresh array holding the reduction |
| SensorModelOverlap.NormalizeInPlace | src/sensor_model_overlap.py:160 | the weight column is divided in place by its maximum |
| SensorModelOverlap.SensorModel.constructor | src/sensor_model_overlap.py:18-64 | the bounds are the rounded map size, the constants are 1, 0.1 and 0.001, sigma is in radians (0 accepted), and is_converged starts false |
| SensorModelOverlap.SensorModel.CollectRequests | src/sensor_model_overlap.py:77-104 | the collection loop yields the distinct cells with volumes, each table slot holding its request index, and a positive count of requests - 1 |
| SensorModelOverlap.SensorModel.Multipliers | src/sensor_model_overlap.py:119-140 | all_overlaps and all_yaws hold every particle's overlap and yaw multiplier, and the flag reports whether some yaw factor is 0/0 |
| SensorModelOverlap.SensorModel.ParticleMultipliers | src/sensor_model_overlap.py:122-140 | one particle's multipliers, looked up in the table, equal the case analysis on its position, and the flag is YawUndefined |
| SensorModelOverlap.SensorModel.ApplyMultipliers | src/sensor_model_overlap.py:143-147 | the caller's weight column is multiplied in place, by the yaw factor too when use_yaw |
| SensorModelOverlap.SensorModel.UpdateWeights | src/sensor_model_overlap.py:66-162 | the returned population, the new is_converged and the outcome are what UpdateWeightsSpec gives for the old flag and particles; the caller's array either is the result or holds the multiplied weights |
| FeatureVolumes.FlagsAt | src/fast_infer.py:96-98 | is_new[i] is 0 when the volume exists and 1 otherwise |
| FeatureVolumes.LookupSnoc | src/fast_infer.py:91-101 | each key goes to exactly one of the loaded list and the generation list |
| FeatureVolumes.FoundOrMissing | src/fast_infer.py:91-101 | loaded plus queued volumes count every key once |
| FeatureVolumes.MissingMembers | src/fast_infer.py:96-101 | a key is queued iff it is an input key whose volume does not exist |
| FeatureVolumes.FoundStored | src/fast_infer.py:96-97 | only existing volumes are loaded |
| FeatureVolumes.NamesDistinct | src/fast_infer.py:99-100 | two queued keys share a generation name iff they are the same key |
| FeatureVolumes.SavedFileIsLookedUp | src/fast_infer.py:143-149 | the file savez_compressed writes for a key is the file name the lookup of lines 91-94 tests: '.npz' is appended to a coordinate target and already ends an index target |
| FeatureVolumes.BatchCount | src/fast_infer.py:109-114 | the number of batches is ceil(generation_size / batch_size): 0 for nothing to generate, else the least n with n * bs >= size |
| FeatureVolumes.BatchEnd | src/fast_infer.py:116-119 | a batch is non-empty, holds at most bs names, ends where the next starts, and the last ends at generation_size |
| FeatureVolumes.BatchesCover | src/fast_infer.py:115-123 | the first k batches, concatenated, are the first min(k * bs, size) queued names, so the batches are disjoint and contiguous and cover the queue |
| FeatureVolumes.LoopRangePositive | src/fast_infer.py:109-112 | for a positive batch_size, loop_range computed with Python's % and int(/) is the ceiling division BatchCount |
| FeatureVolumes.NegativeLoopRange | src/fast_infer.py:109-123 | for a negative batch_size the loop runs at most once, exactly when generation_size < -batch_size, and then sends the empty slice |
| FeatureVolumes.BatchStep | src/fast_infer.py:113-149 | one pass: the batch is sent; with saving, the returned volumes go under the next queued targets, and one past the queue raises IndexError |
| FeatureVolumes.Batches | src/fast_infer.py:113-149 | the first k passes for a positive batch_size, stopping at the first pass that raises |
| FeatureVolumes.Generated | src/fast_infer.py:107-149 | the generation for a non-empty queue: ZeroDivisionError for batch_size 0, the ceiling-division loop for a positive one, at most one pass for a negative one |
| FeatureVolumes.FailureSticks | src/fast_infer.py:113-149 | once a pass raises, later passes never run: the result stays the one at the failure |
| FeatureVolumes.BatchesSent | src/fast_infer.py:113-127 | a loop that did not raise sent one request per pass, batch l as the l-th |
| FeatureVolumes.OneVolumePerName | src/fast_infer.py:113-149 | when the network returns one volume per name, no pass raises and the saved targets are those of the queued keys handled so far, in queue order |
| FeatureVolumes.EveryVolumeSaved | src/fast_infer.py:107-149 | then the whole loop completes, sends every batch in order and (with saving) saves exactly the target of every queued key, each once, in queue order |
| FeatureVolumes.SaveFeatureVolumes | src/fast_infer.py:79-149 | the flags, the loaded volumes and the generation lists; nothing is generated for an empty queue (any batch_size); otherwise the requests, saved targets and outcome Generated gives, ZeroDivisionError for batch_size 0 included |
| FeatureVolumes.Lookup | src/fast_infer.py:91-105 | the lookup loop yields the flags, the loaded volumes and the generation lists |
| FeatureVolumes.Generate | src/fast_infer.py:109-149 | the batch loop for a positive batch_size gives what Batches gives after loop_range passes, stopping at the first IndexError |
| FeatureVolumes.NextBatch | src/fast_infer.py:116-123 | batch loop_idx is the names from loop_idx * bs to batch_end |
| FeatureVolumes.SaveBatch | src/fast_infer.py:142-149 | for each of the len(feature_volumes_new) returned volumes, the i-th is saved under the target of queued key loop_idx * bs + i; an index past the queue raises IndexError after the earlier saves |
| Initialization.HeadingRange | src/initialization.py:27 | -pi + 2 pi r lies in [-pi, pi) for r in [0, 1) |
| Initialization.SpreadRange | src/initialization.py:24-25 | (max - min) r + min lies in [min, max), or is min when they are equal |
| Initialization.UniformRanges | src/initialization.py:20-31 | a uniform particle lies in the map box, with heading in [-pi, pi) and weight 1 |
| Initialization.InitParticlesUniform | src/initialization.py:12-31 | numParticles particles, the i-th built from the i-th draw |
| Initialization.RoadParticleOnRoad | src/initialization.py:47-52 | a road particle sits exactly on one road coordinate, with heading in [-pi, pi) and weight init_weight |
| Initialization.InitParticlesGivenCoords | src/initialization.py:34-54 | numParticles particles, the i-th on the road coordinate chosen by the i-th draw |
| Initialization.CheckMapsize | src/initialization.py:57-97 | the loop over the file names gives the map size or error MapSizeOf defines |
| Initialization.RetainedRows | src/initialization.py:85 | a row is kept iff its first coordinate is below 1000 |
| Initialization.MapSizeInBox | src/initialization.py:91-97 | the bounds are ordered, some coordinate is returned, and every returned coordinate rounds into the bounds |
| Initialization.MapSizeShape | src/initialization.py:91-94 | the bounds are the rounded min and max of the returned coordinates |
| Initialization.BoundsContain | src/initialization.py:91-94 | rounded min/max bounds are ordered and contain every rounded coordinate |
| Initialization.MapSizeRetained | src/initialization.py:71-88 | a success needs a non-empty folder and a non-zero resolution; the returned coordinates are the kept rows divided by grid_res |
| Initialization.ScaleInverse | src/initialization.py:88 | a coordinate divided by grid_res and multiplied back gives the value parsed from the name |
| Initialization.MapSizeOf | src/initialization.py:57-97 | check_mapsize as a function of the sorted paths: the bounds and coordinates, or the error the code raises |
| Initialization.RemoveSuffix | src/initialization.py:80 | replace('.npz', '') on a stored name leaves the name itself |
| Initialization.PngTest | src/initialization.py:73 | '.png' in the extension iff the files are .png |
| Initialization.FieldsOfStored | src/initialization.py:74-82 | the fields read from a stored file are the '_'-fields of its name |
| Initialization.SuffixRecognised | src/initialization.py:71-73 | the extension of the first file is recognised from its path |
| Initialization.CellFileRoundTrip | src/initialization.py:71-84 | a cell's file in the folder is recognised, splits into its two parts and parses back to the cell's coordinates |
| Localization.TracePrefix | src/main_overlap_mcl.py:83 | a longer run begins with the shorter one: each frame is processed once, in order |
| Localization.TraceSteps | src/main_overlap_mcl.py:83-103 | the state after frame start + k is one loop body applied to the state before it |
| Localization.Step | src/main_overlap_mcl.py:89-100 | one loop body: motion, then update and resampling when the gate opens; an update that leaves no defined weights stops the run |
| Localization.Run | src/main_overlap_mcl.py:83-103 | the state after the frames from start_idx to the end, in order |
| Localization.InitialClearedForever | src/main_overlap_mcl.py:74-94 | is_initial is false after every processed frame |
| Localization.UpdateGate | src/main_overlap_mcl.py:93-100 | the first processed frame always gets the sensor update |
| Localization.StoppedStays | src/main_overlap_mcl.py:97 | once an update leaves no defined weights, later frames change nothing |
| Localization.UpdateNeverGrows | src/sensor_model_overlap.py:155-157 | update_weights never returns more particles than it received |
| Localization.PopulationNeverGrows | src/main_overlap_mcl.py:89-100 | with a length-keeping motion model and resampler, no frame has more particles than the start |
| Localization.Advance | src/main_overlap_mcl.py:89-100 | the motion model, then update_weights and resampling together iff commands[f][1] > 0.2 / grid_res or is_initial |
| Localization.Record | src/main_overlap_mcl.py:102-103 | row frame_idx receives the particles in its first len(particles) slots, and nothing else changes |
| Localization.Localize | src/main_overlap_mcl.py:73-103 | the final particles, the flag and every recorded slot are those of the run over frames start_idx.. in order; nothing is recorded unless save_result |
| Localization.FrameLoop | src/main_overlap_mcl.py:83-103 | the loop's states are the trace of the frames it processed |
| Localization.FrameBody | src/main_overlap_mcl.py:89-103 | one pass of the loop appends one step to the trace and records that frame |
| TrainingLabels.Trunc | src/prepare_training/convert_training_labels.py:53 | int() truncates towards zero |
| TrainingLabels.CellsInBox | src/prepare_training/convert_training_labels.py:41-58 | when the table bounds are ordered, each row's cell lies inside them, for either sign of grid_res |
| TrainingLabels.LabelBox | src/prepare_training/convert_training_labels.py:41-47 | the table bounds: the rounded min and max of each coordinate column over grid_res |
| TrainingLabels.LabelOutcome | src/prepare_training/convert_training_labels.py:32-63 | how the conversion ends: np.max raises on no rows, round() on a zero resolution, np.full or the first lookup on a box under one cell wide |
| TrainingLabels.LabelOutcomeCases | src/prepare_training/convert_training_labels.py:32-63 | no rows iff NoRows; zero resolution iff ZeroResolution; a positive resolution always converts; a negative one converts iff every row rounds onto one cell |
| TrainingLabels.YawIndexMonotone | src/prepare_training/convert_training_labels.py:71 | yaw 0 maps to index 180 and a larger yaw never gives a larger index |
| TrainingLabels.YawIndex | src/prepare_training/convert_training_labels.py:71 | the heading's yaw class, a floor division of the float then int() |
| TrainingLabels.YawIndexRange | src/prepare_training/convert_training_labels.py:71 | a yaw in [-pi, pi] maps to an index in 0..360 |
| TrainingLabels.YawClassesRange | src/prepare_training/convert_training_labels.py:66-72 | when every frame's heading is in [-pi, pi], every row's yaw class is in 0..360 |
| TrainingLabels.ReferenceIndicesDense | src/prepare_training/convert_training_labels.py:50-64 | the reference indices are 0..k-1 for k distinct cells in first-appearance order, equal iff same cell |
| TrainingLabels.ConvertTrainingLabels | src/prepare_training/convert_training_labels.py:32-80 | the outcome LabelOutcome gives (empty results on an error); on success the renaming table, the dense reference indices, the yaw classes and the six-column table [frame, reference, overlap, yaw, x, y] |
| TrainingLabels.RenamePass | src/prepare_training/convert_training_labels.py:50-72 | the row loop leaves the table of distinct cells, the dense indices and the yaw classes |
| TrainingLabels.AllCellsInBox | src/prepare_training/convert_training_labels.py:41-58 | when the conversion succeeds the bounds are ordered and every row's table slot is inside the table |
| TrainingLabels.Rename | src/prepare_training/convert_training_labels.py:58-64 | the first row of a cell stores new_idx and increments it; a later row reuses the stored index |
| TrainingLabels.OutputTable | src/prepare_training/convert_training_labels.py:74-80 | the output has one row per input row, with the columns copied in their stated places |
| TrainingLabels.RenamingInverse | src/prepare_training/convert_training_data.py:66-70 | the cell (x_min + column, y_max - row) at a row's table slot is that row's cell, and the slot holds its reference index |
| VirtualScans.ArangeBounds | src/prepare_training/gen_virtual_scan.py:113-114 | np.arange starts at lo, advances by step, stays in [lo, hi), and is empty iff lo >= hi |
| VirtualScans.OffsetValuesSymmetric | src/prepare_training/gen_virtual_scan.py:113 | an offset of n grid steps gives the 2n + 1 values from -offset to offset |
| VirtualScans.PairsMembers | src/prepare_training/gen_virtual_scan.py:113-115 | an offset pair is listed iff both its parts are local values |
| VirtualScans.PairsCount | src/prepare_training/gen_virtual_scan.py:113-116 | the nested loops give len(xs) * len(ys) pairs |
| VirtualScans.LocalOffsets | src/prepare_training/gen_virtual_scan.py:112-116 | loc_coords is every pair of local values, x outer and y inner |
| VirtualScans.TableBoxWellFormed | src/prepare_training/gen_virtual_scan.py:102-109 | with a positive resolution and non-negative offset the table bounds are ordered |
| VirtualScans.CandidateInTable | src/prepare_training/gen_virtual_scan.py:125-132 | a pose moved by at most offset each way snaps to a cell inside the table |
| VirtualScans.OffsetValueWithin | src/prepare_training/gen_virtual_scan.py:113-114 | every local value lies within [-offset, offset] when offset is a whole number of grid steps |
| VirtualScans.GridOffsetsInTable | src/prepare_training/gen_virtual_scan.py:125-132 | then no candidate of any pose is skipped as out of table |
| VirtualScans.PoseCandidatesMembers | src/prepare_training/gen_virtual_scan.py:122-126 | a pose's candidates are exactly the snaps of it by each local offset |
| VirtualScans.CandidatesMembers | src/prepare_training/gen_virtual_scan.py:121-126 | the candidates are exactly the snaps of every pose by every local offset |
| VirtualScans.Visit | src/prepare_training/gen_virtual_scan.py:129-157 | one pass of the inner body: skip a candidate outside the table or on a marked cell, else mark it and write its scan unless the file exists |
| VirtualScans.VisitConsistent | src/prepare_training/gen_virtual_scan.py:129-157 | one visit keeps: marked cells in the table; scans for distinct new cells whose file was absent; the folder is the old files plus the scans |
| VirtualScans.VisitAllConsistent | src/prepare_training/gen_virtual_scan.py:121-157 | the whole loop keeps that invariant |
| VirtualScans.EachCellOnce | src/prepare_training/gen_virtual_scan.py:134-157 | each cell is handled at most once, and a scan is written only where its file did not exist |
| VirtualScans.VisitAllMarks | src/prepare_training/gen_virtual_scan.py:131-135 | a cell is marked iff it was marked before or some candidate lands on it inside the table |
| VirtualScans.PlacerCell | src/prepare_training/gen_virtual_scan.py:125-126 | a candidate's cell is the pose plus offset snapped to the grid |
| VirtualScans.MarkedCells | src/prepare_training/gen_virtual_scan.py:121-157 | a run marks exactly the in-table cells that some pose reaches with some offset, and every scan is such a candidate |
| VirtualScans.LutIndex | src/prepare_training/gen_virtual_scan.py:129-130 | the slot computed from a cell's centre, max_y - y_global/res and x_global/res - min_x, is the cell's row and column |
| VirtualScans.Mark | src/prepare_training/gen_virtual_scan.py:134-135 | writing 1 at a cell's slot marks that cell and leaves every other entry |
| VirtualScans.VisitCell | src/prepare_training/gen_virtual_scan.py:129-157 | one candidate: skipped out of table or when marked, marked and skipped when its file exists, else marked and written |
| VirtualScans.VisitOffset | src/prepare_training/gen_virtual_scan.py:122-157 | one offset of one pose is one visit |
| VirtualScans.VisitPose | src/prepare_training/gen_virtual_scan.py:122-157 | the inner loop visits the pose's candidates in offset order |
| VirtualScans.VisitFrames | src/prepare_training/gen_virtual_scan.py:121-157 | the frame loop visits every candidate of every pose in order, keeping the table in step with the marks |
| VirtualScans.RasterizeSpec | src/prepare_training/gen_virtual_scan.py:87-157 | rasterize_map: the visits of every pose with every local offset over the table of the poses' extent, or the error numpy raises |
| VirtualScans.RasterizeMap | src/prepare_training/gen_virtual_scan.py:87-157 | rasterize_map gives the marks, folder and scans RasterizeSpec defines, or the error numpy would raise |
| OverlapNormalization.BinsDisjoint | src/prepare_training/normalize_data.py:23-32 | no overlap value lies in two bins |
| OverlapNormalization.BinsCover | src/prepare_training/normalize_data.py:23-32 | a value lies in some bin iff it is at most 1 |
| OverlapNormalization.BinMembers | src/prepare_training/normalize_data.py:23-32 | a row is in bin k iff it is an input row whose overlap passes mask k |
| OverlapNormalization.BinsPartition | src/prepare_training/normalize_data.py:23-32 | the ten bins together are a permutation of the rows with overlap at most 1 |
| OverlapNormalization.Normalize | src/prepare_training/normalize_data.py:20-59 | normalize_data: the balanced bins concatenated in ascending order, or the error for a mapping without an overlap column |
| OverlapNormalization.BalancedBins | src/prepare_training/normalize_data.py:40-56 | each non-empty lower bin gets len(bin_80_89) rows, all drawn from itself; empty bins and the two top bins stay as they were |
| OverlapNormalization.StackMembers | src/prepare_training/normalize_data.py:58-59 | a row of the concatenation comes from one of the blocks |
| OverlapNormalization.StackLength | src/prepare_training/normalize_data.py:58-59 | the concatenation is as long as all blocks together |
| OverlapNormalization.StackOrder | src/prepare_training/normalize_data.py:58-59 | row j of block k sits at the total length of the earlier blocks plus j |
| OverlapNormalization.BinOf | src/prepare_training/normalize_data.py:23-32 | a value at most 1 has a bin index in 0..9 whose mask it passes |
| OverlapNormalization.NormalizedFromInput | src/prepare_training/normalize_data.py:40-59 | every output row is an input row with overlap at most 1 |
| OverlapNormalization.NormalizedInBinOrder | src/prepare_training/normalize_data.py:58-59 | the output lists rows in ascending bin order |
| OverlapNormalization.BasenameOfJoin | src/prepare_training/normalize_data.py:64 | joining a plain name onto a directory leaves that name as the basename |
| OverlapNormalization.OutputBasename | src/prepare_training/normalize_data.py:63-64 | the output's basename is 'normalized_' plus the input's basename |
| OverlapNormalization.DirnameSingleSlash | src/prepare_training/normalize_data.py:64 | dirname is the text before the last '/', or '/' at the root |
| OverlapNormalization.OutputBesideInput | src/prepare_training/normalize_data.py:63-64 | the output path is the input path with 'normalized_' inserted after its last '/' |

## Left out

- Floating point: weights, coordinates, angles, np.arange steps and the bin boundaries 0.1 … 0.9 are exact reals and exact tenths. Float32 storage and rounding in '{:.2f}' are not modelled. Infinities and NaN appear only where the code produces them from a division by zero: exp(-inf) is 0 for a zero yaw_sigma, 0/0 is reported as NotANumber, and round() of an infinity or NaN as a conversion error.
- Coordinates in file names are integer hundredths, so the name codec is exact. "-0.00" and other spellings float() accepts beyond the ones the names use are not modelled.
- SensorModelOverlap.SensorModel.UpdateWeights: when the reduction leaves no particle (np.max raises), the maximum weight is 0 (numpy divides to NaN), or a zero yaw_sigma meets a zero yaw difference (0/0 makes that weight NaN, and np.max spreads it to every weight), the call reports EmptyPopulation, ZeroMaxWeight or NotANumber and the localisation loop stops there. The source raises or carries NaN weights on. Which particles a reduction keeps among NaN weights is not modelled.
- SensorModelOverlap.SortByWeight: ties are ordered by the model's insertion sort. np.argsort's order among equal weights is not modelled, so the reduction is stated for the descending order this sort gives.
- A negative num_reduced reduces with Python slice semantics, as the guard `not num_reduced > len(new_particle) or num_reduced < 0` at sensor_model_overlap.py line 156 lets it through.
- The network (infer_multiple, predict_generator), exp and the argmax over yaw bins are functions given to the model. The scorer is assumed to return one overlap per request and, with use_yaw, one yaw bin per request.
- The unused grid_paths_lut and coords fields of the sensor model (sensor_model_overlap.py lines 31-51), the FastInfer object and the feature-volume cache are not part of this model.
- File existence is a set of names. os.walk, sorting, np.load and np.savez_compressed are not modelled. The folder checked for existing volumes and the folder saved to are independent sets, as in the source.
- FeatureVolumes: the saved targets are recorded as passed to np.savez_compressed; SavezFile gives the file it writes. The number of volumes the network returns for a batch is a function given to the model.
- SensorModelOverlap.SensorModel.constructor: requires a map size whose table sizes y_max - y_min + 1 and x_max - x_min + 1 are not negative, since np.full raises otherwise; VolumesInsideMap (every stored volume's cell lies in the map box, which holds when the map size comes from check_mapsize over the same folder, as Initialization.MapSizeInBox shows) and ScorerComplete (one network answer per request) are required as well; otherwise the table lookups of lines 100-103 could leave the table.
- Random draws (np.random.rand, np.random.choice) are inputs. Initialization.InitParticlesGivenCoords requires the choices to index the coordinates, so np.random.choice on an empty coordinate list (which raises) is not modelled.
- Initialization.CheckMapsize: np.array(grid_coords, dtype=float) on names with differing field counts is reported as NotNumeric; the shape of an empty array is not distinguished.
- motion_model, gen_commands and resample are functions given to the loop. Localization.Localize requires them to keep the population size, and grid_res to be non-zero (0.2 / grid_res raises otherwise).
- move_thres is read (main_overlap_mcl.py line 42) but is not used by the gate, so it is not part of the model.
- Prints, tqdm, YAML loading, pose and calibration matrix products, plotting and the visualizer are not modelled.
- VirtualScans: Open3D cropping, the inverse grid pose and gen_grid are left out. A generated scan is recorded as its cell, height and name; x_global and y_global are the cell times grid_res and are not stored.
- TrainingLabels.ConvertTrainingLabels: the heading of each frame comes from a function given to the model; the Euler-angle conversion of the pose is left out. Writing the output and renaming tables is left out. An error outcome stands for the exception, with empty results.
- OverlapNormalization: np.load and the file write are left out. The result is the array and the path it is written to.
