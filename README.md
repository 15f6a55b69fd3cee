# summa_calib calibration scripts in Dafny

A model of the Python scripts that drive a SUMMA/mizuRoute calibration with
Ostrich and Dynamic Dimensioned Search (DDS):

- `demo2/scripts/DDS.py`: one DDS candidate per iteration. This covers
  `perturb_cont`, `perturb_disc`, `perturb_type`, the polar `stand_norm`, the
  first iteration's starting vector and the neighbourhood step of later iterations.
- `scripts/calculate_multp_bounds.py`: covers:
  - the two setting readers;
  - the param-info table reader;
  - the Fortran `d`-exponent conversion;
  - the multiplier list;
  - the per-parameter limits, including the raised `theta_sat` lower limit and `thickness`;
  - the multiplier feasible range and initial value.
- `scripts/save_param_obj.py`: the search and converge history files. They live
  in a class whose `Save` performs one run of the script. Lemmas show that the
  converge history holds exactly the new bests of the search history.
- `scripts/create_ostIn.py`: the two passes over `ostIn.tpl`. The first finds
  the `EndFilePairs`/`EndParams` anchors. The second inserts the pair line and the
  parameter lines, fills in the seed, sets the warm-start line and rewrites `MaxIterations`.
- `scripts/generate_priori_trialParam.py`: covers:
  - the expanded output-parameter list;
  - the outputControl prepend;
  - the one-day fileManager rewrite;
  - the derived file names.
- `scripts/update_model_config_files.py`: the fileManager and route_control
  rewrites for the configured period. The runoff file name is read from the
  rewritten fileManager.

Modules:

- `Wrappers`: `Option`, `Result` and the Python exceptions as a `Fault`.
- `PyStr`: the Python `str` operations the scripts use: `strip`, `split`,
  `split(None, 1)`, `in`, `replace` and `lower`.
- `ConfigReaders`: `read_from_control`, `read_from_summa_route_config` and the
  `for line in src` rewrite loop. They are written once because the scripts carry
  identical copies of them:
  - `scripts/generate_priori_trialParam.py:24-48` and
    `scripts/update_model_config_files.py:21-45` carry both readers;
  - `scripts/create_ostIn.py:22-33` and `scripts/save_param_obj.py:18-29` carry only
    `read_from_control`.

  `scripts/calculate_multp_bounds.py:25-36` differs in one respect: its
  `read_from_control` opens the global `control_file`, not its `config_file`
  argument. Every call in that script passes `control_file`, so the model reads
  the file it is given.
- `FileNames`, `SearchRecords`, `Dds`, `MultpBounds`, `ParamHistory`, `OstIn`,
  `PrioriTrialParam` and `ModelConfig`: one module per part of the scripts.

Files are sequences of lines, and a table row is a sequence of fields.
Everything the scripts obtain from outside is a parameter:

- every draw of `np.random`;
- `float()` and `%.7f`;
- `sqrt(-2 ln w / w)`;
- the netCDF contents;
- the strptime/strftime day addition;
- the seed string.

Every exception the modelled operations raise is an `Err` value of `Fault`: an
IndexError, TypeError, ValueError, NameError, AttributeError or KeyError, or a
`sys.exit`/`quit`. Exceptions in the parts listed under "## Left out" are not
modelled. One example is the TypeError that `DDS.py:265` raises for a one-name
template.

## Model

| member | source | states |
|---|---|---|
| Dds.PerturbCont | demo2/scripts/DDS.py:40-81 | The Gaussian candidate `s + (max - min) * 0.2 * z` is returned unchanged when it lies within the bounds; for ordered bounds the result always lies within them |
| Dds.PerturbContCases | demo2/scripts/DDS.py:59-79 | Below the lower bound a draw of at most 0.5 reflects about it and any other draw absorbs onto it; a reflection past the upper bound snaps to the lower bound; above the upper bound mirrors this |
| Dds.RoundHalfEven | demo2/scripts/DDS.py:126 | `np.around`: the nearest integer, within 0.5 of the value, and even on a tie |
| Dds.Ceil | demo2/scripts/DDS.py:131 | `np.ceil`: the least integer not below the value |
| Dds.PerturbDisc | demo2/scripts/DDS.py:83-137 | The discrete step as written never returns the current value, and returns the rounded bounded candidate whenever that differs from the current value |
| Dds.PerturbDiscFraction | demo2/scripts/DDS.py:130-135 | Counterexample: s = 5 in [0, 10] with a zero step and resample draw 0.55 gives 4.5, which is not an integer |
| Dds.PerturbDiscBelowRange | demo2/scripts/DDS.py:130-135 | Counterexample: s = 5 in [0, 10] with resample draw 0 gives -1, below the lower bound |
| Dds.PerturbDiscRoundsOut | demo2/scripts/DDS.py:104-126 | Counterexample: with s = 1 in [1, 11] and z = -0.25 the candidate is 0.5, exactly `s_min - 0.5`; it passes the widened bounds and rounds half to even to 0, below the range (for an odd `s_min` the candidate `s_min - 0.5` always rounds down like this) |
| Dds.PerturbDiscCorrected | demo2/scripts/DDS.py:83-137 | The intended discrete step on integer bounds: the result lies within the bounds and differs from the current value whenever the range has two or more integers |
| Dds.CorrectedResampleRange | demo2/scripts/DDS.py:130-135 | The floored resample, moved up by one at or above `s`, lies within the bounds and is never `s` |
| Dds.PerturbType | demo2/scripts/DDS.py:30-38 | A continuous variable stays within ordered bounds; a discrete one never keeps its value |
| Dds.GasDev | demo2/scripts/DDS.py:139-165 | A deviate uses an odd number of uniforms, at least three and no more than were drawn; fewer than three draws give none |
| Dds.GasDevShape | demo2/scripts/DDS.py:139-165 | A deviate consumes an odd number of uniforms; every earlier pair was rejected and the last pair lies strictly inside the unit circle and off the origin; the final uniform picks the first (below 0.5) or the second coordinate, scaled |
| Dds.StandNorm | demo2/scripts/DDS.py:139-165 | The `while` rejection loop computes exactly the polar method's deviate (or reports that the draws ran out) |
| Dds.AcceptStep | demo2/scripts/DDS.py:143-163 | An accepted pair ends the loop after three uniforms with the chosen coordinate |
| Dds.RejectStep | demo2/scripts/DDS.py:143-150 | A rejected pair consumes two uniforms and the loop goes on with the rest |
| Dds.SelectCount | demo2/scripts/DDS.py:241-252 | `select_param_count` is at most the dimension, and is zero exactly when no `rand[i]` is below `Pn` |
| Dds.FallbackIndexInRange | demo2/scripts/DDS.py:257 | `floor(dim * u)` for a uniform `u` in [0, 1) is a valid index of a non-empty parameter set |
| Dds.Neighbour | demo2/scripts/DDS.py:240-259 | The step on the previous sample read as a 1-D array (`ndmin=1`): a proposal has the previous sample's length and counts the selected indices |
| Dds.Step | demo2/scripts/DDS.py:232-259 | The step as written: a proposal has the previous sample's length and counts the selected indices; a one-value parameter file, which `np.loadtxt` squeezes to a 0-d array, always raises IndexError |
| Dds.PartialNext | demo2/scripts/DDS.py:247-252 | One loop turn perturbs index `i` exactly when `rand[i] < Pn` and leaves the sample alone otherwise |
| Dds.NeighbourhoodStep | demo2/scripts/DDS.py:232-259 | The copy-then-perturb loop and its single-index fallback compute the neighbourhood step |
| Dds.StepChangesOnlyPerturbed | demo2/scripts/DDS.py:244-259 | A coordinate that differs from the previous sample was selected by `rand[i] < Pn`, or is the fallback index when none was |
| Dds.StepPerturbsOne | demo2/scripts/DDS.py:254-259 | Every successful step passes at least one coordinate through `perturb_type`: a selected one, or the fallback `floor(dim * u)` when none is selected |
| Dds.NeighbourSucceeds | demo2/scripts/DDS.py:240-259 | Read as a 1-D array, a previous sample at least as long as a non-empty parameter set always steps |
| Dds.StepSucceeds | demo2/scripts/DDS.py:238-259 | As written, with a non-empty parameter set and a previous sample at least as long, the step succeeds exactly when the file holds two or more values |
| Dds.OneParameterFails | demo2/scripts/DDS.py:238-258 | Counterexample: with one multiplier, every draw makes the as-written step raise IndexError on the 0-d array, while the 1-D reading steps |
| Dds.StepStaysInBounds | demo2/scripts/DDS.py:244-259 | With the all-continuous flags the script sets, a previous sample within the bounds yields a proposal within the bounds |
| Dds.UniformSampleInBounds | demo2/scripts/DDS.py:219-221 | `lower + range * u` lies within ordered bounds for uniforms in [0, 1) |
| Dds.InitialSample | demo2/scripts/DDS.py:203-224 | A warm start with a record succeeds exactly when the record has rows, and raises ValueError for an empty one. Otherwise `UseInitialParamValues` gives the initial values, `UseRandomParamValues` with every flag discrete and some parameter raises AttributeError, and any other option raises NameError |
| Dds.WarmStartIsBest | demo2/scripts/DDS.py:207-212 | A warm start from a non-empty record returns the parameters of the first row of least objective |
| Dds.RandomStartInBounds | demo2/scripts/DDS.py:215-221 | `UseRandomParamValues` without a warm start returns one value per parameter, each within its bounds |
| Dds.Propose | demo2/scripts/DDS.py:204-259 | Iteration 1 takes the initial sample. A later iteration quits without a previous parameter file, and otherwise returns the step's sample or its error. An iteration below 1 leaves `param_sample` undefined (NameError) |
| SearchRecords.MinObj | scripts/save_param_obj.py:154 | `Series.min()`: absent exactly for an empty column, otherwise a member of the column at most every entry |
| SearchRecords.AtMostMinIff | scripts/save_param_obj.py:158 | `obj <= obj_best` holds exactly when the column is non-empty and `obj` is at most every entry |
| SearchRecords.FirstArgMin | demo2/scripts/DDS.py:210 | `np.nanargmin`: absent for an empty column, otherwise the first index of a least entry |
| SearchRecords.FirstArgMinIsMin | demo2/scripts/DDS.py:210 | The entry at the first argmin is the column minimum |
| MultpBounds.FortranToPython | scripts/calculate_multp_bounds.py:70-74 | A string with `d` leaves no `d`; a string without `d` is unchanged |
| MultpBounds.FortranExponent | scripts/calculate_multp_bounds.py:70-71 | `m d e` becomes `m e e`: the mantissa, `e`, and the exponent |
| MultpBounds.FortranDropsTail | scripts/calculate_multp_bounds.py:71 | Text after a second `d` is dropped |
| MultpBounds.StrToFloat | scripts/calculate_multp_bounds.py:67-74 | Succeeds exactly when `float()` accepts the converted text, with its value |
| MultpBounds.EntryOf | scripts/calculate_multp_bounds.py:60-64 | A line with fewer than three `|`-separated fields raises IndexError |
| MultpBounds.EntryOfFields | scripts/calculate_multp_bounds.py:60-64 | A line of four or more fields gives the stripped name and the converted fields 2 and 3 |
| MultpBounds.Entries | scripts/calculate_multp_bounds.py:57-59 | Only kept lines (not blank, not `!` or `'` comments) are read |
| MultpBounds.Collect | scripts/calculate_multp_bounds.py:53-65 | The three lists have equal length, one entry per kept line |
| MultpBounds.ParamInfoOf | scripts/calculate_multp_bounds.py:51-65 | The reader's three lists have equal length, one entry per kept line |
| MultpBounds.CollectOk | scripts/calculate_multp_bounds.py:57-64 | The read succeeds exactly when every kept line parses |
| MultpBounds.CollectRows | scripts/calculate_multp_bounds.py:57-64 | Row `i` of a successful read is the parse of the `i`-th kept line |
| MultpBounds.CollectStep | scripts/calculate_multp_bounds.py:57-64 | One loop turn skips a comment, stops at a failing entry, or appends name, min and max |
| MultpBounds.CollectPrefixErr | scripts/calculate_multp_bounds.py:57-64 | A failure on a prefix is the failure of the whole read |
| MultpBounds.ParamInfoRows | scripts/calculate_multp_bounds.py:51-65 | The table reader succeeds exactly when every kept line parses, and then row `i` is the parse of kept line `i` |
| MultpBounds.ReadParamInfo | scripts/calculate_multp_bounds.py:51-65 | The append loop computes the table reader's result |
| MultpBounds.MultiplierListOf | scripts/calculate_multp_bounds.py:104 | Object parameters joined by commas give each name plus `_multp`, in order |
| MultpBounds.RemoveFirst | scripts/calculate_multp_bounds.py:110 | `list.remove`: fails exactly when the name is absent, otherwise deletes its first occurrence and nothing else |
| MultpBounds.RemoveFirstAppend | scripts/calculate_multp_bounds.py:109-110 | Appending `thickness_multp` before removing gives the same list as removing and then appending |
| MultpBounds.DeriveMultipliers | scripts/calculate_multp_bounds.py:103-111 | Without `heightCanopyTop` in the setting text the list is the multiplier list; with it, the first `heightCanopyTop_multp` is removed and `thickness_multp` comes last, or ValueError when no such multiplier exists |
| MultpBounds.ParamNameOf | scripts/calculate_multp_bounds.py:150 | Stripping `_multp` from a multiplier name gives back the parameter name |
| MultpBounds.Variable | scripts/calculate_multp_bounds.py:154 | A dataset variable is found exactly when it exists |
| MultpBounds.BroadcastSize | scripts/calculate_multp_bounds.py:158 | Under numpy's rule for one-dimensional operands (equal sizes, or one of them a single cell) the result has the size of each operand that is not a single cell |
| MultpBounds.Spread | scripts/calculate_multp_bounds.py:190 | Assigning into `n` cells keeps an `n`-cell array and repeats a one-cell array's value in every cell |
| MultpBounds.Prior | scripts/calculate_multp_bounds.py:153-158 | The a-priori values are the variable itself. For `thickness` they exist exactly when both canopy variables exist and broadcast, and are cellwise top minus bottom over the broadcast, a one-cell operand repeating its value; otherwise ValueError |
| MultpBounds.IndexOf | scripts/calculate_multp_bounds.py:170 | `list.index`: the first position of the name, absent exactly when it is not listed |
| MultpBounds.Layers | scripts/calculate_multp_bounds.py:188-190 | The layers exist exactly when every soil parameter is in the dataset with one value per HRU or a single value. Each layer is then that variable spread over the `nhru` HRUs |
| MultpBounds.MaxOf | scripts/calculate_multp_bounds.py:197 | `np.max`: a member of the values at least all of them |
| MultpBounds.MinOf | scripts/calculate_multp_bounds.py:252 | `np.min`: a member of the values at most all of them |
| MultpBounds.ThetaSatMin | scripts/calculate_multp_bounds.py:180-197 | Per HRU the raised `theta_sat` lower limit is at least its table minimum and every soil parameter's a-priori value, and equals one of them |
| MultpBounds.ThetaSatLimits | scripts/calculate_multp_bounds.py:174-197 | The `theta_sat` limits exist exactly when the layers exist and the `n` table minima fit the last layer (`n` is the HRU count, or 1). The lower limit is then the raised `ThetaSatMin` over the HRUs, at least the table minimum and every soil parameter's value at that HRU. The upper limit is the table maximum over the `n` cells |
| MultpBounds.ParamLimits | scripts/calculate_multp_bounds.py:168-247 | Covers every parameter kind. A local or basin table row is filled over the cells. `theta_sat` gets exactly `ThetaSatLimits` of its table row. `thickness` gets top minus bottom for min and for max. A parameter in neither table ends the script |
| MultpBounds.Ratios | scripts/calculate_multp_bounds.py:251-252 | Over the first `n` cells of the broadcast, every unmasked cell's limit over its a-priori value is among the ratios, and there are at most `n` of them |
| MultpBounds.RatioOfCell | scripts/calculate_multp_bounds.py:251-252 | Every ratio comes from an unmasked cell of the broadcast |
| MultpBounds.Extremes | scripts/calculate_multp_bounds.py:251-252 | The largest lower ratio and the smallest upper ratio are cells' ratios and enclose every unmasked cell's ratios. The first is below the second exactly when every lower ratio is below every upper ratio |
| MultpBounds.SeparatedIff | scripts/calculate_multp_bounds.py:251-254 | A range enclosing all ratios, whose ends are cells' ratios, is non-empty exactly when every lower ratio is below every upper ratio |
| MultpBounds.FeasibleRange | scripts/calculate_multp_bounds.py:250-256 | A range exists exactly when both limits broadcast against the a-priori values over some cells and every lower ratio is below every upper ratio. It is then `Extremes`, min below max. Limits that do not broadcast, or broadcast to no cells, raise ValueError; otherwise the script ends |
| MultpBounds.MultiplierRespectsLimits | scripts/calculate_multp_bounds.py:250-256 | Any multiplier inside an enclosing range keeps every positive a-priori cell of each broadcast within that cell's lower and upper limit |
| MultpBounds.Initial | scripts/calculate_multp_bounds.py:258-264 | The initial multiplier lies in the range, and is 1.0 exactly when the range holds 1 |
| MultpBounds.MultiplierBound | scripts/calculate_multp_bounds.py:148-267 | A written row names its multiplier and has min below max with the initial value between; all-zero a-priori values end the script |
| MultpBounds.BoundsOf | scripts/calculate_multp_bounds.py:148-267 | One sound row per multiplier, in order |
| MultpBounds.BoundsStep | scripts/calculate_multp_bounds.py:148-267 | One loop turn appends the multiplier's row or stops at its error |
| MultpBounds.BoundsPrefixErr | scripts/calculate_multp_bounds.py:148-267 | The first failing multiplier's error ends the script |
| MultpBounds.CalculateBounds | scripts/calculate_multp_bounds.py:145-267 | The `for i in range(object_multps_num)` loop computes the rows |
| MultpBounds.FirstSampleInBounds | scripts/calculate_multp_bounds.py:284-294 | The template names are the multipliers in order and every initial value lies within its bounds, so the first DDS sample is feasible |
| FileNames.TempNameOf | scripts/generate_priori_trialParam.py:78 | `base.txt...` gets the temporary name `base_temp.txt` |
| FileNames.TempNameNoExtension | scripts/update_model_config_files.py:88 | A name without `.txt` keeps all of it before `_temp.txt` |
| FileNames.PrioriNameOf | scripts/generate_priori_trialParam.py:96 | `base.nc...` becomes `base.priori.nc` |
| ParamHistory.Row | scripts/save_param_obj.py:161-163 | A row carries the run number, the objective and one value per template name, in template order |
| ParamHistory.SaveRows | scripts/save_param_obj.py:98-173 | One run with the template read as a list (`ndmin=1`): it succeeds exactly when the sample covers the template, and then both histories exist. A short sample goes through `ShortRun` |
| ParamHistory.ShortRun | scripts/save_param_obj.py:111-172 | A sample shorter than the template raises IndexError after the first row written: a missing converge history, else a missing search history, is created with the partial row numbered 1; with both present the partial row goes to the converge history at a new best and to the search history otherwise |
| ParamHistory.Indexable | scripts/save_param_obj.py:81 | `np.loadtxt(param_file)` of a one-value file is 0-d, so no value can be indexed; other samples are indexed as read |
| ParamHistory.History.Save | scripts/save_param_obj.py:81-173 | The step-by-step deletes, creations and appends, partial rows included, leave the history files as one run of the script as written leaves them, with the same fault |
| ParamHistory.History.SaveListed | scripts/save_param_obj.py:98-173 | Once the template is a list, the in-place deletes, creations and appends, stopping after a partial row when the sample is short, leave the files as `SaveRows` describes |
| ParamHistory.SaveRunCases | scripts/save_param_obj.py:81-87 | As written, a run equals the list reading on the indexable sample except for a one-name template, which raises TypeError and leaves both histories untouched |
| ParamHistory.OneNameFails | scripts/save_param_obj.py:87 | Counterexample: a one-name template with a sample that covers it stops the as-written run with TypeError, while the list reading saves the row |
| ParamHistory.SaveKeepsConsistent | scripts/save_param_obj.py:81-173 | A run as written after the first keeps consistent histories consistent exactly unless the template has two or more names, the indexable sample does not cover it and the run is a new best; then the partial converge row has no search row |
| ParamHistory.SaveShortSample | scripts/save_param_obj.py:147-172 | On consistent histories a short sample raises IndexError after one partial row numbered after the search history: in the converge history alone at a new best, in the search history alone otherwise |
| ParamHistory.NewBests | scripts/save_param_obj.py:6 | The new bests of a search history are at most as many as its rows |
| ParamHistory.SaveCreates | scripts/save_param_obj.py:98-142 | With the template read as a list: a cold start, or a run without history files, creates both with the same single row numbered 1, and the histories are consistent |
| ParamHistory.SavePreserves | scripts/save_param_obj.py:147-173 | With the template read as a list: on consistent histories a run appends one search row numbered after the previous ones, appends it to the converge history exactly when its objective is at most every earlier one, and keeps the histories consistent |
| ParamHistory.SaveRenumbersLateConverge | scripts/save_param_obj.py:111-125 | With the template read as a list: a converge history created beside an existing search history starts again at run 1 |
| ParamHistory.SaveEmptySearch | scripts/save_param_obj.py:154-158 | With the template read as a list: an empty search history has a NaN minimum, so the converge history takes no row |
| ParamHistory.NewBestsAreBests | scripts/save_param_obj.py:156-164 | Every converge row is a search row whose objective is at most those of all earlier rows |
| ParamHistory.NewBestIsBest | scripts/save_param_obj.py:156-164 | The position of one new best in the search history |
| ParamHistory.NewBestsDescend | scripts/save_param_obj.py:6 | The new-best objectives never increase |
| ParamHistory.ConvergeRecordsBests | scripts/save_param_obj.py:6 | A consistent converge history has non-increasing objectives, and each row repeats the search row of its run number and is at most every earlier search objective |
| OstIn.LoadText | scripts/create_ostIn.py:68-69 | `np.loadtxt` of a single data row gives a 1-D array of its fields; otherwise the rows |
| OstIn.LoadText2D | scripts/create_ostIn.py:68 | Reading with two dimensions always gives the rows |
| OstIn.LastWhere | scripts/create_ostIn.py:83-90 | The last index satisfying the test, with no later line satisfying it |
| OstIn.LastWhereStep | scripts/create_ostIn.py:83-90 | One turn of the first loop overwrites the recorded number exactly on a matching line |
| OstIn.LocateAnchors | scripts/create_ostIn.py:82-90 | The first pass records the last raw line starting `EndFilePairs` and the last starting `EndParams` (and not `EndFilePairs`) |
| OstIn.ParamLine | scripts/create_ostIn.py:115-121 | A parameter line exists exactly when the row has four fields and both limits format |
| OstIn.ParamLineFields | scripts/create_ostIn.py:120-121 | The tab-separated fields are the name, the initial value verbatim, both limits as `%.7f`, then `none none none free` |
| OstIn.EmitLines | scripts/create_ostIn.py:95-147 | One written entry per template line |
| OstIn.EmitLinesSpec | scripts/create_ostIn.py:95-147 | The rewrite succeeds exactly when every line does, entry `i` is line `i`'s output, and the first failing line's error is the result |
| OstIn.EmitStep | scripts/create_ostIn.py:95-147 | One loop turn appends the line's output or stops at its error |
| OstIn.EmitPrefixErr | scripts/create_ostIn.py:95-147 | An error on a prefix is the error of the whole loop |
| OstIn.ParamLines | scripts/create_ostIn.py:113-122 | With a 1-D array the parameter block fails unless the array is empty |
| OstIn.WriteParams | scripts/create_ostIn.py:113-122 | The `for i in range(multp_num)` loop computes the parameter block |
| OstIn.OneMultiplierFails | scripts/create_ostIn.py:68-69 | Counterexample: a bounds file with one multiplier, whose row does format, raises IndexError at `multp_bounds_arr[i, 0]` |
| OstIn.ParamLinesPerRow | scripts/create_ostIn.py:113-122 | Read with two dimensions, one line per bounds row in file order, failing exactly when a row does not format |
| OstIn.ParamsOfLine | scripts/create_ostIn.py:112-122 | Only the `EndParams` anchor line receives the parameter block |
| OstIn.PairOfLine | scripts/create_ostIn.py:101-109 | A line receives the pair line exactly when it is the content line at the `EndFilePairs` anchor |
| OstIn.LineOfLine | scripts/create_ostIn.py:96-147 | A content line is written edited; a blank or `#` line is written stripped and receives nothing |
| OstIn.RewriteLine | scripts/create_ostIn.py:96-147 | The loop body computes the line's output |
| OstIn.EditLine | scripts/create_ostIn.py:124-144 | The successive reassignments of `line_strip` compute the line's edits |
| OstIn.WriteOstIn | scripts/create_ostIn.py:82-147 | The two passes write exactly the flattened outputs of the template lines |
| OstIn.WriteStep | scripts/create_ostIn.py:95-147 | Writing one more line appends its insertions and the line itself to `dst` |
| OstIn.FlattenSplit | scripts/create_ostIn.py:146-147 | The written file is the outputs before a line, then that line's insertions and text, then the rest |
| OstIn.AnchorIsContent | scripts/create_ostIn.py:98 | An anchor line is a content line |
| OstIn.PassiveLines | scripts/create_ostIn.py:96-98 | Blank and `#` lines are written stripped, never modified, and trigger no insertion |
| OstIn.PairLineOnce | scripts/create_ostIn.py:101-109 | Exactly one line, the last `EndFilePairs` line, receives the `multipliers.tpl; multipliers.txt` pair line; without an anchor the template has no content line |
| OstIn.ParamLinesOnce | scripts/create_ostIn.py:112-122 | Only the last `EndParams` line receives the parameter block, and it receives all of it |
| OstIn.ContentLines | scripts/create_ostIn.py:124-147 | Each content line is written with the seed, warm-start and budget edits applied |
| OstIn.MissingAnchor | scripts/create_ostIn.py:101-112 | A template without an anchor raises NameError at its first content line |
| OstIn.PassiveEmit | scripts/create_ostIn.py:96-98 | One blank or `#` line is written stripped |
| OstIn.MissingEmit | scripts/create_ostIn.py:101-112 | A content line without a recorded anchor raises NameError |
| OstIn.SeedKeepsPrefix | scripts/create_ostIn.py:125-129 | Filling in the seed keeps a line's key when the key holds no `xx` |
| OstIn.WarmStartLine | scripts/create_ostIn.py:132-137 | An `OstrichWarmStart` line becomes `OstrichWarmStart yes` or `OstrichWarmStart no` by the case-insensitive setting. For any other value it stays as the seed step left it |
| OstIn.WarmStepHead | scripts/create_ostIn.py:132-137 | The warm-start edit keeps the line starting with `O` |
| OstIn.MaxIterUntouched | scripts/create_ostIn.py:142 | The budget edit leaves a line not starting `M` alone |
| OstIn.WarmUntouched | scripts/create_ostIn.py:132 | The warm-start edit leaves a line not starting `O` alone |
| OstIn.MaxIterationsLine | scripts/create_ostIn.py:139-144 | On a `MaxIterations` line every occurrence of the raw line's old value is replaced by the configured `max_iterations` |
| OstIn.NoPlaceholderAt | scripts/create_ostIn.py:129 | After the seed replacement no placeholder is left at any position |
| OstIn.SeedStepFillsAll | scripts/create_ostIn.py:125-129 | Every `xxxxxxxxx` is replaced by a seed without `x` |
| OstIn.MaxIterationsOf | scripts/create_ostIn.py:139-144 | `MaxIterations <n>` becomes `MaxIterations <max_iterations>` with its spacing kept |
| OstIn.MaxStepOf | scripts/create_ostIn.py:142-144 | The budget replacement on a numeric `MaxIterations` line changes only the number |
| OstIn.NumberField | scripts/create_ostIn.py:143 | The old value of a `key <digits>` line is its digits |
| OstIn.NumberReplace | scripts/create_ostIn.py:144 | Replacing the digits of a `key <digits>` line whose key has no digit changes only the number |
| PrioriTrialParam.AppendAbsent | scripts/generate_priori_trialParam.py:117-119 | The append loop adds the group's names that are not substrings of the text, in order |
| PrioriTrialParam.ExpandOutputParams | scripts/generate_priori_trialParam.py:109-126 | The whole list: the object names, then the soil group's additions, then the canopy-height group's |
| PrioriTrialParam.AbsentStep | scripts/generate_priori_trialParam.py:117-119 | One loop turn appends the name exactly when it is not a substring |
| PrioriTrialParam.ObjectNamesOf | scripts/generate_priori_trialParam.py:110 | Stripped names joined by commas split back into the names |
| PrioriTrialParam.AbsentMembers | scripts/generate_priori_trialParam.py:117-119 | A name is added exactly when it is in the group and not a substring of the text |
| PrioriTrialParam.AbsentAppend | scripts/generate_priori_trialParam.py:132-135 | Filtering a concatenation filters each part |
| PrioriTrialParam.AbsentNone | scripts/generate_priori_trialParam.py:133 | When every name is already present nothing is added |
| PrioriTrialParam.OutputParamsShape | scripts/generate_priori_trialParam.py:109-126 | The list begins with the object names and continues with the two groups' additions |
| PrioriTrialParam.AddedNamesSound | scripts/generate_priori_trialParam.py:114-126 | Every added name is absent from the setting text and belongs to a group that is named there |
| PrioriTrialParam.GroupCompleted | scripts/generate_priori_trialParam.py:114-126 | Once a group is named, each of its members is named or added |
| PrioriTrialParam.PrependOutputControl | scripts/generate_priori_trialParam.py:129-136 | The write loop writes `name` and a newline for each parameter not in the old content, then the content |
| PrioriTrialParam.TerminatedAppend | scripts/generate_priori_trialParam.py:134-135 | Writing one more name appends it and a newline |
| PrioriTrialParam.TerminatedContains | scripts/generate_priori_trialParam.py:134 | Every written name occurs in the prefix |
| PrioriTrialParam.TerminatedLines | scripts/generate_priori_trialParam.py:132-136 | The new file's lines are the written names followed by the old lines |
| PrioriTrialParam.OutputControlLines | scripts/generate_priori_trialParam.py:129-136 | The new outputControl's lines are the missing parameters, in order, followed by the old lines verbatim |
| PrioriTrialParam.OutputControlIdempotent | scripts/generate_priori_trialParam.py:129-136 | Afterwards every parameter is present, and a second run changes nothing |
| PrioriTrialParam.PrioriTimes | scripts/generate_priori_trialParam.py:142-145 | The start time is the control file's `simStartTime` and the end time its day-after, failing exactly when either fails |
| PrioriTrialParam.UpdateFileManager | scripts/generate_priori_trialParam.py:148-157 | The rewrite loop computes the one-day fileManager |
| PrioriTrialParam.OtherLineKept | scripts/generate_priori_trialParam.py:151-157 | A line that is neither time line is copied verbatim |
| PrioriTrialParam.FileManagerShape | scripts/generate_priori_trialParam.py:148-157 | The rewrite succeeds exactly when every time line has a value field; then lines stay in order and every other line is copied verbatim |
| PrioriTrialParam.StartLineSet | scripts/generate_priori_trialParam.py:151-153 | A well-shaped `simStartTime` line gets the new start, unquoted, in place of its old value |
| PrioriTrialParam.EndLineSet | scripts/generate_priori_trialParam.py:154-156 | A well-shaped `simEndTime` line gets the new end, unquoted, in place of its old value |
| ModelConfig.DatePart | scripts/update_model_config_files.py:80-81 | The date part exists exactly for a valid zero-padded `%Y-%m-%d %H:%M` time, and is its ten-character prefix |
| ModelConfig.DateOfTime | scripts/update_model_config_files.py:80-81 | The date part of `date time` is `date` |
| ModelConfig.MidnightRejected | scripts/update_model_config_files.py:76-77 | An end time of `24:00` raises ValueError |
| ModelConfig.QuotedStartTime | scripts/update_model_config_files.py:94-96 | A well-shaped `simStartTime` line gets the configured start in single quotes in place of its old value |
| ModelConfig.QuotedEndTime | scripts/update_model_config_files.py:97-99 | A well-shaped `simEndTime` line gets the configured end in single quotes in place of its old value |
| ModelConfig.StartDateSet | scripts/update_model_config_files.py:114-116 | A well-shaped `<sim_start>` line gets the start date in place of its old value |
| ModelConfig.EndDateSet | scripts/update_model_config_files.py:117-119 | A well-shaped `<sim_end>` line gets the end date in place of its old value |
| ModelConfig.RunoffFileSet | scripts/update_model_config_files.py:120-124 | A well-shaped `<fname_qsim>` line gets `outFilePrefix + '_day.nc'` in place of its old value |
| ModelConfig.RunoffLookupFails | scripts/update_model_config_files.py:120-124 | A failing `outFilePrefix` lookup on a `<fname_qsim>` line with a value is the run's error |
| ModelConfig.RunoffPicks | scripts/update_model_config_files.py:121-124 | The old value is read before the prefix, whose error comes next |
| ModelConfig.RouteAtStart | scripts/update_model_config_files.py:114-116 | A `<sim_start>` line takes the start-date branch |
| ModelConfig.RouteAtEnd | scripts/update_model_config_files.py:117-119 | A `<sim_end>` line takes the end-date branch |
| ModelConfig.RouteAtRunoff | scripts/update_model_config_files.py:120-124 | A `<fname_qsim>` line takes the runoff-file branch |
| ModelConfig.CommentDateRewritten | scripts/update_model_config_files.py:116 | `str.replace` also rewrites the old date where it is repeated in the line's comment |
| ModelConfig.RouteControlShape | scripts/update_model_config_files.py:111-125 | A successful route_control rewrite keeps the line count and copies every line not starting with one of the three keys |
| ModelConfig.ReadPeriod | scripts/update_model_config_files.py:63-81 | A successful read has read all six settings, its times are the control file's, and its dates are their date parts |
| ModelConfig.RoutePass | scripts/update_model_config_files.py:104-127 | After the fileManager copy the rewritten fileManager stays. The pass fails exactly when the `route_control` lookup or the route control edit fails, and then leaves the route control as it was |
| ModelConfig.UpdatedConfigs | scripts/update_model_config_files.py:63-127 | Both files keep their line counts. A fault before the copy at line 101 leaves both files as they were, and any fault leaves the route control as it was |
| ModelConfig.UpdateModelConfigFiles | scripts/update_model_config_files.py:63-127 | The script's reads and two loops leave the files and the fault exactly as `UpdatedConfigs` describes, including the rewritten fileManager after a route control failure |
| ModelConfig.FileManagerCommitted | scripts/update_model_config_files.py:87-127 | Once the fileManager pass succeeds, the rewritten fileManager is in place whatever follows. The run fails exactly when the route control lookup or edit fails |
| ModelConfig.UpdatedConfigsParts | scripts/update_model_config_files.py:87-124 | The fileManager gets the quoted times, and route_control gets the dates and the `outFilePrefix` of the rewritten fileManager |
| ModelConfig.UntouchedLinesKept | scripts/update_model_config_files.py:91-125 | After a successful run every line of either file that is not a keyed line is copied verbatim, in place |
| ModelConfig.KeptLines | scripts/update_model_config_files.py:93-100 | Every fileManager line other than the time lines is kept |
| ConfigReaders.FirstWhere | scripts/calculate_multp_bounds.py:29-32 | The first line passing the test: no earlier line passes it, and absent only when no line does |
| ConfigReaders.FirstMatch | scripts/calculate_multp_bounds.py:29-32 | The first line whose stripped text starts with the setting |
| ConfigReaders.FirstMatchAt | scripts/calculate_multp_bounds.py:29-32 | A matching line with no earlier match is the one the loop breaks at |
| ConfigReaders.SettingLine | scripts/calculate_multp_bounds.py:28-32 | The loop variable after the loop is unbound only for an empty file |
| ConfigReaders.LocateSetting | scripts/calculate_multp_bounds.py:28-32 | The `for ... break` loop leaves the matching line, or the last line when none matches |
| ConfigReaders.SettingLineAt | scripts/calculate_multp_bounds.py:29-32 | The loop stops at the first match, stripped |
| ConfigReaders.SettingLineNone | scripts/calculate_multp_bounds.py:29-34 | Without a match the stripped last line is used |
| ConfigReaders.ControlValue | scripts/calculate_multp_bounds.py:34 | A value exists exactly when the line has a `|`, and it is stripped |
| ConfigReaders.ControlSetting | scripts/calculate_multp_bounds.py:25-36 | An empty control file raises NameError; a missing setting yields the value of the last line |
| ConfigReaders.ReadFromControl | scripts/calculate_multp_bounds.py:25-36 | The reader's loop computes `read_from_control` |
| ConfigReaders.ControlValueOf | scripts/calculate_multp_bounds.py:34 | `key | value # comment` gives the stripped value |
| ConfigReaders.ControlValueUncommented | scripts/calculate_multp_bounds.py:34 | `key | value` gives the stripped value |
| ConfigReaders.ControlSettingOf | scripts/calculate_multp_bounds.py:25-36 | The first line for the setting, of the form `key | value # comment`, gives the stripped value |
| ConfigReaders.SecondField | scripts/calculate_multp_bounds.py:47 | `split(None, 1)[1]` exists exactly when there are two fields, and starts with non-space |
| ConfigReaders.ValueField | scripts/update_model_config_files.py:95 | The old value is non-empty and starts with non-space |
| ConfigReaders.RouteValue | scripts/calculate_multp_bounds.py:47 | A value exists exactly when the line has a second field, and carries no quote at either end |
| ConfigReaders.RouteSetting | scripts/calculate_multp_bounds.py:38-49 | An empty file raises NameError; a missing setting yields the value of the last line |
| ConfigReaders.ReadFromSummaRouteConfig | scripts/calculate_multp_bounds.py:38-49 | The reader's loop computes `read_from_summa_route_config` |
| ConfigReaders.ValueFieldOf | scripts/update_model_config_files.py:95 | The old value of `key value pad ! comment` is `value` |
| ConfigReaders.RouteValueOf | scripts/calculate_multp_bounds.py:47 | `key 'value' ! comment` gives `value` without its quotes |
| ConfigReaders.RouteSettingOf | scripts/calculate_multp_bounds.py:38-49 | The first line for the setting, of that form, gives the unquoted value |
| ConfigReaders.SubstituteValue | scripts/update_model_config_files.py:95-96 | The substitution succeeds exactly when the line has an old value |
| ConfigReaders.SubstituteValueOf | scripts/update_model_config_files.py:95-96 | A line whose value occurs once gets the new value in its place, key, spacing and comment kept |
| ConfigReaders.SubstituteLine | scripts/update_model_config_files.py:94-96 | The same for the `!`-comment lines the rewrites edit |
| ConfigReaders.SubstituteRepeated | scripts/update_model_config_files.py:96 | A value repeated in the comment is replaced there too |
| ConfigReaders.EditLines | scripts/update_model_config_files.py:93-100 | A successful rewrite keeps the line count |
| ConfigReaders.EditLinesSpec | scripts/update_model_config_files.py:93-100 | The rewrite succeeds exactly when every line's edit does, line `i` is its edit, and the first failing edit's error is the result |
| ConfigReaders.RewriteLines | scripts/update_model_config_files.py:93-100 | The `for line in src` loop computes the rewrite |
| PyStr.LStrip | scripts/calculate_multp_bounds.py:30 | The result is a suffix; the dropped part is all whitespace and the result starts with non-space |
| PyStr.RStrip | scripts/calculate_multp_bounds.py:30 | The result is a prefix; the dropped part is all whitespace and the result ends with non-space |
| PyStr.Strip | scripts/calculate_multp_bounds.py:30 | The result neither starts nor ends with whitespace |
| PyStr.StripPadded | scripts/calculate_multp_bounds.py:30 | Stripping a padded text gives the text |
| PyStr.StripIdempotent | scripts/calculate_multp_bounds.py:30 | Stripping twice is stripping once |
| PyStr.Find | scripts/calculate_multp_bounds.py:70 | The first occurrence of a pattern, absent only when it never occurs |
| PyStr.Before | scripts/calculate_multp_bounds.py:141 | `split(p)[0]`: a prefix that ends at the first occurrence, the whole text when there is none |
| PyStr.After | scripts/calculate_multp_bounds.py:34 | `split(p, 1)[1]`: present exactly when the pattern occurs, and the text is prefix, pattern and rest |
| PyStr.Split | scripts/calculate_multp_bounds.py:60 | `split(c)`: at least one part, no part holds `c`, and the parts join back into the text |
| PyStr.SplitJoin | scripts/calculate_multp_bounds.py:60 | Parts without `c` joined by `c` split back into the parts |
| PyStr.SplitWsOnce | scripts/calculate_multp_bounds.py:47 | `split(None, 1)`: at most two parts, a word and then a rest that starts with non-space |
| PyStr.SplitWsOnceOf | scripts/calculate_multp_bounds.py:47 | `key gap value` splits into key and value |
| PyStr.StripChar | scripts/calculate_multp_bounds.py:47 | `strip("'")`: the result neither starts nor ends with the character |
| PyStr.StripCharEnclosed | scripts/calculate_multp_bounds.py:47 | A quoted value loses its quotes |
| PyStr.ReplaceAbsent | scripts/update_model_config_files.py:96 | Replacing an absent pattern changes nothing |
| PyStr.ReplaceUnique | scripts/update_model_config_files.py:96 | A single occurrence is replaced in place |
| PyStr.ReplaceTwo | scripts/update_model_config_files.py:116 | Two occurrences are both replaced |
| PyStr.ReplaceSelf | scripts/create_ostIn.py:144 | Replacing a pattern by itself changes nothing |
| PyStr.Lower | scripts/create_ostIn.py:134 | `lower()`: same length, each letter folded |

## Left out

- Command-line parsing, file I/O, `os.path.join`/`relpath`, `shutil.copy2` and
  `os.remove`. Each file is a sequence of lines; the pair line is the relative
  path pair `multipliers.tpl; multipliers.txt`, which is what `relpath` gives for
  files directly in `calib_path`.
- Output formatting: DDS.py's `%.6E` parameter file, the `%.6f` multiplier
  files and the `%.6E` history rows. The `%.7f` limits in `ostIn.txt` are a
  function parameter. The exact model can disagree with the script at a tie.
  `save_param_obj.py:154-158` compares `obj` with objectives written as `%.6E`
  and read back. Two values that differ only after that rounding tie in the
  script but not in the model.
- `float()` parsing is a function parameter. Reals are exact: floating-point
  rounding, NaN and infinities are not modelled.
- `Dds.GasDev`: `sqrt(-2 ln w / w)` is a function parameter.
- `Dds.Step`: `Pn = 1 - log1p(i)/log(max)` (`DDS.py:243`) is given as the argument `pn`.
- The global `np.random` generator. Every draw is an explicit argument, so the
  order in which the script consumes the stream is not modelled.
- Dds.PerturbDisc: takes the deviate `z` as a parameter. Line 93 of `DDS.py`
  binds `stand_norm` without calling it, so the script as written would raise a
  TypeError at line 94. The discrete step is unreachable anyway, because line 199
  sets every flag to continuous.
- Dds.PerturbType: keeps the as-written discrete step, not `Dds.PerturbDiscCorrected`.
  No path reaches the discrete step.
- Dds.Propose: does not model the output block (lines 265-271). That block reorders
  parameters by name through the template file. After a warm start it uses the
  record's column names. Line 265 also reads the template with `np.loadtxt`
  without `ndmin`. For a one-name template, `list` of that 0-d array raises
  TypeError at every iteration, as `ParamHistory.OneNameFails` shows for
  `save_param_obj.py:87`.
- netCDF/xarray access: the a-priori dataset is a map from names to values. The
  `routingGammaScale` limits (`sqrt`, `pi` and the attribute file) are given as
  inputs. Running SUMMA and building `trialParam.priori.nc` are not modelled.
- MultpBounds.Layers, MultpBounds.Prior, MultpBounds.ThetaSatLimits and
  MultpBounds.FeasibleRange: a variable is one-dimensional, its cells
  flattened. Broadcasting is numpy's rule for one-dimensional operands;
  zero-dimensional values and broadcasting across several dimensions are not
  modelled.
- ModelConfig.DatePart: accepts only zero-padded `%Y-%m-%d %H:%M` with a single
  space. `strptime` also accepts unpadded fields such as `2000-1-5 6:00`, and a
  run of whitespace for the format's space such as `2000-01-05  06:00`. The model
  rejects both. glibc's `strftime('%Y')` does not zero-pad years below 1000, so
  the script writes `0999-…` as `999-…` while the model keeps `0999-…`.
- PrioriTrialParam.PrioriTimes: the `strptime`/`timedelta`/`strftime` day
  addition is a function parameter.
- OstIn.SeedStepFillsAll: the seed is a string parameter. The wall-clock seed
  arithmetic on `time.time()` is not modelled.
- OstIn.LoadText: does not model `np.loadtxt`'s splitting of the file into
  fields, nor its failure on ragged rows. The table arrives as rows of fields.
- PyStr.Lower: folds ASCII letters only.
- Partial output: `update_model_config_files.py` and `generate_priori_trialParam.py`
  write each file to a temporary copy first. A pass that fails leaves a partly
  written temporary file and the original untouched; the model returns only the
  error of that pass. `create_ostIn.py` writes `ostIn.txt` itself (line 94),
  so a failure midway leaves `ostIn.txt` partly written; the model returns only
  the error. Files already copied into place are modelled:
  `ModelConfig.UpdatedConfigs` keeps the rewritten fileManager, and
  `ParamHistory.SaveRows` keeps the histories' partial rows.
- ParamHistory.SaveRows: a short sample's partial row is a record with fewer
  values than the template. Its missing trailing newline is not modelled, so
  the model does not show that a later row is appended to the same line. How
  pandas reads such a line back is not modelled either.
- The demo3 and demo4 scripts, `demo2/scripts/8_save_best.py` and
  `demo2/scripts/6_save_param_obj.py` are not part of this model.

## Findings

| source | as written | input that shows it | evidently intended | confidence | as-written member | corrected member |
|---|---|---|---|---|---|---|
| demo2/scripts/DDS.py:131-135 | the resample `s_min - 1 + ceil(range) * rand()` is not floored | s = 5, bounds [0, 10], zero step and resample draw 0.55 give 4.5; draw 0 gives -1, below the lower bound | a uniformly drawn integer of the range other than `s` | not executed | Dds.PerturbDiscFraction | Dds.PerturbDiscCorrected |
| demo2/scripts/DDS.py:104-126 | candidates are bounded by the half-widened range and then rounded half to even | s = 1, bounds [1, 11], z = -0.25: the candidate 0.5 rounds to 0, below the lower bound | a rounded value within the bounds | not executed | Dds.PerturbDiscRoundsOut | Dds.PerturbDiscCorrected |
| demo2/scripts/DDS.py:238 | `np.loadtxt(param_file)` without `ndmin=1` squeezes a one-value parameter file into a 0-d array, so `param_sample_previous[i_param]` at line 251 or 258 raises IndexError | one multiplier, any draws, with `multipliers.txt` holding `1.0` | the previous sample as a 1-D array, as `np.loadtxt(..., ndmin=1)` gives | not executed | Dds.OneParameterFails | Dds.NeighbourSucceeds |
| scripts/save_param_obj.py:87 | `list(np.loadtxt(param_tpl_file, dtype='str'))` of a one-name template iterates over a 0-d array and raises TypeError | `multipliers.tpl` holding the single name `k_soil_multp` | the list of names, as `np.loadtxt(..., ndmin=1)` gives | not executed | ParamHistory.OneNameFails | ParamHistory.SaveRows |
| scripts/create_ostIn.py:68-69 | `np.loadtxt` without `ndmin=2` returns a 1-D array for a bounds file with one multiplier, and `multp_bounds_arr[i, 0]` then fails | a single row `k_soil_multp,1.0,0.5,2.0` | one parameter line per multiplier, as `np.loadtxt(..., ndmin=2)` gives | not executed | OstIn.OneMultiplierFails | OstIn.ParamLinesPerRow |
