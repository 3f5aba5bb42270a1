# A Dafny model of the Lunule metadata balancer

This project models the core of the metadata-server (MDS) load balancer of a
Ceph fork that adds fine-grained, prediction-driven balancing ("Lunule"), and
proves properties of that model in Dafny. One module per component:

- `LoadArrays` (`load_array.dfy`): `LoadArray<T>`, the in-place epoch history
  with `shift`, `total`, `append`, `clear` and `[]`; `dirfrag_load_pred_t` and
  the forwarding of `dirfrag_load_t` to its decayed and predicted parts.
- `RequestCounters` (`req_counter.dfy`): `ReqCounter`, the fixed-length hit
  window with its running count of hits.
- `DeltaTracers` (`delta_tracer.dfy`): `DeltaTracer` and `DeltaTracerWatcher`.
- `Predictors` (`predictor.dfy`): `Predictor::endswith` and the dispatch of
  `predict` on the script suffix.
- `LuaPredictors` (`lua_predictor.dfy`): turning the sparse result table of a
  Lua script into a dense load history, with its error returns.
- `PyLoggers` (`py_logger.dfy`): the fixed 4096-byte line buffer of `PyLogger`.
  `Lines` and `Fed` say which lines `_write` hands to the log and what it
  keeps in the buffer; the methods are proved against them.
- `CMiners` (`cminer.dfy`): one mining pass of the correlation miner
  `CMiner::process` and its bounded series of rule sets.
- `MatrixFitters` (`matrix_fitter.dfy`): `DataChunk`, `place_result` and the
  row and column window arithmetic of `TorchMatrixFitter`.
- `LoadInjectors` (`load_injector.dfy`): `split_line` and `readline` of the two
  trace replay tools (`verify.cc` and `pytorch/verify.cc`).
- `Multimaps` (`multimap.dfy`): the sorted `std::multimap` the balancer uses.
- `DirTrees` (`dir_tree.dfy`): the directory-fragment tree as an arena of
  nodes with parent indices and flags, and the load counters `hit_dir`,
  `subtract_export`, `add_import` and `adjust_pop_for_rename` keep along it.
- `BalancePlans` (`balance_plan.dfy`): `balance_state_t`, `try_match`,
  `get_maxim`/`get_maxex` and the matching passes of `prep_rebalance`.
- `IfCascades` (`if_cascade.dfy`): rank 0's imbalance-factor round and the
  decision cascade of `handle_ifbeat`.
- `Fragments` (`fragment.dfy`): `split_pending`/`merge_pending`,
  `queue_split`, `queue_merge`, their delayed callbacks, `maybe_fragment` and
  `dynamically_fragment`.
- `Balancers` (`balancer.dfy`): the `MDBalancer` object: `tick`, heartbeats,
  ifbeats, `mds_pop_load`, `prep_rebalance` and `handle_mds_failure`.
- `ExportSearch` (`export_search.dfy`): `find_exports`,
  `find_exports_wrapper` and `simple_determine_rebalance`.
- `Rebalances` (`rebalance.dfy`): the three export stages of `try_rebalance`.
- `Wrappers` (`wrappers.dfy`): `Option`.
- `Configs` (`config.dfy`): the balancer's configuration values and constants.

Loads are Dafny `real`s with the time decay removed, so counters simply
accumulate. Messages become recorded events, and clocks become inputs or call
budgets. Values that come from code outside the model are parameters: the Lua,
Python and Torch interpreters, `get_load`, MDCache walks and Mantle.

Where the code and its documentation disagree, the model follows the code;
for example, a heartbeat from rank 0 may lower a rank's `beat_epoch`
(`src/mds/MDBalancer.cc:830-835`). The exception is the four places listed
under Findings, where the code is evidently wrong. For each of them the model
has a member that does what the code does, and beside it the corrected
definition, which the rest of the model uses. In particular, the ifbeat round
the balancer runs (`IfCascades.IfRound`) is the corrected round. The round as
written is `IfCascades.IfRoundAsWritten`.

## Model

| member | source | states |
|---|---|---|
| LoadArrays.Zeros | src/mds/adsl/mdstypes.h:37-38 | `vector<T>(len)`: exactly `len` entries, all zero |
| LoadArrays.Trunc | src/mds/MDBalancer.cc:1336 | an `int` initialised from a `double` truncates toward zero: the result is within one of the value, on the zero side |
| LoadArrays.ShiftedAt | src/mds/adsl/mdstypes.h:48-64 | `shift(n, next)` keeps the length; entry `i` is the old entry `i + n`, then `next`, then zeros, or all zeros when `n >= len` |
| LoadArrays.ShiftOneTotal | src/mds/adsl/mdstypes.h:48-64 | a one-epoch shift of a history of at least two epochs changes `total()` by the new reading minus the oldest |
| LoadArrays.SumFront | src/mds/adsl/mdstypes.h:45-47 | the `accumulate` total splits off its first element |
| LoadArrays.SumUniform | src/mds/adsl/mdstypes.h:45-47 | the total of `n` equal readings `c` is `n * c` |
| LoadArrays.SumAtLeast | src/mds/adsl/mdstypes.h:45-47 | readings none below `m` total at least `n * m`, strictly more when one is above `m` |
| LoadArrays.SumAtMost | src/mds/adsl/mdstypes.h:45-47 | readings none above `m` total at most `n * m`, strictly less when one is below `m` |
| LoadArrays.LoadArray.Sized | src/mds/adsl/mdstypes.h:37-38 | `LoadArray(len)` holds `len` epochs of zero load |
| LoadArrays.LoadArray.FromValues | src/mds/adsl/mdstypes.h:39-44 | the copying constructors hold exactly the given values |
| LoadArrays.LoadArray.Total | src/mds/adsl/mdstypes.h:45-47 | `total()` is the sum of every epoch's load |
| LoadArrays.LoadArray.Shift | src/mds/adsl/mdstypes.h:48-64 | the in-place loops of `shift(n, next)` leave exactly `Shifted(old, n, next)` |
| LoadArrays.LoadArray.Size | src/mds/adsl/mdstypes.h:65 | `size()` is the number of epochs |
| LoadArrays.LoadArray.Clear | src/mds/adsl/mdstypes.h:66 | `clear()` empties the history |
| LoadArrays.LoadArray.Append | src/mds/adsl/mdstypes.h:67 | `append(v)` adds one epoch at the end and keeps the others |
| LoadArrays.LoadArray.At | src/mds/adsl/mdstypes.h:70 | `operator[]` inside the bounds reads one of the history's values |
| LoadArrays.LoadVec.Zero | src/mds/adsl/mdstypes.h:166-169 | every popularity counter is zero |
| LoadArrays.LoadVec.Hit | src/mds/MDBalancer.cc:2017 | `get(t).hit(amount)` raises counter `t` by `amount` and no other |
| LoadArrays.LoadVec.Plus | src/mds/adsl/mdstypes.h:175-178 | `add` is counter-wise addition |
| LoadArrays.LoadVec.Minus | src/mds/adsl/mdstypes.h:179-182 | `sub` is counter-wise subtraction |
| LoadArrays.LoadVec.Scaled | src/mds/adsl/mdstypes.h:183-186 | `scale(f)` multiplies every counter by `f` |
| LoadArrays.LoadVec.Adjusted | src/mds/adsl/mdstypes.h:162-165 | `adjust(d)` moves every counter by `d` |
| LoadArrays.PlusMinus | src/mds/adsl/mdstypes.h:175-182 | adding a load and then subtracting it gives the counters back |
| LoadArrays.PredLoad.Adjust | src/mds/adsl/mdstypes.h:105-107 | `_load` grows by `d`; `local_epoch` is kept |
| LoadArrays.PredLoad.Zero | src/mds/adsl/mdstypes.h:108-110 | `_load` becomes zero; `local_epoch` is kept |
| LoadArrays.PredLoad.Add | src/mds/adsl/mdstypes.h:115-117 | `_load` grows by the other's `_load`, read before the update (so adding itself doubles) |
| LoadArrays.PredLoad.Sub | src/mds/adsl/mdstypes.h:118-120 | `_load` shrinks by the other's `_load`, read before the update |
| LoadArrays.PredLoad.Scale | src/mds/adsl/mdstypes.h:121-123 | `_load` is multiplied by `f` |
| LoadArrays.DirfragLoad.constructor | src/mds/adsl/mdstypes.h:131-137 | a fresh pair with zero decayed counters and its own predicted load |
| LoadArrays.DirfragLoad.Adjust | src/mds/adsl/mdstypes.h:162-165 | `adjust` goes to both halves and keeps `use_pred` |
| LoadArrays.DirfragLoad.Zero | src/mds/adsl/mdstypes.h:166-169 | `zero` clears both halves |
| LoadArrays.DirfragLoad.Add | src/mds/adsl/mdstypes.h:175-178 | `add` adds the other's counters and predicted load to both halves |
| LoadArrays.DirfragLoad.Sub | src/mds/adsl/mdstypes.h:179-182 | `sub` subtracts the other's counters and predicted load from both halves |
| LoadArrays.DirfragLoad.Scale | src/mds/adsl/mdstypes.h:183-186 | `scale(f)` scales both halves |
| LoadArrays.MdsLoadScenario | src/test/adsl/mds/test_mds_load.cc:14-31 | after the test's steps the first load is `2(a+8) + 0.5(b+3)` and the second is zero |
| LoadArrays.LoadArrayScenario | src/test/adsl/mds/test_load_array.cc:8-18 | five zero epochs shifted by (2, 10), (1, 20), (1, 30) read `[0, 10, 0, 20, 30]` |
| RequestCounters.CountHits | src/mds/adsl/ReqCounter.cc:22 | `_cache_hit_times` counts at most one hit per epoch of the window |
| RequestCounters.RotateEmptyIsSuffix | src/mds/adsl/ReqCounter.cc:27-31 | pushing `n` empty epochs in reads the window off `n` flags further along the stream |
| RequestCounters.AdvancedIsSuffix | src/mds/adsl/ReqCounter.cc:22-31 | after a move of `k` epochs the window is the old flags, then the current epoch's flag, then `k - 2` empty epochs, cut to the window's length |
| RequestCounters.NoHitsIff | src/mds/adsl/ReqCounter.cc:45 | a zero hit count means no epoch of the window was hit, and the converse |
| RequestCounters.CountHitsAppend | src/mds/adsl/ReqCounter.cc:22-31 | hit counts of two windows add up over their concatenation |
| RequestCounters.CountHitsRotate | src/mds/adsl/ReqCounter.cc:22-24 | the count update `+= last_hit - front` is exactly the count of the rotated window |
| RequestCounters.ReqCounter.constructor | src/mds/adsl/ReqCounter.cc:5-8 | `queue_len` epochs with no hit, a consistent count of zero |
| RequestCounters.ReqCounter.SwitchEpoch | src/mds/adsl/ReqCounter.cc:10-32 | a non-positive move changes nothing; a move of the default length or more restarts the window; a smaller one leaves `Advanced(old window, old last hit, k)`; the cached count always equals the hits in the window |
| RequestCounters.ReqCounter.Hit | src/mds/adsl/ReqCounter.cc:38-46 | -1 if this epoch was already hit; otherwise 1 exactly when no epoch of the window was hit and 0 exactly when one was; the epoch is marked |
| DeltaTracers.Deltas | src/mds/adsl/DeltaTracer.h:18-22 | one delta per reading |
| DeltaTracers.DeltasTelescope | src/mds/adsl/DeltaTracer.h:18-22 | the deltas of a series add up to the last reading minus the start |
| DeltaTracers.DeltasRecover | src/mds/adsl/DeltaTracer.h:18-22 | each reading is the start plus the deltas up to it |
| DeltaTracers.DeltaTracer.SetLast | src/mds/adsl/DeltaTracer.h:16 | the base becomes the given value |
| DeltaTracers.DeltaTracer.Get | src/mds/adsl/DeltaTracer.h:18-22 | `get(now)` answers `now - last` and makes `now` the base |
| DeltaTracers.DeltaTracer.Clear | src/mds/adsl/DeltaTracer.h:23-25 | `clear()` resets the base to zero |
| DeltaTracers.TraceAll | src/mds/adsl/DeltaTracer.h:18-22 | feeding a series to one tracer yields exactly `Deltas`, and the base ends at the last reading |
| DeltaTracers.DeltaTracerWatcher.constructor | src/mds/adsl/DeltaTracer.h:37 | keeps `check_arg`, with a tracer of its own |
| DeltaTracers.DeltaTracerWatcher.InitNow | src/mds/adsl/DeltaTracer.h:39-42 | the current reading becomes the base and the last delta is zero |
| DeltaTracers.DeltaTracerWatcher.Get | src/mds/adsl/DeltaTracer.h:44-49 | with `update`, the delta since the base, which moves to the reading; without, the previous delta and the base is kept |
| Predictors.EndsWith | src/mds/adsl/Predictor.cc:12-25 | the pointer walk answers true exactly when the name ends with the suffix |
| Predictors.Predict | src/mds/adsl/Predictor.cc:42-57 | ".py" selects the Python back end, otherwise ".lua" the Lua one, otherwise `-EINVAL`; the answer is the chosen back end's |
| LuaPredictors.Top | src/mds/adsl/LuaPredictor.cc:94-106 | the highest accepted index never falls below where it started |
| LuaPredictors.FillOkIff | src/mds/adsl/LuaPredictor.cc:87-91 | the result loop gets through exactly when every pair of the table is numeric |
| LuaPredictors.FillLength | src/mds/adsl/LuaPredictor.cc:94-106 | on success one load is appended per index from 1 up to the highest index returned |
| LuaPredictors.FillAt | src/mds/adsl/LuaPredictor.cc:97-105 | on success a pair whose index is above every index seen before it finds its load at that index |
| LuaPredictors.FillGapIsZero | src/mds/adsl/LuaPredictor.cc:100-103 | an index that no pair names gets a zero load |
| LuaPredictors.Predict | src/mds/adsl/LuaPredictor.cc:36-110 | `-EINVAL` with nothing appended if the script fails to load, fails to run or returns no table; otherwise the appended loads are `Fill(entries, 0)`, and the answer is 0 exactly when no pair was malformed |
| PyLoggers.ShortLinesAt | src/mds/adsl/PyPredictor.cc:47-62 | no line handed to the log is longer than `PYLOGGER_FLUSH_SIZE` |
| PyLoggers.LineLength | src/mds/adsl/PyPredictor.cc:38-45 | the first line's length never exceeds the text's |
| PyLoggers.LineLengthBounds | src/mds/adsl/PyPredictor.cc:38-45 | `get_flush_pos` counts characters without a break, and stops at a break unless the text ends first |
| PyLoggers.SplitLine | src/mds/adsl/PyPredictor.cc:70-75 | cutting `k` characters off the first line keeps them as they are, and the rest of the line is `k` shorter |
| PyLoggers.SkipBreak | src/mds/adsl/PyPredictor.cc:78-82 | the character after a full first line is a break, so skipping it loses no text |
| PyLoggers.PyLogger.constructor | src/mds/adsl/PyPredictor.cc:33-34 | an empty, terminated buffer and an empty log |
| PyLoggers.PyLogger.StrLen | src/mds/adsl/PyPredictor.cc:48 | `strlen(buf)` finds the terminator |
| PyLoggers.PyLogger.GetFlushPos | src/mds/adsl/PyPredictor.cc:38-45 | the position of the first line break, or the length of the text |
| PyLoggers.PyLogger.CopyIn | src/mds/adsl/PyPredictor.cc:71-72 | `strncpy` plus the terminator appends exactly `k` characters to the buffered text |
| PyLoggers.PyLogger.EmitAndEmpty | src/mds/adsl/PyPredictor.cc:56-57 | the buffered text becomes one more log line and the buffer empties |
| PyLoggers.PyLogger.Flush | src/mds/adsl/PyPredictor.cc:58-61 | `_flush()` logs the buffer as one line only when it holds text, and leaves it empty |
| PyLoggers.PyLogger.FlushWith | src/mds/adsl/PyPredictor.cc:47-57 | `_flush(m, n)` logs the buffer plus as many of the `n` characters as fit, as one line |
| PyLoggers.Room | src/mds/adsl/PyPredictor.cc:65-75 | the part of the message's first line that completes a buffered text is the whole line or as much as fills `FLUSH_SIZE` |
| PyLoggers.FedCompletes | src/mds/adsl/PyPredictor.cc:69-86 | with text buffered, a first line that fits and ends the message is only buffered; otherwise the completed text is one log line and the rest, after the break that ended the line if it was reached, is written as with an empty buffer |
| PyLoggers.FedWithoutBreak | src/mds/adsl/PyPredictor.cc:69-85 | a message without a line break that fits beside the buffered text is only appended to the buffer |
| PyLoggers.LastPiece | src/mds/adsl/PyPredictor.cc:88-93 | what is left of a line after its `FLUSH_SIZE` pieces is at most `FLUSH_SIZE` characters, and is not empty for a non-empty line |
| PyLoggers.PieceAhead | src/mds/adsl/PyPredictor.cc:88-93 | a line longer than `FLUSH_SIZE` gives up its next `FLUSH_SIZE` characters as one log line, and the rest of the line follows |
| PyLoggers.LineEnds | src/mds/adsl/PyPredictor.cc:94-99 | a line of at most `FLUSH_SIZE` characters ended by a break is logged as it is, the break is dropped and the text after the break follows |
| PyLoggers.LinesBreakEndsLine | src/mds/adsl/PyPredictor.cc:94-99 | any text without a break of at most `FLUSH_SIZE` characters followed by a break is logged as one line |
| PyLoggers.LastLineHeld | src/mds/adsl/PyPredictor.cc:100-103 | a last line without a break, at most `FLUSH_SIZE` characters, is held in the buffer as it is and nothing is logged |
| PyLoggers.LineStep | src/mds/adsl/PyPredictor.cc:94-99 | logging a line ended by a break leaves exactly the lines of the text after the break to be logged |
| PyLoggers.RoundLines | src/mds/adsl/PyPredictor.cc:87-104 | one round of the main loop logs the pieces and the line in the order `Lines` gives them, or holds the last line |
| PyLoggers.LinesText | src/mds/adsl/PyPredictor.cc:87-105 | nothing is lost or added by the main loop: its log lines joined, then the held text, are the text without its line breaks |
| PyLoggers.LinesShort | src/mds/adsl/PyPredictor.cc:87-105 | every line the main loop logs, and the text it holds, has at most `FLUSH_SIZE` characters and no line break |
| PyLoggers.FedText | src/mds/adsl/PyPredictor.cc:63-106 | the buffered text followed by the message without its breaks is exactly the lines `_write` logs, joined, then what it holds |
| PyLoggers.FedShort | src/mds/adsl/PyPredictor.cc:63-106 | every line `_write` logs, and what it holds, has at most `FLUSH_SIZE` characters |
| PyLoggers.PyLogger.CompleteBuffered | src/mds/adsl/PyPredictor.cc:69-86 | the first block of `_write`: the message ends inside the buffered text exactly when its first line fits; otherwise the buffered text plus that part of the line is logged as one line, and the message goes on after it, past the break when the line was whole |
| PyLoggers.PyLogger.WritePieces | src/mds/adsl/PyPredictor.cc:88-93 | the pieces of a line longer than the buffer are logged in the order `Lines` gives them, and what is left of the line is `LastPiece` of it |
| PyLoggers.PyLogger.WriteLine | src/mds/adsl/PyPredictor.cc:94-104 | after the pieces: a line ended by a break is logged as the one line `m[p0..p - 1]` and the break skipped; a last line without a break, `m[p0..]`, is left in the buffer and nothing is logged |
| PyLoggers.PyLogger.WriteRound | src/mds/adsl/PyPredictor.cc:87-104 | one round of the main loop keeps the log plus the lines still to come equal to the log plus all lines `Lines` gives for the text, or ends with all of them logged and the last line held |
| PyLoggers.PyLogger.WriteLines | src/mds/adsl/PyPredictor.cc:87-105 | the main loop, with the buffer empty, logs exactly the lines `Lines` gives for the rest of the message and holds its last line |
| PyLoggers.PyLogger.Write | src/mds/adsl/PyPredictor.cc:63-106 | `_write(m)` logs exactly the lines `Fed` gives for the buffered text and `m`, breaking at each line break and cutting lines longer than the buffer into `FLUSH_SIZE` pieces, and holds the last line without a break; the log followed by the buffer is the text before plus `m` without its breaks; a message without a break that fits beside the buffered text is only buffered |
| MatrixFitters.Ones | src/mds/adsl/MatrixFitter.cc:111-113 | the filler is `n` entries, all of them one |
| MatrixFitters.ChunkCursor.constructor | src/mds/adsl/MatrixFitter.cc:55 | the shared chunk cursor starts at 0 |
| MatrixFitters.ChunkCursor.ResetSeq | src/mds/adsl/MatrixFitter.h:22 | `reset_seq()` moves the cursor back to 0 |
| MatrixFitters.DataChunk.Size | src/mds/adsl/MatrixFitter.h:42 | `size()` is `second - first` reduced to an unsigned 64-bit value, equal to the difference when that is in range |
| MatrixFitters.DataChunk.constructor | src/mds/adsl/MatrixFitter.h:27-28 | an empty chunk starts and ends at the cursor, size 0 |
| MatrixFitters.DataChunk.Set | src/mds/adsl/MatrixFitter.h:36-40 | `set` stores the data and scale, the chunk ends `width` after its start, and the cursor moves there |
| MatrixFitters.ChunkShape | src/mds/adsl/MatrixFitter.cc:94-142 | every chunk is 2258 rows of 48 values: real rows end with their last epochs after filler ones, the remaining rows are filler |
| MatrixFitters.FitWidthsCover | src/mds/adsl/MatrixFitter.cc:74-78 | from a row cursor, successive fits succeed ceil(rows left / 2258) times with widths between 1 and 2258 that add up to the rows left |
| MatrixFitters.TorchMatrixFitter.constructor | src/mds/adsl/MatrixFitter.cc:57-70 | the cursor starts at row 0 and the column window is the last 48 epochs, or all of them when there are fewer |
| MatrixFitters.TorchMatrixFitter.Fit | src/mds/adsl/MatrixFitter.cc:72-191 | `fit` fails with nothing changed once the rows are used; otherwise it fills the chunk with the next at most 2258 padded rows, scale 47990, and advances the cursor by exactly the chunk's width |
| MatrixFitters.TorchMatrixFitter.Reset | src/mds/adsl/MatrixFitter.cc:230-233 | `reset()` returns the cursor to the first row |
| MatrixFitters.TorchMatrixFitter.PlaceResult | src/mds/adsl/MatrixFitter.h:60-77 | `place_result` appends the first `size()` values of the result exactly when the predicted load ends where the chunk starts, and otherwise changes nothing |
| CMiners.Count | src/mds/adsl/CMiner.cc:130 | an item occurs at most as often as the sequence is long |
| CMiners.CountPositive | src/mds/adsl/CMiner.cc:130-134 | an item has a positive count exactly when it occurs |
| CMiners.SegmentsFlatten | src/mds/adsl/CMiner.cc:76-92 | the windows concatenate back to the recorded accesses, in order |
| CMiners.SegmentsShape | src/mds/adsl/CMiner.cc:76-92 | no window is empty; with a positive window size every window holds at most that many accesses and all but the last exactly that many; otherwise there is at most one window |
| CMiners.Segment | src/mds/adsl/CMiner.cc:76-92 | step 1 cuts the accesses into exactly the windows `Segments` describes |
| CMiners.DeltaAt | src/mds/adsl/CMiner.cc:105-116 | the delta at position `j` has `max_gap` items cut at the window's end, and starts with the item at `j` |
| CMiners.SegDeltasCount | src/mds/adsl/CMiner.cc:105-116 | a header gets one delta from a window per occurrence in it |
| CMiners.DeltaListCount | src/mds/adsl/CMiner.cc:101-117 | a header gets one delta per occurrence over all windows |
| CMiners.ItemFreqIsCount | src/mds/adsl/CMiner.cc:99-130 | a header's `item_freq` is its number of occurrences in the input, and it has deltas exactly when it occurs |
| CMiners.FiledGet | src/mds/adsl/CMiner.cc:115 | filing a window's deltas appends to each header's list exactly that header's deltas from the window |
| CMiners.AddSegment | src/mds/adsl/CMiner.cc:103-116 | after one window the delta map is the filed map, every listed header has a delta, and the header list names exactly the map's keys |
| CMiners.BuildDeltas | src/mds/adsl/CMiner.cc:99-117 | step 2: a header is a key exactly when it has deltas, its list is all its deltas window by window, and the header list names exactly the keys |
| CMiners.Appear | src/mds/adsl/CMiner.cc:138 | an item appears in at most as many deltas as there are |
| CMiners.CorrFreqPositive | src/mds/adsl/CMiner.cc:146-158 | an item has a positive co-occurrence count exactly when it is not the header and occurs in a delta, and then it appears in at least one delta |
| CMiners.RuleBounds | src/mds/adsl/CMiner.cc:173-188 | every rule has a tail other than the header with at least `min_support` co-occurrences, appears at least once, and has confidence above `min_confidence` and at most 1 |
| CMiners.CountList | src/mds/adsl/CMiner.cc:141-170 | one delta adds each non-header item's occurrences to its count and at most one to its appearance count |
| CMiners.CountLists | src/mds/adsl/CMiner.cc:137-171 | the counts over all deltas are the co-occurrence and appearance counts of the specification |
| CMiners.SelectRules | src/mds/adsl/CMiner.cc:173-188 | a tail gets a rule exactly when its count reaches `min_support` and its confidence exceeds `min_confidence`; the rule holds its appearance count and `appear / item_freq` |
| CMiners.MineHeader | src/mds/adsl/CMiner.cc:129-189 | step 3 for one header yields exactly the rule set the specification derives from its deltas |
| CMiners.HeaderKept | src/mds/adsl/CMiner.cc:129-135 | a header gets a rule set exactly when it occurred at least `min_support` times |
| CMiners.PushedBound | src/mds/adsl/CMiner.cc:192-195 | the history never exceeds `max_epoch` rule sets, the newest is last, and only the oldest is dropped |
| CMiners.CMiner.constructor | src/mds/adsl/CMiner.cc:20-33 | the miner keeps its parameters and starts with no accesses and no history |
| CMiners.CMiner.Hit | src/mds/adsl/CMiner.cc:39-47 | `hit` appends the access and leaves the history alone |
| CMiners.CMiner.Process | src/mds/adsl/CMiner.cc:57-195 | `process` consumes all recorded accesses and appends the rules mined from them to the bounded history |
| LoadInjectors.ValueBound | src/test/adsl/mds/verify.cc:55-57 | a run of `n` digits accumulates to less than `10^n` |
| LoadInjectors.LeadingDigits | src/test/adsl/mds/verify.cc:53-57 | a string starts with at most as many digits as it has characters |
| LoadInjectors.Values | src/test/adsl/mds/verify.cc:56-61 | one value per digit run, each the run's decimal value |
| LoadInjectors.LeadingDigitsAppend | src/test/adsl/mds/verify.cc:53-57 | the digits a concatenation starts with are the first part's, continued into the second only when the first is all digits |
| LoadInjectors.RunsAllDigits | src/test/adsl/mds/verify.cc:55-57 | a non-empty string of digits is a single run |
| LoadInjectors.SeparatorSplits | src/test/adsl/mds/verify.cc:58-64 | every non-digit, `-` and `.` included, separates: the runs around it are the runs of each side, so no negative or fractional value is produced |
| LoadInjectors.OpenRun | src/test/adsl/mds/verify.cc:52-57 | the run the scan still has open consists of digits at the end of the scanned text, preceded by a separator when it does not fill it |
| LoadInjectors.OpenRunIsSuffix | src/test/adsl/mds/verify.cc:52-57 | the open run is exactly the end of the scanned text |
| LoadInjectors.ClosedAtSeparator | src/test/adsl/mds/verify.cc:58-63 | text ending in a separator has every run closed |
| LoadInjectors.RunsBeforeDigits | src/test/adsl/mds/verify.cc:55-64 | digits after a separator make one more run |
| LoadInjectors.RunsSplitOpen | src/test/adsl/mds/verify.cc:53-67 | the runs of the text are those the scan closed, then the open run if there is one |
| LoadInjectors.ScanStep | src/test/adsl/mds/verify.cc:54-66 | a digit extends the open run and closes nothing; a separator closes the open run and leaves none open |
| LoadInjectors.SplitLine | src/test/adsl/mds/verify.cc:45-69 | `split_line(null, _)` is empty; otherwise the result is the values of the digit runs closed by scanning positions `0..len` inclusive, in order, all below 10^9 when no run exceeds 9 digits |
| LoadInjectors.ClosedValuesBound | src/test/adsl/mds/verify.cc:56 | with runs of at most 9 digits no value overflows an `int` |
| LoadInjectors.ValuesSnoc | src/test/adsl/mds/verify.cc:61 | closing one more run appends its value |
| LoadInjectors.Pow10Mono | src/test/adsl/mds/verify.cc:56 | powers of ten grow with the exponent |
| LoadInjectors.EpochLoadIsLine | src/test/adsl/mds/verify.cc:86-88 | scanning up to and including the terminator after `nread` bytes yields the values of the line's own digit runs, whatever the buffer holds after it |
| LoadInjectors.PytorchStaleBytes | src/test/adsl/mds/pytorch/verify.cc:79-81 | passing the buffer capacity makes a stale digit after the terminator a value: the line "5" is read as [5, 7] |
| LoadInjectors.ShiftAll | src/test/adsl/mds/verify.cc:103-107 | every directory's history moves on one epoch with its value from the line entering |
| LoadInjectors.ReadLine | src/test/adsl/mds/verify.cc:81-113 | at the end of the trace nothing changes and the result is false; otherwise every history is shifted by the line's value for it |
| LoadInjectors.ReadLinePytorch | src/test/adsl/mds/pytorch/verify.cc:76-102 | as `ReadLine`, but with the values scanned over the whole buffer capacity and the byte beyond it |
| Multimaps.Insert | src/mds/MDBalancer.cc:1428 | `multimap::insert` adds exactly the one entry and keeps the keys in order |
| Multimaps.UpperBound | src/mds/MDBalancer.cc:1428 | the insertion point lies within the multimap |
| Multimaps.InsertLast | src/mds/MDBalancer.cc:1152 | an entry whose key is at least every key present is appended |
| Multimaps.Build | src/mds/MDBalancer.cc:1392-1430 | the multimap filled by successive inserts is sorted and holds exactly the inserted entries |
| Multimaps.Values | src/mds/MDBalancer.cc:1564-1566 | iterating yields the values in entry order |
| Multimaps.Reversed | src/mds/MDBalancer.cc:1564 | iterating from `rbegin()` visits the entries last to first |
| Multimaps.MemberOfBuild | src/mds/MDBalancer.cc:1428 | an entry is in the multimap exactly when it was inserted |
| Multimaps.InsertAtUpperBound | src/mds/MDBalancer.cc:1428 | `insert` places the entry at the upper bound of its key |
| Multimaps.UpperBoundSplitsKeys | src/mds/MDBalancer.cc:1718-1729 | entries before the upper bound of `k` have keys at most `k`, the rest larger: ties keep insertion order |
| DirTrees.Path | src/mds/MDBalancer.cc:2212-2218 | the walk through `get_parent_dir()` starts at the fragment and only reaches earlier fragments |
| DirTrees.PathSet | src/mds/MDBalancer.cc:2235-2264 | the fragments from `d` to the root include `d` |
| DirTrees.Ancestors | src/mds/MDBalancer.cc:2212-2218 | the strict ancestors never include the fragment itself |
| DirTrees.PathSetIsPath | src/mds/MDBalancer.cc:2090-2115 | the sets walked are exactly the elements of the walks |
| DirTrees.DomainPath | src/mds/MDBalancer.cc:2096-2106 | the auth-domain walk starts at the hit fragment |
| DirTrees.DomainPathIsPrefix | src/mds/MDBalancer.cc:2096-2106 | the auth domain is a prefix of the path to the root |
| DirTrees.DomainPathStopsAtSubtreeRoot | src/mds/MDBalancer.cc:2102-2103 | the auth-counter walk stops at the first subtree root and at no fragment before it |
| DirTrees.HitOn | src/mds/MDBalancer.cc:2092-2109 | hitting a set of counters keeps every counter a five-slot vector |
| DirTrees.HitOnSnoc | src/mds/MDBalancer.cc:2092 | hitting one more fragment changes only that fragment's counter |
| DirTrees.AddOnSnoc | src/mds/MDBalancer.cc:2230-2231 | adding to one more fragment changes only its counter |
| DirTrees.SubOnSnoc | src/mds/MDBalancer.cc:2216-2217 | subtracting from one more fragment changes only its counter |
| DirTrees.MoveOnSnoc | src/mds/MDBalancer.cc:2241-2257 | moving one more fragment changes only its counter |
| DirTrees.AddOnUndoesSubOn | src/mds/MDBalancer.cc:2208-2233 | `add_import` after `subtract_export` of the same load restores every counter |
| DirTrees.SubOnUndoesAddOn | src/mds/MDBalancer.cc:2208-2233 | `subtract_export` after `add_import` of the same load restores every counter |
| DirTrees.MoveOnUndone | src/mds/MDBalancer.cc:2235-2264 | `adjust_pop_for_rename` with `inc` false after true (or the reverse) restores every counter |
| DirTrees.MoveOnKeepsSource | src/mds/MDBalancer.cc:2235-2264 | the rename walk leaves the moved fragment's own counters alone |
| DirTrees.DirTree.constructor | src/mds/MDBalancer.cc:2014-2017 | a fresh cache has all counters at zero |
| DirTrees.DirTree.HitStep | src/mds/MDBalancer.cc:2090-2115 | one step of the `hit_dir` walk hits `pop_nested`, and the auth counters still being walked, of the current fragment only |
| DirTrees.DirTree.HitDir | src/mds/MDBalancer.cc:2014-2115 | `hit_dir` hits the fragment's own counter, every `pop_nested` up to the root, and, when auth, `pop_auth_subtree` up to the first subtree root and `pop_auth_subtree_nested` up to the root; the result is the fragment's own counter |
| DirTrees.DirTree.SubtractExport | src/mds/MDBalancer.cc:2208-2219 | `subtract_export` subtracts the fragment's auth-subtree load from both nested counters of every strict ancestor and changes nothing else |
| DirTrees.DirTree.AddImport | src/mds/MDBalancer.cc:2222-2233 | `add_import` adds the fragment's auth-subtree load to both nested counters of every strict ancestor and changes nothing else |
| DirTrees.DirTree.RenameStep | src/mds/MDBalancer.cc:2241-2262 | one step of the rename walk moves the loads into or out of the current parent only |
| DirTrees.DirTree.AdjustPopForRename | src/mds/MDBalancer.cc:2235-2265 | `adjust_pop_for_rename` moves the fragment's nested load through every fragment from `pdir` to the root, its auth-subtree load up to the first subtree root when auth and not a subtree root, and its auth nested load up to the root when auth |
| BalancePlans.Keys | src/mds/MDBalancer.cc:1210-1212 | iterating a rank-keyed map yields its ranks in entry order |
| BalancePlans.RanksCons | src/mds/MDBalancer.cc:509-516 | the ranks of a map with one more head entry are that rank and the rest's |
| BalancePlans.AddLoad | src/mds/MDBalancer.cc:515 | `import_map[from] += load` leaves the map non-empty, headed by `from` or by the old head |
| BalancePlans.AddLoadRanks | src/mds/MDBalancer.cc:515 | `import_map[from] += load` creates an entry for `from` and no other |
| BalancePlans.OrderedCons | src/mds/MDBalancer.cc:509 | a smaller rank at the head keeps a rank-keyed map in ascending order |
| BalancePlans.AddLoadOrdered | src/mds/MDBalancer.cc:515 | the map stays in ascending rank order after an addition |
| BalancePlans.LookupBelowFirst | src/mds/MDBalancer.cc:515 | a rank below the smallest key has no entry and reads as 0 |
| BalancePlans.AddLoadLookup | src/mds/MDBalancer.cc:515 | an addition moves only that rank's entry, by exactly the amount added |
| BalancePlans.LoadEntries | src/mds/MDBalancer.cc:1076-1094 | every rank is keyed by its own scaled load, in rank order |
| BalancePlans.StampEpoch | src/mds/MDBalancer.cc:1107-1118 | walking the load map stamps a rank with the current epoch exactly when one of its entries is underloaded or barely overloaded; every other rank keeps its epoch |
| BalancePlans.StampLoadMap | src/mds/MDBalancer.cc:1107-1118 | after the walk a rank of the cluster carries the current epoch exactly when its scaled load is below `target * (1 + mds_bal_min_rebalance)` |
| BalancePlans.HeadFacts | src/mds/MDBalancer.cc:1144-1146 | the head of a sorted multimap has the least key |
| BalancePlans.Below | src/mds/MDBalancer.cc:1147-1153 | the importers are exactly the entries below the target load, still in key order |
| BalancePlans.AboveFree | src/mds/MDBalancer.cc:1154-1163 | the exporters are exactly the entries at or above the target load whose rank was not under target less than two epochs ago, still in key order |
| BalancePlans.BelowSnoc | src/mds/MDBalancer.cc:1147-1153 | one more entry joins the importers exactly when it is below the target |
| BalancePlans.AboveFreeSnoc | src/mds/MDBalancer.cc:1154-1163 | one more entry joins the exporters exactly when it is at or above the target and not held back |
| BalancePlans.Partition | src/mds/MDBalancer.cc:1139-1165 | the split of the load map yields exactly those importers and exporters, each a sorted multimap |
| BalancePlans.SortedPrefix | src/mds/MDBalancer.cc:1144-1146 | the entries walked so far are sorted and no larger than the next one |
| BalancePlans.LastBelow | src/mds/MDBalancer.cc:1152 | appending the next entry of the walk to a selection keeps it sorted |
| BalancePlans.PartitionStepBelow | src/mds/MDBalancer.cc:1147-1153 | an importer taken from the sorted walk is inserted last |
| BalancePlans.PartitionStepAbove | src/mds/MDBalancer.cc:1154-1163 | an exporter taken from the sorted walk is inserted last |
| BalancePlans.InLoadMap | src/mds/MDBalancer.cc:1093 | an entry of the load map is a rank of the cluster keyed by its own scaled load |
| BalancePlans.ImportersExactly | src/mds/MDBalancer.cc:1147-1153 | a rank is an importer exactly when its scaled load is below the target |
| BalancePlans.ExportersExactly | src/mds/MDBalancer.cc:1154-1163 | a rank is an exporter exactly when it is at or above the target and not held back by a recent under-target epoch |
| BalancePlans.MatchWithin | src/mds/MDBalancer.cc:895-910 | one match no larger than both margins keeps the plan within every rank's surplus and deficit |
| BalancePlans.GetGrows | src/mds/MDBalancer.cc:902-905 | plan entries only grow |
| BalancePlans.Bumped | src/mds/MDBalancer.cc:902-905 | adding a positive amount keeps every entry and lowers none |
| BalancePlans.BalanceState.constructor | src/mds/MDBalancer.cc:1035 | a round starts with an empty plan |
| BalancePlans.BalanceState.Transfer | src/mds/MDBalancer.cc:901-905 | the exporter's `exported` and the importer's `imported` grow by the amount, and `targets[im]` too when the exporter is the local rank; the plan stays within the margins |
| BalancePlans.BalanceState.TryMatch | src/mds/MDBalancer.cc:889-915 | nothing changes when either margin is not positive; otherwise exactly the smaller margin moves, and afterwards both margins are non-negative and one is zero |
| BalancePlans.BalanceState.MatchImportSources | src/mds/MDBalancer.cc:1199-1218 | the first pass keeps the plan within the margins and only ever makes listed exporters export |
| BalancePlans.BalanceState.MatchStep | src/mds/MDBalancer.cc:1227-1241 | one round of the second pass advances at least one side, and every rank passed over is saturated |
| BalancePlans.BalanceState.MatchInOrder | src/mds/MDBalancer.cc:1222-1256 | the second pass stops with every rank passed over saturated and, unless a side ran out, the current pair below the epsilon; only listed exporters export |
| IfCascades.ByFactorCons | src/mds/MDBalancer.cc:708 | a summary with a factor at least the head's keeps summaries ordered by `sortImporter` |
| IfCascades.InsertByFactor | src/mds/MDBalancer.cc:708 | inserting adds exactly that summary and keeps the order by factor |
| IfCascades.SortByFactor | src/mds/MDBalancer.cc:708 | the sorted summaries are a permutation of the input, by non-increasing factor |
| IfCascades.SortSummaries | src/mds/MDBalancer.cc:708 | `std::sort(begin() + 1, end(), sortImporter)` keeps the first summary first and sorts the rest, a permutation, by factor |
| IfCascades.SomeRankNotAboveMean | src/mds/MDBalancer.cc:646 | some rank's IOPS are at most the mean |
| IfCascades.BuildSummaries | src/mds/MDBalancer.cc:656-677 | the `i`-th summary is rank `i`'s factor and urgency, marked bigger exactly when its IOPS are above the mean |
| IfCascades.ArgMax | src/mds/MDBalancer.cc:647 | `max_element` points at the first largest value |
| IfCascades.ArgMin | src/mds/MDBalancer.cc:654 | `min_element` points at the first smallest value |
| IfCascades.MaxPosAsWritten | src/mds/MDBalancer.cc:653 | `begin() - max_element(...)` is the negated position of the largest IOPS |
| IfCascades.MinPosAsWritten | src/mds/MDBalancer.cc:654 | `begin() - min_element(...)` is the negated position of the smallest IOPS |
| IfCascades.MaxPos | src/mds/MDBalancer.cc:653 | the intended `max_pos` is a rank with the largest IOPS, the first on a tie |
| IfCascades.MinPos | src/mds/MDBalancer.cc:654 | the intended `min_pos` is a rank with the smallest IOPS, the first on a tie |
| IfCascades.MaxPosAsWrittenMissesBusiest | src/mds/MDBalancer.cc:653 | as written `max_pos` matches the busiest rank exactly when that is rank 0, and is otherwise negative |
| IfCascades.PositionsCounterexample | src/mds/MDBalancer.cc:653-654 | for IOPS 100, 50, 400 the busiest rank is 2 and the idlest 1, but the code computes -2 and -1 |
| IfCascades.Share | src/mds/MDBalancer.cc:712-736 | every decision's share of the load is positive |
| IfCascades.DecidedSkip | src/mds/MDBalancer.cc:719-720 | a summary that is not eligible adds no decision |
| IfCascades.DecidedPick | src/mds/MDBalancer.cc:720-736 | an eligible summary met while the share is above the threshold gets the next decision |
| IfCascades.Decide | src/mds/MDBalancer.cc:743-763 | the handler returns early exactly when the exporter's IOPS are at most 1 and some summary is eligible; otherwise at most three decisions go to the eligible summaries in order, the `j`-th with share `LUNULE_MIG_AMOUNT / 2^j` of the relative IOPS gap, every share after the first above the threshold, and the walk stops only when a limit is reached |
| IfCascades.DecideAsWritten | src/mds/MDBalancer.cc:714-738 | the exporter read at sorted position `p` returns early exactly when its IOPS are at most 1 and some importer is eligible; otherwise it makes at most 3 decisions, each taking its share of rank `p`'s IOPS and load |
| IfCascades.DecidedMoves | src/mds/MDBalancer.cc:714-738 | decisions made for a rank above the mean move load from it to at most three other ranks at or below the mean, the `j`-th with share `Share(j)` of the IOPS gap measured against rank `base`, applied to rank `base`'s load |
| IfCascades.CascadeSkip | src/mds/MDBalancer.cc:710-715 | rank 0, and a rank that need not export, get no ifbeat |
| IfCascades.CascadePick | src/mds/MDBalancer.cc:715-739 | an up rank other than 0 that must export gets the next ifbeat |
| IfCascades.ExporterCascade | src/mds/MDBalancer.cc:705-741 | corrected loop: each up rank other than 0 is judged by its own summary; every ifbeat goes to such a rank that must export and moves load from it, the share taken of its own IOPS and load (`Moves`); without an early return every such rank gets one |
| IfCascades.ExporterCascadeAsWritten | src/mds/MDBalancer.cc:705-741 | the loop as written: for up rank `p` it judges the summary at sorted position `p` and sends to that summary's rank, the share taken of rank `p`'s IOPS and load (`bases`); without an early return every up position whose summary must export gets one, and it returns early only at such a summary whose rank's IOPS are at most 1 while some summary is eligible (`Stuck`) |
| IfCascades.IndexingCounterexample | src/mds/MDBalancer.cc:715-730 | with IOPS 100, 50, 400 up rank 1 reads rank 2's summary, and as written rank 2's first share is -25% where its own IOPS give 18.75% |
| IfCascades.Stats | src/mds/MDBalancer.cc:645-694 | every rank gets a factor and an urgency |
| IfCascades.SumSquaresAtMean | src/mds/MDBalancer.cc:661 | IOPS all at the mean deviate by nothing |
| IfCascades.UniformIopsBalanced | src/mds/MDBalancer.cc:645-702 | equal IOPS on every rank give every rank factor 0 and an imbalance factor of 0, so no round starts for a positive threshold |
| IfCascades.ImbalancedBusiestAboveMean | src/mds/MDBalancer.cc:685-702 | an imbalance factor reaching a positive threshold needs the busiest rank above the mean |
| IfCascades.SortedRanks | src/mds/MDBalancer.cc:708 | after the sort the first summary is still rank 0's, no later one is, and each still names a rank with its own bigger mark |
| IfCascades.IfRound | src/mds/MDBalancer.cc:604-777 | the corrected round (busiest and idlest ranks for `max_pos`/`min_pos`, own summaries and own shares): every ifbeat moves load from a rank above the mean to ranks at or below it, rank 0 decides for itself exactly when it must export, and the export queue is cleared exactly with such decisions when the urgency exceeds 0.1 in an even epoch |
| IfCascades.TiesKeepOrder | src/mds/MDBalancer.cc:708 | two summaries with equal factors keep the order they came in |
| IfCascades.SortedFactors | src/mds/MDBalancer.cc:656-708 | after the sort every summary still carries its own rank's factor |
| IfCascades.SentAboveThreshold | src/mds/MDBalancer.cc:710-715 | with `max_pos` at most 0, every rank an ifbeat goes to from a sorted position other than 0 is not rank 0 and has a factor above the shared threshold |
| IfCascades.IfRoundAsWritten | src/mds/MDBalancer.cc:604-777 | the round as the handler has it: the factor gate as in `IfRound`; every ifbeat goes to a rank other than 0 whose factor is above the shared threshold, moving load from it with the share of its `bases` rank; rank 0's own decisions and the queue clear as in `IfRound` |
| IfCascades.OwnDecisions | src/mds/MDBalancer.cc:744-763 | rank 0's own decisions: the handler returns early exactly when rank 0's IOPS are at most 1 and some summary is eligible; otherwise the decisions move load from rank 0 to ranks at or below the mean (`Moves`) |
| IfCascades.CascadeAsWrittenSent | src/mds/MDBalancer.cc:708-741 | every ifbeat of the loop as written goes to a rank other than 0 whose factor is above the shared threshold, moving load from it with the share of its `bases` rank; an early return happens only at an exporter that is `Stuck` |
| IfCascades.ExportersAsWritten | src/mds/MDBalancer.cc:653-763 | once the factor is high: the ifbeats as in `CascadeAsWrittenSent`; rank 0 decides for itself exactly when the cascade did not return early, rank 0 is above the mean and it is the busiest rank or its factor is above the threshold, and its decisions then move load as `Moves` says |
| IfCascades.AsWrittenSoundWhenBasesAgree | src/mds/MDBalancer.cc:604-777 | a round as written whose every ifbeat takes its share of the receiver's own values is sound as the corrected round is |
| IfCascades.BusiestRankCounterexample | src/mds/MDBalancer.cc:653-715 | with IOPS 100, 50, 400 the busiest rank 2, factor 0.48 under a threshold of 0.5, is an exporter as intended but not as written |
| Fragments.FragmentQueues.constructor | src/mds/MDBalancer.cc:97-103 | the balancer starts with no split or merge pending and nothing queued |
| Fragments.FragmentQueues.QueueSplit | src/mds/MDBalancer.cc:917-967 | `queue_split` makes the fragment pending; a fast split always queues a waiter, a slow one sets a timer only when the fragment was not pending already |
| Fragments.FragmentQueues.SplitCallback | src/mds/MDBalancer.cc:924-947 | a split callback for a fragment no longer pending does nothing; otherwise the fragment stops being pending and is split only when it is cached and auth |
| Fragments.FragmentQueues.QueueMerge | src/mds/MDBalancer.cc:969-1031 | `queue_merge` makes the fragment pending and sets a timer only when it was not pending already |
| Fragments.FragmentQueues.MergeCallback | src/mds/MDBalancer.cc:972-1021 | a merge callback always finds its fragment pending and not the whole directory, removes it, and merges it up to the sibling walk's result only when it is cached, auth and the walk moved |
| Fragments.FragmentQueues.MaybeFragment | src/mds/MDBalancer.cc:1927-1958 | `maybe_fragment` queues a slow split for a new hot or oversized fragment, a fast one for a pending fragment over the fast limit, and a merge for an undersized non-root fragment not pending, all only for an auth, non-base, non-stray fragment when fragmentation is on |
| Fragments.FragmentQueues.DynamicallyFragment | src/mds/MDBalancer.cc:1814-1857 | `dynamically_fragment` passes the fragment to `maybe_fragment` as hot exactly when the amount exceeds 0.1, it is auth and not stray, it carries over 60% of the amount and its subdirectories at most half its load; otherwise nothing changes |
| Balancers.PopLoad | src/mds/MDBalancer.cc:276-295 | `mds_pop_load` is defined exactly for balancer modes 0, 1 and 2 and aborts for any other |
| Balancers.PopLoadModes | src/mds/MDBalancer.cc:276-295 | mode 0 is mode 1 plus `0.8` auth and `0.2` whole metadata load; one more queued request weighs as ten requests a second; mode 2 reads only the CPU load |
| Balancers.ImportMapOfMeans | src/mds/MDBalancer.cc:509-516 | the import map has an entry for exactly the ranks the local rank imported a non-stray subtree from, each holding the load imported from it, in rank order |
| Balancers.CollectImports | src/mds/MDBalancer.cc:509-517 | the import-map loop builds exactly that map |
| Balancers.HeartbeatsReachOthers | src/mds/MDBalancer.cc:552-561 | every heartbeat goes to an up rank other than the sender, and every such rank gets one |
| Balancers.HeartbeatsCount | src/mds/MDBalancer.cc:552-561 | one heartbeat per up rank other than the sender |
| Balancers.Broadcast | src/mds/MDBalancer.cc:552-561 | the send loop emits exactly those heartbeats, in rank order |
| Balancers.LoadFactor | src/mds/MDBalancer.cc:1054-1067 | `load_fac` turns the local rank's whole load into its auth load when it has reported a positive load, and is 1 otherwise |
| Balancers.MetaSeq | src/mds/MDBalancer.cc:1076-1080 | rank `i`'s scaled load is its `calc_mds_load` times the load factor |
| Balancers.MetaMap | src/mds/MDBalancer.cc:1080 | `mds_meta_load` has an entry for exactly the ranks scaled, each its scaled load |
| Balancers.LoadMapSnoc | src/mds/MDBalancer.cc:1093 | the load map grows by the next rank's entry, inserted after its ties |
| Balancers.SumSnoc | src/mds/MDBalancer.cc:1091 | the total grows by the next scaled load |
| Balancers.ScaleLoads | src/mds/MDBalancer.cc:1071-1094 | the scaling loop passes the ranks in order, stops with `mds_load.at` failing at the first rank that has not reported, and leaves the total and the load map of exactly the ranks it passed |
| Balancers.StampUnder | src/mds/MDBalancer.cc:1107-1118 | the "under or over?" loop stamps exactly the ranks `Stamp` says |
| Balancers.ThrashTargets | src/mds/MDBalancer.cc:1037-1043 | under `mds_thrash_exports` every up rank, and no other, is a target of 0 |
| Balancers.ImportSources | src/mds/MDBalancer.cc:1210-1212 | the import sources of an exporter are the ranks of its reported import map, ascending |
| Balancers.InReversedValues | src/mds/MDBalancer.cc:1199-1201 | walking exporters from `rbegin()` visits the same ranks |
| Balancers.IntendedScores | src/mds/MDBalancer.cc:2365-2390 | the intended score of a reported rank is its own `mds_pop_load` under the balancer mode |
| Balancers.UniformLoadsPlanNothing | src/mds/MDBalancer.cc:1139-1256 | with the same scaled load on every rank a plan within the margins moves nothing |
| Balancers.AsWrittenPlansNothing | src/mds/MDBalancer.cc:2365-2390 | under `calc_mds_load` as written every rank scores the same, so `prep_rebalance` never plans a move |
| Balancers.AsWrittenIgnoresReports | src/mds/MDBalancer.cc:2365-2390 | a busy and an idle rank score the same under `calc_mds_load` as written |
| Balancers.SpreadLoadsStraddleTarget | src/mds/MDBalancer.cc:1097-1165 | when scaled loads differ some rank is below the target load and some above it |
| Balancers.IntendedSeesSpread | src/mds/MDBalancer.cc:276-295 | under the intended scores the busy and the idle rank score apart, so the target falls strictly between them |
| Balancers.IopsOf | src/mds/MDBalancer.cc:611-627 | `IOPSvector` has one entry per rank in |
| Balancers.Recorded | src/mds/MDBalancer.cc:628 | after a round `old_req` holds every rank's current request count and keeps other entries |
| Balancers.CollectIops | src/mds/MDBalancer.cc:613-640 | the IOPS loop yields the rank-by-rank IOPS and the replaced request counts |
| Balancers.RepeatedReportsIdle | src/mds/MDBalancer.cc:622-628 | a second round over the same reports sees 0 IOPS on every rank |
| Balancers.AuthLoads | src/mds/MDBalancer.cc:630 | `load_vector[i]` is rank `i`'s `calc_mds_load(load, true)` |
| Balancers.DecideRound | src/mds/MDBalancer.cc:604-777 | rank 0's round on complete reports updates `old_req` and decides soundly on the IOPS and auth loads |
| Balancers.CascadeEventsSound | src/mds/MDBalancer.cc:428-462 | the cascade's ifbeats carry the round's factor and epoch to up ranks other than 0, each moving load from its receiver to ranks at or below the mean |
| Balancers.HitDir | src/mds/MDBalancer.cc:2014-2025 | `hit_dir` takes the hit on the counters and calls `maybe_fragment`, hot exactly when the fragment's own counter exceeds the split threshold of its kind |
| Balancers.Balancer.constructor | src/mds/MDBalancer.cc:97-102 | a fresh balancer: epoch 0, no reports, loads 0 and `mds_bal_max` rounds to go |
| Balancers.Balancer.SendHeartbeat | src/mds/MDBalancer.cc:464-566 | `send_heartbeat` does nothing while degraded, retries when the cache is closed, and otherwise (rank 0 opening a new epoch) reports its load and sends the heartbeat with its import map to every other up rank |
| Balancers.Balancer.SendIfBeat | src/mds/MDBalancer.cc:428-462 | `send_ifbeat` sends only while the cluster is whole, the cache open and the target up |
| Balancers.Balancer.Tick | src/mds/MDBalancer.cc:213-249 | `tick` renews the sample time after the sample interval and starts a heartbeat round exactly when it is due; unless the uptime passed `mds_bal_max_until` at most `mds_bal_max` rounds are ever started |
| Balancers.Balancer.StartRound | src/mds/MDBalancer.cc:239-245 | a round records the time, sends the heartbeat and uses up one round |
| Balancers.Balancer.PlanTransfers | src/mds/MDBalancer.cc:1139-1256 | the matching passes keep within every rank's margin and only unheld ranks at or above the target export |
| Balancers.Balancer.Record | src/mds/MDBalancer.cc:1047-1094 | the rebalance time is taken, the export queue cleared, and the scaled loads become `mds_meta_load`, with the local rank's as its own load |
| Balancers.Balancer.SetTarget | src/mds/MDBalancer.cc:1097-1118 | the target load is the mean scaled load and the underloaded ranks are stamped with the epoch |
| Balancers.Balancer.Settle | src/mds/MDBalancer.cc:1097-1278 | from the target load on: an underloaded or recently underloaded local rank plans nothing, otherwise the plan is made and handed to `try_rebalance` |
| Balancers.Balancer.Balance | src/mds/MDBalancer.cc:1045-1278 | `prep_rebalance` past the thrash check balances the reported loads |
| Balancers.Balancer.PrepRebalance | src/mds/MDBalancer.cc:1033-1279 | under `mds_thrash_exports` every up rank is a target of nothing; otherwise the round balances the reported loads |
| Balancers.Balancer.FollowRankZero | src/mds/MDBalancer.cc:830-843 | a heartbeat from rank 0 opens its epoch, dropping reports of another, and the rank reports its load and sends rank 0 an imbalance factor of -1 with no decisions |
| Balancers.Balancer.TakeHeartbeat | src/mds/MDBalancer.cc:822-858 | rank 0 drops a heartbeat of another epoch; otherwise the sender's load and import map replace what it reported |
| Balancers.Balancer.HandleHeartbeat | src/mds/MDBalancer.cc:800-887 | nothing happens while inactive, degraded or with the cache closed; an accepted heartbeat is recorded and, in heartbeat mode with every rank reported, a plan is made unless mantle succeeds |
| Balancers.Balancer.RunIfRound | src/mds/MDBalancer.cc:604-620 | a missing rank fails the assertion; otherwise the round runs |
| Balancers.Balancer.GatherIfBeat | src/mds/MDBalancer.cc:591-604 | rank 0 drops an ifbeat of another epoch, records the sender's load unless it already reported, and runs the round once every rank has |
| Balancers.Balancer.HandleIfBeat | src/mds/MDBalancer.cc:569-798 | rank 0 gathers ifbeats and may run a round; any other rank carries out the decisions it was sent exactly when their factor reaches `mds_bal_ifthreshold` |
| Balancers.Balancer.HandleMdsFailure | src/mds/MDBalancer.cc:2267-2272 | when rank 0 fails every rank's under-target history is forgotten, and nothing else changes |
| ExportSearch.SumLoadsAppend | src/mds/MDBalancer.cc:1701 | the load of two batches of taken fragments is the sum of their loads |
| ExportSearch.Take | src/mds/MDBalancer.cc:1698-1701 | taking a fragment pushes it to `exports`, marks it as being exported and adds exactly its load to `have` |
| ExportSearch.ExtendsIdle | src/mds/MDBalancer.cc:1610-1612 | a call that takes nothing and keeps the clock is a valid search step |
| ExportSearch.ExtendsTrans | src/mds/MDBalancer.cc:1770-1810 | searches chain: one search after another is a search |
| ExportSearch.AccountedTrans | src/mds/MDBalancer.cc:1770-1810 | the fragments and loads of two chained searches add up |
| ExportSearch.ExtendsTake | src/mds/MDBalancer.cc:1698-1701 | taking a candidate after a search is a search |
| ExportSearch.WindowOf | src/mds/MDBalancer.cc:1610-1616 | the window is worked out from `need = amount - have` |
| ExportSearch.ScanOf | src/mds/MDBalancer.cc:1641-1737 | the scan of the children yields a lucky find or a sorted classification, as `SiftedWell` says |
| ExportSearch.ScanStepWell | src/mds/MDBalancer.cc:1653-1733 | one child keeps the scan sound: a lucky find is a candidate strictly inside `(needmin, needmax)`, a bigger child a candidate above `need` on the list its replication says, a smaller one a candidate at most `need` filed under its load |
| ExportSearch.InsertSmaller | src/mds/MDBalancer.cc:1718-1729 | filing a smaller child keeps `smaller` sorted with every entry a smaller candidate |
| ExportSearch.ScanFromWell | src/mds/MDBalancer.cc:1642-1737 | scanning the rest of the children keeps the scan sound |
| ExportSearch.ScanChildren | src/mds/MDBalancer.cc:1641-1737 | the scan loop yields exactly `ScanOf`: already exported, frozen, freezing and idle children passed over, the rest sorted into lucky, bigger and smaller, small ones kept by hash placement when `mds_bal_frag` is 0 |
| ExportSearch.FindExports | src/mds/MDBalancer.cc:1593-1811 | past the deadline `have` becomes `amount`; a non-auth fragment fails the assert; within `mds_bal_min_start` nothing happens; otherwise a lucky find or a smaller child reaching `midchunk` is taken and the call returns; every fragment taken is a candidate that was not being exported, is marked, and has its load counted |
| ExportSearch.Explore | src/mds/MDBalancer.cc:1641-1811 | past the early exits, a quick take is the whole result, otherwise the search goes on through the descents and takes |
| ExportSearch.Deepen | src/mds/MDBalancer.cc:1770-1811 | the descents into bigger unreplicated children, then the remaining stages, form a valid search |
| ExportSearch.TakeThenDescend | src/mds/MDBalancer.cc:1784-1810 | the smaller children from the biggest down, then the bigger replicated children with the default target, form a valid search |
| ExportSearch.Descend | src/mds/MDBalancer.cc:1770-1781 | a descent loop stops exactly after a descent that aborts or leaves `have` past `needmin` |
| ExportSearch.TakeAll | src/mds/MDBalancer.cc:1784-1797 | taking a batch pushes exactly that batch onto `exports` and keeps the clock |
| ExportSearch.ExtendsTakeAll | src/mds/MDBalancer.cc:1784-1797 | taking a batch of candidates is a valid search step |
| ExportSearch.ExtendsTakeSmaller | src/mds/MDBalancer.cc:1784-1797 | taking a prefix of the smaller children, biggest first, is a valid search step |
| ExportSearch.TakeSmaller | src/mds/MDBalancer.cc:1784-1797 | the smaller children are taken biggest first until `have` passes `need`; it stops at the first such take or when they run out |
| ExportSearch.FindExportsWrapper | src/mds/MDBalancer.cc:1859-1913 | a stray fragment is left alone; otherwise the search through root-workload fragments, the fragment itself or its parent is a valid search |
| ExportSearch.FiledStep | src/mds/MDBalancer.cc:1354-1373 | adding one decision's finds keeps the found lists pairwise disjoint and every fragment exportable |
| ExportSearch.SimpleDetermineRebalance | src/mds/MDBalancer.cc:1328-1377 | one list of fragments per decision unless a search aborts; the lists are pairwise disjoint and every fragment in them is exportable |
| Rebalances.Imports | src/mds/MDBalancer.cc:1396-1430 | every recorded import names a fragment of the tree |
| Rebalances.IdleMovesExactly | src/mds/MDBalancer.cc:1396-1422 | a subtree is handed back as idle exactly when it is considered (not `~mdsN`, not pinned, not freezing or frozen) and idle (below `mds_bal_idle_threshold` when that is on, not the root, not this rank's own), to the rank its inode's authority names, with its load |
| Rebalances.ImportsExactly | src/mds/MDBalancer.cc:1396-1430 | an import is recorded exactly for a considered subtree that is not idle, with the rank it came from and its load |
| Rebalances.PopEntries | src/mds/MDBalancer.cc:1428 | `import_pop_map` gets one `(pop, dir)` entry per recorded import, in the same order |
| Rebalances.BuildSnoc | src/mds/MDBalancer.cc:1428 | recording one more import inserts its entry into `import_pop_map` |
| Rebalances.CollectStep | src/mds/MDBalancer.cc:1396-1430 | one more subtree extends the idle moves, the imports and `import_pop_map` exactly as the whole scan would |
| Rebalances.CollectImports | src/mds/MDBalancer.cc:1392-1430 | the scan of the full-auth subtrees yields exactly the idle moves, the imports by source rank, and `import_pop_map` built from them |
| Rebalances.IndexOf | src/mds/MDBalancer.cc:1534 | finds the first position of an entry in `import_pop_map`, or its end |
| Rebalances.RemoveAt | src/mds/MDBalancer.cc:1536 | erasing one position removes exactly that entry, keeps the others in order and keeps the map sorted |
| Rebalances.EraseFirst | src/mds/MDBalancer.cc:1534 | erasing an entry removes exactly one copy of it, keeps the map sorted and adds nothing |
| Rebalances.SentSnoc | src/mds/MDBalancer.cc:1454 | a give-back or re-export adds its load to its target's `export_pop_map` entry and to no other |
| Rebalances.LedgerOpen | src/mds/MDBalancer.cc:1454 | `export_pop_map[target]` for the next eligible target opens a zero entry that matches what was sent to it |
| Rebalances.LedgerStep | src/mds/MDBalancer.cc:1454-1543 | a stage for one target keeps `export_pop_map` in step with what was sent, at most each target's amount |
| Rebalances.WantsEligible | src/mds/MDBalancer.cc:1439-1442 | a target that passes the `MIN_OFFLOAD` and `target_load` filters may receive exports |
| Rebalances.GiveBackTo | src/mds/MDBalancer.cc:1459-1508 | the imports from the target, skipping base inodes, go back to it while they fit; what was sent adds up to `have`, at most `amount`, nothing goes elsewhere, and `import_pop_map` only loses entries; unless less than `MIN_OFFLOAD` is left to send, every import from the target that was not given back is bigger than what is left |
| Rebalances.GiveBackOne | src/mds/MDBalancer.cc:1466-1504 | one turn at import `k`: an import from the target that is not a base inode's and fits in what is left goes back, keeping what was sent tallied and sound and `import_pop_map` the imports' loads; every import up to `k` from the target that was not given back is bigger than what is left; the loop stops exactly at an import from the target, not a base inode's, after which less than `MIN_OFFLOAD` is left |
| Rebalances.GiveBackAll | src/mds/MDBalancer.cc:1435-1509 | over all targets: only eligible targets get an `export_pop_map` entry, each holds what was given back to it, at most its amount, and every move is a give-back of a recorded import to its source |
| Rebalances.ReexportTo | src/mds/MDBalancer.cc:1518-1542 | other imports busier than `MIN_REEXPORT` go to the target while they fit; `have` grows by exactly what was sent, stays at most `amount`, and nothing goes elsewhere; unless less than `MIN_OFFLOAD` is left to send, every entry left in `import_pop_map` is a base inode's fragment, bigger than what is left, or not busier than `MIN_REEXPORT` |
| Rebalances.ReexportAll | src/mds/MDBalancer.cc:1511-1543 | over all targets with an entry: `export_pop_map` keeps matching what was sent, at most each amount, and every new move re-exports a recorded import |
| Rebalances.SearchTo | src/mds/MDBalancer.cc:1562-1571 | `find_exports` over the imports from the busiest down is a valid search: exports only grow by candidates with their loads counted |
| Rebalances.FoundMoves | src/mds/MDBalancer.cc:1577-1586 | one export per found fragment, to the target, in the order found |
| Rebalances.SentFound | src/mds/MDBalancer.cc:1577-1586 | exporting found fragments changes no target's `export_pop_map` entry |
| Rebalances.FoundStep | src/mds/MDBalancer.cc:1551-1586 | one target's finds are sound and, thanks to `already_exporting`, disjoint from every earlier target's |
| Rebalances.SearchAll | src/mds/MDBalancer.cc:1545-1587 | the search stage adds only sound moves, never sends one fragment to two targets, and leaves `export_pop_map` as it was |
| Rebalances.PopsOfBuild | src/mds/MDBalancer.cc:1428 | the built `import_pop_map` is sorted and holds only recorded imports |
| Rebalances.SentIdle | src/mds/MDBalancer.cc:1420 | idle hand-backs are not counted in `export_pop_map` |
| Rebalances.IdleMovesIdle | src/mds/MDBalancer.cc:1420 | every move of the first pass is an idle hand-back |
| Rebalances.TryRebalance | src/mds/MDBalancer.cc:1380-1591 | with `mds_thrash_exports` nothing happens; otherwise the idle hand-backs come first, every later move is sound, each eligible target receives at most its amount in given-back and re-exported imports and an ineligible one none, and no found fragment goes to two targets |

## Left out

- Time decay of `DecayCounter` and `dirfrag_load_vec_t`: the decay code is not part of this model, so counters accumulate plain `real`s.
- Floating point: `float`/`double` rounding and casts are not modelled. A division by zero (`0/0` in the share and the load factor) is a `Div` that yields 0.
- `LoadArrays.LoadArray.Total`: `LoadArray<int>` (`LoadArray_Int`, `mdstypes.h:85`) is modelled over `real`, so the integer `total()` of that instance and its overflow are not modelled.
- The imbalance-factor numerics of `handle_ifbeat` (`sqrt`, `pow(exp(1), …)`, `MDBalancer.cc:645-696`) are parameters of the round (`IfMath`). The cascade works on the factors, `is_bigger` marks and IOPS values they produce.
- `IfCascades.SortSummaries`: summaries with equal factors keep rank order. `std::sort` is not stable, so the code may order them differently.
- `IfCascades.IfRound`: this is the corrected round. It uses the busiest and idlest ranks for `max_pos` and `min_pos`, looks at each exporter through its own summary, and takes the share of its own IOPS and load. The round as written (`MDBalancer.cc:653-654`, `715-730`) is `IfCascades.IfRoundAsWritten`.
- `IfCascades.ExporterCascade`: this is the corrected loop. The loop as written is `IfCascades.ExporterCascadeAsWritten`.
- `Balancers.DecideRound`: runs the corrected round `IfCascades.IfRound`, not the round as written.
- `Balancers.Balancer.RunIfRound`: runs the corrected round `IfCascades.IfRound`, not the round as written.
- `Balancers.Balancer.HandleIfBeat`: rank 0 runs the corrected round `IfCascades.IfRound`, not the round as written.
- The potential-load machinery is not modelled: `update_dir_pot_recur`, the `pot_*` parts of `hit_dir`, and `mds_pot_load`. The replicate and unreplicate decisions inside `hit_dir` are not modelled either.
- I/O and external state are not modelled: `get_load` (`/proc` and clocks), `localize_balancer` (RADOS), `dump_loads` (Formatter), and the MDCache and Migrator walks of `handle_export_pins` and `calc_mds_load`. Mantle's result is an input.
- Message sending: heartbeats, ifbeats and exports are recorded as events. The stray `out: m->put()` in `send_heartbeat` is not modelled.
- Timers: the delayed split and merge callbacks are queued events that fire when the model says so.
- The 0.1 s deadline of `find_exports` is a budget of calls. Each call uses one, and at 0 the timeout path runs.
- `minchunk` is declared twice in `find_exports` (`MDBalancer.cc:1617` and `1624`). The model uses one value, `MIN_CHUNK`.
- `find_exports` takes `list&` where the header declares `vector*`. In `try_rebalance`, `exports` is used outside its scope (`MDBalancer.cc:1562-1586`). The model uses one sequence per target and exports each target's finds to that target.
- `ExportSearch.FindExports`: the LRU moves (`remove_myself`, `push_front`) are not modelled.
- `ExportSearch.FindExports`: the hash placement of small fragments when `mds_bal_frag` is 0 is an input (`fragDest`), not `std::hash`.
- `ExportSearch.FindExportsWrapper`: the root-workload loop walks the whole growing list again after each collection, so one fragment may be searched several times. The model proves only that `already_exporting` keeps it from being taken twice.
- `Rebalances.TryRebalance`: erasing from `import_from_map` during the give-back loop is not modelled. Entries are read in their recorded order, and the give-back loop itself erases from `import_pop_map`.
- `Rebalances.GiveBackTo`: the claim that no import from the target that still fits is left behind is proved for non-negative import loads (`NonNegPops`), as `get_load` gives them. With a negative load, `have` could shrink, and an import passed over earlier could fit later.
- `Rebalances.ReexportTo`: the claim that no busy entry that still fits is left in `import_pop_map` is proved for non-negative import loads (`NonNegPops`), for the same reason.
- `Rebalances.TryRebalance`: when a search aborts on its authority assert, the current target's finds are not exported.
- `ExportSearch.SimpleDetermineRebalance`: `my_mds_load` is truncated to an `int` as the code does (`LoadArrays.Trunc`). Nothing more is claimed about the amounts.
- `std::map::operator[]` inserting a default entry on read is modelled only where the entry is later read, as a lookup that yields 0.
- The Lua, Python C-API and Torch runtimes are not modelled. Their results are inputs: the result table, the script's return code and the fitted tensor.
- `MatrixFitters.TorchMatrixFitter.Fit`: the tensor arithmetic and the `/47990` normalisation are not modelled. The results `translate_result` produces are an input of `PlaceResult`.
- `CMiners.CMiner.Process`: `from_series_to_table` (which erases from a map while iterating it) and the unread `item_freqs` map are not modelled. A negative `max_gap` is undefined behaviour in the code, so the model requires `max_gap >= 0`.
- CMiner threading (`entry`, `hit` under a lock, `signal_miner`) is concurrency and is not modelled.
- `REQCOUNTER_QUEUE_LEN_DEFAULT` is not part of this model. It is a parameter of the `ReqCounter` constructor.
- `LoadInjectors.ReadLinePytorch`: `readline` frees the line and passes the pointer to `getline` again. Memory management is not modelled.
- `LoadInjectors.SplitLine`: `num * 10` may overflow `int`. The model does not model the wrap-around: values are unbounded. It proves them below 10^9, and so in range, only when no run is longer than 9 digits.
- File handling in the trace tools (`fopen`, `getline`, `LoadRecorder`'s `fprintf`) is not modelled. A line and its length are inputs.
- The message classes' encode and decode, the socket and thread based predictors, `MDSMonitor`, `StopWatcher`, `PathUtil` and the lock tests are outside the core.

## Findings

| source | as written | input that shows it | evidently intended | confidence | as-written member | corrected member |
|---|---|---|---|---|---|---|
| src/test/adsl/mds/pytorch/verify.cc:79-81 | `split_line(line, len)` scans up to the buffer capacity `len` returned by `getline`, not the `nread` bytes read | a buffer holding `5\n\0` followed by a stale `7` from an earlier line reads as `[5, 7]` | scan only the `nread` bytes of the line, as `verify.cc` does | not executed | LoadInjectors.PytorchStaleBytes | LoadInjectors.EpochLoadIsLine |
| src/mds/MDBalancer.cc:653-654 | `max_pos` and `min_pos` are `begin() - max_element(...)` and `begin() - min_element(...)`, the negated positions | IOPS 100, 50, 400 give `max_pos = -2` and `min_pos = -1`, so no rank ever compares equal to them except rank 0 | `max_element(...) - begin()`, the rank with the most and the fewest IOPS (2 and 1) | not executed | IfCascades.PositionsCounterexample | IfCascades.MaxPos |
| src/mds/MDBalancer.cc:715-730 | after sorting `my_imbalance_vector`, the loop indexes it and `IOPSvector` by the up rank `*p`, so it reads another rank's summary and mixes sorted positions with ranks | IOPS 100, 50, 400: the exporter's first share comes out as -25% where its own IOPS give 18.75% | look up the summary whose `whoami` is `*p` and use that rank's IOPS and load | not executed | IfCascades.IndexingCounterexample | IfCascades.DecidedMoves |
| src/mds/MDBalancer.cc:2365-2390 | `calc_mds_load(load, auth)` ignores `load` and returns this rank's own full-auth subtree load for every rank | one busy and one idle rank: both score the same, so `prep_rebalance` never plans a move | score each rank by its reported `mds_load_t` (`mds_pop_load`) | not executed | Balancers.AsWrittenPlansNothing | Balancers.IntendedSeesSpread |
