# HOLLy sigma schedule — a Dafny model

HOLLy recovers a 3D point cloud and per-image poses from 2D images by
training a network whose output is drawn by a differentiable splatting
renderer. The blur of each splat, *sigma*, is annealed from coarse to fine
over training. The sigma comes from a lookup table. It is either picked
once per epoch or interpolated at every step (`cont_sigma`). Whichever mode
is used, it must be pushed into two renderers: the one inside the network
and the one the data loader renders training images with.

This project models that schedule and the set-up in `train.py` that feeds it:

- `sigma_schedule.dfy` (module `SigmaSchedule`): `cont_sigma` over `real`,
  split into its progress fraction, table position and floor/ceiling blend,
  and the per-epoch pick `lookup[min(epoch, len - 1)]`. Python's
  ZeroDivisionError and IndexError (negative indices included) are `Result`
  errors, not preconditions.
- `sigma_table.dfy` (module `SigmaTable`): the sigma table `init` builds.
  It is the default `[10.0, 1.25]`, `[None]` without sigma, or one parsed
  number per comma-separated token of the newline-stripped sigma file. The
  file is read by a loop that appends as it goes, modelled as a method proved
  against a recursive specification. Float parsing is a function parameter
  (`None` stands for ValueError).
- `train_setup.dfy` (module `TrainSetup`): the rest of `init` up to the
  loaders: augmented set sizes, the OBJ-mode cap on the training set, the
  `no_sigma`/`predict_sigma` check, and the FITS-over-OBJ choice of data
  source.
- `train_loop.dfy` (module `TrainLoop`): the sigma part of `train`. A
  class `RendererSigmas` holds the two renderers' sigmas and has a single
  update method. `Train` runs the epoch and batch loops and records what
  both renderers hold at every forward pass. That record is proved equal to
  the schedule function `SigmaUsed`.
- `results.dfy` (module `Results`): `Option` and `Result`.

`cont_sigma` never clamps the progress, and a sigma file without commas
gives a one-entry table. The model follows the code.
`ContSigmaDefaultTable` shows a step beyond the planned total raising
IndexError. `ProgressInUnitInterval` shows that the loop bounds alone keep
the progress in range.

## Model

| member | source | states |
|---|---|---|
| SigmaSchedule.ContSigma | train.py:236-272 | `cont_sigma` raises ZeroDivisionError exactly when `epochs * batches_epoch` is zero |
| SigmaSchedule.ProgressInUnitInterval | train.py:261-263 | for `0 <= epoch < epochs` and `0 <= batch_idx < batches_epoch`, the total is positive and the progress lies in [0, 1), without any clamping |
| SigmaSchedule.ProgressMonotone | train.py:261-263 | a later global step `epoch * batches_epoch + batch_idx` never has a smaller progress |
| SigmaSchedule.TablePositionInside | train.py:264 | a progress in [0, 1] scales to a `middle` inside `[0, len - 1]`, monotonically |
| SigmaSchedule.BlendBracket | train.py:265-270 | for `middle` inside the table, `start = floor`, `end = ceil` are valid indices with `start <= end <= start + 1`, `0 <= between < 1`, the result is `s + (e - s) * between` and lies between `lookup[start]` and `lookup[end]`; a whole `middle` gives exactly `lookup[start]` |
| SigmaSchedule.ContSigmaIsBlend | train.py:261-270 | inside the loop ranges `cont_sigma` never raises and is the blend at a position inside the table |
| SigmaSchedule.ContSigmaInRange | train.py:261-270 | inside the loop ranges and for a non-empty table, the result lies between two adjacent table entries |
| SigmaSchedule.ContSigmaFirstStep | train.py:261-270 | at epoch 0, batch 0 the result is `sigma_lookup[0]` |
| SigmaSchedule.ContSigmaDefaultTable | train.py:261-270 | on `[10.0, 1.25]`: progress 0 gives 10.0, 0.5 gives 5.625, 1 gives 1.25, and 1.5 raises IndexError because nothing clamps |
| SigmaSchedule.BlendMonotone | train.py:265-270 | for a non-increasing table, the blend is non-increasing in `middle` |
| SigmaSchedule.ContSigmaMonotone | train.py:261-270 | for a non-increasing table, `cont_sigma` is non-increasing in the global step |
| SigmaSchedule.EpochSigmaIndex | train.py:398 | `min(epoch, len - 1)` is the epoch or the last index, whichever is smaller, and is a valid index of a non-empty table |
| SigmaSchedule.PerEpochSigma | train.py:398 | the per-epoch pick raises IndexError exactly on an empty table and otherwise is the entry at `min(epoch, len - 1)` |
| SigmaSchedule.PerEpochSigmaSaturates | train.py:397-398 | epochs before the end of the table use their own entry; every epoch from `len - 1` on uses the last entry |
| SigmaSchedule.PerEpochSigmaMonotone | train.py:397-398 | for a non-increasing table, the per-epoch sigma never grows from one epoch to a later one |
| SigmaTable.StripNewlines | train.py:545 | `replace("\n", "")` leaves no newline, keeps the count of every other character, and leaves newline-free text unchanged |
| SigmaTable.StripNewlinesConcat | train.py:545 | stripping a concatenation is the concatenation of the strips, so the kept characters stay in order |
| SigmaTable.Split | train.py:545 | `split(",")` gives commas + 1 tokens, none containing a comma |
| SigmaTable.FileTokens | train.py:545 | the sigma file yields one token per comma of the newline-stripped text, plus one |
| SigmaTable.JoinSplit | train.py:545 | joining the tokens with commas gives back the stripped text |
| SigmaTable.SplitJoin | train.py:545 | splitting the comma-join of comma-free tokens gives back the tokens |
| SigmaTable.ParseAll | train.py:544-547 | parsing succeeds exactly when every token parses; the result then has one entry per token, in order; otherwise the error names the first token that fails |
| SigmaTable.BuildSigmaTable | train.py:536-547 | the append loop builds exactly the table `SigmaTableOf` specifies: `[None]` with `no_sigma`, `[10.0, 1.25]` without an existing sigma file, otherwise the parsed tokens |
| SigmaTable.SigmaTableShape | train.py:536-547 | every table built is non-empty, is `[None]` exactly with `no_sigma` and otherwise holds only numbers; a file table has commas + 1 entries in file order |
| SigmaTable.SigmaTableFails | train.py:538-547 | building fails exactly when sigma is used, the file is read, and one of its tokens is not a number |
| TrainSetup.ScaledSetSizes | train.py:525-532 | each of train, valid and test is its base size times `num_aug` under `aug` and unchanged otherwise, so the total scales by the same factor |
| TrainSetup.ObjTrainSize | train.py:624 | the OBJ training set is never larger than asked for and leaves room for the test set in the loader, being one of the two bounds |
| TrainSetup.Init | train.py:525-641 | `no_sigma` without `predict_sigma` stops the run exactly when set, before any data source is chosen; a bad sigma token stops it exactly when the table fails, naming the first token that does not parse; neither path raises exactly otherwise; on success the table and loader sigma are as built, FITS wins over OBJ, the loader gets the un-augmented total and the set sizes follow the augmentation and OBJ-cap rules |
| TrainLoop.RendererSigmas.SetSigma | train.py:401-402 | both renderers are set to the given sigma and so agree |
| TrainLoop.Train | train.py:389-495 | at every forward pass both renderers hold the same sigma, and it is the schedule `SigmaUsed` for that epoch and batch; after a non-empty run both hold `FinalSigma` (the last epoch's entry, the value after the last step, or the table head); with no epochs they are untouched; the final save is reached exactly when there was at least one epoch and one batch, otherwise `epoch` or `batch_idx` is unbound and `train` raises UnboundLocalError |
| TrainLoop.ContinuousRunStartsAtHead | train.py:389-438 | in continuous mode the first batch uses `lookup[0]`, and so does the second, because the update comes after the optimiser step |
| TrainLoop.ContinuousSigmaFromPrevious | train.py:426-438 | in continuous mode every later batch, across epoch boundaries too, uses the `cont_sigma` value of the step just before it |
| TrainLoop.ContinuousSigmaNonIncreasing | train.py:396-438 | in continuous mode with a non-increasing table, a later batch never sees a larger sigma |
| TrainLoop.PerEpochSigmaUsed | train.py:396-402 | in per-epoch mode every batch of an epoch uses that epoch's entry, and the last entry from epoch `len - 1` on |

## Left out

- Floating point: sigma arithmetic is over exact reals. Rounding in
  `float(...) / float(...)`, in the scaling by `len - 1` and in the blend is
  not modelled.
- Float parsing (`float(token)`) is a function parameter. The model does
  not fix which strings parse, including surrounding whitespace.
- File I/O: whether the sigma file exists and its text are inputs to the
  model. So is the OBJ loader's reported `size`; `Loader` and `ImageLoader`
  are not part of this model.
- The number of batches per epoch is an input. The model assumes the batcher
  yields exactly `len(batcher)` batches per epoch; `Batcher` is not part of
  this model.
- TrainLoop.RendererSigmas.SetSigma: sets both sigmas in one step. The source
  sets them one after the other, network first at epoch start and loader
  first after a step. Nothing runs between the two calls, so the order is not
  observable.
- Losses, normalisation and `calculate_move_loss` (train.py:42-120): tensor
  arithmetic.
- The points learning-rate update (train.py:429-431): float-only. It writes
  to the `optim` module instead of the optimiser instance.
- Forward and backward passes, the plateau scheduler, metric logging,
  checkpoints, the `test` and `validate` passes and pickling of sets
  (train.py:123-233, 275-335, 405-492, 684-717): library calls and I/O.
- Renderer construction, `Net`, `DataSet`, `Buffer`, `Batcher`, point
  initialisation and loading, `poseonly` (train.py:558-573, 583-607,
  625-639, 647-682): not part of this model.
- Argument parsing and seeding (train.py:720-983), `angle_vis.py` and
  `render.py`: command-line plumbing and visualisation.
- The `no_sigma` check `(...) is True` is modelled for boolean flags, as
  argparse gives them.
- TrainLoop.Train: the epoch and batch counts are natural numbers. A
  negative count in the source runs no loop, which is what 0 does here,
  and then ends in the same UnboundLocalError at train.py:495.
