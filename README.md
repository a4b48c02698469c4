# sd-webui-fusion checkpoint merger, modelled in Dafny

`scripts/merger.py` merges two Stable Diffusion checkpoints. It loads model A and
model B as state dicts (parameter name to tensor), walks A's keys, and blends the
tensor under each key with B's tensor under the same key. Mode `weight_sum` computes
`(1 - alpha) * A + alpha * B`. Mode `add_difference` computes `A + multiplier * alpha * (B - A)`.
Any other mode string falls back to the weighted sum. Keys that only A has are
copied verbatim, and keys that only B has are dropped. The result is saved as
safetensors or as a torch pickle, chosen by a flag. `get_checkpoint_files` lists
the `.ckpt` and `.safetensors` files of the checkpoint directory in sorted order.

Modules:

- `Strings` (`strings.dfy`): Python's `str.endswith` and Python's string ordering.
  It also holds an insertion sort that stands in for `sorted`, with a proof that
  sorted permutations are unique. That proof makes the model's sort agree with
  Python's on every list.
- `Tensors` (`tensors.dfy`): a tensor is a flattened `seq<real>`. It has elementwise
  add, subtract and scale, the two blend formulas, and their algebra.
- `Checkpoint` (`checkpoint.dfy`): the state dict with its insertion order, dict
  assignment, and the load/save format choice. Each load and save is recorded as
  an `IoStep`.
- `Merger` (`merger.dfy`): the blend loop (`MergeStateDicts`) is proved against
  the value-level specification `Merged`. The entry point is `MergeCheckpoints`,
  and the properties of the merge are lemmas.
- `Listing` (`listing.dfy`): `get_checkpoint_files` as a loop that appends,
  followed by the sort.

The source runs three loops, one per branch of the mode test. They differ only in
the formula applied to a shared key. The model keeps the three-way branch in
`MergeCheckpoints` and runs one loop method, `MergeStateDicts`, parameterised by
a `Blend` value. `SelectBlend` is the same branch written as a function, and the
specification `MergeSpec` uses it.

Facts about the code that the model keeps:
- Modes are compared as the strings `"weight_sum"` and `"add_difference"`.
- The load format is chosen from the path suffix alone.
- The save format is chosen from `use_safetensors` alone.

One consequence of the format choice is proved.
A saved file is later read with the loader matching its format only when the flag
agrees with the output name's `.safetensors` suffix (`SavedFileReloadsInFormat`).
The tab's default name with the box unticked is the simplest such case
(`DefaultOutputReloads`).

## Model

| member | source | states |
|---|---|---|
| Tensors.Add | scripts/merger.py:50 | elementwise sum of two equal-length tensors: same length, element i is a[i] + b[i] |
| Tensors.Sub | scripts/merger.py:58 | `diff = B - A`: same length, element i is a[i] - b[i] |
| Tensors.Scale | scripts/merger.py:59 | scalar times tensor: same length, element i is c * a[i] |
| Tensors.WeightedSum | scripts/merger.py:50 | `(1 - alpha) * A + alpha * B` on equal-length tensors keeps A's length; its element-by-element meaning is `WeightedSumAt` |
| Tensors.AddDifference | scripts/merger.py:58-59 | `A + multiplier * alpha * (B - A)` on equal-length tensors keeps A's length; its element-by-element meaning is `AddDifferenceAt` |
| Tensors.WeightedSumAt | scripts/merger.py:50 | element i of `(1-alpha)*A + alpha*B` moves from A's value toward B's by the fraction alpha of their distance |
| Tensors.AddDifferenceAt | scripts/merger.py:58-59 | element i of `A + multiplier*alpha*(B-A)` moves from A's value toward B's by the fraction multiplier*alpha |
| Tensors.WeightedSumAtZero | scripts/merger.py:50 | weighted sum at alpha 0 is exactly A |
| Tensors.WeightedSumAtOne | scripts/merger.py:50 | weighted sum at alpha 1 is exactly B |
| Tensors.WeightedSumSwap | scripts/merger.py:50 | blending A with B at alpha equals blending B with A at 1 - alpha |
| Tensors.WeightedSumBetween | scripts/merger.py:50 | for alpha in [0, 1] every element lies between A's and B's values |
| Tensors.AddDifferenceIsWeightedSum | scripts/merger.py:58-59 | add_difference at (alpha, multiplier) equals the weighted sum at multiplier*alpha |
| Tensors.AddDifferenceUnitMultiplier | scripts/merger.py:58-59 | with multiplier 1, add_difference equals the weighted sum at the same alpha |
| Tensors.AddDifferenceOvershoots | scripts/merger.py:58-59 | with multiplier*alpha > 1 every element where B differs from A lands strictly past B |
| Checkpoint.StateDict.Set | scripts/merger.py:50-52 | `merged[key] = value` keeps the dict well formed, maps key to value, and appends a new key at the end of the order |
| Checkpoint.LoadFormat | scripts/merger.py:22-25 | the safetensors loader is chosen iff the path ends in ".safetensors"; every other path goes to `torch.load` |
| Checkpoint.LoadCheckpoint | scripts/merger.py:20-25 | loading reads the given path, in the safetensors format iff the path ends in ".safetensors" |
| Checkpoint.SaveFormat | scripts/merger.py:30-33 | the safetensors writer is chosen iff `use_safetensors` is true |
| Checkpoint.SaveCheckpoint | scripts/merger.py:28-33 | saving writes the given dict to the given path, in the safetensors format iff `use_safetensors` is true |
| Checkpoint.LoadFormatBySuffix | scripts/merger.py:22-25 | a ".ckpt" path goes to the pickle loader and a ".safetensors" path to the safetensors loader |
| Checkpoint.SaveFormatIgnoresPath | scripts/merger.py:28-33 | two saves differing only in the output path write the same format and the same dict |
| Checkpoint.SavedFileReloadsInFormat | scripts/merger.py:20-33 | a saved file is read back by the loader of its own format iff the flag agrees with the ".safetensors" suffix of its name |
| Checkpoint.DefaultOutputReloads | scripts/fusion.py:107-115 | for any checkpoint directory the tab joins to the default name "merged_model.safetensors" (scripts/fusion.py:146-147), the file saved with "Use SafeTensors" ticked reloads in its format; unticking the box breaks that |
| Merger.SelectBlend | scripts/merger.py:46-69 | the difference formula is chosen iff the mode is "add_difference"; every other mode gets the weighted sum with the same alpha |
| Merger.BlendTensors | scripts/merger.py:49-50 | the formula applied to a shared key keeps the length of A's tensor |
| Merger.MergedEntry | scripts/merger.py:49-52 | the value stored for a key of A has the length of A's tensor, and is A's tensor itself when B lacks the key |
| Merger.Merged | scripts/merger.py:44-52 | the dict built by one loop has exactly A's keys, each holding a tensor of A's length |
| Merger.MergeSpec | scripts/merger.py:44-69 | the merged dict of `merge_checkpoints` has exactly A's keys, keeps A's tensor lengths, and copies A's tensor for every key B lacks, in every mode |
| Merger.MergeStateDicts | scripts/merger.py:44-69 | the loop over A's keys yields a well-formed dict with A's key order whose contents are `Merged(A, B, blend)` |
| Merger.MergeCheckpoints | scripts/merger.py:36-73 | loads A then B with the loaders their suffixes select, saves the merged dict (A's key order, contents `MergeSpec`) to the output path in the flag's format, and returns the output path |
| Merger.MergeKeysAreKeysOfA | scripts/merger.py:48-69 | the output's keys are exactly A's keys in every mode; keys only in B never appear |
| Merger.MergeCopiesKeysOnlyInA | scripts/merger.py:51-52 | a key in A but not in B keeps A's tensor whatever the mode, alpha and multiplier |
| Merger.MergeBlendsSharedKeys | scripts/merger.py:49-67 | a shared key gets add_difference under "add_difference" and the weighted sum under any other mode |
| Merger.UnknownModeIsWeightSum | scripts/merger.py:63-69 | any mode other than the two known strings merges exactly like "weight_sum" |
| Merger.WeightSumAtZeroIsA | scripts/merger.py:46-52 | weighted sum (or unknown mode) at alpha 0 returns A unchanged |
| Merger.WeightSumAtOneTakesB | scripts/merger.py:46-52 | weighted sum (or unknown mode) at alpha 1 gives B's tensor for every shared key and A's for every key only A has |
| Merger.AddDifferenceIsScaledWeightSum | scripts/merger.py:54-61 | an add_difference merge equals a weight_sum merge at ratio multiplier*alpha |
| Merger.ModesAgreeAtUnitMultiplier | scripts/merger.py:46-61 | with multiplier 1 the two modes produce the same merged model |
| Merger.WeightSumSymmetricOnSameKeys | scripts/merger.py:46-52 | when A and B have the same keys, merging A with B at alpha equals merging B with A at 1 - alpha |
| Merger.WeightSumExample | scripts/merger.py:46-52 | {"w": [1, 2]} and {"w": [3, 4]} at alpha 0.5 merge to {"w": [2, 3]} |
| Merger.AddDifferenceExample | scripts/merger.py:54-61 | {"w": [1]} and {"w": [2]}, alpha 1, multiplier 2 merge to {"w": [3]} |
| Merger.KeyOnlyInAExample | scripts/merger.py:63-69 | with an unknown mode, {"w": [1], "x": [9]} and {"w": [2]} merge to {"w": [1.5], "x": [9]} |
| Strings.EndsWith | scripts/merger.py:22 | `str.endswith`: true iff the string is some string followed by the suffix (also the test at scripts/merger.py:15) |
| Strings.LessEqReflexive | scripts/merger.py:17 | Python's code-point string order puts every name at or below itself |
| Strings.LessEqTotal | scripts/merger.py:17 | any two names are comparable under that order |
| Strings.LessEqTransitive | scripts/merger.py:17 | the order is transitive |
| Strings.LessEqAntisymmetric | scripts/merger.py:17 | two names each at or below the other are equal |
| Strings.SortNames | scripts/merger.py:17 | the sort returns the same names with the same multiplicities as its input |
| Strings.CkptIsNotSafetensors | scripts/merger.py:15 | no name ends in both ".ckpt" and ".safetensors" |
| Strings.SortNamesCorrect | scripts/merger.py:17 | the sort returns an ascending permutation of its input |
| Strings.SortedPermutationUnique | scripts/merger.py:17 | two ascending lists with the same elements are equal, so any correct sort returns the same list |
| Listing.CheckpointNames | scripts/merger.py:13-16 | a name is kept iff it is in the listing and ends in ".ckpt" or ".safetensors" (`IsCheckpointName`); the result is no longer than the listing |
| Listing.CheckpointNamesCount | scripts/merger.py:13-16 | the filtered listing holds each ".ckpt"/".safetensors" name as often as the listing does, and nothing else |
| Listing.GetCheckpointFiles | scripts/merger.py:7-17 | a missing directory gives []; otherwise the result is sorted and is a permutation of the listing's checkpoint names |
| Listing.FilesAreTheSortedNames | scripts/merger.py:17 | any sorted permutation of the filtered listing is the model's sorted result, so the model matches Python's `sorted` |
| Listing.CheckpointNameExamples | scripts/merger.py:15 | "model.ckpt" and "model.safetensors" are offered; "model.CKPT" and "model.ckpt.bak" are not |

## Left out

- Reading and writing files (`safetensors.torch.load_file`/`save_file`, `torch.load`/`torch.save`) are foreign library calls and disk I/O. The model records which loader or writer is chosen, and the loaded dicts are parameters of `MergeCheckpoints`. The save-then-load round trip of tensor values therefore cannot be stated.
- Failures of loading or saving (missing file, undecodable bytes, unwritable destination) happen inside those library calls and are not modelled.
- Which directory is listed (`shared.cmd_opts.ckpt_dir or sd_models.model_path`, scripts/merger.py:9) comes from host settings. `os.path.exists` and `os.listdir` become the parameters `dirExists` and `listing`.
- Progress printing (scripts/merger.py:38, 41, 71) is output only.
- scripts/fusion.py is the Gradio tab. Its widgets, button wiring, path resolution, model unloading and error-to-status-string handling are not part of this model. Only its default output name is used, in one lemma.
- Floating point is modelled as exact `real`. Rounding, dtypes and device placement are not modelled, so the algebraic identities hold exactly here.
- Tensors are flattened to one dimension. The precondition `ShapesAgree` (equal lengths under shared keys) stands in for torch's shape check. Torch broadcasting of unequal but compatible shapes, and the error torch raises for incompatible ones, are not modelled.
- Entries of a legacy pickle checkpoint that are not tensors are not modelled; every value in a state dict is a tensor. In the code, a nested `state_dict` dict under a key both models share makes the blend at scripts/merger.py:50 raise `TypeError`. An integer counter such as `global_step` under a shared key is blended like a tensor.
- That the merge leaves `model_a` and `model_b` untouched holds by construction: state dicts are immutable values here. Aliasing between the inputs and the output dict is not modelled.
- When the directory exists but cannot be listed (not a directory, no permission), `os.listdir` raises (scripts/merger.py:10, 14). The model's listing is always given, so that exception is not modelled.
- The default argument values of `save_checkpoint` and `merge_checkpoints` (scripts/merger.py:28, 36-37) are not modelled: every argument is a parameter. The tab passes all of them (scripts/fusion.py:150-154), so no call in the repository relies on a default.
- The trust risk of unpickling legacy checkpoints is a property of the foreign loader, not of this code.
