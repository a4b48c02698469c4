/** `merge_checkpoints`: blend the tensors of model A with those of model B,
    key by key over A's keys, and save the result. */
module Merger {
  import opened Tensors
  import opened Checkpoint

  const WeightSumMode := "weight_sum"
  const AddDifferenceMode := "add_difference"

  /** The formula applied to a key present in both models. */
  datatype Blend = WeightSum(alpha: real) | AddDiff(alpha: real, multiplier: real)

  /** The mode dispatch: "add_difference" selects the difference formula;
      "weight_sum" and every unrecognised mode string select the weighted
      sum. */
  function SelectBlend(mode: string, alpha: real, multiplier: real): (b: Blend)
    ensures b.alpha == alpha
    ensures b.AddDiff? <==> mode == AddDifferenceMode
    ensures b.AddDiff? ==> b.multiplier == multiplier
  {
    if mode == WeightSumMode then WeightSum(alpha)
    else if mode == AddDifferenceMode then AddDiff(alpha, multiplier)
    else WeightSum(alpha)
  }

  function BlendTensors(blend: Blend, a: Tensor, b: Tensor): (r: Tensor)
    requires |a| == |b|
    ensures |r| == |a|
  {
    match blend
    case WeightSum(alpha) => WeightedSum(a, b, alpha)
    case AddDiff(alpha, multiplier) => AddDifference(a, b, alpha, multiplier)
  }

  /** Tensors stored under the same key in both models have equal element
      counts: the flattened model's stand-in for torch's shape rules (it
      neither rejects equal-count transposed shapes nor admits broadcasting). */
  ghost predicate ShapesAgree(a: map<Key, Tensor>, b: map<Key, Tensor>) {
    forall k :: k in a && k in b ==> |a[k]| == |b[k]|
  }

  /** The value the loop stores for a key of A. */
  function MergedEntry(a: map<Key, Tensor>, b: map<Key, Tensor>, blend: Blend, k: Key): (r: Tensor)
    requires k in a && ShapesAgree(a, b)
    ensures |r| == |a[k]|
    ensures k !in b ==> r == a[k]
  {
    if k in b then BlendTensors(blend, a[k], b[k]) else a[k]
  }

  /** The merged dictionary as a value: one entry per key of A. */
  function Merged(a: map<Key, Tensor>, b: map<Key, Tensor>, blend: Blend): (m: map<Key, Tensor>)
    requires ShapesAgree(a, b)
    ensures m.Keys == a.Keys
    ensures forall k :: k in m ==> |m[k]| == |a[k]|
  {
    map k | k in a :: MergedEntry(a, b, blend, k)
  }

  /** The merged dictionary for the arguments `merge_checkpoints` receives. */
  function MergeSpec(a: map<Key, Tensor>, b: map<Key, Tensor>, mode: string, alpha: real, multiplier: real): (m: map<Key, Tensor>)
    requires ShapesAgree(a, b)
    ensures m.Keys == a.Keys
    ensures forall k :: k in m ==> |m[k]| == |a[k]|
    ensures forall k :: k in a && k !in b ==> m[k] == a[k]
  {
    Merged(a, b, SelectBlend(mode, alpha, multiplier))
  }

  /** One of the three loops of `merge_checkpoints`: walk A's keys in order
      and store the blended or copied tensor under each in a new dict. */
  method MergeStateDicts(modelA: StateDict, modelB: StateDict, blend: Blend) returns (merged: StateDict)
    requires modelA.Valid()
    requires ShapesAgree(modelA.tensors, modelB.tensors)
    ensures merged.Valid()
    ensures merged.order == modelA.order
    ensures merged.tensors == Merged(modelA.tensors, modelB.tensors, blend)
  {
    merged := StateDict([], map[]);
    for i := 0 to |modelA.order|
      invariant MergedUpTo(merged, modelA, modelB, blend, i)
    {
      var key := modelA.order[i];
      var value;
      if key in modelB.tensors {
        value := BlendTensors(blend, modelA.tensors[key], modelB.tensors[key]);
      } else {
        value := modelA.tensors[key];
      }
      MergedUpToStep(merged, modelA, modelB, blend, i);
      merged := merged.Set(key, value);
    }
    MergedUpToEnd(merged, modelA, modelB, blend);
  }

  /** The loop invariant: after i keys, the new dict holds A's first i keys,
      in A's order, each with its merged value. */
  ghost predicate MergedUpTo(merged: StateDict, modelA: StateDict, modelB: StateDict, blend: Blend, i: nat)
  {
    && modelA.Valid()
    && ShapesAgree(modelA.tensors, modelB.tensors)
    && i <= |modelA.order|
    && merged.Valid()
    && merged.order == modelA.order[..i]
    && forall k :: k in merged.tensors ==>
         k in modelA.tensors && merged.tensors[k] == MergedEntry(modelA.tensors, modelB.tensors, blend, k)
  }

  lemma MergedUpToStep(merged: StateDict, modelA: StateDict, modelB: StateDict, blend: Blend, i: nat)
    requires MergedUpTo(merged, modelA, modelB, blend, i) && i < |modelA.order|
    ensures modelA.order[i] !in merged.tensors
    ensures MergedUpTo(merged.Set(modelA.order[i], MergedEntry(modelA.tensors, modelB.tensors, blend, modelA.order[i])),
                       modelA, modelB, blend, i + 1)
  {
    var key := modelA.order[i];
    assert modelA.order[..i + 1] == modelA.order[..i] + [key];
  }

  lemma MergedUpToEnd(merged: StateDict, modelA: StateDict, modelB: StateDict, blend: Blend)
    requires MergedUpTo(merged, modelA, modelB, blend, |modelA.order|)
    ensures merged.Valid()
    ensures merged.order == modelA.order
    ensures merged.tensors == Merged(modelA.tensors, modelB.tensors, blend)
  {
    assert modelA.order[..|modelA.order|] == modelA.order;
  }

  /** `merge_checkpoints(model_a_path, model_b_path, output_path, alpha,
      merge_mode, use_safetensors, multiplier)`. The dicts the loaders return
      for the two paths are the parameters modelA and modelB; the I/O steps
      taken are returned in io, and the output path in result. */
  method MergeCheckpoints(
    modelAPath: string, modelBPath: string, outputPath: string,
    alpha: real, mergeMode: string, useSafetensors: bool, multiplier: real,
    modelA: StateDict, modelB: StateDict)
    returns (io: seq<IoStep>, result: string)
    requires modelA.Valid()
    requires ShapesAgree(modelA.tensors, modelB.tensors)
    ensures result == outputPath
    ensures |io| == 3
    ensures io[0] == Loaded(modelAPath, LoadFormat(modelAPath))
    ensures io[1] == Loaded(modelBPath, LoadFormat(modelBPath))
    ensures io[2].Saved? && io[2].path == outputPath && io[2].format == SaveFormat(useSafetensors)
    ensures io[2].dict.Valid() && io[2].dict.order == modelA.order
    ensures io[2].dict.tensors == MergeSpec(modelA.tensors, modelB.tensors, mergeMode, alpha, multiplier)
  {
    io := [LoadCheckpoint(modelAPath)];
    io := io + [LoadCheckpoint(modelBPath)];
    var merged;
    if mergeMode == WeightSumMode {
      merged := MergeStateDicts(modelA, modelB, WeightSum(alpha));
    } else if mergeMode == AddDifferenceMode {
      merged := MergeStateDicts(modelA, modelB, AddDiff(alpha, multiplier));
    } else {
      // unknown mode: weighted sum
      merged := MergeStateDicts(modelA, modelB, WeightSum(alpha));
    }
    io := io + [SaveCheckpoint(merged, outputPath, useSafetensors)];
    result := outputPath;
  }

  /** The output has exactly A's keys: nothing of A is lost and no key that
      only B has appears, in every mode. */
  lemma MergeKeysAreKeysOfA(a: map<Key, Tensor>, b: map<Key, Tensor>, mode: string, alpha: real, multiplier: real)
    requires ShapesAgree(a, b)
    ensures MergeSpec(a, b, mode, alpha, multiplier).Keys == a.Keys
    ensures forall k :: k in b && k !in a ==> k !in MergeSpec(a, b, mode, alpha, multiplier)
  {
  }

  /** A key only A has is copied verbatim, whatever the mode and scalars. */
  lemma MergeCopiesKeysOnlyInA(a: map<Key, Tensor>, b: map<Key, Tensor>, mode: string, alpha: real, multiplier: real, k: Key)
    requires ShapesAgree(a, b)
    requires k in a && k !in b
    ensures MergeSpec(a, b, mode, alpha, multiplier)[k] == a[k]
  {
  }

  /** A key both models have gets the formula of the selected mode. */
  lemma MergeBlendsSharedKeys(a: map<Key, Tensor>, b: map<Key, Tensor>, mode: string, alpha: real, multiplier: real, k: Key)
    requires ShapesAgree(a, b)
    requires k in a && k in b
    ensures mode == AddDifferenceMode ==> MergeSpec(a, b, mode, alpha, multiplier)[k] == AddDifference(a[k], b[k], alpha, multiplier)
    ensures mode != AddDifferenceMode ==> MergeSpec(a, b, mode, alpha, multiplier)[k] == WeightedSum(a[k], b[k], alpha)
  {
  }

  /** Any mode string other than the two known ones merges exactly as
      "weight_sum" does. */
  lemma UnknownModeIsWeightSum(a: map<Key, Tensor>, b: map<Key, Tensor>, mode: string, alpha: real, multiplier: real)
    requires ShapesAgree(a, b)
    requires mode != WeightSumMode && mode != AddDifferenceMode
    ensures MergeSpec(a, b, mode, alpha, multiplier) == MergeSpec(a, b, WeightSumMode, alpha, multiplier)
  {
  }

  /** Weighted sum with ratio 0 gives back model A unchanged. */
  lemma WeightSumAtZeroIsA(a: map<Key, Tensor>, b: map<Key, Tensor>, mode: string, multiplier: real)
    requires ShapesAgree(a, b)
    requires mode != AddDifferenceMode
    ensures MergeSpec(a, b, mode, 0.0, multiplier) == a
  {
    forall k | k in a ensures MergeSpec(a, b, mode, 0.0, multiplier)[k] == a[k] {
      if k in b {
        WeightedSumAtZero(a[k], b[k]);
      }
    }
  }

  /** Weighted sum with ratio 1 takes B's tensor for every key both have and
      keeps A's for the rest. */
  lemma WeightSumAtOneTakesB(a: map<Key, Tensor>, b: map<Key, Tensor>, mode: string, multiplier: real)
    requires ShapesAgree(a, b)
    requires mode != AddDifferenceMode
    ensures forall k :: k in a && k in b ==> MergeSpec(a, b, mode, 1.0, multiplier)[k] == b[k]
    ensures forall k :: k in a && k !in b ==> MergeSpec(a, b, mode, 1.0, multiplier)[k] == a[k]
  {
    forall k | k in a && k in b ensures MergeSpec(a, b, mode, 1.0, multiplier)[k] == b[k] {
      WeightedSumAtOne(a[k], b[k]);
    }
  }

  /** `add_difference` merges as `weight_sum` at ratio multiplier * alpha. */
  lemma AddDifferenceIsScaledWeightSum(a: map<Key, Tensor>, b: map<Key, Tensor>, alpha: real, multiplier: real, anyMultiplier: real)
    requires ShapesAgree(a, b)
    ensures MergeSpec(a, b, AddDifferenceMode, alpha, multiplier) == MergeSpec(a, b, WeightSumMode, multiplier * alpha, anyMultiplier)
  {
    var r := MergeSpec(a, b, AddDifferenceMode, alpha, multiplier);
    var w := MergeSpec(a, b, WeightSumMode, multiplier * alpha, anyMultiplier);
    forall k | k in a ensures r[k] == w[k] {
      if k in b {
        AddDifferenceIsWeightedSum(a[k], b[k], alpha, multiplier);
      }
    }
  }

  /** With multiplier 1 the two modes give the same merged model. */
  lemma ModesAgreeAtUnitMultiplier(a: map<Key, Tensor>, b: map<Key, Tensor>, alpha: real, anyMultiplier: real)
    requires ShapesAgree(a, b)
    ensures MergeSpec(a, b, AddDifferenceMode, alpha, 1.0) == MergeSpec(a, b, WeightSumMode, alpha, anyMultiplier)
  {
    var r := MergeSpec(a, b, AddDifferenceMode, alpha, 1.0);
    var w := MergeSpec(a, b, WeightSumMode, alpha, anyMultiplier);
    forall k | k in a ensures r[k] == w[k] {
      if k in b {
        AddDifferenceUnitMultiplier(a[k], b[k], alpha);
      }
    }
  }

  /** When both models have the same keys, the weighted sum is symmetric:
      A into B at alpha equals B into A at 1 - alpha. The only asymmetry of
      the merge is which keys it keeps. */
  lemma WeightSumSymmetricOnSameKeys(a: map<Key, Tensor>, b: map<Key, Tensor>, alpha: real, multiplier: real)
    requires ShapesAgree(a, b) && a.Keys == b.Keys
    ensures ShapesAgree(b, a)
    ensures MergeSpec(a, b, WeightSumMode, alpha, multiplier) == MergeSpec(b, a, WeightSumMode, 1.0 - alpha, multiplier)
  {
    var r := MergeSpec(a, b, WeightSumMode, alpha, multiplier);
    var s := MergeSpec(b, a, WeightSumMode, 1.0 - alpha, multiplier);
    forall k | k in a ensures r[k] == s[k] {
      WeightedSumSwap(a[k], b[k], alpha);
    }
  }

  /** A = {"w": [1, 2]}, B = {"w": [3, 4]}, "weight_sum", alpha 0.5. */
  lemma WeightSumExample()
    ensures ShapesAgree(map["w" := [1.0, 2.0]], map["w" := [3.0, 4.0]])
    ensures MergeSpec(map["w" := [1.0, 2.0]], map["w" := [3.0, 4.0]], WeightSumMode, 0.5, 1.0)
         == map["w" := [2.0, 3.0]]
  {
    var r := WeightedSum([1.0, 2.0], [3.0, 4.0], 0.5);
    WeightedSumAt([1.0, 2.0], [3.0, 4.0], 0.5, 0);
    WeightedSumAt([1.0, 2.0], [3.0, 4.0], 0.5, 1);
    assert r == [2.0, 3.0];
  }

  /** A = {"w": [1]}, B = {"w": [2]}, "add_difference", alpha 1,
      multiplier 2: the result overshoots B to 3. */
  lemma AddDifferenceExample()
    ensures ShapesAgree(map["w" := [1.0]], map["w" := [2.0]])
    ensures MergeSpec(map["w" := [1.0]], map["w" := [2.0]], AddDifferenceMode, 1.0, 2.0)
         == map["w" := [3.0]]
  {
    var r := AddDifference([1.0], [2.0], 1.0, 2.0);
    AddDifferenceAt([1.0], [2.0], 1.0, 2.0, 0);
    assert r == [3.0];
  }

  /** A = {"w": [1], "x": [9]}, B = {"w": [2]}: "x" is copied, "w" blended,
      and the mode string "slerp" merges as "weight_sum". */
  lemma KeyOnlyInAExample()
    ensures ShapesAgree(map["w" := [1.0], "x" := [9.0]], map["w" := [2.0]])
    ensures MergeSpec(map["w" := [1.0], "x" := [9.0]], map["w" := [2.0]], "slerp", 0.5, 1.0)
         == map["w" := [1.5], "x" := [9.0]]
  {
    var r := WeightedSum([1.0], [2.0], 0.5);
    WeightedSumAt([1.0], [2.0], 0.5, 0);
    assert r == [1.5];
    var m := MergeSpec(map["w" := [1.0], "x" := [9.0]], map["w" := [2.0]], "slerp", 0.5, 1.0);
    assert m.Keys == {"w", "x"};
  }
}
