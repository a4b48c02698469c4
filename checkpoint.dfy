/** What `merge_checkpoints` loads and saves: a state dict (parameter name to
    tensor, in insertion order) and the choice between the two file formats.
    The actual reading and writing goes through foreign libraries and the
    disk; the model keeps the decision each branch makes and records the I/O
    as steps. */
module Checkpoint {
  import opened Strings
  import opened Tensors

  type Key = string

  /** A Python dict from parameter name to tensor. Iterating `.keys()` visits
      `order`; `tensors` gives the value of each key. */
  datatype StateDict = StateDict(order: seq<Key>, tensors: map<Key, Tensor>) {
    /** Each key occurs once in the order, and the order lists exactly the
        keys of the dict. */
    ghost predicate Valid() {
      && (forall i, j :: 0 <= i < j < |order| ==> order[i] != order[j])
      && (forall k :: k in tensors <==> k in order)
    }

    /** `d[key] = value`: a new key goes to the end of the order, an existing
        key keeps its place and takes the new value. */
    function Set(key: Key, value: Tensor): (d: StateDict)
      requires Valid()
      ensures d.Valid()
      ensures d.tensors == tensors[key := value]
      ensures key !in tensors ==> d.order == order + [key]
      ensures key in tensors ==> d.order == order
    {
      if key in tensors then StateDict(order, tensors[key := value])
      else StateDict(order + [key], tensors[key := value])
    }
  }

  /** `safetensors.torch` files, or `torch.save` pickles (".ckpt"). */
  datatype Format = SafeTensors | TorchPickle

  const SafetensorsSuffix := ".safetensors"
  const CkptSuffix := ".ckpt"

  /** The branch `load_checkpoint` takes: safetensors exactly when the path
      ends with ".safetensors", the pickle loader for every other path. */
  function LoadFormat(path: string): (f: Format)
    ensures f == SafeTensors <==> EndsWith(path, SafetensorsSuffix)
  {
    if EndsWith(path, SafetensorsSuffix) then SafeTensors else TorchPickle
  }

  /** The branch `save_checkpoint` takes: chosen by the flag alone. */
  function SaveFormat(useSafetensors: bool): (f: Format)
    ensures f == SafeTensors <==> useSafetensors
  {
    if useSafetensors then SafeTensors else TorchPickle
  }

  /** The I/O of one merge, in the order it happens. */
  datatype IoStep =
    | Loaded(path: string, format: Format)
    | Saved(path: string, format: Format, dict: StateDict)

  /** `load_checkpoint(filepath)`: reads with the loader its suffix selects. */
  function LoadCheckpoint(path: string): (r: IoStep)
    ensures r.Loaded? && r.path == path
    ensures r.format == SafeTensors <==> EndsWith(path, SafetensorsSuffix)
  {
    Loaded(path, LoadFormat(path))
  }

  /** `save_checkpoint(state_dict, filepath, use_safetensors)`. */
  function SaveCheckpoint(dict: StateDict, path: string, useSafetensors: bool): (r: IoStep)
    ensures r.Saved? && r.path == path && r.dict == dict
    ensures r.format == SafeTensors <==> useSafetensors
  {
    Saved(path, SaveFormat(useSafetensors), dict)
  }

  /** A ".ckpt" file is read by the pickle loader; a ".safetensors" file by
      the safetensors loader. */
  lemma LoadFormatBySuffix(path: string)
    ensures EndsWith(path, CkptSuffix) ==> LoadCheckpoint(path).format == TorchPickle
    ensures EndsWith(path, SafetensorsSuffix) ==> LoadCheckpoint(path).format == SafeTensors
  {
    if EndsWith(path, CkptSuffix) {
      CkptIsNotSafetensors(path);
    }
  }

  /** The saved format does not depend on the output path: two saves that
      differ only in the path write the same format. */
  lemma SaveFormatIgnoresPath(dict: StateDict, p: string, q: string, useSafetensors: bool)
    ensures SaveCheckpoint(dict, p, useSafetensors).format == SaveCheckpoint(dict, q, useSafetensors).format
    ensures SaveCheckpoint(dict, p, useSafetensors).dict == dict
  {
  }

  /** Loading a saved file takes the branch matching the format it was written
      in exactly when the flag agrees with the output path's suffix. With the
      flag off and a ".safetensors" name, or on and any other name, the file
      is later read by the wrong loader. */
  lemma SavedFileReloadsInFormat(dict: StateDict, path: string, useSafetensors: bool)
    ensures var saved := SaveCheckpoint(dict, path, useSafetensors);
      (LoadCheckpoint(saved.path).format == saved.format) <==> (useSafetensors <==> EndsWith(path, SafetensorsSuffix))
  {
  }

  /** The merge tab saves to `os.path.join(checkpoint_dir, out_name)`; with
      the proposed name "merged_model.safetensors" that path is the directory
      followed by the name, whether or not a separator is inserted. With the
      "Use SafeTensors" box left ticked the file reloads in the format it was
      saved in; unticking the box alone breaks that. */
  lemma DefaultOutputReloads(dict: StateDict, dirPrefix: string)
    ensures var saved := SaveCheckpoint(dict, dirPrefix + "merged_model.safetensors", true);
      LoadCheckpoint(saved.path).format == saved.format
    ensures var saved := SaveCheckpoint(dict, dirPrefix + "merged_model.safetensors", false);
      LoadCheckpoint(saved.path).format != saved.format
  {
    assert (dirPrefix + "merged_model") + SafetensorsSuffix == dirPrefix + "merged_model.safetensors";
  }
}
