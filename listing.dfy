/** `get_checkpoint_files`: the checkpoint files offered for merging. The
    directory's existence and its listing are inputs; the host settings that
    choose the directory are not part of this model. */
module Listing {
  import opened Strings
  import Checkpoint

  /** `f.endswith(('.ckpt', '.safetensors'))`. */
  predicate IsCheckpointName(f: string) {
    EndsWith(f, Checkpoint.CkptSuffix) || EndsWith(f, Checkpoint.SafetensorsSuffix)
  }

  /** The listing entries that name checkpoints, in listing order. */
  function CheckpointNames(listing: seq<string>): (r: seq<string>)
    ensures |r| <= |listing|
    ensures forall f :: f in r <==> f in listing && IsCheckpointName(f)
    decreases |listing|
  {
    if listing == [] then []
    else
      var init := listing[..|listing| - 1];
      var rest := CheckpointNames(init);
      var f := listing[|listing| - 1];
      assert listing == init + [f];
      if IsCheckpointName(f) then rest + [f] else rest
  }

  /** Each checkpoint name occurs as often as in the listing; nothing else
      occurs. */
  lemma {:induction false} CheckpointNamesCount(listing: seq<string>, f: string)
    ensures multiset(CheckpointNames(listing))[f] == if IsCheckpointName(f) then multiset(listing)[f] else 0
    decreases |listing|
  {
    if listing != [] {
      var init := listing[..|listing| - 1];
      CheckpointNamesCount(init, f);
      assert listing == init + [listing[|listing| - 1]];
    }
  }

  /** The files to offer: nothing when the directory does not exist, else
      the checkpoint names of its listing, appended one by one and then
      sorted. */
  method GetCheckpointFiles(dirExists: bool, listing: seq<string>) returns (files: seq<string>)
    ensures !dirExists ==> files == []
    ensures dirExists ==> Sorted(files)
    ensures dirExists ==> forall f :: multiset(files)[f] == if IsCheckpointName(f) then multiset(listing)[f] else 0
  {
    if !dirExists {
      return [];
    }
    files := [];
    for i := 0 to |listing|
      invariant files == CheckpointNames(listing[..i])
    {
      var f := listing[i];
      if IsCheckpointName(f) {
        files := files + [f];
      }
      assert listing[..i + 1][..i] == listing[..i];
    }
    assert listing[..|listing|] == listing;
    var unsorted := files;
    files := SortNames(unsorted);
    SortNamesCorrect(unsorted);
    forall f ensures multiset(files)[f] == if IsCheckpointName(f) then multiset(listing)[f] else 0 {
      CheckpointNamesCount(listing, f);
    }
  }

  /** The result is exactly what Python's `sorted` returns on the filtered
      listing: any sorted list with the same elements is this one. */
  lemma FilesAreTheSortedNames(listing: seq<string>, sortedNames: seq<string>)
    requires Sorted(sortedNames)
    requires multiset(sortedNames) == multiset(CheckpointNames(listing))
    ensures sortedNames == SortNames(CheckpointNames(listing))
  {
    SortNamesCorrect(CheckpointNames(listing));
    SortedPermutationUnique(sortedNames, SortNames(CheckpointNames(listing)));
  }

  /** Names differing only in case, or carrying the suffix in the middle, are
      not offered. */
  lemma CheckpointNameExamples()
    ensures IsCheckpointName("model.ckpt") && IsCheckpointName("model.safetensors")
    ensures !IsCheckpointName("model.CKPT") && !IsCheckpointName("model.ckpt.bak")
  {
    assert EndsWith("model.ckpt", ".ckpt");
    assert EndsWith("model.safetensors", ".safetensors");
    assert "model.CKPT"[5..] != ".ckpt";
    assert "model.ckpt.bak"[9..] != ".ckpt";
    assert "model.ckpt.bak"[2..] != ".safetensors";
  }
}
