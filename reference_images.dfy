/** The reference-image list of the uploader: selected files are read as base64 and
    appended, the list is cut to its first ten entries, and an entry is removed by its
    position. The list is a value; each handler computes the next one. */
module ReferenceImages {
  import opened Js
  import opened Types
  import opened PlateUtils

  const MaxReferenceImages := 10

  /** `[...current, ...added].slice(0, 10)`. */
  function AddImages(current: seq<ImageFile>, added: seq<ImageFile>): seq<ImageFile>
  {
    Take(current + added, MaxReferenceImages)
  }

  /** Adding yields the first `min(10, |current| + |added|)` entries of the concatenation:
      never more than ten; a list of at most ten is kept as the prefix and is followed by
      the first new images in their selection order; a longer list is cut to ten. */
  lemma {:induction false} AddImagesSpec(current: seq<ImageFile>, added: seq<ImageFile>)
    ensures var r := AddImages(current, added);
      && |r| == (if |current| + |added| <= MaxReferenceImages then |current| + |added| else MaxReferenceImages)
      && r == (current + added)[..|r|]
      && |r| <= MaxReferenceImages
      && (|current| <= MaxReferenceImages ==>
            r[..|current|] == current && r[|current|..] == added[..|r| - |current|])
      && (|current| > MaxReferenceImages ==> r == current[..MaxReferenceImages])
  {
    var r := AddImages(current, added);
    var all := current + added;
    if |current| <= MaxReferenceImages {
      assert r[..|current|] == all[..|r|][..|current|] == current;
      assert r[|current|..] == added[..|r| - |current|] by {
        forall k | 0 <= k < |r| - |current| ensures r[|current| + k] == added[k] {
          assert r[|current| + k] == all[|current| + k];
        }
      }
    } else {
      assert r == all[..MaxReferenceImages] == current[..MaxReferenceImages];
    }
  }

  /** A full list of ten takes no more images. */
  lemma {:induction false} FullListUnchanged(current: seq<ImageFile>, added: seq<ImageFile>)
    requires |current| == MaxReferenceImages
    ensures AddImages(current, added) == current
  {
    assert (current + added)[..MaxReferenceImages] == current;
  }

  /** Adding nothing to a list of at most ten leaves it as it was. */
  lemma {:induction false} AddNothingKeepsList(current: seq<ImageFile>)
    requires |current| <= MaxReferenceImages
    ensures AddImages(current, []) == current
  {
    assert current + [] == current;
  }

  /** The promises of `files.map(fileToBase64)`: the `i`-th selected file read with the
      outcome `read(i)` of its reader. */
  function ReadOutcomes(files: seq<FileRef>, read: nat -> Outcome<string>): (r: seq<Outcome<ImageFile>>)
    ensures |r| == |files|
    ensures forall i :: 0 <= i < |files| ==> r[i] == FileToBase64(files[i], read(i))
  {
    seq(|files|, i requires 0 <= i < |files| => FileToBase64(files[i], read(i)))
  }

  /** `handleImageChange`: `files` is the input's file list, if any. Once every read has
      resolved the new images are added; if one read fails the `then` never runs and the
      list stays as it was. */
  function HandleImageChange(current: seq<ImageFile>, files: Option<seq<FileRef>>, read: nat -> Outcome<string>)
    : seq<ImageFile>
  {
    var selected := files.GetOr([]);
    match All(ReadOutcomes(selected, read))
    case Returned(newImages) => AddImages(current, newImages)
    case Threw(_) => current
  }

  /** The list after a change is the old one when some read fails. When every read
      succeeds it is the old one with the new images appended and cut to ten: one image per
      selected file, in selection order, each the reading of that file's own reader. A list
      of at most ten never grows past ten, and no file list changes nothing. */
  lemma {:induction false} HandleImageChangeSpec(current: seq<ImageFile>, files: Option<seq<FileRef>>,
                                                 read: nat -> Outcome<string>)
    ensures var selected := files.GetOr([]);
      var r := HandleImageChange(current, files, read);
      && ((exists i :: 0 <= i < |selected| && ReadOutcomes(selected, read)[i].Threw?) ==> r == current)
      && ((forall i :: 0 <= i < |selected| ==> ReadOutcomes(selected, read)[i].Returned?) ==>
            exists newImages: seq<ImageFile> ::
              && |newImages| == |selected|
              && (forall i :: 0 <= i < |selected| ==>
                    && FileToBase64(selected[i], read(i)) == Returned(newImages[i])
                    && newImages[i].file == selected[i])
              && r == AddImages(current, newImages))
      && (|current| <= MaxReferenceImages ==> |r| <= MaxReferenceImages)
      && (files.None? && |current| <= MaxReferenceImages ==> r == current)
  {
    var selected := files.GetOr([]);
    var outcomes := ReadOutcomes(selected, read);
    var all := All(outcomes);
    if all.Returned? {
      var newImages := all.value;
      forall i | 0 <= i < |selected|
        ensures FileToBase64(selected[i], read(i)) == Returned(newImages[i]) && newImages[i].file == selected[i]
      {
        FileToBase64Spec(selected[i], read(i));
        assert outcomes[i] == Returned(newImages[i]);
      }
      AddImagesSpec(current, newImages);
      if files.None? && |current| <= MaxReferenceImages {
        assert newImages == [];
        AddNothingKeepsList(current);
      }
    }
  }

  /** `images.filter((_, i) => i !== index)` over the entries from position `base` on. */
  function KeepOthers(images: seq<ImageFile>, index: int, base: nat): seq<ImageFile>
    decreases |images|
  {
    if images == [] then []
    else (if base == index then [] else [images[0]]) + KeepOthers(images[1..], index, base + 1)
  }

  /** `removeImage(index)`. */
  function RemoveImage(images: seq<ImageFile>, index: int): seq<ImageFile>
  {
    KeepOthers(images, index, 0)
  }

  /** Filtering from `base` drops exactly the entry at position `index`, if it lies in
      range, and keeps everything else in order. */
  lemma {:induction false} KeepOthersSpec(images: seq<ImageFile>, index: int, base: nat)
    ensures KeepOthers(images, index, base)
            == if base <= index < base + |images| then images[..index - base] + images[index - base + 1..]
               else images
    decreases |images|
  {
    if images != [] {
      KeepOthersSpec(images[1..], index, base + 1);
      if base < index < base + |images| {
        assert [images[0]] + images[1..][..index - base - 1] == images[..index - base];
        assert images[1..][index - base..] == images[index - base + 1..];
      } else if base != index {
        assert [images[0]] + images[1..] == images;
      }
    }
  }

  /** Removing an index in range deletes exactly that entry, keeping the others in order;
      an index out of range leaves the list unchanged. */
  lemma {:induction false} RemoveImageSpec(images: seq<ImageFile>, index: int)
    ensures var r := RemoveImage(images, index);
      && (0 <= index < |images| ==> r == images[..index] + images[index + 1..] && |r| == |images| - 1)
      && (!(0 <= index < |images|) ==> r == images)
  {
    KeepOthersSpec(images, index, 0);
  }

  /** Starting from at most ten images, both handlers keep the list at most ten long. */
  lemma {:induction false} AtMostTenPreserved(current: seq<ImageFile>, files: Option<seq<FileRef>>,
                                              read: nat -> Outcome<string>, index: int)
    requires |current| <= MaxReferenceImages
    ensures |HandleImageChange(current, files, read)| <= MaxReferenceImages
    ensures |RemoveImage(current, index)| <= MaxReferenceImages
  {
    HandleImageChangeSpec(current, files, read);
    RemoveImageSpec(current, index);
  }
}
