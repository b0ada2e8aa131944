# SimilarPhotoRemover, modelled in Dafny

`SimilarPhotoRemover` cleans a flat folder of photos taken by several fixed
cameras. The first three characters of a file name identify the camera. The
object runs in three steps:

- `load_input` groups the folder listing into a dictionary from camera key to
  file names. Keys keep their first-seen order. The name that creates a key
  is not appended to that key's own list.
- `identify_similar_photos` walks each camera's list. It holds a
  representative image, which is reset to none at the start of each camera.
  - A name that cannot be decoded is unwanted.
  - The first decoded image becomes the representative.
  - Every later image is resized to the representative's rows and columns if
    its shape differs. Both images are preprocessed and scored.
  - A score strictly below the threshold makes the image unwanted, and the
    representative stays. Any other score makes the image the new
    representative.
- `remove_similar_photos` deletes the unwanted files and keeps a count.

The model has five modules:

- `Listing` (`listing.dfy`) holds the loader's grouping as functions: `Prefix`,
  `Insert` and `Group`. It proves what the catalog contains, with the help of
  two reference definitions. `WithPrefix` lists the names that have a given
  key. `FirstWith` gives the index of the first such name.
- `ChangeDetection` (`change_detection.dfy`) holds the detector as a fold:
  - `Visit` is one step. `Resume` runs the steps over a list of names from a
    given state. `CameraWalk` is one camera's walk, resumed from no
    representative. `CatalogUnwanted` gives the cameras' walks in key order.
  - Images are abstract: a shape (rows, cols, channels) plus opaque pixels.
  - `cv2.imread`, the pixel work of `cv2.resize`,
    `preprocess_image_change_detection` and the score of
    `compare_frames_change_detection` are the fields of a `Toolkit`. They are
    functions the model knows nothing about.
  - `Resize` fixes OpenCV's convention for the target size: `dsize` is read
    as (width, height).
  - Scores, the threshold and the minimum contour area are `real`.
- `PhotoRemover` (`photo_remover.dfy`) holds the class `SimilarPhotoRemover`.
  - Its fields are `folder`, `datasetDict`, `cameras` and `unwantedImages`.
    `cameras` is the key order of `datasetDict`, the order a Python dict
    iterates in.
  - In Python, `dataset_dict` and `unwanted_images` do not exist until
    `load_input` and `identify_similar_photos` create them. Calling a method
    before those attributes exist raises `AttributeError`. Two ghost flags,
    `loaded` and `identified`, record which methods have run. The later
    methods require them, so the model admits only the call order the source
    supports.
  - Its three methods are loops, written as the source writes them.
    `LoadInput` and `IdentifySimilarPhotos` are proved against the
    specification functions above (`Group` and `CatalogUnwanted`).
    `RemoveSimilarPhotos` is proved against a closed form over sets: the
    folder minus the names on the removal list.
- `Subsequences` (`subsequences.dfy`) defines order-preserving sub-lists and
  sequences without repeats.
- `Scenarios` (`scenarios.dfy`) works through concrete cases.

The loader leaves each camera's first file out of that camera's list, so
that file is never examined. The model reproduces this as the code has it.
The remover's counter goes down on a failed deletion. So it reports successes
minus failures, not the number of files removed. The model keeps that
behaviour too.

## Model

| member | source | states |
|---|---|---|
| `Listing.Prefix` | code/kopernikus_solution.py:44 | The camera key is a prefix of the name, of length 3, or the whole name when the name is shorter (Python slice clamping). |
| `Listing.Insert` | code/kopernikus_solution.py:44-48 | One turn of the loader's loop, and the definition that `Group` and the loop of `LoadInput` are proved against. Afterwards the name's key is present. The key order is either unchanged or has that key appended. |
| `Listing.Group` | code/kopernikus_solution.py:43-48 | The catalog the loader builds, in listing order. It is the definition that the lemmas below and the loop of `LoadInput` are proved against. It never has more keys than names. |
| `Listing.GroupKeys` | code/kopernikus_solution.py:43-46 | The dictionary's keys are exactly the entries of its key order. A key is present if and only if some listed name has that prefix. Every listed name's prefix is a key. |
| `Listing.GroupOrder` | code/kopernikus_solution.py:43-46 | Keys appear in strictly increasing order of their first occurrence in the listing, so each appears once, in first-seen order. |
| `Listing.GroupLists` | code/kopernikus_solution.py:45-48 | Each key's list is exactly the listed names with that key except the first one, in listing order. A camera with n listed files gets n - 1 names. |
| `Listing.GroupNamesListed` | code/kopernikus_solution.py:43-48 | Every name in the dictionary is a listed name, filed under its own prefix. |
| `Listing.GroupListsDistinct` | code/kopernikus_solution.py:43-48 | When the folder listing names each file once, so does every camera's list. |
| `PhotoRemover.SimilarPhotoRemover.constructor` | code/kopernikus_solution.py:12-14 | Stores the folder. Neither the catalog nor the removal list exists yet: both ghost flags are false. |
| `PhotoRemover.SimilarPhotoRemover.LoadInput` | code/kopernikus_solution.py:39-48 | The loop leaves the dictionary and key order equal to `Group(listing)`. Keys and key order agree, with no key repeated. The catalog now exists. |
| `ChangeDetection.Resize` | code/kopernikus_solution.py:112-116 | The shape convention of `cv2.resize`: `dsize` is read as (width, height), so the result has `dsize.1` rows and `dsize.0` columns, and it keeps the source's channels. |
| `ChangeDetection.Reconcile` | code/kopernikus_solution.py:110-116 | The image handed to preprocessing has the representative's rows and columns. It is the decoded image itself when the shapes already match. Resizing with `dsize = (shape[1], shape[0])` keeps the candidate's channels. |
| `ChangeDetection.Score` | code/kopernikus_solution.py:118-126 | Both images are preprocessed with the blur radii and compared with the minimum contour area. Only the score is kept. This is the definition that `Visit` and the loop of `IdentifySimilarPhotos` are proved against. |
| `ChangeDetection.Visit` | code/kopernikus_solution.py:94-136 | One turn of the inner loop, and the definition the walk lemmas and the inner loop are proved against. Each file is either appended to the unwanted names, with the representative unchanged, or nothing is appended and the file has decoded. In that case its image becomes the representative: as decoded when there was none, otherwise reconciled to the old representative's rows and columns. |
| `ChangeDetection.Resume` | code/kopernikus_solution.py:91-136 | The inner loop run from a given state. The unwanted names found before are kept as a prefix, and at most one name per file is appended. |
| `ChangeDetection.CameraWalk` | code/kopernikus_solution.py:86-136 | One camera's walk, starting from no representative. It is the definition the walk lemmas and the inner loop are proved against. A camera never has more unwanted names than files. |
| `ChangeDetection.Failures` | code/kopernikus_solution.py:95-100 | Reference definition: the names that fail to decode, in order. Each of them fails to decode, and there are no more of them than names. |
| `ChangeDetection.CatalogUnwanted` | code/kopernikus_solution.py:80-136 | The removal list: the cameras' walks in key order, each starting from no representative. It is the definition the outer loop is proved against. It is never longer than the catalog's lists together. |
| `ChangeDetection.UnwantedFromList` | code/kopernikus_solution.py:91-99 | A camera's unwanted names are a subsequence of its own list, so there are never more of them than the list has. |
| `ChangeDetection.ResumeSplit` | code/kopernikus_solution.py:91-136 | Walking `pre + post` is walking `pre` and then continuing from that state over `post`. |
| `ChangeDetection.ResumeShift` | code/kopernikus_solution.py:91-136 | What the walk does after a point depends only on the representative at that point. The unwanted names found earlier are carried along in front of the new ones. |
| `ChangeDetection.ResumeFromList` | code/kopernikus_solution.py:91-136 | The names a walk appends after any point are a subsequence of the names it visits after that point. |
| `ChangeDetection.UnwantedTransparent` | code/kopernikus_solution.py:128-136 | A file that is unwanted at its step (it fails to decode, or scores below the threshold) does not change the rest of the walk. With or without it, every later decision and the final representative are the same, and it only adds its own name to the list. |
| `ChangeDetection.UnreadableUnwanted` | code/kopernikus_solution.py:95-100 | The names that fail to decode are a subsequence of the unwanted list. Each one is unwanted whatever the scores are. |
| `ChangeDetection.NothingDecoded` | code/kopernikus_solution.py:95-100 | While no name has decoded, there is no representative and every name is unwanted. |
| `ChangeDetection.FirstDecodedKept` | code/kopernikus_solution.py:102-106 | The first decoded image becomes the representative without a comparison and is not appended. After it, the unwanted names are exactly the names before it. |
| `ChangeDetection.RemovedIffNotKept` | code/kopernikus_solution.py:95-136 | For a camera list without repeated names: a file ends up in the camera's unwanted list if and only if it was not kept at its step. A file is kept when it decodes and either there is no representative yet or it scores at least the threshold. So every representative, the first and each replacement, survives the whole walk. |
| `ChangeDetection.FirstDecodedSurvives` | code/kopernikus_solution.py:102-106 | For a camera list without repeated names, the first decoded image is never in the camera's unwanted list, whatever follows it. |
| `ChangeDetection.AtMostOneDecodable` | code/kopernikus_solution.py:95-106 | A camera whose list holds at most one decodable image contributes exactly its decode failures. |
| `ChangeDetection.RepresentativeSize` | code/kopernikus_solution.py:110-136 | After a camera's first decoded image, a representative exists for the rest of the walk. It always has that first image's rows and columns. |
| `ChangeDetection.CatalogSplit` | code/kopernikus_solution.py:83-88 | The removal list for a key order `a + b` is the list for `a` followed by the list for `b`, because each camera starts from no representative. |
| `ChangeDetection.CatalogCountOrderFree` | code/kopernikus_solution.py:83-88 | The number of unwanted names does not depend on which group of cameras is walked first. |
| `ChangeDetection.CamerasIndependent` | code/kopernikus_solution.py:83-88 | The removal list depends only on the lists of the cameras walked. Two dictionaries that agree on those cameras give the same list. |
| `ChangeDetection.CatalogUnwantedFromLists` | code/kopernikus_solution.py:83-99 | The removal list is a subsequence of the cameras' lists concatenated in key order. |
| `PhotoRemover.GroupWellFormed` | code/kopernikus_solution.py:43-46 | The loader's key order lists every key of its dictionary and nothing else, each exactly once. This is the class invariant `LoadInput` establishes. |
| `PhotoRemover.UnwantedDistinct` | code/kopernikus_solution.py:43-136 | When the folder listing names each file once, the removal list holds each name at most once, so no file is scheduled for deletion twice. |
| `PhotoRemover.EveryDeletionSucceeds` | code/kopernikus_solution.py:157-170 | On a normal run, the removal list has no repeats and every name on it is still in the folder. Then the files removed are exactly the unwanted ones, and the counter ends at the length of the removal list. The decrement in the `except` branch never fires. |
| `PhotoRemover.UnwantedAreListed` | code/kopernikus_solution.py:43-132 | From listing to removal list: the removal list is a subsequence of the catalog's lists in key order, and every unwanted name is a listed name. |
| `PhotoRemover.SimilarPhotoRemover.IdentifySimilarPhotos` | code/kopernikus_solution.py:80-136 | Requires a loaded catalog. The nested loops leave `unwantedImages` equal to `CatalogUnwanted` of the dictionary in key order, which is the per-camera walks one after another. The removal list now exists. |
| `PhotoRemover.SimilarPhotoRemover.RemoveSimilarPhotos` | code/kopernikus_solution.py:157-170 | Requires an existing removal list. The folder afterwards holds the files that were present minus the unwanted names. The counter ends at successful deletions minus failed ones, where a failure is an attempt on a file that is no longer there. |
| `Scenarios.ThreeFrames` | code/kopernikus_solution.py:102-136 | Concrete case with scores 100 and then 2000 against threshold 750: only the second frame is unwanted, and the third ends as the representative. |
| `Scenarios.UnreadableFirstFrame` | code/kopernikus_solution.py:95-106 | Concrete case: an undecodable first frame is unwanted, and the second frame becomes the representative without a comparison. |
| `Scenarios.LoaderDropsFirstNames` | code/kopernikus_solution.py:43-48 | Concrete listing: keys come in first-seen order, a short name is its own key, and each key's first name is missing from its list. |

## Left out

- Removing the `.DS_Store` marker (lines 33-36) is filesystem I/O. `LoadInput` takes the listing after that removal. Line 34 builds the marker's path with a literal backslash (`self.folder + r"\.DS_Store"`). Outside Windows, that path is not the marker inside the folder, so `.DS_Store` can stay in the listing. The model is unaffected, because the listing is a free input that may contain that name.
- `os.listdir` order is an input: the listing is a parameter.
- The folder is stored, but `os.path.join` and the filesystem under it are left out. Decoding is a function of the file name alone.
- File names are Dafny strings, which hold Unicode scalar values. A name that `os.listdir` returns with lone surrogate escapes (undecodable bytes) cannot be an input to the model.
- The pixel arithmetic of `cv2.resize`, `preprocess_image_change_detection` and `compare_frames_change_detection` is floating-point image processing in OpenCV and in a module that is not part of this model. Only their signatures are kept, plus the shape convention of `cv2.resize`.
- `compare_frames_change_detection` also returns contours and a difference image. The source discards both, and so does the model.
- `RemoveSimilarPhotos`: a deletion fails only when the file is no longer in the folder. Other causes of failure (permissions, path errors) are not modelled, since the model has no notion of them.
- Calling a method before the attribute it reads exists (an `AttributeError` in Python) is excluded by the ghost flags' preconditions rather than modelled as an error.
- All `print` output (lines 51-56, 139, 173) and the `__main__` configuration block (lines 176-195) are left out.
- Idempotence on a second run over the cleaned folder is not stated. It depends on the scoring function, which is opaque here.
