/**
 * `SimilarPhotoRemover`: the object that loads a listing into a catalog of
 * cameras, walks every camera to find unwanted photos, and deletes them.
 * Each method is proved against the specifications in `Listing` and
 * `ChangeDetection`.
 */
module PhotoRemover {
  import opened Listing
  import opened ChangeDetection
  import opened Subsequences

  /** The set of names in a sequence. */
  function Names(s: seq<string>): (names: set<string>)
    ensures forall x :: x in names <==> x in s
  {
    set x | x in s
  }

  lemma NamesSnoc(s: seq<string>, x: string)
    ensures Names(s + [x]) == Names(s) + {x}
  {
  }

  /** One deletion attempt on `x`, when the files already tried are `done`. */
  lemma DeletionStep(present: set<string>, remaining: set<string>, done: set<string>, x: string)
    requires remaining == present - done
    ensures x in remaining ==> remaining - {x} == present - (done + {x})
    ensures x in remaining ==> |present - (remaining - {x})| == |present - remaining| + 1
    ensures x !in remaining ==> remaining == present - (done + {x})
  {
  }

  /**
   * From listing to removal list: the catalog's keys cover its key order, and
   * the removal list is a subsequence of the catalog's lists in key order, so
   * every unwanted name is a listed name.
   */
  lemma UnwantedAreListed(tk: Toolkit, s: Settings, listing: seq<string>)
    ensures forall k :: k in Group(listing).cameras ==> k in Group(listing).lists
    ensures IsSubsequence(CatalogUnwanted(tk, s, Group(listing).lists, Group(listing).cameras),
                          Flatten(Group(listing).lists, Group(listing).cameras))
    ensures forall n :: n in CatalogUnwanted(tk, s, Group(listing).lists, Group(listing).cameras) ==> n in listing
  {
    var g := Group(listing);
    GroupKeys(listing);
    GroupNamesListed(listing);
    CatalogUnwantedFromLists(tk, s, g.lists, g.cameras);
    SubsequenceMembers(CatalogUnwanted(tk, s, g.lists, g.cameras), Flatten(g.lists, g.cameras));
    FlattenListed(listing, g.cameras);
  }

  /** The loader's key order lists every key of its dictionary exactly once. */
  lemma {:induction false} GroupWellFormed(listing: seq<string>)
    ensures forall k :: k in Group(listing).lists <==> k in Group(listing).cameras
    ensures Distinct(Group(listing).cameras)
  {
    GroupKeys(listing);
    GroupOrder(listing);
  }

  lemma {:induction false} FlattenListed(listing: seq<string>, cameras: seq<string>)
    requires forall k :: k in cameras ==> k in Group(listing).lists
    ensures forall n :: n in Flatten(Group(listing).lists, cameras) ==> n in listing && Prefix(n) in cameras
    decreases |cameras|
  {
    if cameras != [] {
      FlattenListed(listing, cameras[..|cameras| - 1]);
      GroupNamesListed(listing);
    }
  }

  /** With a listing and a key order without repeats, the catalog's lists together have no repeats. */
  lemma {:induction false} FlattenDistinct(listing: seq<string>, cameras: seq<string>)
    requires Distinct(listing) && Distinct(cameras)
    requires forall k :: k in cameras ==> k in Group(listing).lists
    ensures Distinct(Flatten(Group(listing).lists, cameras))
    decreases |cameras|
  {
    if cameras != [] {
      var g := Group(listing);
      var init := cameras[..|cameras| - 1];
      var last := cameras[|cameras| - 1];
      assert Distinct(init) by {
        forall a, b | 0 <= a < b < |init| ensures init[a] != init[b] {
          assert init[a] == cameras[a] && init[b] == cameras[b];
        }
      }
      assert last !in init by {
        forall j | 0 <= j < |init| ensures init[j] != last {
          assert init[j] == cameras[j];
        }
      }
      FlattenDistinct(listing, init);
      FlattenListed(listing, init);
      GroupListsDistinct(listing, last);
      GroupNamesListed(listing);
      DistinctConcat(Flatten(g.lists, init), g.lists[last]);
    }
  }

  /**
   * When the folder listing names each file once, the removal list holds each
   * name at most once: no file is scheduled for deletion twice.
   */
  lemma UnwantedDistinct(tk: Toolkit, s: Settings, listing: seq<string>)
    requires Distinct(listing)
    ensures forall k :: k in Group(listing).cameras ==> k in Group(listing).lists
    ensures Distinct(CatalogUnwanted(tk, s, Group(listing).lists, Group(listing).cameras))
  {
    var g := Group(listing);
    GroupWellFormed(listing);
    FlattenDistinct(listing, g.cameras);
    CatalogUnwantedFromLists(tk, s, g.lists, g.cameras);
    SubsequenceDistinct(CatalogUnwanted(tk, s, g.lists, g.cameras), Flatten(g.lists, g.cameras));
  }

  /** A sequence without repeats has as many distinct names as entries. */
  lemma {:induction false} NamesOfDistinct(s: seq<string>)
    requires Distinct(s)
    ensures |Names(s)| == |s|
    decreases |s|
  {
    if s != [] {
      var init := s[..|s| - 1];
      var x := s[|s| - 1];
      assert s == init + [x];
      assert Distinct(init) by {
        forall a, b | 0 <= a < b < |init| ensures init[a] != init[b] {
          assert init[a] == s[a] && init[b] == s[b];
        }
      }
      assert x !in init by {
        forall j | 0 <= j < |init| ensures init[j] != x {
          assert init[j] == s[j];
        }
      }
      NamesOfDistinct(init);
      NamesSnoc(init, x);
    }
  }

  /**
   * On a normal run, where the removal list has no repeats and every name in it
   * is still in the folder, every deletion succeeds: the files removed are
   * exactly the unwanted ones, and the counter, successes minus failures, is
   * the length of the removal list.
   */
  lemma EveryDeletionSucceeds(present: set<string>, unwanted: seq<string>)
    requires Distinct(unwanted)
    requires forall x :: x in unwanted ==> x in present
    ensures present - (present - Names(unwanted)) == Names(unwanted)
    ensures |present - (present - Names(unwanted))| == |unwanted|
    ensures var removed := |present - (present - Names(unwanted))|;
            removed - (|unwanted| - removed) == |unwanted|
  {
    NamesOfDistinct(unwanted);
    assert present - (present - Names(unwanted)) == Names(unwanted);
  }

  class SimilarPhotoRemover {
    /** `self.folder`: the path of the dataset, kept as given. */
    var folder: string
    /** `self.dataset_dict`: camera key to that camera's file names. */
    var datasetDict: map<string, seq<string>>
    /** The keys of `datasetDict` in insertion order, the order the dict iterates in. */
    var cameras: seq<string>
    /** `self.unwanted_images`: the removal list. */
    var unwantedImages: seq<string>
    /**
     * Whether `load_input` has run: before it the object has no `dataset_dict`
     * attribute, and detecting would fail.
     */
    ghost var loaded: bool
    /**
     * Whether `identify_similar_photos` has run: before it the object has no
     * `unwanted_images` attribute, and removing would fail.
     */
    ghost var identified: bool

    /** The key order lists every key of the dictionary exactly once. */
    ghost predicate Valid()
      reads this
    {
      && (forall k :: k in datasetDict <==> k in cameras)
      && Distinct(cameras)
    }

    /** `__init__` stores the folder; the catalog and the removal list do not exist yet. */
    constructor (folder: string)
      ensures this.folder == folder
      ensures !loaded && !identified
      ensures Valid()
    {
      this.folder := folder;
      loaded := false;
      identified := false;
      datasetDict := map[];
      cameras := [];
      unwantedImages := [];
    }

    /**
     * `load_input` on the listing of the folder (after the `.DS_Store` marker
     * is gone): the catalog is `Group(listing)`, whose keys, key order and
     * lists are characterised by the lemmas in `Listing`.
     */
    method LoadInput(listing: seq<string>)
      modifies this`datasetDict, this`cameras, this`loaded
      ensures loaded && Valid()
      ensures datasetDict == Group(listing).lists && cameras == Group(listing).cameras
    {
      datasetDict := map[];
      cameras := [];
      for i := 0 to |listing|
        invariant datasetDict == Group(listing[..i]).lists && cameras == Group(listing[..i]).cameras
      {
        var fileName := listing[i];
        var camera := Prefix(fileName);
        assert listing[..i + 1][..i] == listing[..i];
        assert Group(listing[..i + 1]) == Insert(Group(listing[..i]), fileName);
        if camera !in datasetDict {
          datasetDict := datasetDict[camera := []];
          cameras := cameras + [camera];
        } else {
          datasetDict := datasetDict[camera := datasetDict[camera] + [fileName]];
        }
      }
      assert listing[..|listing|] == listing;
      loaded := true;
      GroupWellFormed(listing);
    }

    /**
     * `identify_similar_photos`: every camera in key order is walked from no
     * representative; decode failures and frames scoring below the threshold
     * are appended to the removal list.
     */
    method IdentifySimilarPhotos(tk: Toolkit, blurRadii: seq<int>, scoreThreshold: real, minContourArea: real)
      requires loaded && Valid()
      modifies this`unwantedImages, this`identified
      ensures identified
      ensures unwantedImages
           == CatalogUnwanted(tk, Settings(blurRadii, scoreThreshold, minContourArea), datasetDict, cameras)
    {
      var settings := Settings(blurRadii, scoreThreshold, minContourArea);
      unwantedImages := [];
      for c := 0 to |cameras|
        invariant unwantedImages == CatalogUnwanted(tk, settings, datasetDict, cameras[..c])
      {
        var camera := cameras[c];
        var names := datasetDict[camera];
        var numImages := |names|;
        ghost var earlier := unwantedImages;
        var currentImage: Option<Image> := None;
        for imageIdx := 0 to numImages
          invariant currentImage == CameraWalk(tk, settings, names[..imageIdx]).current
          invariant unwantedImages == earlier + CameraWalk(tk, settings, names[..imageIdx]).unwanted
        {
          var imageIdxName := names[imageIdx];
          var image := tk.imread(imageIdxName);
          ghost var walk := CameraWalk(tk, settings, names[..imageIdx]);
          CameraWalkStep(tk, settings, names, imageIdx);
          if image.None? {
            assert Visit(tk, settings, walk, imageIdxName) == Walk(walk.current, walk.unwanted + [imageIdxName]);
            unwantedImages := unwantedImages + [imageIdxName];
          } else if currentImage.None? {
            assert Visit(tk, settings, walk, imageIdxName) == Walk(image, walk.unwanted);
            currentImage := image;
          } else {
            var nextImage := image.value;
            if currentImage.value.Shape() != nextImage.Shape() {
              var newDim := (currentImage.value.Shape().1, currentImage.value.Shape().0);
              nextImage := Resize(tk, nextImage, newDim);
            }
            assert nextImage == Reconcile(tk, currentImage.value, image.value);
            var currentImageGray := tk.preprocess(currentImage.value, blurRadii);
            var nextImageGray := tk.preprocess(nextImage, blurRadii);
            var score := tk.compare(currentImageGray, nextImageGray, minContourArea);
            assert score == Score(tk, settings, currentImage.value, nextImage);
            if score < scoreThreshold {
              assert Visit(tk, settings, walk, imageIdxName) == Walk(walk.current, walk.unwanted + [imageIdxName]);
              unwantedImages := unwantedImages + [imageIdxName];
            } else {
              assert Visit(tk, settings, walk, imageIdxName) == Walk(Some(nextImage), walk.unwanted);
              currentImage := Some(nextImage);
            }
          }
        }
        assert names[..numImages] == names;
        assert cameras[..c + 1][..c] == cameras[..c];
        assert CatalogUnwanted(tk, settings, datasetDict, cameras[..c + 1])
            == earlier + CameraWalk(tk, settings, names).unwanted;
      }
      assert cameras[..|cameras|] == cameras;
      identified := true;
    }

    /**
     * `remove_similar_photos` against the files `present` in the folder: a
     * deletion succeeds when the file is still there. The counter goes up on a
     * success and down on a failure, so it ends at successes minus failures.
     */
    method RemoveSimilarPhotos(present: set<string>) returns (numRemovedImages: int, remaining: set<string>)
      requires identified
      ensures remaining == present - Names(unwantedImages)
      ensures numRemovedImages == |present - remaining| - (|unwantedImages| - |present - remaining|)
    {
      var unwanted := unwantedImages;
      numRemovedImages := 0;
      remaining := present;
      for i := 0 to |unwanted|
        invariant remaining <= present
        invariant remaining == present - Names(unwanted[..i])
        invariant numRemovedImages == 2 * |present - remaining| - i
      {
        var imageName := unwanted[i];
        ghost var done := Names(unwanted[..i]);
        NamesSnoc(unwanted[..i], imageName);
        assert unwanted[..i + 1] == unwanted[..i] + [imageName];
        DeletionStep(present, remaining, done, imageName);
        if imageName in remaining {
          remaining := remaining - {imageName};
          numRemovedImages := numRemovedImages + 1;
        } else {
          numRemovedImages := numRemovedImages - 1;
        }
      }
      assert unwanted[..|unwanted|] == unwanted;
    }
  }
}
