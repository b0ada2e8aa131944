/**
 * The per-camera change detector (`SimilarPhotoRemover.identify_similar_photos`)
 * as a specification: a walk over one camera's file names that carries the
 * representative image and collects the unwanted names, and the removal list
 * of a whole catalog as the walks of its cameras, one after another.
 *
 * Decoding, resampling, preprocessing and scoring are calls into OpenCV and
 * into a helper module whose code is not part of this model; they are the
 * opaque fields of a `Toolkit`.
 */
module ChangeDetection {
  import opened Subsequences

  datatype Option<T> = None | Some(value: T)

  /** A decoded pixel grid with numpy's shape (rows, cols, channels); the pixels are opaque. */
  datatype Image = Image(rows: nat, cols: nat, channels: nat, pixels: seq<int>)
  {
    function Shape(): (nat, nat, nat)
    {
      (rows, cols, channels)
    }
  }

  /**
   * The image primitives the detector calls:
   * `imread` is `cv2.imread` on the file (None when it cannot be decoded),
   * `resample` is the pixel work of `cv2.resize(..., INTER_AREA)` for a target width and height,
   * `preprocess` is `preprocess_image_change_detection` with a list of blur radii,
   * `compare` is the score part of `compare_frames_change_detection` with a minimum contour area.
   */
  datatype Toolkit = Toolkit(
    imread: string -> Option<Image>,
    resample: (Image, nat, nat) -> seq<int>,
    preprocess: (Image, seq<int>) -> Image,
    compare: (Image, Image, real) -> real)

  /** The three tuning inputs of the detector. */
  datatype Settings = Settings(blurRadii: seq<int>, scoreThreshold: real, minContourArea: real)

  /**
   * `cv2.resize(src, dsize)`: OpenCV reads `dsize` as (width, height), so the
   * result has `dsize.1` rows and `dsize.0` columns and keeps the channels.
   */
  function Resize(tk: Toolkit, src: Image, dsize: (nat, nat)): (r: Image)
    ensures r.rows == dsize.1 && r.cols == dsize.0 && r.channels == src.channels
  {
    Image(dsize.1, dsize.0, src.channels, tk.resample(src, dsize.0, dsize.1))
  }

  /**
   * The candidate as it is handed to preprocessing: when its shape differs from
   * the representative's it is resized with `dsize = (shape[1], shape[0])`,
   * which gives it the representative's rows and columns.
   */
  function Reconcile(tk: Toolkit, current: Image, image: Image): (r: Image)
    ensures r.rows == current.rows && r.cols == current.cols
    ensures r.channels == image.channels
    ensures current.Shape() == image.Shape() ==> r == image
  {
    if current.Shape() != image.Shape() then Resize(tk, image, (current.Shape().1, current.Shape().0))
    else image
  }

  /** The change score of a candidate against the representative, both preprocessed. */
  function Score(tk: Toolkit, s: Settings, current: Image, candidate: Image): (score: real)
  {
    tk.compare(tk.preprocess(current, s.blurRadii), tk.preprocess(candidate, s.blurRadii), s.minContourArea)
  }

  /** The detector's state within one camera: the representative, and the names found unwanted so far. */
  datatype Walk = Walk(current: Option<Image>, unwanted: seq<string>)

  /**
   * One turn of the inner loop: the file `name` meets the walk so far. It is
   * either appended to the unwanted names, leaving the representative as it
   * was, or its decoded image (reconciled to the representative's size, when
   * there is one) becomes the representative and nothing is appended.
   */
  function Visit(tk: Toolkit, s: Settings, w: Walk, name: string): (r: Walk)
    ensures r.unwanted == w.unwanted + [name] || r.unwanted == w.unwanted
    ensures r.unwanted != w.unwanted ==> r.current == w.current
    ensures r.unwanted == w.unwanted ==>
              && tk.imread(name).Some?
              && r.current == Some(if w.current.None? then tk.imread(name).value
                                   else Reconcile(tk, w.current.value, tk.imread(name).value))
  {
    match tk.imread(name)
    case None => Walk(w.current, w.unwanted + [name])
    case Some(image) =>
      match w.current
      case None => Walk(Some(image), w.unwanted)
      case Some(current) =>
        var candidate := Reconcile(tk, current, image);
        if Score(tk, s, current, candidate) < s.scoreThreshold then Walk(w.current, w.unwanted + [name])
        else Walk(Some(candidate), w.unwanted)
  }

  /**
   * The inner loop run over `names` from the state `start`: the unwanted names
   * found before are kept, and at most one name per file is appended.
   */
  function Resume(tk: Toolkit, s: Settings, start: Walk, names: seq<string>): (r: Walk)
    ensures start.unwanted <= r.unwanted
    ensures |r.unwanted| <= |start.unwanted| + |names|
    decreases |names|
  {
    if names == [] then start
    else Visit(tk, s, Resume(tk, s, start, names[..|names| - 1]), names[|names| - 1])
  }

  /** The walk over one camera's names, starting with no representative. */
  function CameraWalk(tk: Toolkit, s: Settings, names: seq<string>): (w: Walk)
    ensures |w.unwanted| <= |names|
  {
    Resume(tk, s, Walk(None, []), names)
  }

  /** Reference definition: the names that cannot be decoded, in order. */
  function Failures(tk: Toolkit, names: seq<string>): (f: seq<string>)
    ensures |f| <= |names|
    ensures forall n :: n in f ==> tk.imread(n).None?
    decreases |names|
  {
    if names == [] then []
    else if tk.imread(names[0]).None? then [names[0]] + Failures(tk, names[1..])
    else Failures(tk, names[1..])
  }

  /** The removal list for a catalog: the cameras' walks, in key order, each from scratch. */
  function CatalogUnwanted(tk: Toolkit, s: Settings, lists: map<string, seq<string>>, cameras: seq<string>): (u: seq<string>)
    requires forall k :: k in cameras ==> k in lists
    ensures |u| <= |Flatten(lists, cameras)|
    decreases |cameras|
  {
    if cameras == [] then []
    else
      CatalogUnwanted(tk, s, lists, cameras[..|cameras| - 1])
      + CameraWalk(tk, s, lists[cameras[|cameras| - 1]]).unwanted
  }

  /** Every name of the catalog, camera after camera in key order. */
  function Flatten(lists: map<string, seq<string>>, cameras: seq<string>): (all: seq<string>)
    requires forall k :: k in cameras ==> k in lists
    decreases |cameras|
  {
    if cameras == [] then []
    else Flatten(lists, cameras[..|cameras| - 1]) + lists[cameras[|cameras| - 1]]
  }

  /**
   * The transition table, one file after another: a decode failure is unwanted
   * and leaves the representative; the first decoded image becomes the
   * representative; later ones are unwanted below the threshold (representative
   * kept) and otherwise replace the representative, resized if need be.
   */
  lemma WalkSnoc(tk: Toolkit, s: Settings, names: seq<string>, name: string)
    ensures var w := CameraWalk(tk, s, names);
            var w' := CameraWalk(tk, s, names + [name]);
            match tk.imread(name)
            case None => w'.current == w.current && w'.unwanted == w.unwanted + [name]
            case Some(image) =>
              match w.current
              case None => w'.current == Some(image) && w'.unwanted == w.unwanted
              case Some(current) =>
                var candidate := Reconcile(tk, current, image);
                if Score(tk, s, current, candidate) < s.scoreThreshold then
                  w'.current == w.current && w'.unwanted == w.unwanted + [name]
                else
                  w'.current == Some(candidate) && w'.unwanted == w.unwanted
  {
  }

  /** The walk over the first `i + 1` names is one more step after the first `i`. */
  lemma CameraWalkStep(tk: Toolkit, s: Settings, names: seq<string>, i: nat)
    requires i < |names|
    ensures CameraWalk(tk, s, names[..i + 1]) == Visit(tk, s, CameraWalk(tk, s, names[..i]), names[i])
  {
    assert names[..i + 1][..i] == names[..i];
  }

  /** The unwanted names of a camera are its own names, in order. */
  lemma {:induction false} UnwantedFromList(tk: Toolkit, s: Settings, names: seq<string>)
    ensures IsSubsequence(CameraWalk(tk, s, names).unwanted, names)
    ensures |CameraWalk(tk, s, names).unwanted| <= |names|
    decreases |names|
  {
    if names != [] {
      var init := names[..|names| - 1];
      var name := names[|names| - 1];
      assert names == init + [name];
      UnwantedFromList(tk, s, init);
      WalkSnoc(tk, s, init, name);
      var u := CameraWalk(tk, s, init).unwanted;
      if CameraWalk(tk, s, names).unwanted == u + [name] {
        SubsequenceAppend(u, init, name);
      } else {
        SubsequenceExtend(u, init, name);
      }
    }
    SubsequenceMembers(CameraWalk(tk, s, names).unwanted, names);
  }

  /** Resuming after `pre + post` is resuming after `pre`, then after `post`. */
  lemma {:induction false} ResumeSplit(tk: Toolkit, s: Settings, start: Walk, pre: seq<string>, post: seq<string>)
    ensures Resume(tk, s, start, pre + post) == Resume(tk, s, Resume(tk, s, start, pre), post)
    decreases |post|
  {
    if post == [] {
      assert pre + post == pre;
    } else {
      var init := post[..|post| - 1];
      assert (pre + post)[..|pre + post| - 1] == pre + init;
      ResumeSplit(tk, s, start, pre, init);
    }
  }

  /**
   * The walk after a state depends only on its representative: the unwanted
   * names found before are carried along in front of the new ones.
   */
  lemma {:induction false} ResumeShift(tk: Toolkit, s: Settings, start: Walk, names: seq<string>)
    ensures var rest := Resume(tk, s, Walk(start.current, []), names);
            Resume(tk, s, start, names) == Walk(rest.current, start.unwanted + rest.unwanted)
    decreases |names|
  {
    if names != [] {
      var init := names[..|names| - 1];
      var name := names[|names| - 1];
      ResumeShift(tk, s, start, init);
      var r0 := Resume(tk, s, Walk(start.current, []), init);
      var v := Visit(tk, s, Walk(r0.current, []), name);
      assert Visit(tk, s, r0, name) == Walk(v.current, r0.unwanted + v.unwanted);
      assert Visit(tk, s, Walk(r0.current, start.unwanted + r0.unwanted), name)
          == Walk(v.current, start.unwanted + r0.unwanted + v.unwanted);
    }
  }

  /** The names a resumed walk appends are its own names, in order. */
  lemma {:induction false} ResumeFromList(tk: Toolkit, s: Settings, current: Option<Image>, names: seq<string>)
    ensures IsSubsequence(Resume(tk, s, Walk(current, []), names).unwanted, names)
    decreases |names|
  {
    if names != [] {
      var init := names[..|names| - 1];
      var name := names[|names| - 1];
      assert names == init + [name];
      ResumeFromList(tk, s, current, init);
      var u := Resume(tk, s, Walk(current, []), init).unwanted;
      if Resume(tk, s, Walk(current, []), names).unwanted == u + [name] {
        SubsequenceAppend(u, init, name);
      } else {
        SubsequenceExtend(u, init, name);
      }
    }
  }

  /**
   * A file that is unwanted at its step is transparent to the rest of the
   * walk: the representative is compared against the next files as if the
   * file were not there, so every later decision and the final representative
   * are the same with or without it, and it only adds itself to the list.
   */
  lemma UnwantedTransparent(tk: Toolkit, s: Settings, pre: seq<string>, name: string, post: seq<string>)
    requires var w := CameraWalk(tk, s, pre);
             || tk.imread(name).None?
             || (&& w.current.Some? && tk.imread(name).Some?
                 && Score(tk, s, w.current.value, Reconcile(tk, w.current.value, tk.imread(name).value)) < s.scoreThreshold)
    ensures var w := CameraWalk(tk, s, pre);
            var rest := Resume(tk, s, Walk(w.current, []), post);
            && CameraWalk(tk, s, pre + post) == Walk(rest.current, w.unwanted + rest.unwanted)
            && CameraWalk(tk, s, pre + [name] + post) == Walk(rest.current, w.unwanted + [name] + rest.unwanted)
  {
    var start := Walk(None, []);
    var w := CameraWalk(tk, s, pre);
    ResumeSplit(tk, s, start, pre, post);
    ResumeShift(tk, s, w, post);
    ResumeSplit(tk, s, start, pre + [name], post);
    WalkSnoc(tk, s, pre, name);
    var w' := CameraWalk(tk, s, pre + [name]);
    assert w' == Walk(w.current, w.unwanted + [name]);
    ResumeShift(tk, s, w', post);
  }

  lemma {:induction false} FailuresSnoc(tk: Toolkit, names: seq<string>, name: string)
    ensures Failures(tk, names + [name]) == Failures(tk, names) + (if tk.imread(name).None? then [name] else [])
    decreases |names|
  {
    if names == [] {
      assert [name][1..] == [];
    } else {
      assert (names + [name])[1..] == names[1..] + [name];
      FailuresSnoc(tk, names[1..], name);
    }
  }

  /** Every name that cannot be decoded is unwanted, whatever the scores: the failures are a subsequence of the unwanted list. */
  lemma {:induction false} UnreadableUnwanted(tk: Toolkit, s: Settings, names: seq<string>)
    ensures IsSubsequence(Failures(tk, names), CameraWalk(tk, s, names).unwanted)
    decreases |names|
  {
    if names != [] {
      var init := names[..|names| - 1];
      var name := names[|names| - 1];
      assert names == init + [name];
      UnreadableUnwanted(tk, s, init);
      WalkSnoc(tk, s, init, name);
      FailuresSnoc(tk, init, name);
      var u := CameraWalk(tk, s, init).unwanted;
      if tk.imread(name).None? {
        SubsequenceAppend(Failures(tk, init), u, name);
      } else {
        assert Failures(tk, names) == Failures(tk, init);
        if CameraWalk(tk, s, names).unwanted == u + [name] {
          SubsequenceExtend(Failures(tk, init), u, name);
        }
      }
    }
  }

  /** While nothing has decoded there is no representative and every name is unwanted. */
  lemma {:induction false} NothingDecoded(tk: Toolkit, s: Settings, names: seq<string>)
    requires forall j :: 0 <= j < |names| ==> tk.imread(names[j]).None?
    ensures CameraWalk(tk, s, names) == Walk(None, names)
    decreases |names|
  {
    if names != [] {
      var init := names[..|names| - 1];
      var name := names[|names| - 1];
      assert names == init + [name];
      NothingDecoded(tk, s, init);
      WalkSnoc(tk, s, init, name);
    }
  }

  /**
   * The first decoded image of a camera becomes the representative without a
   * comparison and is not unwanted: after it, the unwanted names are exactly
   * the failures before it.
   */
  lemma FirstDecodedKept(tk: Toolkit, s: Settings, names: seq<string>, i: nat)
    requires i < |names| && tk.imread(names[i]).Some?
    requires forall j :: 0 <= j < i ==> tk.imread(names[j]).None?
    ensures CameraWalk(tk, s, names[..i + 1]) == Walk(tk.imread(names[i]), names[..i])
  {
    var before := names[..i];
    assert forall j :: 0 <= j < |before| ==> before[j] == names[j];
    NothingDecoded(tk, s, before);
    assert names[..i + 1] == before + [names[i]];
    WalkSnoc(tk, s, before, names[i]);
  }

  /**
   * The file at index `i` is kept at its step: it decodes, and either there is
   * no representative yet or it scores at least the threshold against it.
   */
  predicate KeptAt(tk: Toolkit, s: Settings, names: seq<string>, i: nat)
    requires i < |names|
  {
    var w := CameraWalk(tk, s, names[..i]);
    && tk.imread(names[i]).Some?
    && (|| w.current.None?
        || Score(tk, s, w.current.value, Reconcile(tk, w.current.value, tk.imread(names[i]).value)) >= s.scoreThreshold)
  }

  /**
   * With distinct names, a file ends outside the camera's unwanted list exactly
   * when it was kept at its step: no later step can append it, and a file
   * found unwanted stays in the list.
   */
  lemma RemovedIffNotKept(tk: Toolkit, s: Settings, names: seq<string>, i: nat)
    requires i < |names|
    requires Distinct(names)
    ensures names[i] !in CameraWalk(tk, s, names).unwanted <==> KeptAt(tk, s, names, i)
  {
    var pre := names[..i];
    var name := names[i];
    var post := names[i + 1..];
    assert names[..i + 1] == pre + [name];
    assert names == names[..i + 1] + post;
    var w := CameraWalk(tk, s, pre);
    var w' := CameraWalk(tk, s, names[..i + 1]);
    ResumeSplit(tk, s, Walk(None, []), names[..i + 1], post);
    ResumeShift(tk, s, w', post);
    var rest := Resume(tk, s, Walk(w'.current, []), post);
    assert CameraWalk(tk, s, names).unwanted == w'.unwanted + rest.unwanted;
    ResumeFromList(tk, s, w'.current, post);
    SubsequenceMembers(rest.unwanted, post);
    assert name !in post;
    UnwantedFromList(tk, s, pre);
    SubsequenceMembers(w.unwanted, pre);
    assert name !in pre;
    WalkSnoc(tk, s, pre, name);
    assert w'.unwanted == w.unwanted + [name] <==> !KeptAt(tk, s, names, i);
  }

  /**
   * With distinct names, the first decoded image of a camera is never removed,
   * whatever comes after it.
   */
  lemma FirstDecodedSurvives(tk: Toolkit, s: Settings, names: seq<string>, i: nat)
    requires i < |names| && tk.imread(names[i]).Some?
    requires forall j :: 0 <= j < i ==> tk.imread(names[j]).None?
    requires Distinct(names)
    ensures names[i] !in CameraWalk(tk, s, names).unwanted
  {
    var before := names[..i];
    assert forall j :: 0 <= j < |before| ==> before[j] == names[j];
    NothingDecoded(tk, s, before);
    RemovedIffNotKept(tk, s, names, i);
  }

  /**
   * A camera whose list holds at most one decodable image contributes only its
   * decode failures.
   */
  lemma {:induction false} AtMostOneDecodable(tk: Toolkit, s: Settings, names: seq<string>)
    requires forall i, j :: 0 <= i < j < |names| ==> tk.imread(names[i]).None? || tk.imread(names[j]).None?
    ensures CameraWalk(tk, s, names).unwanted == Failures(tk, names)
    decreases |names|
  {
    if names != [] {
      var init := names[..|names| - 1];
      var name := names[|names| - 1];
      assert names == init + [name];
      AtMostOneDecodable(tk, s, init);
      WalkSnoc(tk, s, init, name);
      FailuresSnoc(tk, init, name);
      if tk.imread(name).Some? {
        NothingDecoded(tk, s, init);
      }
    }
  }

  /**
   * Once the first image of a camera has decoded, there is a representative for
   * the rest of the walk and it keeps that image's rows and columns: every
   * replacement is resized to the representative it replaces.
   */
  lemma {:induction false} RepresentativeSize(tk: Toolkit, s: Settings, names: seq<string>, i: nat)
    requires i < |names| && tk.imread(names[i]).Some?
    requires forall j :: 0 <= j < i ==> tk.imread(names[j]).None?
    ensures CameraWalk(tk, s, names).current.Some?
    ensures CameraWalk(tk, s, names).current.value.rows == tk.imread(names[i]).value.rows
    ensures CameraWalk(tk, s, names).current.value.cols == tk.imread(names[i]).value.cols
    decreases |names|
  {
    if |names| == i + 1 {
      FirstDecodedKept(tk, s, names, i);
      assert names[..i + 1] == names;
    } else {
      var init := names[..|names| - 1];
      var name := names[|names| - 1];
      assert names == init + [name];
      RepresentativeSize(tk, s, init, i);
      WalkSnoc(tk, s, init, name);
    }
  }

  /** The removal list of a catalog splits along any split of its key order. */
  lemma {:induction false} CatalogSplit(tk: Toolkit, s: Settings, lists: map<string, seq<string>>, a: seq<string>, b: seq<string>)
    requires forall k :: k in a + b ==> k in lists
    ensures CatalogUnwanted(tk, s, lists, a + b) == CatalogUnwanted(tk, s, lists, a) + CatalogUnwanted(tk, s, lists, b)
    decreases |b|
  {
    if b == [] {
      assert a + b == a;
    } else {
      var b' := b[..|b| - 1];
      var last := CameraWalk(tk, s, lists[b[|b| - 1]]).unwanted;
      assert (a + b)[..|a + b| - 1] == a + b' && (a + b)[|a + b| - 1] == b[|b| - 1];
      calc {
        CatalogUnwanted(tk, s, lists, a + b);
        CatalogUnwanted(tk, s, lists, a + b') + last;
        { CatalogSplit(tk, s, lists, a, b'); }
        (CatalogUnwanted(tk, s, lists, a) + CatalogUnwanted(tk, s, lists, b')) + last;
        CatalogUnwanted(tk, s, lists, a) + (CatalogUnwanted(tk, s, lists, b') + last);
        CatalogUnwanted(tk, s, lists, a) + CatalogUnwanted(tk, s, lists, b);
      }
    }
  }

  /** The number of unwanted names does not depend on the order the cameras are walked in. */
  lemma CatalogCountOrderFree(tk: Toolkit, s: Settings, lists: map<string, seq<string>>, a: seq<string>, b: seq<string>)
    requires forall k :: k in a + b ==> k in lists
    ensures |CatalogUnwanted(tk, s, lists, a + b)| == |CatalogUnwanted(tk, s, lists, b + a)|
  {
    CatalogSplit(tk, s, lists, a, b);
    CatalogSplit(tk, s, lists, b, a);
  }

  /** Cameras are independent: the removal list depends only on the lists of the cameras walked. */
  lemma {:induction false} CamerasIndependent(tk: Toolkit, s: Settings, l1: map<string, seq<string>>, l2: map<string, seq<string>>, cameras: seq<string>)
    requires forall k :: k in cameras ==> k in l1 && k in l2 && l1[k] == l2[k]
    ensures CatalogUnwanted(tk, s, l1, cameras) == CatalogUnwanted(tk, s, l2, cameras)
    decreases |cameras|
  {
    if cameras != [] {
      CamerasIndependent(tk, s, l1, l2, cameras[..|cameras| - 1]);
    }
  }

  /** The removal list is a subsequence of the catalog's lists concatenated in key order. */
  lemma {:induction false} CatalogUnwantedFromLists(tk: Toolkit, s: Settings, lists: map<string, seq<string>>, cameras: seq<string>)
    requires forall k :: k in cameras ==> k in lists
    ensures IsSubsequence(CatalogUnwanted(tk, s, lists, cameras), Flatten(lists, cameras))
    decreases |cameras|
  {
    if cameras != [] {
      var init := cameras[..|cameras| - 1];
      var last := lists[cameras[|cameras| - 1]];
      CatalogUnwantedFromLists(tk, s, lists, init);
      UnwantedFromList(tk, s, last);
      SubsequenceConcat(CatalogUnwanted(tk, s, lists, init), Flatten(lists, init),
                        CameraWalk(tk, s, last).unwanted, last);
    }
  }
}
