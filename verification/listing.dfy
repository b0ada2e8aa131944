/**
 * The loader's grouping of a directory listing by camera
 * (`SimilarPhotoRemover.load_input`): every file name is keyed by its
 * three-character prefix, keys are kept in first-seen order, and the name
 * that creates a key is not itself appended to that key's list.
 */
module Listing {
  import opened Subsequences

  /** The camera key `file_name[0:3]`; Python slicing clamps, so a shorter name is its own key. */
  function Prefix(name: string): (camera: string)
    ensures |camera| == if |name| < 3 then |name| else 3
    ensures camera <= name
  {
    if |name| < 3 then name else name[..3]
  }

  /**
   * The loader's result: `lists` is the dictionary, `cameras` its keys in
   * insertion order (the order a Python dict iterates in).
   */
  datatype Catalog = Catalog(cameras: seq<string>, lists: map<string, seq<string>>)

  /**
   * One turn of the loader's loop over the listing: the name's key is present
   * afterwards, and the key order grows by that key when it is new and
   * stays as it was otherwise.
   */
  function Insert(c: Catalog, name: string): (r: Catalog)
    ensures Prefix(name) in r.lists
    ensures r.cameras == c.cameras || r.cameras == c.cameras + [Prefix(name)]
  {
    var camera := Prefix(name);
    if camera !in c.lists then Catalog(c.cameras + [camera], c.lists[camera := []])
    else Catalog(c.cameras, c.lists[camera := c.lists[camera] + [name]])
  }

  /** The catalog the loader builds from a listing, in listing order. */
  function Group(listing: seq<string>): (g: Catalog)
    ensures |g.cameras| <= |listing|
    decreases |listing|
  {
    if listing == [] then Catalog([], map[])
    else Insert(Group(listing[..|listing| - 1]), listing[|listing| - 1])
  }

  /** Reference definition: the listed names whose key is `camera`, in listing order. */
  function WithPrefix(listing: seq<string>, camera: string): (r: seq<string>)
    decreases |listing|
  {
    if listing == [] then []
    else if Prefix(listing[0]) == camera then [listing[0]] + WithPrefix(listing[1..], camera)
    else WithPrefix(listing[1..], camera)
  }

  /** Index of the first listed name whose key is `camera`, or `|listing|` when there is none. */
  function FirstWith(listing: seq<string>, camera: string): (i: nat)
    ensures i <= |listing|
    ensures i < |listing| ==> Prefix(listing[i]) == camera
    ensures forall j :: 0 <= j < i ==> Prefix(listing[j]) != camera
    decreases |listing|
  {
    if listing == [] then 0
    else if Prefix(listing[0]) == camera then 0
    else 1 + FirstWith(listing[1..], camera)
  }

  lemma {:induction false} WithPrefixSnoc(listing: seq<string>, name: string, camera: string)
    ensures WithPrefix(listing + [name], camera)
         == WithPrefix(listing, camera) + (if Prefix(name) == camera then [name] else [])
    decreases |listing|
  {
    if listing == [] {
      assert [name][1..] == [];
    } else {
      assert (listing + [name])[1..] == listing[1..] + [name];
      WithPrefixSnoc(listing[1..], name, camera);
    }
  }

  lemma {:induction false} WithPrefixMembers(listing: seq<string>, camera: string)
    ensures forall n :: n in WithPrefix(listing, camera) ==> n in listing && Prefix(n) == camera
    ensures |WithPrefix(listing, camera)| == 0 <==> FirstWith(listing, camera) == |listing|
    decreases |listing|
  {
    if listing != [] {
      WithPrefixMembers(listing[1..], camera);
    }
  }

  lemma {:induction false} FirstWithSnoc(listing: seq<string>, name: string, camera: string)
    ensures FirstWith(listing + [name], camera)
         == if FirstWith(listing, camera) < |listing| then FirstWith(listing, camera)
            else if Prefix(name) == camera then |listing|
            else |listing| + 1
    decreases |listing|
  {
    if listing != [] {
      assert (listing + [name])[1..] == listing[1..] + [name];
      FirstWithSnoc(listing[1..], name, camera);
    }
  }

  /**
   * The keys of the dictionary are exactly its insertion-order key list, and
   * exactly the prefixes of listed names.
   */
  lemma {:induction false} GroupKeys(listing: seq<string>)
    ensures forall k :: k in Group(listing).lists <==> k in Group(listing).cameras
    ensures forall k :: k in Group(listing).lists <==> FirstWith(listing, k) < |listing|
    ensures forall i :: 0 <= i < |listing| ==> Prefix(listing[i]) in Group(listing).lists
    decreases |listing|
  {
    if listing != [] {
      var init := listing[..|listing| - 1];
      var name := listing[|listing| - 1];
      assert listing == init + [name];
      GroupKeys(init);
      forall k {
        FirstWithSnoc(init, name, k);
      }
    }
  }

  /** Keys are listed in the order of their first occurrence in the listing. */
  lemma {:induction false} GroupOrder(listing: seq<string>)
    ensures forall a, b :: 0 <= a < b < |Group(listing).cameras| ==>
              FirstWith(listing, Group(listing).cameras[a]) < FirstWith(listing, Group(listing).cameras[b])
    decreases |listing|
  {
    if listing != [] {
      var init := listing[..|listing| - 1];
      var name := listing[|listing| - 1];
      assert listing == init + [name];
      GroupOrder(init);
      GroupKeys(init);
      var before := Group(init).cameras;
      forall k | k in before ensures FirstWith(listing, k) == FirstWith(init, k) < |init| {
        FirstWithSnoc(init, name, k);
      }
      FirstWithSnoc(init, name, Prefix(name));
    }
  }

  /**
   * A camera's list holds exactly the listed names with that key except the
   * first one, in listing order: a camera with n listed files has n - 1 names.
   */
  lemma GroupLists(listing: seq<string>)
    ensures forall k :: k in Group(listing).lists ==>
              |WithPrefix(listing, k)| >= 1 && Group(listing).lists[k] == WithPrefix(listing, k)[1..]
  {
    forall k | k in Group(listing).lists {
      GroupListAt(listing, k);
    }
  }

  lemma {:induction false} GroupListAt(listing: seq<string>, k: string)
    requires k in Group(listing).lists
    ensures |WithPrefix(listing, k)| >= 1 && Group(listing).lists[k] == WithPrefix(listing, k)[1..]
    decreases |listing|
  {
    var init := listing[..|listing| - 1];
    var name := listing[|listing| - 1];
    assert listing == init + [name];
    var before := Group(init);
    WithPrefixSnoc(init, name, k);
    var w := WithPrefix(init, k);
    if Prefix(name) != k {
      GroupListAt(init, k);
    } else if k in before.lists {
      GroupListAt(init, k);
      assert (w + [name])[1..] == w[1..] + [name];
    } else {
      GroupKeys(init);
      WithPrefixMembers(init, k);
      assert w == [];
    }
  }

  /** Every name in the catalog is a listed name filed under its own key. */
  lemma GroupNamesListed(listing: seq<string>)
    ensures forall k, n :: k in Group(listing).lists && n in Group(listing).lists[k] ==>
              n in listing && Prefix(n) == k
  {
    GroupLists(listing);
    forall k, n | k in Group(listing).lists && n in Group(listing).lists[k]
      ensures n in listing && Prefix(n) == k
    {
      WithPrefixMembers(listing, k);
      var w := WithPrefix(listing, k);
      assert n in w[1..];
    }
  }

  lemma {:induction false} WithPrefixDistinct(listing: seq<string>, camera: string)
    requires Distinct(listing)
    ensures Distinct(WithPrefix(listing, camera))
    decreases |listing|
  {
    if listing != [] {
      var rest := listing[1..];
      assert Distinct(rest) by {
        forall a, b | 0 <= a < b < |rest| ensures rest[a] != rest[b] {
          assert rest[a] == listing[a + 1] && rest[b] == listing[b + 1];
        }
      }
      WithPrefixDistinct(rest, camera);
      WithPrefixMembers(rest, camera);
      assert listing[0] !in rest by {
        forall j | 0 <= j < |rest| ensures rest[j] != listing[0] {
          assert rest[j] == listing[j + 1];
        }
      }
    }
  }

  /**
   * A folder listing names every file once, and then so does every camera's
   * list: this is what makes a file's fate in the detector its own.
   */
  lemma GroupListsDistinct(listing: seq<string>, k: string)
    requires Distinct(listing) && k in Group(listing).lists
    ensures Distinct(Group(listing).lists[k])
  {
    GroupListAt(listing, k);
    WithPrefixDistinct(listing, k);
    var w := WithPrefix(listing, k);
    forall a, b | 0 <= a < b < |w| - 1 ensures w[1..][a] != w[1..][b] {
      assert w[1..][a] == w[a + 1] && w[1..][b] == w[b + 1];
    }
  }
}
