/**
 * Worked cases of the loader and the detector on concrete inputs, with an
 * identity preprocessing step and scores chosen per frame.
 */
module Scenarios {
  import opened Listing
  import opened ChangeDetection

  /** A 2x2 three-channel frame whose pixels carry a tag. */
  function Frame(tag: int): (frame: Image)
    ensures frame.Shape() == (2, 2, 3) && frame.pixels == [tag]
  {
    Image(2, 2, 3, [tag])
  }

  /**
   * Three frames of one camera: the second scores 100 against the first
   * (below the threshold 750), the third scores 2000. Only the second is
   * unwanted, and the third ends as the representative.
   */
  lemma ThreeFrames()
    ensures var tk := Toolkit(
              (n: string) => if n == "camA_1" then Some(Frame(1)) else if n == "camA_2" then Some(Frame(2)) else Some(Frame(3)),
              (i: Image, w: nat, h: nat) => i.pixels,
              (i: Image, radii: seq<int>) => i,
              (a: Image, b: Image, area: real) => if b == Frame(2) then 100.0 else 2000.0);
            CameraWalk(tk, Settings([5, 7], 750.0, 50.0), ["camA_1", "camA_2", "camA_3"])
              == Walk(Some(Frame(3)), ["camA_2"])
  {
    var tk := Toolkit(
      (n: string) => if n == "camA_1" then Some(Frame(1)) else if n == "camA_2" then Some(Frame(2)) else Some(Frame(3)),
      (i: Image, w: nat, h: nat) => i.pixels,
      (i: Image, radii: seq<int>) => i,
      (a: Image, b: Image, area: real) => if b == Frame(2) then 100.0 else 2000.0);
    var s := Settings([5, 7], 750.0, 50.0);
    var names := ["camA_1", "camA_2", "camA_3"];
    assert names[..2] == ["camA_1", "camA_2"] && names[..2][..1] == ["camA_1"];
    assert CameraWalk(tk, s, ["camA_1"]) == Walk(Some(Frame(1)), []);
    assert CameraWalk(tk, s, ["camA_1", "camA_2"]) == Walk(Some(Frame(1)), ["camA_2"]);
  }

  /**
   * A frame that cannot be decoded is unwanted, and the next frame becomes the
   * representative with no comparison.
   */
  lemma UnreadableFirstFrame()
    ensures var tk := Toolkit(
              (n: string) => if n == "camB_1" then None else Some(Frame(2)),
              (i: Image, w: nat, h: nat) => i.pixels,
              (i: Image, radii: seq<int>) => i,
              (a: Image, b: Image, area: real) => 0.0);
            CameraWalk(tk, Settings([5, 7], 750.0, 50.0), ["camB_1", "camB_2"])
              == Walk(Some(Frame(2)), ["camB_1"])
  {
    var tk := Toolkit(
      (n: string) => if n == "camB_1" then None else Some(Frame(2)),
      (i: Image, w: nat, h: nat) => i.pixels,
      (i: Image, radii: seq<int>) => i,
      (a: Image, b: Image, area: real) => 0.0);
    var s := Settings([5, 7], 750.0, 50.0);
    assert ["camB_1", "camB_2"][..1] == ["camB_1"];
    assert CameraWalk(tk, s, ["camB_1"]) == Walk(None, ["camB_1"]);
  }

  /**
   * The loader files the first name of every camera nowhere: a camera with a
   * single file gets an empty list, and keys follow first occurrence.
   */
  lemma LoaderDropsFirstNames()
    ensures Group(["c10-0001.jpg", "c21-0001.jpg", "c10-0002.jpg", "c1"])
         == Catalog(["c10", "c21", "c1"], map["c10" := ["c10-0002.jpg"], "c21" := [], "c1" := []])
  {
    var l := ["c10-0001.jpg", "c21-0001.jpg", "c10-0002.jpg", "c1"];
    assert l[..3] == ["c10-0001.jpg", "c21-0001.jpg", "c10-0002.jpg"];
    assert l[..3][..2] == ["c10-0001.jpg", "c21-0001.jpg"];
    assert l[..3][..2][..1] == ["c10-0001.jpg"];
    assert Prefix("c10-0001.jpg") == "c10";
    assert Prefix("c21-0001.jpg") == "c21";
    assert Prefix("c10-0002.jpg") == "c10";
    assert Prefix("c1") == "c1";
    assert Group(l[..3][..2][..1]) == Catalog(["c10"], map["c10" := []]);
    assert Group(l[..3][..2]) == Catalog(["c10", "c21"], map["c10" := [], "c21" := []]);
    assert "c10" != "c21" && "c1" != "c10" && "c1" != "c21";
    assert Group(l[..3][..2]).lists["c10"] + ["c10-0002.jpg"] == ["c10-0002.jpg"];
    assert Group(l[..3]) == Catalog(["c10", "c21"], map["c10" := ["c10-0002.jpg"], "c21" := []]);
  }
}
