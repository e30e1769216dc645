/** The moodboard selection of the dashboard (src/ChatUI.jsx): an asset is
    recognised by its picture address or its source page, compared across
    the two fields, and toggling adds a normalised entry or removes every
    entry that matches. */
module Selection {
  import opened ChatModel
  import opened Seqs

  /** Two assets are the same when a non-empty address of one equals a
      non-empty address of the other, comparing `image` and `url` both ways. */
  predicate SameAsset(a: Image, b: Image) {
    || (a.image != "" && b.image != "" && a.image == b.image)
    || (a.url != "" && b.url != "" && a.url == b.url)
    || (a.image != "" && b.url != "" && a.image == b.url)
    || (a.url != "" && b.image != "" && a.url == b.image)
  }

  /** The entry added for an asset: each missing address borrowed from the
      other field. */
  function Normalize(img: Image): (n: Image)
    ensures n.image == (if img.image != "" then img.image else img.url)
    ensures n.url == (if img.url != "" then img.url else img.image)
    ensures n.title == img.title && n.category == img.category
    ensures n.fileType == img.fileType && n.format == img.format
  {
    img.(image := if img.image != "" then img.image else img.url,
         url := if img.url != "" then img.url else img.image)
  }

  predicate Selected(sel: seq<Image>, img: Image) {
    exists i :: 0 <= i < |sel| && SameAsset(sel[i], img)
  }

  /** The entries that do not match `img`, in order. */
  function Unmatching(sel: seq<Image>, img: Image): (r: seq<Image>)
    ensures |r| <= |sel|
    ensures forall x :: x in r <==> x in sel && !SameAsset(x, img)
  {
    if sel == [] then []
    else (if SameAsset(sel[0], img) then [] else [sel[0]]) + Unmatching(sel[1..], img)
  }

  /** `toggleImageSelection`'s update of the selected list. */
  function Toggle(sel: seq<Image>, img: Image): (r: seq<Image>)
    ensures Selected(sel, img) ==> |r| < |sel| && forall x :: x in r <==> x in sel && !SameAsset(x, img)
    ensures !Selected(sel, img) ==> r == sel + [Normalize(img)]
  {
    if Selected(sel, img) then
      var i :| 0 <= i < |sel| && SameAsset(sel[i], img);
      UnmatchingDrops(sel, img, i);
      Unmatching(sel, img)
    else sel + [Normalize(img)]
  }

  lemma {:induction false} UnmatchingDrops(sel: seq<Image>, img: Image, i: nat)
    requires i < |sel| && SameAsset(sel[i], img)
    ensures |Unmatching(sel, img)| < |sel|
    decreases |sel|
  {
    if i > 0 {
      UnmatchingDrops(sel[1..], img, i - 1);
    }
  }

  /** The comparison does not depend on which asset comes first. */
  lemma SameAssetSymmetric(a: Image, b: Image)
    ensures SameAsset(a, b) <==> SameAsset(b, a)
  {
  }

  /** An asset with an address matches its own normalised entry. */
  lemma NormalizeMatches(img: Image)
    requires img.image != "" || img.url != ""
    ensures SameAsset(Normalize(img), img)
  {
  }

  /** No entry matches: `Unmatching` keeps the list whole. */
  lemma {:induction false} UnmatchingAll(sel: seq<Image>, img: Image)
    requires !Selected(sel, img)
    ensures Unmatching(sel, img) == sel
    decreases |sel|
  {
    if sel != [] {
      assert !SameAsset(sel[0], img);
      assert !Selected(sel[1..], img) by {
        forall i | 0 <= i < |sel| - 1 ensures !SameAsset(sel[1..][i], img) {
          assert sel[1..][i] == sel[i + 1];
        }
      }
      UnmatchingAll(sel[1..], img);
    }
  }

  lemma {:induction false} UnmatchingSnoc(sel: seq<Image>, x: Image, img: Image)
    ensures Unmatching(sel + [x], img) == Unmatching(sel, img) + (if SameAsset(x, img) then [] else [x])
    decreases |sel|
  {
    if sel == [] {
      assert [x][1..] == [];
    } else {
      var h := if SameAsset(sel[0], img) then [] else [sel[0]];
      var t := if SameAsset(x, img) then [] else [x];
      assert (sel + [x])[0] == sel[0];
      assert (sel + [x])[1..] == sel[1..] + [x];
      UnmatchingSnoc(sel[1..], x, img);
      assert Unmatching(sel + [x], img) == h + (Unmatching(sel[1..], img) + t);
      Assoc(h, Unmatching(sel[1..], img), t);
    }
  }

  /** Toggling an asset with an address twice, starting from a selection
      that does not hold it, restores the selection. */
  lemma ToggleTwice(sel: seq<Image>, img: Image)
    requires img.image != "" || img.url != ""
    requires !Selected(sel, img)
    ensures Toggle(Toggle(sel, img), img) == sel
  {
    var once := sel + [Normalize(img)];
    NormalizeMatches(img);
    assert SameAsset(once[|sel|], img);
    assert Selected(once, img);
    UnmatchingSnoc(sel, Normalize(img), img);
    UnmatchingAll(sel, img);
  }

  /** An asset with neither address never matches, so each toggle adds
      another empty entry. */
  lemma ToggleBlankTwice(sel: seq<Image>, img: Image)
    requires img.image == "" && img.url == ""
    ensures Toggle(Toggle(sel, img), img) == sel + [img, img]
  {
    var once := Toggle(sel, img);
    assert once == sel + [img];
    assert !Selected(once, img);
  }
}
