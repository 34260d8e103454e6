/** What a library-change notification does to the picker's list: entries for
    items that left the library are filtered out, entries for items that joined
    it are appended. Both sides are computed by membership in the old and the
    updated fetch results, not by position. */
module Reconciliation {
  import opened Photos
  import opened AssetModel
  import opened ThumbnailLoading

  /** The items of `s`, in order, that do not occur in `other`. */
  function Absent(s: seq<PhotoAsset>, other: seq<PhotoAsset>): seq<PhotoAsset>
  {
    if s == [] then []
    else
      var last := s[|s| - 1];
      Absent(s[..|s| - 1], other) + (if last in other then [] else [last])
  }

  /** The entries of `f`, in order, whose item does not occur in `gone`. */
  function Outside(f: seq<Asset>, gone: seq<PhotoAsset>): seq<Asset>
  {
    if f == [] then []
    else
      var last := f[|f| - 1];
      Outside(f[..|f| - 1], gone) + (if last.asset in gone then [] else [last])
  }

  /** The list after a notification that replaces the fetch result `before` by `after`:
      the surviving entries in their old order, then the entries for the new items. */
  function Reconciled(f: seq<Asset>, before: seq<PhotoAsset>, after: seq<PhotoAsset>,
                      requestImage: ImageRequest): seq<Asset>
  {
    Outside(f, Absent(before, after)) + Thumbnails(Absent(after, before), requestImage)
  }

  lemma AbsentSnoc(s: seq<PhotoAsset>, other: seq<PhotoAsset>, x: PhotoAsset)
    ensures Absent(s + [x], other) == Absent(s, other) + (if x in other then [] else [x])
  {
    assert (s + [x])[..|s|] == s;
  }

  /** `Absent` keeps every occurrence of an item missing from `other` and drops every other one. */
  lemma {:induction false} AbsentCount(s: seq<PhotoAsset>, other: seq<PhotoAsset>, x: PhotoAsset)
    ensures multiset(Absent(s, other))[x] == if x in other then 0 else multiset(s)[x]
    ensures x in Absent(s, other) <==> x in s && x !in other
  {
    if s != [] {
      var s' := s[..|s| - 1];
      assert s == s' + [s[|s| - 1]];
      AbsentCount(s', other, x);
    }
  }

  lemma {:induction false} OutsideAppend(f: seq<Asset>, g: seq<Asset>, gone: seq<PhotoAsset>)
    ensures Outside(f + g, gone) == Outside(f, gone) + Outside(g, gone)
    decreases |g|
  {
    if g == [] {
      assert f + g == f;
    } else {
      var g' := g[..|g| - 1];
      assert (f + g)[..|f + g| - 1] == f + g';
      OutsideAppend(f, g', gone);
    }
  }

  /** Removing the entries of the items of `gone` and then those of `x` is removing those of `gone + [x]`. */
  lemma {:induction false} OutsideSnoc(f: seq<Asset>, gone: seq<PhotoAsset>, x: PhotoAsset)
    ensures Outside(f, gone + [x]) == Outside(Outside(f, gone), [x])
  {
    if f != [] {
      var f' := f[..|f| - 1];
      var last := f[|f| - 1];
      OutsideSnoc(f', gone, x);
      if last.asset !in gone {
        assert [last][..0] == [];
        var tail := if last.asset == x then [] else [last];
        assert Outside([last], [x]) == tail;
        OutsideAppend(Outside(f', gone), [last], [x]);
        calc {
          Outside(f, gone + [x]);
          Outside(f', gone + [x]) + tail;
          Outside(Outside(f', gone), [x]) + tail;
          Outside(Outside(f', gone) + [last], [x]);
          Outside(Outside(f, gone), [x]);
        }
      } else {
        assert last.asset in gone + [x];
        assert Outside(f, gone) == Outside(f', gone) + [] == Outside(f', gone);
        assert Outside(f, gone + [x]) == Outside(f', gone + [x]) + [] == Outside(f', gone + [x]);
      }
    }
  }

  /** Every entry of an item in `gone` is removed, duplicates included; every other entry stays. */
  lemma {:induction false} OutsideCount(f: seq<Asset>, gone: seq<PhotoAsset>, x: PhotoAsset)
    ensures Count(Outside(f, gone), x) == if x in gone then 0 else Count(f, x)
  {
    if f != [] {
      var f' := f[..|f| - 1];
      var last := f[|f| - 1];
      OutsideCount(f', gone, x);
      var tail := if last.asset in gone then [] else [last];
      CountAppend(Outside(f', gone), tail, x);
      assert tail == [] || tail[..0] == [];
    }
  }

  /** An entry survives exactly when it was there and its item is not in `gone`. */
  lemma {:induction false} OutsideMembers(f: seq<Asset>, gone: seq<PhotoAsset>, e: Asset)
    ensures e in Outside(f, gone) <==> e in f && e.asset !in gone
  {
    if f != [] {
      var f' := f[..|f| - 1];
      assert f == f' + [f[|f| - 1]];
      OutsideMembers(f', gone, e);
    }
  }

  /** Filtering by items that no entry shows leaves the list as it is. */
  lemma {:induction false} OutsideUntouched(f: seq<Asset>, gone: seq<PhotoAsset>)
    requires forall k :: 0 <= k < |f| ==> f[k].asset !in gone
    ensures Outside(f, gone) == f
  {
    if f != [] {
      var f' := f[..|f| - 1];
      OutsideUntouched(f', gone);
      assert f == f' + [f[|f| - 1]];
    }
  }

  /** The list the handler builds in program order (append the new items, then
      remove the gone ones) is the surviving entries followed by the new ones:
      the appended entries never show a gone item, so removing cannot touch them. */
  lemma ReconcileShape(f: seq<Asset>, before: seq<PhotoAsset>, after: seq<PhotoAsset>,
                       requestImage: ImageRequest)
    ensures Outside(f + Thumbnails(Absent(after, before), requestImage), Absent(before, after))
            == Reconciled(f, before, after, requestImage)
  {
    var added := Thumbnails(Absent(after, before), requestImage);
    var gone := Absent(before, after);
    OutsideAppend(f, added, gone);
    ThumbnailsSound(Absent(after, before), requestImage);
    forall k | 0 <= k < |added|
      ensures added[k].asset !in gone
    {
      AbsentCount(after, before, added[k].asset);
      AbsentCount(before, after, added[k].asset);
    }
    OutsideUntouched(added, gone);
  }

  /** If every entry showed an item of the old fetch result, every entry afterwards
      shows an item of the updated one. */
  lemma ReconcileConsistent(f: seq<Asset>, before: seq<PhotoAsset>, after: seq<PhotoAsset>,
                            requestImage: ImageRequest)
    requires AllIn(f, before)
    ensures AllIn(Reconciled(f, before, after, requestImage), after)
  {
    var kept := Outside(f, Absent(before, after));
    var added := Absent(after, before);
    forall k | 0 <= k < |kept|
      ensures kept[k].asset in after
    {
      OutsideMembers(f, Absent(before, after), kept[k]);
      AbsentCount(before, after, kept[k].asset);
    }
    ThumbnailsSound(added, requestImage);
    forall k | 0 <= k < |Thumbnails(added, requestImage)|
      ensures Thumbnails(added, requestImage)[k].asset in after
    {
      AbsentCount(after, before, Thumbnails(added, requestImage)[k].asset);
    }
  }

  /** How many entries an item has after the notification: none when it left the
      library; otherwise its old entries, plus, when it is new and its thumbnail
      decodes, one per occurrence in the updated fetch result. */
  lemma ReconcileCount(f: seq<Asset>, before: seq<PhotoAsset>, after: seq<PhotoAsset>,
                       requestImage: ImageRequest, x: PhotoAsset)
    ensures Count(Reconciled(f, before, after, requestImage), x) ==
            (if x in before && x !in after then 0 else Count(f, x)) +
            (if x !in before && GetImageFromAsset(x, ThumbnailSize, requestImage).Some?
             then multiset(after)[x] else 0)
  {
    var gone := Absent(before, after);
    var added := Absent(after, before);
    CountAppend(Outside(f, gone), Thumbnails(added, requestImage), x);
    AbsentCount(before, after, x);
    OutsideCount(f, gone, x);
    ThumbnailsCount(added, requestImage, x);
    AbsentCount(after, before, x);
  }

  /** In a fetch result without repeated items, an item occurs once or not at all. */
  lemma {:induction false} DistinctOccursOnce(s: seq<PhotoAsset>, x: PhotoAsset)
    requires forall i, j :: 0 <= i < j < |s| ==> s[i] != s[j]
    ensures multiset(s)[x] == if x in s then 1 else 0
  {
    if s != [] {
      var s' := s[..|s| - 1];
      assert s == s' + [s[|s| - 1]];
      DistinctOccursOnce(s', x);
    }
  }

  /** With a fetch result that lists each item once, a new item whose thumbnail
      decodes gets exactly one entry, and no other item gains one. */
  lemma NewItemAppendedOnce(before: seq<PhotoAsset>, after: seq<PhotoAsset>,
                            requestImage: ImageRequest, x: PhotoAsset)
    requires forall i, j :: 0 <= i < j < |after| ==> after[i] != after[j]
    ensures Count(Thumbnails(Absent(after, before), requestImage), x) ==
            if x in after && x !in before && GetImageFromAsset(x, ThumbnailSize, requestImage).Some?
            then 1 else 0
  {
    ThumbnailsCount(Absent(after, before), requestImage, x);
    AbsentCount(after, before, x);
    DistinctOccursOnce(after, x);
  }
}
