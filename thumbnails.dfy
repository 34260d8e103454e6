/** Thumbnail requests (`getImageFromAsset`) and the entries an enumeration
    of a fetch result appends to the picker's list. */
module ThumbnailLoading {
  import opened Photos
  import opened AssetModel

  /** The size every request is made at, whatever size the caller asked for. */
  const ThumbnailSize: TargetSize := Points(150, 150)

  /** What a request for `asset` delivers to its completion. The `size`
      argument is overwritten before the request is made, so it has no effect. */
  function GetImageFromAsset(asset: PhotoAsset, size: TargetSize, requestImage: ImageRequest): (r: Option<Image>)
    ensures r == requestImage(asset, Points(150, 150))
  {
    requestImage(asset, ThumbnailSize)
  }

  lemma RequestedSizeIgnored(asset: PhotoAsset, s1: TargetSize, s2: TargetSize, requestImage: ImageRequest)
    ensures GetImageFromAsset(asset, s1, requestImage) == GetImageFromAsset(asset, s2, requestImage)
    ensures GetImageFromAsset(asset, MaximumSize, requestImage) == requestImage(asset, Points(150, 150))
  {
  }

  /** The entry appended for `asset`: one when its image decodes, none when the
      completion is never called. */
  function Delivered(asset: PhotoAsset, requestImage: ImageRequest): (d: seq<Asset>)
    ensures |d| <= 1
    ensures d == [] <==> GetImageFromAsset(asset, ThumbnailSize, requestImage).None?
    ensures forall e :: e in d ==>
              e.asset == asset && GetImageFromAsset(asset, ThumbnailSize, requestImage) == Some(e.image)
  {
    match GetImageFromAsset(asset, ThumbnailSize, requestImage)
    case Some(image) => [Asset(asset, image)]
    case None => []
  }

  /** The entries appended while enumerating `s`, in enumeration order. */
  function Thumbnails(s: seq<PhotoAsset>, requestImage: ImageRequest): seq<Asset>
  {
    if s == [] then []
    else Thumbnails(s[..|s| - 1], requestImage) + Delivered(s[|s| - 1], requestImage)
  }

  lemma ThumbnailsSnoc(s: seq<PhotoAsset>, asset: PhotoAsset, requestImage: ImageRequest)
    ensures Thumbnails(s + [asset], requestImage) == Thumbnails(s, requestImage) + Delivered(asset, requestImage)
  {
    assert (s + [asset])[..|s|] == s;
  }

  /** Enumerating two lists one after the other appends the entries of the first, then those of the second. */
  lemma {:induction false} ThumbnailsAppend(s: seq<PhotoAsset>, t: seq<PhotoAsset>, requestImage: ImageRequest)
    ensures Thumbnails(s + t, requestImage) == Thumbnails(s, requestImage) + Thumbnails(t, requestImage)
    decreases |t|
  {
    if t == [] {
      assert s + t == s;
    } else {
      var t' := t[..|t| - 1];
      assert (s + t)[..|s + t| - 1] == s + t';
      ThumbnailsAppend(s, t', requestImage);
    }
  }

  /** Every appended entry shows an enumerated item together with the image its request delivered. */
  lemma {:induction false} ThumbnailsSound(s: seq<PhotoAsset>, requestImage: ImageRequest)
    ensures AllIn(Thumbnails(s, requestImage), s)
    ensures forall e :: e in Thumbnails(s, requestImage) ==>
              GetImageFromAsset(e.asset, ThumbnailSize, requestImage) == Some(e.image)
  {
    if s != [] {
      var s' := s[..|s| - 1];
      ThumbnailsSound(s', requestImage);
      assert forall x :: x in s' ==> x in s;
    }
  }

  /** An item gets one entry per occurrence in the enumeration when its image
      decodes, and none at all when it does not. */
  lemma {:induction false} ThumbnailsCount(s: seq<PhotoAsset>, requestImage: ImageRequest, x: PhotoAsset)
    ensures Count(Thumbnails(s, requestImage), x) ==
            if GetImageFromAsset(x, ThumbnailSize, requestImage).Some? then multiset(s)[x] else 0
  {
    if s != [] {
      var s' := s[..|s| - 1];
      var last := s[|s| - 1];
      assert s == s' + [last];
      assert multiset(s)[x] == multiset(s')[x] + (if last == x then 1 else 0);
      ThumbnailsCount(s', requestImage, x);
      CountAppend(Thumbnails(s', requestImage), Delivered(last, requestImage), x);
      assert Count(Delivered(last, requestImage), x) ==
             if last == x && GetImageFromAsset(x, ThumbnailSize, requestImage).Some? then 1 else 0;
    }
  }
}
