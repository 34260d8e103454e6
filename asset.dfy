/** The list entry the picker shows: a library item and its decoded thumbnail. */
module AssetModel {
  import opened Photos

  datatype Asset = Asset(asset: PhotoAsset, image: Image)

  /** The number of entries of `entries` that show the library item `x`. */
  function Count(entries: seq<Asset>, x: PhotoAsset): (c: nat)
    ensures c <= |entries|
    ensures c == 0 <==> forall k :: 0 <= k < |entries| ==> entries[k].asset != x
  {
    if entries == [] then 0
    else
      var last := entries[|entries| - 1];
      Count(entries[..|entries| - 1], x) + (if last.asset == x then 1 else 0)
  }

  /** Every entry shows an item of `library`. */
  ghost predicate AllIn(entries: seq<Asset>, library: seq<PhotoAsset>)
  {
    forall k :: 0 <= k < |entries| ==> entries[k].asset in library
  }

  lemma {:induction false} CountAppend(f: seq<Asset>, g: seq<Asset>, x: PhotoAsset)
    ensures Count(f + g, x) == Count(f, x) + Count(g, x)
    decreases |g|
  {
    if g == [] {
      assert f + g == f;
    } else {
      var g' := g[..|g| - 1];
      assert (f + g)[..|f + g| - 1] == f + g';
      CountAppend(f, g', x);
    }
  }
}
