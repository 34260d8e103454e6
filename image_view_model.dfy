/** The picker's view-model: authorization status, the picker and preview
    flags, the list of thumbnails, the fetch result it was built from, and the
    two preview slots. Every main-queue hop of `ImagePickerViewModel` is taken as running
    at once, in program order. */
module ImageViewModel {
  import opened Photos
  import opened AssetModel
  import opened ThumbnailLoading
  import opened Reconciliation

  /** What the picker knows about its access to the photo library. */
  datatype LibraryStatus = Denied | Approved | Limited

  /** The status recorded for the platform's answer to the authorization request. */
  function StatusOf(answer: AuthorizationStatus): (status: LibraryStatus)
    ensures status == Approved <==> answer == Authorized
    ensures status == Limited <==> answer == LimitedByUser
    ensures status == Denied <==> answer in {NotDetermined, Restricted, DeniedByUser}
  {
    match answer
    case DeniedByUser => Denied
    case Authorized => Approved
    case LimitedByUser => Limited
    case _ => Denied
  }

  class ImagePickerViewModel {
    var showImagePicker: bool
    var libraryStatus: LibraryStatus
    var fetchedPhotos: seq<Asset>
    /** The fetch result the list was built from; None before the first fetch. */
    var allPhotos: Option<seq<PhotoAsset>>
    var showPreview: bool
    var selectedImagePreview: Option<Image>
    var selectedVideoPreview: Option<VideoAsset>

    /** Every entry of the list shows an item of the current fetch result. */
    ghost predicate Consistent()
      reads this
    {
      match allPhotos
      case None => fetchedPhotos == []
      case Some(all) => AllIn(fetchedPhotos, all)
    }

    constructor ()
      ensures !showImagePicker && libraryStatus == Denied
      ensures fetchedPhotos == [] && allPhotos == None
      ensures !showPreview && selectedImagePreview == None && selectedVideoPreview == None
      ensures Consistent()
    {
      showImagePicker := false;
      libraryStatus := Denied;
      fetchedPhotos := [];
      allPhotos := None;
      showPreview := false;
      selectedImagePreview := None;
      selectedVideoPreview := None;
    }

    /** Records the answer to the authorization request. */
    method SetUp(answer: AuthorizationStatus)
      modifies this`libraryStatus
      ensures libraryStatus == StatusOf(answer)
    {
      libraryStatus := StatusOf(answer);
    }

    /** Fetches only while the list is empty, then toggles the picker. */
    method OpenImagePicker(library: seq<PhotoAsset>, requestImage: ImageRequest)
      modifies this`showImagePicker, this`allPhotos, this`fetchedPhotos
      ensures showImagePicker == !old(showImagePicker)
      ensures old(fetchedPhotos) == [] ==>
                allPhotos == Some(library) && fetchedPhotos == Thumbnails(library, requestImage)
      ensures old(fetchedPhotos) != [] ==>
                allPhotos == old(allPhotos) && fetchedPhotos == old(fetchedPhotos)
      ensures old(Consistent()) ==> Consistent()
    {
      if |fetchedPhotos| == 0 {
        FetchPhotos(library, requestImage);
      }
      showImagePicker := !showImagePicker;
    }

    /** Stores the whole fetch result (newest first, hidden items excluded, as
        the caller passes it) and appends one entry per item whose thumbnail
        decodes, in enumeration order. */
    method FetchPhotos(library: seq<PhotoAsset>, requestImage: ImageRequest)
      modifies this`allPhotos, this`fetchedPhotos
      ensures allPhotos == Some(library)
      ensures fetchedPhotos == old(fetchedPhotos) + Thumbnails(library, requestImage)
      ensures old(fetchedPhotos) == [] ==> Consistent()
    {
      allPhotos := Some(library);
      for i := 0 to |library|
        invariant allPhotos == Some(library)
        invariant fetchedPhotos == old(fetchedPhotos) + Thumbnails(library[..i], requestImage)
      {
        assert library[..i + 1][..i] == library[..i];
        AppendThumbnail(library[i], requestImage);
      }
      assert library[..|library|] == library;
      ThumbnailsSound(library, requestImage);
    }

    /** Requests the thumbnail of `asset`; the completion, called only when an
        image is delivered, appends its entry. */
    method AppendThumbnail(asset: PhotoAsset, requestImage: ImageRequest)
      modifies this`fetchedPhotos
      ensures fetchedPhotos == old(fetchedPhotos) + Delivered(asset, requestImage)
    {
      fetchedPhotos := fetchedPhotos + Delivered(asset, requestImage);
    }

    /** Drops every entry that shows `gone`, keeping the others in order. */
    method RemoveAll(gone: PhotoAsset)
      modifies this`fetchedPhotos
      ensures fetchedPhotos == Outside(old(fetchedPhotos), [gone])
    {
      var kept := [];
      for i := 0 to |fetchedPhotos|
        invariant kept == Outside(fetchedPhotos[..i], [gone])
      {
        assert fetchedPhotos[..i + 1][..i] == fetchedPhotos[..i];
        if fetchedPhotos[i].asset != gone {
          kept := kept + [fetchedPhotos[i]];
        }
      }
      assert fetchedPhotos[..|fetchedPhotos|] == fetchedPhotos;
      fetchedPhotos := kept;
    }

    /** Handles a library-change notification. `change` holds the updated fetch
        result when the notification has change details for the current one,
        and None when it has none. */
    method PhotoLibraryDidChange(change: Option<seq<PhotoAsset>>, requestImage: ImageRequest)
      modifies this`allPhotos, this`fetchedPhotos
      ensures old(allPhotos) == None || change == None ==>
                allPhotos == old(allPhotos) && fetchedPhotos == old(fetchedPhotos)
      ensures old(allPhotos) != None && change != None ==>
                allPhotos == change &&
                fetchedPhotos == Reconciled(old(fetchedPhotos), old(allPhotos).value, change.value, requestImage)
      ensures old(Consistent()) ==> Consistent()
    {
      if allPhotos == None {
        return;
      }
      if change == None {
        return;
      }
      var before := allPhotos.value;
      var after := change.value;
      AppendInserted(before, after, requestImage);
      RemoveGone(before, after);
      ReconcileShape(old(fetchedPhotos), before, after, requestImage);
      allPhotos := Some(after);
      if old(Consistent()) {
        ReconcileConsistent(old(fetchedPhotos), before, after, requestImage);
      }
    }

    /** Enumerates the updated fetch result and appends an entry for every item
        the old one lacks and whose thumbnail decodes. */
    method AppendInserted(before: seq<PhotoAsset>, after: seq<PhotoAsset>, requestImage: ImageRequest)
      modifies this`fetchedPhotos
      ensures fetchedPhotos == old(fetchedPhotos) + Thumbnails(Absent(after, before), requestImage)
    {
      for i := 0 to |after|
        invariant fetchedPhotos == old(fetchedPhotos) + Thumbnails(Absent(after[..i], before), requestImage)
      {
        var asset := after[i];
        assert after[..i + 1] == after[..i] + [asset];
        AbsentSnoc(after[..i], before, asset);
        if asset !in before {
          ghost var added := Absent(after[..i], before);
          ThumbnailsSnoc(added, asset, requestImage);
          AppendThumbnail(asset, requestImage);
          assert fetchedPhotos == old(fetchedPhotos) + (Thumbnails(added, requestImage) + Delivered(asset, requestImage));
        } else {
          assert Absent(after[..i + 1], before) == Absent(after[..i], before);
        }
      }
      assert after[..|after|] == after;
    }

    /** Enumerates the old fetch result and removes every entry of each item the
        updated one lacks. */
    method RemoveGone(before: seq<PhotoAsset>, after: seq<PhotoAsset>)
      modifies this`fetchedPhotos
      ensures fetchedPhotos == Outside(old(fetchedPhotos), Absent(before, after))
    {
      OutsideUntouched(fetchedPhotos, []);
      for i := 0 to |before|
        invariant fetchedPhotos == Outside(old(fetchedPhotos), Absent(before[..i], after))
      {
        var asset := before[i];
        assert before[..i + 1] == before[..i] + [asset];
        AbsentSnoc(before[..i], after, asset);
        if asset !in after {
          OutsideSnoc(old(fetchedPhotos), Absent(before[..i], after), asset);
          RemoveAll(asset);
        } else {
          assert Absent(before[..i + 1], after) == Absent(before[..i], after);
        }
      }
      assert before[..|before|] == before;
    }

    /** Fills the preview slot matching the item's media type, when its request
        delivers; the other slot is left as it was. */
    method ExtractPreviewData(asset: PhotoAsset, requestImage: ImageRequest, requestVideo: VideoRequest)
      modifies this`selectedImagePreview, this`selectedVideoPreview
      ensures selectedImagePreview ==
                if asset.mediaType == ImageMedia && requestImage(asset, ThumbnailSize).Some?
                then requestImage(asset, ThumbnailSize) else old(selectedImagePreview)
      ensures selectedVideoPreview ==
                if asset.mediaType == VideoMedia && requestVideo(asset).Some?
                then requestVideo(asset) else old(selectedVideoPreview)
    {
      if asset.mediaType == ImageMedia {
        match GetImageFromAsset(asset, MaximumSize, requestImage) {
          case Some(image) => selectedImagePreview := Some(image);
          case None =>
        }
      }
      if asset.mediaType == VideoMedia {
        match requestVideo(asset) {
          case Some(video) => selectedVideoPreview := Some(video);
          case None =>
        }
      }
    }
  }
}
