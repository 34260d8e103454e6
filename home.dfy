/** The state rules of the chat screen that drive the view-model: tapping a
    thumbnail, dismissing the preview sheet, focusing the message field, and
    when the access prompt is shown. Layout and styling are not modelled. */
module Home {
  import opened Photos
  import opened AssetModel
  import opened ThumbnailLoading
  import opened ImageViewModel

  /** The access prompt next to the thumbnails is shown unless access is fully granted. */
  function ShowsAccessAffordance(status: LibraryStatus): (shown: bool)
    ensures shown <==> status != Approved
  {
    status == Denied || status == Limited
  }

  /** Tapping a thumbnail extracts its preview and toggles the preview sheet. */
  method TapThumbnail(picker: ImagePickerViewModel, photo: Asset,
                      requestImage: ImageRequest, requestVideo: VideoRequest)
    modifies picker`selectedImagePreview, picker`selectedVideoPreview, picker`showPreview
    ensures picker.showPreview == !old(picker.showPreview)
    ensures picker.selectedImagePreview ==
              if photo.asset.mediaType == ImageMedia && requestImage(photo.asset, ThumbnailSize).Some?
              then requestImage(photo.asset, ThumbnailSize) else old(picker.selectedImagePreview)
    ensures picker.selectedVideoPreview ==
              if photo.asset.mediaType == VideoMedia && requestVideo(photo.asset).Some?
              then requestVideo(photo.asset) else old(picker.selectedVideoPreview)
  {
    picker.ExtractPreviewData(photo.asset, requestImage, requestVideo);
    picker.showPreview := !picker.showPreview;
  }

  /** Dismissing the sheet resets its binding and clears both preview slots. */
  method DismissPreview(picker: ImagePickerViewModel)
    modifies picker`selectedImagePreview, picker`selectedVideoPreview, picker`showPreview
    ensures !picker.showPreview
    ensures picker.selectedImagePreview == None && picker.selectedVideoPreview == None
  {
    picker.showPreview := false;
    picker.selectedVideoPreview := None;
    picker.selectedImagePreview := None;
  }

  /** Starting to edit the message closes an open picker; nothing else opens or closes it. */
  method MessageFieldEditingChanged(picker: ImagePickerViewModel, editing: bool)
    modifies picker`showImagePicker
    ensures picker.showImagePicker == (old(picker.showImagePicker) && !editing)
  {
    if editing && picker.showImagePicker {
      picker.showImagePicker := !picker.showImagePicker;
    }
  }
}
