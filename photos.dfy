/** The values the view-model receives from the Photos and AVKit frameworks.
    Framework calls themselves are not modelled: whatever they answer is passed
    in, either as a value (an authorization status, a fetch result) or as a
    request function standing for the image manager. */
module Photos {

  datatype Option<+T> = None | Some(value: T)

  /** The media type of a library item. */
  datatype MediaType = UnknownMedia | ImageMedia | VideoMedia | AudioMedia

  /** A library item. Two references denote the same item exactly when they
      are equal; the fetch results and `contains` compare by this identity. */
  datatype PhotoAsset = PhotoAsset(localIdentifier: nat, mediaType: MediaType)

  /** The platform's answer to an authorization request. */
  datatype AuthorizationStatus =
    | NotDetermined
    | Restricted
    | DeniedByUser
    | Authorized
    | LimitedByUser

  /** A decoded bitmap; its pixels play no part in the model. */
  datatype Image = Image(raster: nat)

  /** A playable video resource. */
  datatype VideoAsset = VideoAsset(handle: nat)

  /** The target size of an image request, in points, or the largest size available. */
  datatype TargetSize = Points(width: nat, height: nat) | MaximumSize

  /** The image manager: what a request for an asset at a size delivers, if anything. */
  type ImageRequest = (PhotoAsset, TargetSize) -> Option<Image>

  /** The video resolver: the playable resource of an asset, if it resolves. */
  type VideoRequest = PhotoAsset -> Option<VideoAsset>
}
