# CustomImagePicker view-model, in Dafny

This project models `ImagePickerViewModel`, the view-model behind the chat screen's photo picker. Its state is:

- the library authorization status;
- whether the picker is shown;
- `fetchedPhotos`, the list of thumbnails (`Asset` entries, each a library item and its decoded image);
- `allPhotos`, the fetch result the list was built from;
- the preview flag and the two preview slots, one for an image and one for a video.

The model keeps each operation as a method of a class that assigns these fields. The enumeration loops stay loops. The specification functions say what each loop computes:

- `Thumbnails`: the entries appended while enumerating a fetch result;
- `Absent`: the items of one fetch result missing from another;
- `Outside`: the entries left after filtering out a set of items;
- `Reconciled`: the list after a change notification.

The lemmas prove what these operations guarantee:

- a change notification removes every entry of a departed item, duplicates included;
- it appends one entry per new item whose thumbnail decodes, at the end and in fetch order;
- surviving entries keep their relative order;
- with thumbnails delivered synchronously, "every entry shows an item of `allPhotos`" is preserved by opening the picker and by change notifications;
- the authorization mapping is total.

Framework calls are inputs:

- the platform's authorization answer is a value;
- a fetch result is a sequence of `PhotoAsset` values, already sorted newest first with hidden items excluded;
- a change notification's details for the current fetch result are `Option<seq<PhotoAsset>>`;
- the image manager is a function `ImageRequest` from an item and a target size to an optional image;
- the video resolver is a function `VideoRequest`.

A `None` from the image manager stands for the `guard let … else { return }` in `getImageFromAsset`: the completion is never called and nothing is appended. Every hop to the main queue is taken as running at once, in program order, and thumbnail deliveries arrive in enumeration order.

How the change handler behaves as written, and how the model runs it:

- the handler enumerates the updated fetch result and requests a thumbnail for each new item; each append happens later, in that request's completion. It then enumerates the old fetch result and queues one removal per departed item on the main queue, and finally queues the replacement of `allPhotos`. The model runs each completion at once, so all appends come first, in enumeration order, then the removals, then the replacement;
- `ReconcileShape` shows that doing all removals before or after all appends gives the same list, because a new item is never a departed one;
- so within one notification the resulting list depends only on the order in which thumbnails are delivered, which the model takes as enumeration order. Thumbnails delivered in another order, or across notifications, are not covered (see "## Left out").

Other behaviour of the code that the model keeps:

- setting one preview slot does not clear the other;
- `getImageFromAsset` overwrites the requested size with 150×150, so the preview image requested at `PHImageManagerMaximumSize` arrives at thumbnail size. `ExtractPreviewData`'s contract states this by naming the 150×150 request.

`LibraryStatus` has three cases, `denied`, `approved` and `limited`, the ones `ImageViewModel.swift` assigns.

Files:

- `photos.dfy`: framework values.
- `asset.dfy`: the `Asset` entry.
- `thumbnails.dfy`: thumbnail requests and enumeration.
- `reconciliation.dfy`: change reconciliation.
- `image_view_model.dfy`: the view-model class.
- `home.dfy`: the chat screen's state rules.

## Model

| member | source | states |
|---|---|---|
| `ImageViewModel.StatusOf` | CustomImagePicker/ViewModel/ImageViewModel.swift:50-59 | the status is approved iff the answer is authorized, limited iff limited, and denied for denied, restricted and not determined |
| `ImageViewModel.ImagePickerViewModel.constructor` | CustomImagePicker/ViewModel/ImageViewModel.swift:14-28 | initial state: picker hidden, status denied before any answer, empty list, no fetch result, no preview |
| `ImageViewModel.ImagePickerViewModel.SetUp` | CustomImagePicker/ViewModel/ImageViewModel.swift:45-61 | records `StatusOf(answer)` and changes no other field |
| `ImageViewModel.ImagePickerViewModel.OpenImagePicker` | CustomImagePicker/ViewModel/ImageViewModel.swift:30-43 | fetches only when the list is empty (a non-empty list and fetch result stay as they were), always flips the picker flag, and preserves the consistency invariant |
| `ImageViewModel.ImagePickerViewModel.FetchPhotos` | CustomImagePicker/ViewModel/ImageViewModel.swift:120-147 | `allPhotos` becomes the whole fetch result; the list gains `Thumbnails(library)` at its end; starting from an empty list, every entry shows an item of the fetch result |
| `ImageViewModel.ImagePickerViewModel.AppendThumbnail` | CustomImagePicker/ViewModel/ImageViewModel.swift:137-145 | the completion appends exactly the delivered entry, and nothing when no image is delivered |
| `ImageViewModel.ImagePickerViewModel.PhotoLibraryDidChange` | CustomImagePicker/ViewModel/ImageViewModel.swift:68-118 | no change to any field when `allPhotos` is nil or the notification has no details for it; otherwise `allPhotos` becomes the updated result and the list becomes the surviving entries followed by the new items' entries; preserves the consistency invariant |
| `ImageViewModel.ImagePickerViewModel.AppendInserted` | CustomImagePicker/ViewModel/ImageViewModel.swift:84-96 | appends, in the updated result's order, the entries of the items the old result lacks; existing entries are untouched |
| `ImageViewModel.ImagePickerViewModel.RemoveGone` | CustomImagePicker/ViewModel/ImageViewModel.swift:99-111 | removes every entry of every item of the old result that the updated one lacks |
| `ImageViewModel.ImagePickerViewModel.RemoveAll` | CustomImagePicker/ViewModel/ImageViewModel.swift:105-108 | the list loses every entry showing the item and keeps the others in order |
| `ImageViewModel.ImagePickerViewModel.ExtractPreviewData` | CustomImagePicker/ViewModel/ImageViewModel.swift:173-201 | an image item with a delivered image sets only the image slot, to the 150×150 request's image; a video item with a resolved handle sets only the video slot; otherwise both slots are unchanged |
| `ThumbnailLoading.GetImageFromAsset` | CustomImagePicker/ViewModel/ImageViewModel.swift:149-170 | the image delivered to the completion is what the image manager delivers for the asset at 150×150, whatever size the caller asked for; none when the manager delivers none |
| `ThumbnailLoading.Delivered` | CustomImagePicker/ViewModel/ImageViewModel.swift:137-145 | a request's completion contributes at most one entry: exactly one, showing the asset with its delivered image, when an image is delivered, and none otherwise |
| `ThumbnailLoading.RequestedSizeIgnored` | CustomImagePicker/ViewModel/ImageViewModel.swift:149-170 | the image delivered does not depend on the size asked for; a maximum-size request is a 150×150 request |
| `ThumbnailLoading.ThumbnailsSnoc` | CustomImagePicker/ViewModel/ImageViewModel.swift:134-146 | enumerating one more item appends that item's delivered entry at the end |
| `ThumbnailLoading.ThumbnailsAppend` | CustomImagePicker/ViewModel/ImageViewModel.swift:134-146 | the entries of an enumeration follow its order: those of a prefix come before those of the rest |
| `ThumbnailLoading.ThumbnailsSound` | CustomImagePicker/ViewModel/ImageViewModel.swift:137-145 | every appended entry shows an enumerated item together with the image its request delivered |
| `ThumbnailLoading.ThumbnailsCount` | CustomImagePicker/ViewModel/ImageViewModel.swift:134-146 | an item whose image decodes gets one entry per occurrence in the enumeration; an item whose image does not decode gets none |
| `Reconciliation.AbsentSnoc` | CustomImagePicker/ViewModel/ImageViewModel.swift:86 | one more enumerated item joins the difference exactly when the other result does not contain it |
| `Reconciliation.AbsentCount` | CustomImagePicker/ViewModel/ImageViewModel.swift:101 | the difference is by membership: an item is in it iff it is in the first result and not the second, with all its occurrences |
| `Reconciliation.OutsideAppend` | CustomImagePicker/ViewModel/ImageViewModel.swift:105-108 | filtering acts on each part of a list separately and keeps their order |
| `Reconciliation.OutsideSnoc` | CustomImagePicker/ViewModel/ImageViewModel.swift:99-111 | one more `removeAll` for an item filters out that item's entries as well |
| `Reconciliation.OutsideCount` | CustomImagePicker/ViewModel/ImageViewModel.swift:105-108 | a removed item is left with no entries, duplicates included; any other item keeps its count |
| `Reconciliation.OutsideMembers` | CustomImagePicker/ViewModel/ImageViewModel.swift:105-108 | an entry survives iff it was in the list and its item is not removed |
| `Reconciliation.OutsideUntouched` | CustomImagePicker/ViewModel/ImageViewModel.swift:99-111 | removing items that no entry shows leaves the list unchanged |
| `Reconciliation.ReconcileShape` | CustomImagePicker/ViewModel/ImageViewModel.swift:84-115 | appending and then removing, as the handler does, yields the survivors in their old order followed by the new entries |
| `Reconciliation.ReconcileConsistent` | CustomImagePicker/ViewModel/ImageViewModel.swift:68-118 | if every entry showed an item of the old result, every entry afterwards shows an item of the updated result |
| `Reconciliation.ReconcileCount` | CustomImagePicker/ViewModel/ImageViewModel.swift:84-111 | after a change, a departed item has no entries; any other item keeps its entries and, if new and decodable, gains one per occurrence in the updated result |
| `Reconciliation.NewItemAppendedOnce` | CustomImagePicker/ViewModel/ImageViewModel.swift:84-96 | in a fetch result without repeats, a new decodable item gets exactly one entry and no other item gains any |
| `Home.ShowsAccessAffordance` | CustomImagePicker/View/Home.swift:86 | the access prompt is shown iff the status is not approved (that is, denied or limited) |
| `Home.TapThumbnail` | CustomImagePicker/View/Home.swift:75-81 | extracts the tapped item's preview as `ExtractPreviewData` does and flips the preview flag |
| `Home.DismissPreview` | CustomImagePicker/View/Home.swift:146-149 | dismissing the sheet clears both preview slots and the preview flag |
| `Home.MessageFieldEditingChanged` | CustomImagePicker/View/Home.swift:38-47 | starting to edit closes an open picker; otherwise the picker flag is unchanged |

## Left out

- Registering the observer (`PHPhotoLibrary.shared().register`): a notification is a call of `PhotoLibraryDidChange`.
- The asynchrony of the authorization answer, of image and video requests and of the main-queue hops: each is taken as completing at once and in program order. Thumbnails are taken as delivered in enumeration order.
- Pending thumbnail completions: every completion runs synchronously, right after its request. The code never deduplicates `fetchedPhotos`, never cancels a load and never re-checks a late thumbnail against the current fetch result, and the model has no state in which any of that could matter. Two consequences are therefore not captured. First, a thumbnail requested by one notification and delivered after a later notification removed its item is still appended, leaving an entry outside `allPhotos`; for example, [A] to [D, A] requests D, then [D, A] to [A] removes D's (not yet present) entries, then D's thumbnail arrives. Second, two taps on "+" before any thumbnail arrives fetch twice and duplicate the list.
- ImageViewModel.ImagePickerViewModel.PhotoLibraryDidChange: its promise that every entry shows an item of `allPhotos` afterwards holds only under the synchronous delivery above; in the code the late-thumbnail scenario just described breaks it.
- ImageViewModel.ImagePickerViewModel.OpenImagePicker: its promise to fetch only into an empty list holds only under the synchronous delivery above; in the code a second tap before any thumbnail arrives fetches again and duplicates the list.
- Reconciliation.ReconcileShape: shows that appends and removals commute within one notification only; it says nothing about completions of one notification interleaving with a later one.
- Dismissing the keyboard in `openImagePicker` and opening the Settings URL: these are platform side effects.
- `Asset.id` (a fresh UUID string): it is random and only used for list diffing, so entries carry just the item and its image.
- The fetch options (sort by creation date, newest first; hidden items excluded): the fetch result is passed in already shaped by them.
- The image request's delivery mode, content mode and caching: these are framework settings. Image contents and sizes are opaque.
- The debug prints of inserted and removed counts in the change handler: logging only.
- Screen layout, toolbars, animations, the thumbnail and preview views, and the wording of the access prompt: presentation only.
