# Upload pre-checks of the Commons Android app, modelled in Dafny

This project models the decision logic that runs before a file is uploaded
from the Wikimedia Commons Android app's upload screen. There are three parts:

- **Permission** (`permission.dfy`, the `Permission` class) holds three flags:
  `useNewPermission`, `storagePermitted` and `locationPermitted`. It also holds
  the functions that turn a request code and a grant-result array into a
  verdict. The `switch` statements fall through and are modelled that way:
  each case block is a function that continues into the next block. For
  example, an answer to request code 2 also counts when its second entry is a
  grant.
- **FileImageManager** (`file_image_manager.dfy`, `fingerprint.dfy`) covers
  three things:
  - The duplicate check: the permission gate, the `duplicateCheckPassed`
    latch and the completion callback, which is modelled as a separate step.
  - The SHA-1 fingerprint: the chunked read loop, the error returns, closing
    the stream, and the rendering of the digest as 40 zero-padded lower-case
    hexadecimal digits.
  - The choice between the category cache and a network request.
- **ShareActivity** (`share_activity.dfy`) covers three paths:
  - The submit button, which either requests read-storage with code 4 or
    starts the upload.
  - The order of calls in `uploadBegins`.
  - Queuing the chosen categories as a modifier sequence.

Each Java method is a pure function. Collaborators become inputs:
- the SDK level (`Build.VERSION_CODES.M` = 23);
- whether the file is owned by the app;
- the answers of `checkSelfPermission` (`PERMISSION_GRANTED` = 0);
- the outcome of opening the input stream;
- the answers of the stream's `read` calls;
- whether SHA-1 is available;
- the SHA-1 function itself;
- the extractor's coordinate fields;
- the list the category cache finds.

Calls made on collaborators come back as an ordered list of actions. Object
fields are immutable records that are passed in and returned.

Behaviour of the code that the model reproduces and a reader may not expect:
- `isImageDuplicate` does not guard against a check that is still in flight.
  Only the `duplicateCheckPassed` latch is checked, so two calls before the
  callback start two checks (`FileImageManager.NoGuardForPendingChecks`).
- If the input stream cannot be opened, `isImageDuplicate` answers true, but
  the latch stays false. The check is not treated as passed.
- A denied grant does not permanently fix a flag. The answer handlers
  `updateStoragePermissions` and `updateLocationPermissions` write no flag
  at all. A granted submit-button answer copies `storagePermitted` into
  `locationPermitted`, which can turn location off.
- `Permission` records no pending request. Nothing in it prevents a
  second request.
- `getSHA1` returns "" without closing the stream when SHA-1 is unavailable.
  The `finally` that closes the stream covers only the read loop.
- `uploadBegins` ignores the value `getFileMetadata` returns.
  `startUpload` receives the coordinates already stored in the activity.
  Nothing in `ShareActivity.java` assigns `cacheFound`, `imageObj` or
  `decimalCoords`; the model treats `cacheFound` and `decimalCoords` as free
  fields, which covers the code's case (not cached, no coordinates) and more.

## Model

| member | source | states |
|---|---|---|
| Permission.NeedsToRequestStoragePermission | app/src/main/java/fr/free/nrw/commons/upload/Permission.java:42-49 | no storage request is needed exactly when the file is the app's own or the OS reports read-storage as granted |
| Permission.CheckLocationPermission | app/src/main/java/fr/free/nrw/commons/upload/Permission.java:52-61 | below SDK M: returns false and changes no flag; from M: sets useNewPermission, returns true iff fine location is granted, and then sets locationPermitted; storage untouched |
| Permission.CheckStoragePermission | app/src/main/java/fr/free/nrw/commons/upload/Permission.java:63-72 | below SDK M: returns false and changes no flag; from M: sets useNewPermission, returns true iff no request is needed (own file or granted), and then sets storagePermitted; location untouched |
| Permission.UpdateStoragePermissions | app/src/main/java/fr/free/nrw/commons/upload/Permission.java:74-91 | true iff (code 1, at least one entry, entry 0 granted) or (code 3, at least two entries, entry 0 granted); false for every other code and array |
| Permission.UpdateLocationPermissions | app/src/main/java/fr/free/nrw/commons/upload/Permission.java:94-111 | code 2 (through the fall-through): entry 0 granted or, with two entries, entry 1 granted; code 3: two entries and entry 1 granted; every other code: false |
| Permission.UpdatePermissionFromSubmitButton | app/src/main/java/fr/free/nrw/commons/upload/Permission.java:114-128 | true iff code 4 and entry 0 granted; then locationPermitted takes the value of storagePermitted and nothing else changes; otherwise no flag changes |
| Permission.ApplyMonotone | app/src/main/java/fr/free/nrw/commons/upload/Permission.java:52-128 | no single call turns useNewPermission or storagePermitted off; location can only drop by a granted submit answer while storage is not permitted |
| Permission.RunMonotone | app/src/main/java/fr/free/nrw/commons/upload/Permission.java:20-128 | over any sequence of calls, useNewPermission and storagePermitted never return to false |
| Permission.UpdatesAreInert | app/src/main/java/fr/free/nrw/commons/upload/Permission.java:74-111 | any run of the two answer handlers leaves all three flags as they were |
| Permission.LegacyPlatformKeepsInitialFlags | app/src/main/java/fr/free/nrw/commons/upload/Permission.java:52-72 | when every check call sees an SDK below M, the initial flags stay all false whatever else is called |
| Permission.LocationCanDrop | app/src/main/java/fr/free/nrw/commons/upload/Permission.java:121 | a granted submit answer while location is on and storage is off turns location off |
| Fingerprint.ToBase16 | app/src/main/java/fr/free/nrw/commons/upload/FileImageManager.java:210-211 | the rendering of the unsigned value is non-empty, all lower-case hexadecimal digits, with a leading '0' only for zero, and exactly "0" for zero |
| Fingerprint.Base16RoundTrip | app/src/main/java/fr/free/nrw/commons/upload/FileImageManager.java:210-211 | reading the base-16 rendering back gives the number |
| Fingerprint.Base16Length | app/src/main/java/fr/free/nrw/commons/upload/FileImageManager.java:211 | a value below 16^k has at most k base-16 digits |
| Fingerprint.BytesToNatBound | app/src/main/java/fr/free/nrw/commons/upload/FileImageManager.java:210 | the unsigned value of an m-byte digest is below 256^m |
| Fingerprint.PadThenReplace | app/src/main/java/fr/free/nrw/commons/upload/FileImageManager.java:213 | right-justifying in 40 characters and then replacing spaces with '0' is left-padding with '0' |
| Fingerprint.LeadingZeros | app/src/main/java/fr/free/nrw/commons/upload/FileImageManager.java:213 | the '0' padding does not change the value the digits denote |
| Fingerprint.Hex40RoundTrip | app/src/main/java/fr/free/nrw/commons/upload/FileImageManager.java:209-213 | about `Hex40`, the rendering: for a 20-byte digest the text is '0's followed by the base-16 rendering, exactly 40 lower-case hex digits, and reading it back gives the digest's unsigned value |
| Fingerprint.BytesToNatInjective | app/src/main/java/fr/free/nrw/commons/upload/FileImageManager.java:210 | equal-length byte strings with the same unsigned value are equal |
| Fingerprint.Hex40Injective | app/src/main/java/fr/free/nrw/commons/upload/FileImageManager.java:209-213 | two different digests never give the same 40-character text |
| Fingerprint.StopIndex | app/src/main/java/fr/free/nrw/commons/upload/FileImageManager.java:206 | the loop stops at the first read that does not return a positive count (zero, end of stream or an exception); every earlier read returned bytes |
| Fingerprint.FeedLoopFeedsChunksRead | app/src/main/java/fr/free/nrw/commons/upload/FileImageManager.java:203-208 | about `FeedLoop`, the read loop: the digest is fed exactly the concatenation, in order, of the chunks read before the stop, and the loop fails exactly when the stopping read threw |
| Fingerprint.GetSha1 | app/src/main/java/fr/free/nrw/commons/upload/FileImageManager.java:193-227 | without the algorithm: "" and the stream is left open; otherwise the stream is closed, the digest receives the chunks before the stop, and the result is "" if the stopping read threw, else the 40-digit text of the digest |
| Fingerprint.GetSha1Shape | app/src/main/java/fr/free/nrw/commons/upload/FileImageManager.java:197-219 | the result is either "" or 40 lower-case hex digits whose value is the digest of the bytes read |
| Fingerprint.ChunkingIrrelevant | app/src/main/java/fr/free/nrw/commons/upload/FileImageManager.java:203-216 | two streams that deliver the same bytes and end without an exception give the same fingerprint, however they are chunked |
| FileImageManager.IsImageDuplicate | app/src/main/java/fr/free/nrw/commons/upload/FileImageManager.java:52-80 | returns true iff the runtime model is off or storage is permitted; when false or when the latch is set it makes no call; otherwise it opens the stream first and starts exactly one check (last, with getSHA1's result) iff the stream opened; the stream is closed iff it opened and SHA-1 is available; the call list has exactly 0, 1 (open failed), 2 (no SHA-1) or 3 entries, so nothing else is called |
| FileImageManager.OnDuplicateResult | app/src/main/java/fr/free/nrw/commons/upload/FileImageManager.java:63-67 | the completion sets the latch exactly when the verdict is not an abort, that is DUPLICATE_PROCEED or NO_DUPLICATE |
| FileImageManager.LatchHolds | app/src/main/java/fr/free/nrw/commons/upload/FileImageManager.java:54 | once the latch is set, no later call starts a check and the latch stays set, unless a later completion reports an abort |
| FileImageManager.NoGuardForPendingChecks | app/src/main/java/fr/free/nrw/commons/upload/FileImageManager.java:52-74 | two calls on an open gate before any completion start two checks |
| FileImageManager.GateFollowsPermission | app/src/main/java/fr/free/nrw/commons/upload/FileImageManager.java:52-53 | storage found permitted by checkStoragePermission opens the duplicate-check gate, as does any state that never switched to the runtime model below SDK M |
| FileImageManager.UseImageCoords | app/src/main/java/fr/free/nrw/commons/upload/FileImageManager.java:122-149 | null coordinates: false and no call; otherwise setQtPoint(longitude, latitude) comes first iff the image has its own coordinates, then findCategory, then setGpsCat(list) on a non-empty answer or request(coords) on an empty one; the result is true iff the answer is non-empty |
| FileImageManager.NetworkOnlyOnCacheMiss | app/src/main/java/fr/free/nrw/commons/upload/FileImageManager.java:134-146 | the network is asked exactly once, with the coordinate string, iff there are coordinates and the cache answer is empty; a hit hands on exactly the cached list |
| ShareActivity.UploadBegins | app/src/main/java/fr/free/nrw/commons/upload/ShareActivity.java:115-131 | getFileMetadata (with gps enabled iff location permitted) comes first, cacheCategory comes next iff categories were not found in the cache, and startUpload with the stored title, description and coordinates comes last |
| ShareActivity.UploadBeginsStartsOnce | app/src/main/java/fr/free/nrw/commons/upload/ShareActivity.java:115-131 | an upload is started exactly once, as the last call; metadata is read only as the first call; no permission is requested |
| ShareActivity.UploadActionInitiated | app/src/main/java/fr/free/nrw/commons/upload/ShareActivity.java:96-113 | title and description are stored in every branch; from SDK M with a storage request needed, the only call is the READ_EXTERNAL_STORAGE request with code 4; otherwise the upload begins |
| ShareActivity.SubmitGate | app/src/main/java/fr/free/nrw/commons/upload/ShareActivity.java:101-112 | the upload starts iff the SDK is below M, the file is the app's own or storage is granted; the upload carries the title and description just entered; starting the upload and requesting permission exclude each other |
| ShareActivity.SubmitRequestIsSeparateFlow | app/src/main/java/fr/free/nrw/commons/upload/ShareActivity.java:104-106 | the submit request's code 4 is accepted by neither create-time answer handler, whatever the grant array |
| ShareActivity.OnCategoriesSave | app/src/main/java/fr/free/nrw/commons/upload/ShareActivity.java:143-157 | a sequence is saved iff the list is non-empty, and it holds exactly CategoryModifier(categories) then TemplateRemoveModifier("Uncategorized"); sync is enabled and the activity finishes either way, and no other call is made (exactly 3 or 2 calls) |
| ShareActivity.CategoriesSaveRoundTrip | app/src/main/java/fr/free/nrw/commons/upload/ShareActivity.java:143-157 | reading back the categories added by the saved modifiers gives exactly the chosen list, including the empty one; "Uncategorized" is removed exactly when the list is non-empty |

## Left out

- The SHA-1 compression function (FIPS 180-4) is a parameter `sha1` that returns 20 bytes. Only the chunk feeding and the hex rendering around it are modelled.
- `getFileMetadata` and `getPathOfMediaOrCopy` (FileImageManager.java:88-116, 151-190) are left out. They deal with file descriptors, copying files, timestamps and SDK-specific paths. `uploadBegins` records the metadata call as an action.
- `ExistingFileAsync`, `MwVolleyApi`, `CacheController`, `GPSExtractor`, `UploadController`, `ModifierSequenceDao`, `ContentResolver.setSyncAutomatically` and `FileUtils.isSelfOwned` are not part of this model. Their answers are inputs and the calls on them are actions.
  - The cache's proximity matching and caching rules are not modelled. Neither is the full verdict set of the existence check beyond the two named verdicts; any other verdict is `DuplicateAbort`.
- The existence check runs asynchronously in the source. Its completion is a separate step, `OnDuplicateResult`, or a `CheckCompleted` event in a trace.
- Latitude and longitude doubles are carried as `real` values and never computed with.
- Android UI and lifecycle code is left out:
  - `onCreate`, `onPause`, `onDestroy`, `onSaveInstanceState` and `onOptionsItemSelected`;
  - the authentication callbacks, `showPostUpload` and `requestPermissionUsingSnackBar`;
  - `startPreprocessing`, `startPreprocessingAndUpload` and `setSnackbar`;
  - the "uploading started" toast in `uploadBegins`;
  - Timber logging.
- FileImageManager.IsImageDuplicate: the stream `openInputStream` returns is taken as non-null. Android's `ContentResolver` may return null, and then `getSHA1` (with SHA-1 available) throws a NullPointerException from `is.read` that no handler catches, so `isImageDuplicate` throws instead of answering; that path is not modelled.
- `onRequestPermissionsResult` (ShareActivity.java:238-242) is left out. It calls `permission.updatePermissions`, which `Permission` does not define, so it has no behaviour to model.
- `performPreuploadProcessingOfFile` is left out. It is declared only in `FileImageManagerInterface`, and `FileImageManager` does not implement it. The two interfaces declare only signatures.
- FileImageManager.UseImageCoords: the extractor is taken as non-null. The NullPointerException that a null extractor with non-null coordinates would raise is not modelled.
- ShareActivity.OnCategoriesSave: the contribution is taken as non-null and is given by its content URI. The NullPointerException before any upload has finished is not modelled.
- Java's signed bytes are modelled as their unsigned values 0..255. That is how `new BigInteger(1, bytes)` reads them.
- A failing `is.close()` is caught and only logged, so the model records just that close was called.
