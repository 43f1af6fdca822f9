/**
 The decision skeleton of the upload screen (`ShareActivity`): what the
 submit button does, the order of calls that starts an upload, and how the
 chosen categories are queued for the file page.

 The activity's fields that these paths read are a record; the SDK level,
 the file's ownership and the operating system's storage answer are inputs;
 every call on a collaborator is returned as an action, in order.
 */
module ShareActivity {
  import opened Basics
  import Permission

  /** The template removed once categories are added. */
  const UNCATEGORIZED: string := "Uncategorized"

  /** The fields of a `ShareActivity` that the submit and save paths use. */
  datatype ShareState = ShareState(
    mediaUri: string,
    mimeType: string,
    source: string,
    cacheFound: bool,
    decimalCoords: Option<string>,
    title: string,
    description: string)

  /** The edits queued for a file page after upload. */
  datatype Modifier =
    | CategoryModifier(categories: seq<string>)
    | TemplateRemoveModifier(template: string)

  /** A `ModifierSequence`: edits for one contribution, in the order queued. */
  datatype ModifierSequence = ModifierSequence(mediaUri: string, modifiers: seq<Modifier>)

  /** `ModifierSequence.queueModifier`: appends one edit. */
  function QueueModifier(ms: ModifierSequence, m: Modifier): ModifierSequence
  {
    ms.(modifiers := ms.modifiers + [m])
  }

  /** Calls on collaborators made by the activity. */
  datatype ShareAction =
    | RequestPermissions(request: Permission.PermissionRequest)
    | GetFileMetadata(gpsEnabled: bool)
    | CacheCategory
    | StartUpload(title: string, mediaUri: string, description: string,
                  mimeType: string, source: string, decimalCoords: Option<string>)
    | SaveModifierSequence(sequence: ModifierSequence)
    | EnableSync
    | Finish

  /** The activity's fields after a call and the calls it made. */
  datatype ShareOutcome = ShareOutcome(state: ShareState, actions: seq<ShareAction>)

  /** True when a list of actions starts an upload. */
  predicate StartsUpload(actions: seq<ShareAction>)
  {
    exists i :: 0 <= i < |actions| && actions[i].StartUpload?
  }

  /** `uploadBegins`: read the file's metadata (using location only if it is
      permitted), store the categories in the cache unless they came from
      it, and hand the stored title, description and coordinates to the
      upload controller, in that order. The metadata call's return value is
      not used; the upload receives the coordinates already stored. */
  function UploadBegins(st: ShareState, locationPermitted: bool): (actions: seq<ShareAction>)
    ensures |actions| == (if st.cacheFound then 2 else 3)
    ensures actions[0] == GetFileMetadata(locationPermitted)
    ensures actions[|actions| - 1] ==
      StartUpload(st.title, st.mediaUri, st.description, st.mimeType, st.source, st.decimalCoords)
    ensures CacheCategory in actions <==> !st.cacheFound
  {
    var metadata := [GetFileMetadata(locationPermitted)];
    var cache := if !st.cacheFound then [CacheCategory] else [];
    var upload := [StartUpload(st.title, st.mediaUri, st.description, st.mimeType, st.source, st.decimalCoords)];
    metadata + cache + upload
  }

  /** `uploadBegins` starts exactly one upload, as its last call, after the
      metadata has been read, and it requests no permission. */
  lemma UploadBeginsStartsOnce(st: ShareState, locationPermitted: bool)
    ensures var actions := UploadBegins(st, locationPermitted);
      && StartsUpload(actions)
      && (forall i :: 0 <= i < |actions| && actions[i].StartUpload? ==> i == |actions| - 1)
      && (forall i :: 0 <= i < |actions| ==> !actions[i].RequestPermissions?)
      && (forall i :: 0 <= i < |actions| && actions[i].GetFileMetadata? ==> i == 0)
  {
  }

  /** `uploadActionInitiated`, the submit button. The title and description
      are stored first. On SDK M and later, when storage still has to be
      requested, the only call is the read-storage request with the
      submit-button code; otherwise the upload begins. */
  function UploadActionInitiated(
    st: ShareState,
    title: string,
    description: string,
    sdk: int,
    selfOwned: bool,
    storageCheck: int,
    locationPermitted: bool): (r: ShareOutcome)
    ensures r.state == st.(title := title, description := description)
    ensures sdk >= Permission.SDK_M && Permission.NeedsToRequestStoragePermission(selfOwned, storageCheck) ==>
      r.actions == [RequestPermissions(Permission.PermissionRequest(
                      [Permission.READ_EXTERNAL_STORAGE], Permission.REQUEST_PERM_ON_SUBMIT_STORAGE))]
    ensures !(sdk >= Permission.SDK_M && Permission.NeedsToRequestStoragePermission(selfOwned, storageCheck)) ==>
      r.actions == UploadBegins(r.state, locationPermitted)
  {
    var st' := st.(title := title, description := description);
    if sdk >= Permission.SDK_M then
      if Permission.NeedsToRequestStoragePermission(selfOwned, storageCheck) then
        ShareOutcome(st', [RequestPermissions(Permission.SUBMIT_STORAGE_REQUEST)])
      else
        ShareOutcome(st', UploadBegins(st', locationPermitted))
    else
      ShareOutcome(st', UploadBegins(st', locationPermitted))
  }

  /** The submit button starts an upload exactly when the platform predates
      runtime permissions, the file is the app's own, or storage is granted;
      the upload then carries the title and description just entered, and no
      permission is requested. Otherwise it makes a permission request and
      nothing else. */
  lemma SubmitGate(
    st: ShareState,
    title: string,
    description: string,
    sdk: int,
    selfOwned: bool,
    storageCheck: int,
    locationPermitted: bool)
    ensures var r := UploadActionInitiated(st, title, description, sdk, selfOwned, storageCheck, locationPermitted);
      StartsUpload(r.actions) <==>
        sdk < Permission.SDK_M || selfOwned || storageCheck == Permission.PERMISSION_GRANTED
    ensures var r := UploadActionInitiated(st, title, description, sdk, selfOwned, storageCheck, locationPermitted);
      forall i :: 0 <= i < |r.actions| && r.actions[i].StartUpload? ==>
        r.actions[i].title == title && r.actions[i].description == description
    ensures var r := UploadActionInitiated(st, title, description, sdk, selfOwned, storageCheck, locationPermitted);
      StartsUpload(r.actions) <==> !(exists i :: 0 <= i < |r.actions| && r.actions[i].RequestPermissions?)
  {
    var r := UploadActionInitiated(st, title, description, sdk, selfOwned, storageCheck, locationPermitted);
    var n := |r.actions|;
    if r.actions[0].GetFileMetadata? {
      assert r.actions[n - 1].StartUpload?;
    }
  }

  /** The submit-button request is answered only by
      `updatePermissionFromSubmitButton`: the create-time handlers never
      accept its code, whatever the answer. */
  lemma SubmitRequestIsSeparateFlow(grantResults: seq<int>)
    ensures !Permission.UpdateStoragePermissions(Permission.REQUEST_PERM_ON_SUBMIT_STORAGE, grantResults)
    ensures !Permission.UpdateLocationPermissions(Permission.REQUEST_PERM_ON_SUBMIT_STORAGE, grantResults)
  {
  }

  /** `onCategoriesSave`: a non-empty choice is saved as one modifier
      sequence for the contribution holding first the categories and then
      the removal of the "Uncategorized" template; an empty choice saves
      nothing. Either way sync is switched on and the activity finishes. */
  function OnCategoriesSave(categories: seq<string>, contributionUri: string): (actions: seq<ShareAction>)
    ensures |actions| == (if |categories| > 0 then 3 else 2)
    ensures |actions| >= 2 && actions[|actions| - 2] == EnableSync && actions[|actions| - 1] == Finish
    ensures |categories| > 0 ==>
      && |actions| == 3
      && actions[0] == SaveModifierSequence(ModifierSequence(contributionUri,
           [CategoryModifier(categories), TemplateRemoveModifier(UNCATEGORIZED)]))
    ensures (exists i :: 0 <= i < |actions| && actions[i].SaveModifierSequence?) <==> |categories| > 0
  {
    if |categories| > 0 then
      var empty := ModifierSequence(contributionUri, []);
      var sequence := QueueModifier(QueueModifier(empty, CategoryModifier(categories)),
                                    TemplateRemoveModifier(UNCATEGORIZED));
      assert sequence.modifiers == [CategoryModifier(categories), TemplateRemoveModifier(UNCATEGORIZED)];
      [SaveModifierSequence(sequence), EnableSync, Finish]
    else
      [EnableSync, Finish]
  }

  /** The categories added by a list of modifiers, in order. */
  function ModifierCategories(ms: seq<Modifier>): seq<string>
  {
    if |ms| == 0 then []
    else (if ms[0].CategoryModifier? then ms[0].categories else []) + ModifierCategories(ms[1..])
  }

  /** The templates removed by a list of modifiers, in order. */
  function ModifierRemovals(ms: seq<Modifier>): seq<string>
  {
    if |ms| == 0 then []
    else (if ms[0].TemplateRemoveModifier? then [ms[0].template] else []) + ModifierRemovals(ms[1..])
  }

  /** The modifiers saved by a list of actions, in order. */
  function SavedModifiers(actions: seq<ShareAction>): seq<Modifier>
  {
    if |actions| == 0 then []
    else (if actions[0].SaveModifierSequence? then actions[0].sequence.modifiers else [])
         + SavedModifiers(actions[1..])
  }

  /** What `onCategoriesSave` stores gives back exactly the chosen categories,
      for an empty choice too, and removes "Uncategorized" exactly when
      something was chosen. */
  lemma CategoriesSaveRoundTrip(categories: seq<string>, contributionUri: string)
    ensures ModifierCategories(SavedModifiers(OnCategoriesSave(categories, contributionUri))) == categories
    ensures ModifierRemovals(SavedModifiers(OnCategoriesSave(categories, contributionUri))) ==
      (if |categories| > 0 then [UNCATEGORIZED] else [])
  {
    var actions := OnCategoriesSave(categories, contributionUri);
    var tail := [EnableSync, Finish];
    assert tail[1..] == [Finish];
    assert SavedModifiers(tail) == [];
    if |categories| > 0 {
      var ms := [CategoryModifier(categories), TemplateRemoveModifier(UNCATEGORIZED)];
      assert actions[1..] == tail;
      assert SavedModifiers(actions) == ms;
      assert ms[1..][1..] == [];
      assert ModifierCategories(ms[1..]) == [];
      assert ModifierCategories(ms) == categories + [];
      assert ModifierRemovals(ms[1..]) == [UNCATEGORIZED];
      assert ModifierRemovals(ms) == [UNCATEGORIZED];
    } else {
      assert actions == tail;
    }
  }
}
