/**
 The runtime-permission bookkeeping of the upload screen
 (`fr.free.nrw.commons.upload.Permission`).

 The Java object holds three flags that start out false. Every operation is
 modelled as a pure function from the flags (and the answers of the
 collaborators it consults: the platform SDK level, whether the file is owned
 by the app, the operating system's permission query) to the new flags and
 the boolean the Java method returns.
 */
module Permission {

  /** `PackageManager.PERMISSION_GRANTED`. Every other answer, `PERMISSION_DENIED`
      (-1) included, counts as not granted. */
  const PERMISSION_GRANTED: int := 0

  /** `Build.VERSION_CODES.M`, the first SDK level with runtime permissions. */
  const SDK_M: int := 23

  /** The request codes handed to the operating system with a permission request. */
  const REQUEST_PERM_ON_CREATE_STORAGE: int := 1
  const REQUEST_PERM_ON_CREATE_LOCATION: int := 2
  const REQUEST_PERM_ON_CREATE_STORAGE_AND_LOCATION: int := 3
  const REQUEST_PERM_ON_SUBMIT_STORAGE: int := 4

  /** `Manifest.permission.READ_EXTERNAL_STORAGE`. */
  const READ_EXTERNAL_STORAGE: string := "android.permission.READ_EXTERNAL_STORAGE"

  /** The three private flags of a `Permission` object. */
  datatype PermissionState = PermissionState(
    useNewPermission: bool,
    storagePermitted: bool,
    locationPermitted: bool)

  /** The flags of a freshly constructed `Permission`. */
  const Initial: PermissionState := PermissionState(false, false, false)

  /** The flags after a call, together with the boolean the call returned. */
  datatype Verdict = Verdict(state: PermissionState, granted: bool)

  /** A permission request as passed to `requestPermissions`. */
  datatype PermissionRequest = PermissionRequest(permissions: seq<string>, requestCode: int)

  /** Storage must be requested exactly when the file was not created by this
      app and the operating system does not report read-storage as granted;
      `storageCheck` is the answer of `checkSelfPermission`. */
  function NeedsToRequestStoragePermission(selfOwned: bool, storageCheck: int): (needs: bool)
    ensures !needs <==> selfOwned || storageCheck == PERMISSION_GRANTED
  {
    !selfOwned && storageCheck != PERMISSION_GRANTED
  }

  /** `checkLocationPermission`: on SDK M and later it switches to the runtime
      permission model and records a fine-location grant. */
  function CheckLocationPermission(s: PermissionState, sdk: int, locationCheck: int): (v: Verdict)
    ensures sdk < SDK_M ==> v == Verdict(s, false)
    ensures sdk >= SDK_M ==> v.state.useNewPermission
    ensures sdk >= SDK_M ==> (v.granted <==> locationCheck == PERMISSION_GRANTED)
    ensures v.state.locationPermitted == (s.locationPermitted || v.granted)
    ensures v.state.storagePermitted == s.storagePermitted
  {
    if sdk >= SDK_M then
      var s' := s.(useNewPermission := true);
      if locationCheck == PERMISSION_GRANTED then
        Verdict(s'.(locationPermitted := true), true)
      else
        Verdict(s', false)
    else
      Verdict(s, false)
  }

  /** `checkStoragePermission`: on SDK M and later it switches to the runtime
      permission model and records storage as permitted when no request is
      needed. */
  function CheckStoragePermission(s: PermissionState, sdk: int, selfOwned: bool, storageCheck: int): (v: Verdict)
    ensures sdk < SDK_M ==> v == Verdict(s, false)
    ensures sdk >= SDK_M ==> v.state.useNewPermission
    ensures sdk >= SDK_M ==> (v.granted <==> selfOwned || storageCheck == PERMISSION_GRANTED)
    ensures v.state.storagePermitted == (s.storagePermitted || v.granted)
    ensures v.state.locationPermitted == s.locationPermitted
  {
    if sdk >= SDK_M then
      var s' := s.(useNewPermission := true);
      if !NeedsToRequestStoragePermission(selfOwned, storageCheck) then
        Verdict(s'.(storagePermitted := true), true)
      else
        Verdict(s', false)
    else
      Verdict(s, false)
  }

  /** True when the grant array has at least `n` entries and entry `i` is a grant. */
  predicate GrantedAt(grantResults: seq<int>, n: nat, i: nat)
  {
    |grantResults| >= n && i < |grantResults| && grantResults[i] == PERMISSION_GRANTED
  }

  // The `switch` statements below have no `break`: a case block whose test
  // fails runs on into the next case block. Each case block is a function
  // that, when its test fails, continues with the following block.

  /** Storage switch, block `case REQUEST_PERM_ON_CREATE_STORAGE_AND_LOCATION`
      followed by `default`. */
  function StorageBlockCombined(grantResults: seq<int>): bool
  {
    |grantResults| >= 2 && grantResults[0] == PERMISSION_GRANTED
  }

  /** Storage switch, block `case REQUEST_PERM_ON_CREATE_STORAGE`, falling through. */
  function StorageBlockStorage(grantResults: seq<int>): bool
  {
    (|grantResults| >= 1 && grantResults[0] == PERMISSION_GRANTED)
    || StorageBlockCombined(grantResults)
  }

  /** `updateStoragePermissions`: whether a permission answer grants storage.
      It reads no flag and writes none. */
  function UpdateStoragePermissions(requestCode: int, grantResults: seq<int>): (granted: bool)
    ensures granted <==>
      || (requestCode == REQUEST_PERM_ON_CREATE_STORAGE && GrantedAt(grantResults, 1, 0))
      || (requestCode == REQUEST_PERM_ON_CREATE_STORAGE_AND_LOCATION && GrantedAt(grantResults, 2, 0))
  {
    if requestCode == REQUEST_PERM_ON_CREATE_STORAGE then StorageBlockStorage(grantResults)
    else if requestCode == REQUEST_PERM_ON_CREATE_STORAGE_AND_LOCATION then StorageBlockCombined(grantResults)
    else false
  }

  /** Location switch, block `case REQUEST_PERM_ON_CREATE_STORAGE_AND_LOCATION`
      followed by `default`. */
  function LocationBlockCombined(grantResults: seq<int>): bool
  {
    |grantResults| >= 2 && grantResults[1] == PERMISSION_GRANTED
  }

  /** Location switch, block `case REQUEST_PERM_ON_CREATE_LOCATION`, falling through. */
  function LocationBlockLocation(grantResults: seq<int>): bool
  {
    (|grantResults| >= 1 && grantResults[0] == PERMISSION_GRANTED)
    || LocationBlockCombined(grantResults)
  }

  /** `updateLocationPermissions`: whether a permission answer grants location.
      Because of the fall-through, an answer to request code 2 also counts
      when its second entry is a grant. It reads no flag and writes none. */
  function UpdateLocationPermissions(requestCode: int, grantResults: seq<int>): (granted: bool)
    ensures requestCode == REQUEST_PERM_ON_CREATE_LOCATION ==>
      (granted <==> GrantedAt(grantResults, 1, 0) || GrantedAt(grantResults, 2, 1))
    ensures requestCode == REQUEST_PERM_ON_CREATE_STORAGE_AND_LOCATION ==>
      (granted <==> GrantedAt(grantResults, 2, 1))
    ensures (requestCode != REQUEST_PERM_ON_CREATE_LOCATION &&
             requestCode != REQUEST_PERM_ON_CREATE_STORAGE_AND_LOCATION) ==> !granted
  {
    if requestCode == REQUEST_PERM_ON_CREATE_LOCATION then LocationBlockLocation(grantResults)
    else if requestCode == REQUEST_PERM_ON_CREATE_STORAGE_AND_LOCATION then LocationBlockCombined(grantResults)
    else false
  }

  /** `updatePermissionFromSubmitButton`: an answer to the storage request made
      from the submit button. On a grant, location takes over the value of the
      storage flag (which may lower it); nothing else changes. */
  function UpdatePermissionFromSubmitButton(s: PermissionState, requestCode: int, grantResults: seq<int>): (v: Verdict)
    ensures v.granted <==> requestCode == REQUEST_PERM_ON_SUBMIT_STORAGE && GrantedAt(grantResults, 1, 0)
    ensures v.granted ==> v.state == PermissionState(s.useNewPermission, s.storagePermitted, s.storagePermitted)
    ensures !v.granted ==> v.state == s
  {
    if requestCode == REQUEST_PERM_ON_SUBMIT_STORAGE
       && |grantResults| >= 1 && grantResults[0] == PERMISSION_GRANTED
    then
      Verdict(s.(locationPermitted := s.storagePermitted), true)
    else
      Verdict(s, false)
  }

  /** The request the submit path sends to the system: read storage alone,
      with the submit-button code. */
  const SUBMIT_STORAGE_REQUEST: PermissionRequest :=
    PermissionRequest([READ_EXTERNAL_STORAGE], REQUEST_PERM_ON_SUBMIT_STORAGE)

  /** One call on a `Permission` object, with the collaborator answers it sees. */
  datatype Call =
    | CheckLocation(sdk: int, locationCheck: int)
    | CheckStorage(sdk: int, selfOwned: bool, storageCheck: int)
    | UpdateStorage(requestCode: int, grantResults: seq<int>)
    | UpdateLocation(requestCode: int, grantResults: seq<int>)
    | SubmitButton(requestCode: int, grantResults: seq<int>)

  /** The effect of one call on the flags. */
  function Apply(s: PermissionState, c: Call): (v: Verdict)
  {
    match c
    case CheckLocation(sdk, lc) => CheckLocationPermission(s, sdk, lc)
    case CheckStorage(sdk, own, sc) => CheckStoragePermission(s, sdk, own, sc)
    case UpdateStorage(code, g) => Verdict(s, UpdateStoragePermissions(code, g))
    case UpdateLocation(code, g) => Verdict(s, UpdateLocationPermissions(code, g))
    case SubmitButton(code, g) => UpdatePermissionFromSubmitButton(s, code, g)
  }

  /** The flags after a sequence of calls, applied in order. */
  function Run(s: PermissionState, calls: seq<Call>): PermissionState
    decreases |calls|
  {
    if |calls| == 0 then s
    else Run(Apply(s, calls[0]).state, calls[1..])
  }

  /** `useNewPermission` and `storagePermitted` are never switched back off. */
  predicate NeverRevoked(before: PermissionState, after: PermissionState)
  {
    && (before.useNewPermission ==> after.useNewPermission)
    && (before.storagePermitted ==> after.storagePermitted)
  }

  /** No single call switches `useNewPermission` or `storagePermitted` off, and
      the only call that can switch `locationPermitted` off is a granted
      submit-button answer while storage is not permitted. */
  lemma ApplyMonotone(s: PermissionState, c: Call)
    ensures NeverRevoked(s, Apply(s, c).state)
    ensures s.locationPermitted && !Apply(s, c).state.locationPermitted ==>
      c.SubmitButton? && !s.storagePermitted && Apply(s, c).granted
  {
  }

  /** Over any sequence of calls, `useNewPermission` and `storagePermitted`
      never go back to false. */
  lemma {:induction false} RunMonotone(s: PermissionState, calls: seq<Call>)
    ensures NeverRevoked(s, Run(s, calls))
    decreases |calls|
  {
    if |calls| > 0 {
      var s' := Apply(s, calls[0]).state;
      ApplyMonotone(s, calls[0]);
      RunMonotone(s', calls[1..]);
    }
  }

  /** The three answer handlers never change a flag, so the flags after a run
      only depend on the check and submit-button calls in it. */
  lemma {:induction false} UpdatesAreInert(s: PermissionState, calls: seq<Call>)
    requires forall i :: 0 <= i < |calls| ==> calls[i].UpdateStorage? || calls[i].UpdateLocation?
    ensures Run(s, calls) == s
    decreases |calls|
  {
    if |calls| > 0 {
      UpdatesAreInert(s, calls[1..]);
    }
  }

  /** Below SDK M no call ever switches on the runtime model: starting from the
      initial flags, every flag stays false except location, which also stays
      false. */
  lemma {:induction false} LegacyPlatformKeepsInitialFlags(calls: seq<Call>)
    requires forall i :: 0 <= i < |calls| ==>
      (calls[i].CheckLocation? ==> calls[i].sdk < SDK_M) &&
      (calls[i].CheckStorage? ==> calls[i].sdk < SDK_M)
    ensures Run(Initial, calls) == Initial
    decreases |calls|
  {
    if |calls| > 0 {
      assert Apply(Initial, calls[0]).state == Initial;
      LegacyPlatformKeepsInitialFlags(calls[1..]);
    }
  }

  /** Location permission is the one flag that can drop: a granted submit
      answer while storage is not permitted turns it off. */
  lemma LocationCanDrop(s: PermissionState)
    requires s.locationPermitted && !s.storagePermitted
    ensures !Apply(s, SubmitButton(REQUEST_PERM_ON_SUBMIT_STORAGE, [PERMISSION_GRANTED])).state.locationPermitted
  {
  }
}
