/**
 The pre-upload checks of `FileImageManager`: the duplicate check with its
 `duplicateCheckPassed` latch, and the decision between the category cache
 and a network request for category suggestions.

 Collaborators are inputs: the permission flags, the outcome of opening the
 file's input stream, the answers of its `read` calls, whether SHA-1 is
 available, the SHA-1 function, the location extractor's fields and the
 category list the cache finds. Calls made on collaborators are returned
 as an ordered list of actions.
 */
module FileImageManager {
  import opened Basics
  import Permission
  import Fingerprint

  // ---------------------------------------------------------------------
  // Duplicate check
  // ---------------------------------------------------------------------

  /** The verdict the existence check reports to its callback. The source
      names `DUPLICATE_PROCEED` and `NO_DUPLICATE`; `DuplicateAbort` stands
      for every other verdict. */
  datatype DuplicateResult = NoDuplicate | DuplicateProceed | DuplicateAbort

  /** The mutable field of a `FileImageManager` that the checks use. */
  datatype ManagerState = ManagerState(duplicateCheckPassed: bool)

  /** A freshly constructed manager. */
  const Initial: ManagerState := ManagerState(false)

  /** `openInputStream(mediaUri)` either yields a stream, described by the
      answers of its `read` calls, or throws an `IOException`. */
  datatype OpenResult = Opened(stream: seq<Fingerprint.ReadCall>) | OpenThrows

  /** Calls on collaborators made by `isImageDuplicate`. */
  datatype DuplicateAction =
    | OpenInputStream
    | CloseInputStream
    | StartExistingFileCheck(sha1: string)

  /** The value `isImageDuplicate` returns and the calls it made. The call
      itself never writes `duplicateCheckPassed`: only the completion
      callback, `OnDuplicateResult`, does. */
  datatype DuplicateCall = DuplicateCall(ready: bool, actions: seq<DuplicateAction>)

  /** The number of existence checks started by a list of actions. */
  function ChecksStarted(actions: seq<DuplicateAction>): (n: nat)
    ensures n <= |actions|
    ensures n == 0 <==> forall i :: 0 <= i < |actions| ==> !actions[i].StartExistingFileCheck?
  {
    if |actions| == 0 then 0
    else (if actions[0].StartExistingFileCheck? then 1 else 0) + ChecksStarted(actions[1..])
  }

  /** Counting checks distributes over concatenation. */
  lemma {:induction false} ChecksStartedAppend(a: seq<DuplicateAction>, b: seq<DuplicateAction>)
    ensures ChecksStarted(a + b) == ChecksStarted(a) + ChecksStarted(b)
    decreases |a|
  {
    if |a| == 0 {
      assert a + b == b;
    } else {
      assert (a + b)[1..] == a[1..] + b;
      ChecksStartedAppend(a[1..], b);
    }
  }

  /** `isImageDuplicate`. It answers whether the file may be read now: true
      unless the runtime permission model is in use and storage is not
      permitted. When it may, and no earlier check has passed, it opens the
      file, fingerprints it and starts one existence check with that
      fingerprint. A failure to open the stream starts no check and still
      answers true. */
  function IsImageDuplicate(
    perm: Permission.PermissionState,
    s: ManagerState,
    open: OpenResult,
    algorithmAvailable: bool,
    sha1: seq<byte> -> Fingerprint.Digest): (r: DuplicateCall)
    ensures r.ready <==> !perm.useNewPermission || perm.storagePermitted
    ensures |r.actions| ==
      (if !r.ready || s.duplicateCheckPassed then 0
       else if open.OpenThrows? then 1
       else if algorithmAvailable then 3
       else 2)
    ensures !r.ready || s.duplicateCheckPassed ==> r.actions == []
    ensures r.ready && !s.duplicateCheckPassed ==> |r.actions| >= 1 && r.actions[0] == OpenInputStream
    ensures ChecksStarted(r.actions) == (if r.ready && !s.duplicateCheckPassed && open.Opened? then 1 else 0)
    ensures forall i :: 0 <= i < |r.actions| && r.actions[i].StartExistingFileCheck? ==>
      i == |r.actions| - 1 &&
      r.actions[i].sha1 == Fingerprint.GetSha1(open.stream, algorithmAvailable, sha1).output
    ensures CloseInputStream in r.actions <==>
      r.ready && !s.duplicateCheckPassed && open.Opened? && algorithmAvailable
  {
    if !perm.useNewPermission || perm.storagePermitted then
      if !s.duplicateCheckPassed then
        match open
        case OpenThrows =>
          DuplicateCall(true, [OpenInputStream])
        case Opened(stream) =>
          var sum := Fingerprint.GetSha1(stream, algorithmAvailable, sha1);
          var close := if sum.streamClosed then [CloseInputStream] else [];
          ChecksStartedAppend([OpenInputStream] + close, [StartExistingFileCheck(sum.output)]);
          ChecksStartedAppend([OpenInputStream], close);
          DuplicateCall(true, [OpenInputStream] + close + [StartExistingFileCheck(sum.output)])
      else
        DuplicateCall(true, [])
    else
      DuplicateCall(false, [])
  }

  /** The completion callback of the existence check: the latch records
      whether the verdict allows the upload. */
  function OnDuplicateResult(s: ManagerState, result: DuplicateResult): (s': ManagerState)
    ensures s'.duplicateCheckPassed <==> result != DuplicateAbort
  {
    s.(duplicateCheckPassed := result == DuplicateProceed || result == NoDuplicate)
  }

  /** Something that happens to a manager: a call of `isImageDuplicate` with
      the collaborator answers it sees, or the completion of a check. */
  datatype Event =
    | CheckRequested(perm: Permission.PermissionState, open: OpenResult, algorithmAvailable: bool)
    | CheckCompleted(result: DuplicateResult)

  /** The latch and the accumulated actions after a sequence of events. */
  datatype Trace = Trace(state: ManagerState, actions: seq<DuplicateAction>)

  function RunEvents(s: ManagerState, events: seq<Event>, sha1: seq<byte> -> Fingerprint.Digest): Trace
    decreases |events|
  {
    if |events| == 0 then Trace(s, [])
    else
      match events[0]
      case CheckRequested(perm, open, avail) =>
        var call := IsImageDuplicate(perm, s, open, avail, sha1);
        var rest := RunEvents(s, events[1..], sha1);
        Trace(rest.state, call.actions + rest.actions)
      case CheckCompleted(result) =>
        RunEvents(OnDuplicateResult(s, result), events[1..], sha1)
  }


  /** The latch: once a check has passed, no further call starts a check,
      and the latch stays set, as long as no later completion reports an
      aborting verdict. */
  lemma {:induction false} LatchHolds(s: ManagerState, events: seq<Event>, sha1: seq<byte> -> Fingerprint.Digest)
    requires s.duplicateCheckPassed
    requires forall i :: 0 <= i < |events| ==> events[i] != CheckCompleted(DuplicateAbort)
    ensures RunEvents(s, events, sha1).state.duplicateCheckPassed
    ensures ChecksStarted(RunEvents(s, events, sha1).actions) == 0
    decreases |events|
  {
    if |events| > 0 {
      LatchHolds(if events[0].CheckCompleted? then OnDuplicateResult(s, events[0].result) else s,
                 events[1..], sha1);
      if events[0].CheckRequested? {
        var e := events[0];
        var call := IsImageDuplicate(e.perm, s, e.open, e.algorithmAvailable, sha1);
        ChecksStartedAppend(call.actions, RunEvents(s, events[1..], sha1).actions);
      }
    }
  }

  /** Only the latch guards against repeated checks: two calls on an open
      gate before any completion each start their own check. */
  lemma NoGuardForPendingChecks(
    perm: Permission.PermissionState,
    stream1: seq<Fingerprint.ReadCall>,
    stream2: seq<Fingerprint.ReadCall>,
    sha1: seq<byte> -> Fingerprint.Digest)
    requires !perm.useNewPermission || perm.storagePermitted
    ensures ChecksStarted(RunEvents(Initial,
      [CheckRequested(perm, Opened(stream1), true), CheckRequested(perm, Opened(stream2), true)],
      sha1).actions) == 2
  {
    var e1 := CheckRequested(perm, Opened(stream1), true);
    var e2 := CheckRequested(perm, Opened(stream2), true);
    var c1 := IsImageDuplicate(perm, Initial, Opened(stream1), true, sha1);
    var c2 := IsImageDuplicate(perm, Initial, Opened(stream2), true, sha1);
    var t2 := RunEvents(Initial, [e2], sha1);
    assert [e2][1..] == [];
    assert RunEvents(Initial, [], sha1) == Trace(Initial, []);
    assert t2.actions == c2.actions + [];
    assert [e1, e2][1..] == [e2];
    assert RunEvents(Initial, [e1, e2], sha1).actions == c1.actions + t2.actions;
    ChecksStartedAppend(c1.actions, t2.actions);
    assert c2.actions + [] == c2.actions;
  }

  /** Storage found permitted by `checkStoragePermission` opens the gate of
      `isImageDuplicate`, and so does every state on a platform below SDK M
      that never switched on the runtime permission model. */
  lemma GateFollowsPermission(
    p: Permission.PermissionState,
    sdk: int,
    selfOwned: bool,
    storageCheck: int,
    s: ManagerState,
    open: OpenResult,
    algorithmAvailable: bool,
    sha1: seq<byte> -> Fingerprint.Digest)
    ensures Permission.CheckStoragePermission(p, sdk, selfOwned, storageCheck).granted ==>
      IsImageDuplicate(Permission.CheckStoragePermission(p, sdk, selfOwned, storageCheck).state,
                       s, open, algorithmAvailable, sha1).ready
    ensures !p.useNewPermission && sdk < Permission.SDK_M ==>
      IsImageDuplicate(Permission.CheckStoragePermission(p, sdk, selfOwned, storageCheck).state,
                       s, open, algorithmAvailable, sha1).ready
  {
  }

  // ---------------------------------------------------------------------
  // Category suggestions: cache or network
  // ---------------------------------------------------------------------

  /** The fields of the location extractor that `useImageCoords` reads.
      Coordinates are passed through and never computed with. */
  datatype Extractor = Extractor(imageCoordsExists: bool, decLongitude: real, decLatitude: real)

  /** Calls on collaborators made by `useImageCoords`. */
  datatype CoordsAction =
    | SetQtPoint(longitude: real, latitude: real)
    | FindCategory
    | RequestCategories(decimalCoords: string)
    | SetGpsCat(categories: seq<string>)

  /** The value `useImageCoords` returns (`cacheFound`) and the calls it made. */
  datatype CoordsOutcome = CoordsOutcome(cacheFound: bool, actions: seq<CoordsAction>)

  /** `useImageCoords`. `foundCategories` is what the cache's `findCategory`
      answers. Without coordinates nothing is called. With coordinates the
      image's own point is handed to the cache first (longitude, then
      latitude) if the image carries one; then the cache is asked, and an
      empty answer triggers a network request while a non-empty one is
      handed on as the suggestion list. */
  function UseImageCoords(decimalCoords: Option<string>, imageObj: Extractor, foundCategories: seq<string>): (r: CoordsOutcome)
    ensures decimalCoords.None? ==> r == CoordsOutcome(false, [])
    ensures decimalCoords.Some? ==> (r.cacheFound <==> |foundCategories| > 0)
    ensures decimalCoords.Some? ==>
      && |r.actions| == (if imageObj.imageCoordsExists then 3 else 2)
      && r.actions[|r.actions| - 2] == FindCategory
      && r.actions[|r.actions| - 1] ==
           (if r.cacheFound then SetGpsCat(foundCategories) else RequestCategories(decimalCoords.value))
    ensures decimalCoords.Some? && imageObj.imageCoordsExists ==>
      r.actions[0] == SetQtPoint(imageObj.decLongitude, imageObj.decLatitude)
    ensures (exists i :: 0 <= i < |r.actions| && r.actions[i].SetQtPoint?) <==>
      decimalCoords.Some? && imageObj.imageCoordsExists
  {
    match decimalCoords
    case None => CoordsOutcome(false, [])
    case Some(coords) =>
      var found := |foundCategories| > 0;
      var last := if found then SetGpsCat(foundCategories) else RequestCategories(coords);
      if imageObj.imageCoordsExists then
        CoordsOutcome(found, [SetQtPoint(imageObj.decLongitude, imageObj.decLatitude), FindCategory, last])
      else
        CoordsOutcome(found, [FindCategory, last])
  }

  /** The network requests among a list of actions. */
  function Requests(actions: seq<CoordsAction>): (rs: seq<string>)
    ensures |rs| <= |actions|
  {
    if |actions| == 0 then []
    else (if actions[0].RequestCategories? then [actions[0].decimalCoords] else []) + Requests(actions[1..])
  }

  /** The network is asked exactly once, with the image's coordinate string,
      when there are coordinates and the cache has nothing; a cache hit
      issues no request and hands on exactly the cached list. */
  lemma {:induction false} NetworkOnlyOnCacheMiss(decimalCoords: Option<string>, imageObj: Extractor, foundCategories: seq<string>)
    ensures var r := UseImageCoords(decimalCoords, imageObj, foundCategories);
      Requests(r.actions) ==
        (if decimalCoords.Some? && |foundCategories| == 0 then [decimalCoords.value] else [])
    ensures var r := UseImageCoords(decimalCoords, imageObj, foundCategories);
      forall i :: 0 <= i < |r.actions| && r.actions[i].SetGpsCat? ==>
        r.cacheFound && r.actions[i].categories == foundCategories
  {
    var r := UseImageCoords(decimalCoords, imageObj, foundCategories);
    var a := r.actions;
    if decimalCoords.Some? {
      var n := |a|;
      assert a[n - 1..][1..] == [];
      assert Requests(a[n - 1..]) == Requests([a[n - 1]]);
      assert a[n - 2..][1..] == a[n - 1..];
      if imageObj.imageCoordsExists {
        assert a[1..] == a[n - 2..];
      }
    }
  }
}
