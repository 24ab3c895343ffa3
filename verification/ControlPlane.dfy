/**
 The control plane's files: one global control document and one per scope key.  Publishing writes a
 document whose revision is above every stored one; serving resolves one document for a scope.
 */
module ControlPlane {
  import opened Wrappers
  import opened ControlDocument
  import opened ScopeKey

  datatype Files = Files(global: Option<Document>, scoped: map<string, Document>)

  ghost predicate HasFile(files: Files, doc: Document) {
    files.global == Some(doc) || exists key :: key in files.scoped && files.scoped[key] == doc
  }

  /** `revision` is the largest stored one, or -1 when nothing is stored. */
  ghost predicate IsMaxRevision(files: Files, revision: int) {
    && (forall doc :: HasFile(files, doc) ==> doc.revision <= revision)
    && ((exists doc :: HasFile(files, doc) && doc.revision == revision)
        || (revision == -1 && forall doc :: !HasFile(files, doc)))
  }

  ghost predicate FilesOk(files: Files) {
    forall doc :: HasFile(files, doc) ==> doc.revision >= 0
  }

  /** The document served to a page of `scope` at `now`; None is an unreadable global file, answered 503. */
  function Resolve(files: Files, scope: Option<Scope>, now: int): Option<Document> {
    if files.global.None? then None
    else
      var global := files.global.value;
      if scope.None? then Some(global)
      else if !PlaneAccepts(global, now) then Some(global)
      else
        var key := Key(scope.value);
        if key !in files.scoped then Some(global)
        else
          var scoped := files.scoped[key];
          if global.active then Some(global)
          else if scoped.active then Some(scoped)
          else if scoped.revision >= global.revision then Some(scoped)
          else Some(global)
  }

  datatype PublishResult = Published(document: Document) | Refused(reason: Rejection) | InvalidScope

  function Write(files: Files, scope: Option<Scope>, doc: Document): Files {
    match scope
    case None => files.(global := Some(doc))
    case Some(s) => files.(scoped := files.scoped[Key(s) := doc])
  }

  /** What one publish may do. */
  ghost predicate PublishStep(files: Files, files': Files, scope: Option<Scope>, active: bool, reasonCode: string,
                              now: int, result: PublishResult)
  {
    if scope.Some? && !ValidScope(scope.value) then
      files' == files && result == InvalidScope
    else
      exists previous ::
        && IsMaxRevision(files, previous)
        && var doc := BuildDocument(active, reasonCode, previous, now);
           match ValidateForPlane(doc, now, previous)
           case Some(reason) => files' == files && result == Refused(reason)
           case None => files' == Write(files, scope, doc) && result == Published(doc)
  }

  /** The delivery worker's hold document. */
  datatype DeliveryControl = DeliveryControl(hold: bool, reason: string, scopedHolds: seq<Scope>)

  /** The worker's reading of that document: ready, and held or not. */
  datatype WorkerControl = WorkerControl(ready: bool, held: bool, reason: string)

  function ReadControlState(parsed: Option<DeliveryControl>): WorkerControl {
    match parsed
    case None => WorkerControl(false, true, "control_document_invalid")
    case Some(doc) => WorkerControl(true, doc.hold, if doc.hold then "hold_requested" else "hold_clear")
  }

  predicate ConsumptionAllowed(control: WorkerControl) {
    control.ready && !control.held
  }

  predicate ReadyForDelivery(doc: Option<Document>, now: int) {
    doc.Some? && PlaneAccepts(doc.value, now)
  }

  /** The scoped kill switches that hold the worker: valid, active and with a key that decodes. */
  predicate HoldsDelivery(files: Files, key: string, now: int) {
    && key in files.scoped
    && PlaneAccepts(files.scoped[key], now)
    && files.scoped[key].active
    && FromKey(key).Some?
  }

  ghost predicate MustHold(files: Files, now: int) {
    || !ReadyForDelivery(files.global, now)
    || files.global.value.active
    || exists key :: HoldsDelivery(files, key, now)
  }

  /** A page of `scope` is served a kill switch that the control plane itself regards as valid. */
  predicate ServesKill(files: Files, scope: Scope, now: int) {
    var served := Resolve(files, Some(scope), now);
    served.Some? && PlaneAccepts(served.value, now) && served.value.active
  }

  /** A published revision is above every stored one, and becomes the largest stored one. */
  lemma PublishRaisesMax(files: Files, files': Files, scope: Option<Scope>, active: bool, reasonCode: string,
                         now: int, result: PublishResult)
    requires FilesOk(files) && PublishStep(files, files', scope, active, reasonCode, now, result) && result.Published?
    ensures FilesOk(files')
    ensures forall doc :: HasFile(files, doc) ==> doc.revision < result.document.revision
    ensures IsMaxRevision(files', result.document.revision)
    ensures files' == Write(files, scope, result.document)
  {
    forall doc | HasFile(files', doc) ensures doc == result.document || HasFile(files, doc) {}
    if scope.Some? {
      assert files'.scoped[Key(scope.value)] == result.document;
    }
    assert HasFile(files', result.document);
  }

  lemma CanPublish(files: Files, scope: Option<Scope>, active: bool, reasonCode: string, previous: int, now: int)
    returns (doc: Document, files': Files)
    requires FilesOk(files) && IsMaxRevision(files, previous) && previous >= -1
    requires reasonCode in REASONS && (scope.Some? ==> ValidScope(scope.value))
    ensures doc == Document(previous + 1, now, now + MAX_CONTROL_TTL_MS, active, if active then reasonCode else "none")
    ensures files' == Write(files, scope, doc)
    ensures PublishStep(files, files', scope, active, reasonCode, now, Published(doc))
    ensures FilesOk(files') && IsMaxRevision(files', previous + 1)
  {
    doc := BuildDocument(active, reasonCode, previous, now);
    files' := Write(files, scope, doc);
    BuiltDocumentValid(active, reasonCode, previous, now);
    PublishRaisesMax(files, files', scope, active, reasonCode, now, Published(doc));
  }

  /** A publish is refused for its scope or for the reason of an active document, and for nothing else. */
  lemma PublishMeans(files: Files, files': Files, scope: Option<Scope>, active: bool, reasonCode: string,
                     now: int, result: PublishResult)
    requires FilesOk(files) && PublishStep(files, files', scope, active, reasonCode, now, result)
    ensures result.InvalidScope? <==> scope.Some? && !ValidScope(scope.value)
    ensures result.Refused? <==> !result.InvalidScope? && active && !KnownReason(reasonCode)
    ensures result.Refused? ==> result.reason == ReasonInvalid
    ensures !result.Published? ==> files' == files
    ensures result.Published? ==>
              var doc := result.document;
              && IsMaxRevision(files, doc.revision - 1)
              && doc == Document(doc.revision, now, now + 600_000, active, if active then reasonCode else "none")
              && files'.global == (if scope.None? then Some(doc) else files.global)
              && files'.scoped == (if scope.None? then files.scoped else files.scoped[Key(scope.value) := doc])
  {
    ReasonsAreKnown(reasonCode);
    ReasonsAreKnown("none");
    assert IsMaxRevisionAtLeast(files);
  }

  ghost predicate IsMaxRevisionAtLeast(files: Files) {
    forall r :: IsMaxRevision(files, r) ==> r >= -1
  }

  /** What two publishes can write: an inactive global document, then a kill switch of one scope. */
  lemma TwoPublishes(scope: Scope) returns (files1: Files, files2: Files, global: Document, scoped: Document)
    requires ValidScope(scope)
    ensures PublishStep(Files(None, map[]), files1, None, false, REASONS[0], 0, Published(global))
    ensures PublishStep(files1, files2, Some(scope), true, REASONS[1], 0, Published(scoped))
    ensures files2 == Files(Some(global), map[Key(scope) := scoped])
    ensures global == Document(0, 0, 600_000, false, "none") && scoped == Document(1, 0, 600_000, true, REASONS[1])
  {
    assert IsMaxRevision(Files(None, map[]), -1);
    global, files1 := CanPublish(Files(None, map[]), None, false, REASONS[0], -1, 0);
    scoped, files2 := CanPublish(files1, Some(scope), true, REASONS[1], 0, 0);
  }

  /** Two publishes after which the worker may consume although the scope is served a valid kill switch. */
  ghost predicate EscapesHold(scope: Scope, files1: Files, files2: Files, global: Document, scoped: Document, now: int) {
    && PublishStep(Files(None, map[]), files1, None, false, REASONS[0], now, Published(global))
    && PublishStep(files1, files2, Some(scope), true, REASONS[1], now, Published(scoped))
    && !MustHold(files2, now) && ServesKill(files2, scope, now)
  }

  lemma UndecodableEscapesHold(scope: Scope) returns (files1: Files, files2: Files, global: Document, scoped: Document)
    requires ValidScope(scope) && !Decodable(scope)
    ensures EscapesHold(scope, files1, files2, global, scoped, 0)
  {
    EncodeThenDecode(scope);
    files1, files2, global, scoped := TwoPublishes(scope);
    assert REASONS[0] == "none";
    forall key ensures !HoldsDelivery(files2, key, 0) {}
  }

  /**
   A delivery document that lets the worker consume implies that the scope is not being served a
   valid kill switch, in every state of the files, exactly for the scopes whose key decodes.
   */
  lemma HoldAgreesWithServing(scope: Scope)
    requires ValidScope(scope)
    ensures (forall files: Files, now: int :: !MustHold(files, now) ==> !ServesKill(files, scope, now))
            <==> Decodable(scope)
  {
    if Decodable(scope) {
      EncodeThenDecode(scope);
      forall files: Files, now: int | ServesKill(files, scope, now) ensures MustHold(files, now) {
        if ReadyForDelivery(files.global, now) && !files.global.value.active {
          assert HoldsDelivery(files, Key(scope), now);
        }
      }
    } else {
      var files1, files2, global, scoped := UndecodableEscapesHold(scope);
    }
  }

  /** The worker consumes exactly on a document that says not to hold. */
  lemma WorkerReads(parsed: Option<DeliveryControl>)
    ensures ConsumptionAllowed(ReadControlState(parsed)) <==> parsed.Some? && !parsed.value.hold
  {}

  /** The file of a scope is a kill switch in force at the plane. */
  ghost predicate ScopeKilled(files: Files, scope: Scope, now: int) {
    && Key(scope) in files.scoped && files.scoped[Key(scope)].active
    && files.scoped[Key(scope)].revision >= 0 && KnownReason(files.scoped[Key(scope)].reasonCode)
    && InForce(files.scoped[Key(scope)], now, 300_000)
  }

  /**
   The worker is held exactly if the global document is missing, not in force or a kill switch, or the file of some
   valid scope whose key decodes is a kill switch in force.
   */
  lemma HeldExactly(files: Files, now: int)
    ensures MustHold(files, now) <==>
            || files.global.None?
            || !(files.global.value.revision >= 0 && KnownReason(files.global.value.reasonCode)
                 && InForce(files.global.value, now, 300_000))
            || files.global.value.active
            || exists scope :: ValidScope(scope) && Decodable(scope) && ScopeKilled(files, scope, now)
  {
    if files.global.Some? { AcceptanceMeans(files.global.value, now); }
    forall key ensures HoldsDelivery(files, key, now) ==>
        FromKey(key).Some? && ValidScope(FromKey(key).value) && Decodable(FromKey(key).value)
        && ScopeKilled(files, FromKey(key).value, now)
    {
      DecodeThenEncode(key);
      if key in files.scoped { AcceptanceMeans(files.scoped[key], now); }
    }
    forall scope | ValidScope(scope) && Decodable(scope) && ScopeKilled(files, scope, now)
      ensures HoldsDelivery(files, Key(scope), now)
    {
      EncodeThenDecode(scope);
      AcceptanceMeans(files.scoped[Key(scope)], now);
    }
  }

  class Plane {
    var activeControl: Option<Document>
    var scopedControls: map<string, Document>

    ghost function View(): Files
      reads this
    {
      Files(activeControl, scopedControls)
    }

    constructor ()
      ensures View() == Files(None, map[])
    {
      activeControl, scopedControls := None, map[];
    }

    /** The revisions of every stored document, in directory order. */
    method StoredRevisions() returns (revisions: seq<int>)
      ensures forall doc :: HasFile(View(), doc) ==> doc.revision in revisions
      ensures forall r :: r in revisions ==> exists doc :: HasFile(View(), doc) && doc.revision == r
    {
      revisions := if activeControl.Some? then [activeControl.value.revision] else [];
      assert activeControl.Some? ==> HasFile(View(), activeControl.value);
      var entries := scopedControls.Keys;
      while entries != {}
        invariant entries <= scopedControls.Keys
        invariant activeControl.Some? ==> activeControl.value.revision in revisions
        invariant forall key :: key in scopedControls.Keys - entries ==> scopedControls[key].revision in revisions
        invariant forall r :: r in revisions ==> exists doc :: HasFile(View(), doc) && doc.revision == r
        decreases |entries|
      {
        var entry :| entry in entries;
        entries := entries - {entry};
        assert HasFile(View(), scopedControls[entry]);
        revisions := revisions + [scopedControls[entry].revision];
      }
    }

    method MaxControlRevision() returns (max: int)
      requires FilesOk(View())
      ensures IsMaxRevision(View(), max)
    {
      var revisions := StoredRevisions();
      max := -1;
      for i := 0 to |revisions|
        invariant max == -1 || max in revisions[..i]
        invariant forall j :: 0 <= j < i ==> revisions[j] <= max
      {
        if revisions[i] > max { max := revisions[i]; }
      }
      assert revisions[..|revisions|] == revisions;
      assert max != -1 ==> max in revisions;
      assert forall r :: r in revisions ==> r <= max;
    }

    method PublishControl(scope: Option<Scope>, active: bool, reasonCode: string, now: int) returns (result: PublishResult)
      requires FilesOk(View())
      modifies this
      ensures FilesOk(View())
      ensures PublishStep(old(View()), View(), scope, active, reasonCode, now, result)
    {
      if scope.Some? && !ValidScope(scope.value) {
        return InvalidScope;
      }
      var previous := MaxControlRevision();
      ghost var before := View();
      var document := BuildDocument(active, reasonCode, previous, now);
      var validation := ValidateForPlane(document, now, previous);
      if validation.Some? {
        return Refused(validation.value);
      }
      if scope.None? {
        activeControl := Some(document);
      } else {
        scopedControls := scopedControls[Key(scope.value) := document];
      }
      assert forall doc :: HasFile(View(), doc) ==> doc == document || HasFile(before, doc);
      result := Published(document);
    }

    /** `entries` is the directory listing of the scoped documents, in any order. */
    method DeliveryControlDocument(entries: seq<string>, now: int) returns (doc: DeliveryControl)
      requires forall key :: key in entries <==> key in scopedControls
      ensures ConsumptionAllowed(ReadControlState(Some(doc))) <==> !MustHold(View(), now)
      ensures forall s :: s in doc.scopedHolds <==> exists key :: HoldsDelivery(View(), key, now) && FromKey(key) == Some(s)
      ensures !doc.hold ==> doc.reason == "runtime_control_enabled"
      ensures doc.hold ==>
                if !ReadyForDelivery(activeControl, now) then doc.reason == "runtime_control_unready"
                else if activeControl.value.active then doc.reason == activeControl.value.reasonCode
                else doc.reason == "scoped_runtime_control_disabled" && doc.scopedHolds != []
    {
      var scopedHolds: seq<Scope> := [];
      for i := 0 to |entries|
        invariant forall s :: s in scopedHolds <==>
          exists j :: 0 <= j < i && HoldsDelivery(View(), entries[j], now) && FromKey(entries[j]) == Some(s)
      {
        var control := scopedControls[entries[i]];
        if PlaneAccepts(control, now) && control.active {
          var scope := FromKey(entries[i]);
          if scope.Some? { scopedHolds := scopedHolds + [scope.value]; }
        }
      }
      assert |scopedHolds| > 0 ==> scopedHolds[0] in scopedHolds;
      forall key | HoldsDelivery(View(), key, now) ensures FromKey(key).value in scopedHolds {
        var j :| 0 <= j < |entries| && entries[j] == key;
      }
      var ready := ReadyForDelivery(activeControl, now);
      doc := DeliveryControl(
        !ready || activeControl.value.active || |scopedHolds| > 0,
        if !ready then "runtime_control_unready"
        else if activeControl.value.active then activeControl.value.reasonCode
        else if |scopedHolds| > 0 then "scoped_runtime_control_disabled"
        else "runtime_control_enabled",
        scopedHolds);
    }
  }
}
