/**
 The runtime-control document, how the control plane builds and validates it, and how the browser
 page validates the same document against its own clock.  Timestamps are parsed milliseconds.
 */
module ControlDocument {
  import opened Wrappers

  datatype Document = Document(revision: int, issuedAt: int, expiresAt: int, active: bool, reasonCode: string)

  const REASONS: seq<string> := [
    "none", "security_incident", "privacy_incident", "service_degradation", "maintenance", "operator_request"
  ]

  const MAX_CONTROL_TTL_MS: int := 600_000
  const PLANE_CLOCK_SKEW_MS: int := 300_000
  const PAGE_CLOCK_SKEW_MS: int := 60_000

  datatype Rejection =
    | SchemaInvalid
    | RevisionInvalid
    | RevisionNotMonotonic
    | ReasonInvalid
    | LifetimeInvalid
    | TtlExceeded
    | NotYetValid
    | Expired

  /** The order of the checks decides which reason is reported. */
  function ValidateLifetime(doc: Document, now: int, skew: int): Option<Rejection> {
    if doc.expiresAt <= doc.issuedAt then Some(LifetimeInvalid)
    else if doc.expiresAt - doc.issuedAt > MAX_CONTROL_TTL_MS then Some(TtlExceeded)
    else if doc.issuedAt > now + skew then Some(NotYetValid)
    else if doc.expiresAt <= now then Some(Expired)
    else None
  }

  // ----- the control plane's side

  function ValidateForPlane(doc: Document, now: int, previousRevision: int): Option<Rejection> {
    if doc.revision < 0 then Some(RevisionInvalid)
    else if doc.revision <= previousRevision then Some(RevisionNotMonotonic)
    else if doc.reasonCode !in REASONS then Some(ReasonInvalid)
    else ValidateLifetime(doc, now, PLANE_CLOCK_SKEW_MS)
  }

  /** A stored document is re-validated against its own predecessor revision. */
  predicate PlaneAccepts(doc: Document, now: int) {
    ValidateForPlane(doc, now, doc.revision - 1).None?
  }

  function BuildDocument(active: bool, reasonCode: string, previousRevision: int, now: int): Document {
    Document(previousRevision + 1, now, now + MAX_CONTROL_TTL_MS, active, if active then reasonCode else "none")
  }

  // ----- the page's side

  function ValidateForPage(doc: Document, now: int): Option<Rejection> {
    if doc.revision < 0 then Some(RevisionInvalid)
    else if doc.reasonCode !in REASONS then Some(SchemaInvalid)
    else ValidateLifetime(doc, now, PAGE_CLOCK_SKEW_MS)
  }

  predicate PageAccepts(doc: Document, now: int) {
    ValidateForPage(doc, now).None?
  }

  predicate Live(doc: Document, now: int) {
    doc.expiresAt > now
  }

  // ----- how the two sides relate

  /** A freshly built document is refused only for its reason code. */
  lemma BuiltDocumentValid(active: bool, reasonCode: string, previousRevision: int, now: int)
    requires previousRevision >= -1
    ensures var doc := BuildDocument(active, reasonCode, previousRevision, now);
            ValidateForPlane(doc, now, previousRevision)
              == if active && reasonCode !in REASONS then Some(ReasonInvalid) else None
  {
    assert REASONS[0] == "none";
  }

  /**
   What a page accepts the control plane accepts too, for every document, exactly when the page's
   clock is not behind the plane's and at most 240 s ahead of it.
   */
  lemma PageAcceptsOnlyWhatPlaneAccepts(pageNow: int, planeNow: int)
    ensures (forall doc :: PageAccepts(doc, pageNow) ==> PlaneAccepts(doc, planeNow))
            <==> planeNow <= pageNow <= planeNow + PLANE_CLOCK_SKEW_MS - PAGE_CLOCK_SKEW_MS
  {
    assert REASONS[0] == "none";
    if planeNow > pageNow {
      assert PageAccepts(Document(0, pageNow, pageNow + 1, false, "none"), pageNow);
      assert !PlaneAccepts(Document(0, pageNow, pageNow + 1, false, "none"), planeNow);
    } else if pageNow > planeNow + PLANE_CLOCK_SKEW_MS - PAGE_CLOCK_SKEW_MS {
      var issuedAt := pageNow + PAGE_CLOCK_SKEW_MS;
      assert PageAccepts(Document(0, issuedAt, issuedAt + 1, false, "none"), pageNow);
      assert !PlaneAccepts(Document(0, issuedAt, issuedAt + 1, false, "none"), planeNow);
    }
  }

  // ----- acceptance, in numbers

  ghost predicate KnownReason(reason: string) {
    || reason == "none" || reason == "security_incident" || reason == "privacy_incident"
    || reason == "service_degradation" || reason == "maintenance" || reason == "operator_request"
  }

  /** A lifetime of at most ten minutes that has not ended, and begins at most `skew` ms from now. */
  ghost predicate InForce(doc: Document, now: int, skew: int) {
    doc.issuedAt < doc.expiresAt <= doc.issuedAt + 600_000 && doc.issuedAt <= now + skew && now < doc.expiresAt
  }

  lemma ReasonsAreKnown(reason: string)
    ensures reason in REASONS <==> KnownReason(reason)
  {
    assert REASONS[0] == "none" && REASONS[1] == "security_incident" && REASONS[2] == "privacy_incident";
    assert REASONS[3] == "service_degradation" && REASONS[4] == "maintenance" && REASONS[5] == "operator_request";
  }

  /** Page and plane accept exactly the well-formed documents in force, with a minute and five minutes of skew. */
  lemma AcceptanceMeans(doc: Document, now: int)
    ensures PageAccepts(doc, now) <==> doc.revision >= 0 && KnownReason(doc.reasonCode) && InForce(doc, now, 60_000)
    ensures PlaneAccepts(doc, now) <==> doc.revision >= 0 && KnownReason(doc.reasonCode) && InForce(doc, now, 300_000)
    ensures Live(doc, now) <==> now < doc.expiresAt
  {
    ReasonsAreKnown(doc.reasonCode);
  }
}
