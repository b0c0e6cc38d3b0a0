/** The two wrappers every tenant-scoped server action goes through. Both read the caller's
    session; `WithRLS` (writes) resolves the agency from an explicit id or the session's
    organisation and fails closed, `WithRLSRead` (reads) falls back to a sentinel scope that
    matches no row. Everything the executor throws becomes a failure envelope. */
module RlsHelpers {
  import opened Common
  import opened RowSecurity
  import opened AgencyClientsSchema
  import opened Store
  import opened AgencyClientOps
  import opened Rls

  /** What `auth()` yields for the request: the signed-in user and the active organisation. */
  datatype Session = Session(userId: Option<string>, orgId: Option<string>)

  const NoUserMessage := "Unauthorized: No user logged in."
  const NoAgencyMessage := "Unauthorized: Cannot determine active agency/organization."
  const WriteErrorPrefix := "Internal RLS error: "
  const ReadErrorPrefix := "Internal RLS read error: "
  /** The scope a read runs under when the session has no organisation; no agency has this id. */
  const ReadSentinel := "invalid-agency-id-for-rls-read"

  /** The operation a write action hands to `withRLS`, before the agency is known. */
  datatype WriteOp =
    | CreateOp(payload: ClientPayload, newId: string)
    | UpdateOp(id: string, patch: ClientPatch)
    | DeleteOp(id: string)

  /** `(tx) => operation(tx, agencyIdToUse, clerkUserId)`: the unit of work with the resolved
      agency captured. None of the callbacks uses the user id. */
  function Bind(op: WriteOp, agencyId: string): Work {
    match op
    case CreateOp(p, n) => CreateWork(agencyId, p, n)
    case UpdateOp(id, p) => UpdateWork(id, p)
    case DeleteOp(id) => DeleteWork(id)
  }

  /** `explicitAgencyId ?? contextOrgId`, kept only when truthy; None means fail closed.
      A resolved id is never empty, so the executor's guard never fires behind this wrapper. */
  function ResolveWriteAgency(explicit: Option<string>, orgId: Option<string>): (r: Option<string>)
    ensures r.Some? ==> r.value != ""
  {
    var chosen := if explicit.Some? then explicit else orgId;
    if Truthy(chosen) then chosen else None
  }

  /** The scope a read runs under: the session's organisation, or the sentinel. */
  function ReadAgency(orgId: Option<string>): (r: string)
    ensures r != ""
    ensures Truthy(orgId) ==> r == orgId.value
    ensures !Truthy(orgId) ==> r == ReadSentinel
  {
    if Truthy(orgId) then orgId.value else ReadSentinel
  }

  /** What `withRLS(operation, explicitAgencyId)` does to the table and returns. */
  function WithRLSOutcome(rows: seq<ClientRow>, agencies: set<string>, s: Session, explicit: Option<string>, op: WriteOp, fault: Fault): Effect {
    if !Truthy(s.userId) then Effect(rows, Failure(NoUserMessage))
    else
      match ResolveWriteAgency(explicit, s.orgId)
      case None => Effect(rows, Failure(NoAgencyMessage))
      case Some(a) =>
        match Execute(rows, agencies, a, Bind(op, a), fault)
        case Executed(t, Returned(r)) => Effect(t, r)
        case Executed(t, Threw(m)) => Effect(t, Failure(WriteErrorPrefix + m))
  }

  /** What `withRLSRead(operation)` does to the table and returns. */
  function WithRLSReadOutcome(rows: seq<ClientRow>, agencies: set<string>, s: Session, w: Work, fault: Fault): Effect {
    if !Truthy(s.userId) then Effect(rows, Failure(NoUserMessage))
    else
      match Execute(rows, agencies, ReadAgency(s.orgId), w, fault)
      case Executed(t, Returned(r)) => Effect(t, r)
      case Executed(t, Threw(m)) => Effect(t, Failure(ReadErrorPrefix + m))
  }

  /** `withRLS(operation, explicitAgencyId)`. */
  method WithRLS(db: Database, s: Session, explicit: Option<string>, op: WriteOp, fault: Fault) returns (res: ActionState<ClientData>)
    requires db.Valid() && !db.inTransaction
    modifies db
    ensures db.Valid() && !db.inTransaction
    ensures Effect(db.clients, res) == WithRLSOutcome(old(db.clients), db.agencies, s, explicit, op, fault)
    // Fails closed before any transaction is opened.
    ensures !Truthy(s.userId) || ResolveWriteAgency(explicit, s.orgId).None? ==> db.log == old(db.log)
    // Otherwise the work runs with the scope set to the resolved id.
    ensures Truthy(s.userId) && ResolveWriteAgency(explicit, s.orgId).Some? && !fault.OpenFails? ==>
      var a := ResolveWriteAgency(explicit, s.orgId).value;
      db.log == old(db.log) + [Begin, SetScope(a), Statement(Some(a)), if fault.CommitFails? then Rollback else Commit]
  {
    if !Truthy(s.userId) {
      return Failure(NoUserMessage);
    }
    var agencyIdToUse := if explicit.Some? then explicit else s.orgId;
    if !Truthy(agencyIdToUse) {
      return Failure(NoAgencyMessage);
    }
    var a := agencyIdToUse.value;
    var out := ExecuteWithAgencyContext(db, a, Bind(op, a), fault);
    match out
    case Returned(r) => res := r;
    case Threw(m) => res := Failure(WriteErrorPrefix + m);
  }

  /** `withRLSRead(operation)`. */
  method WithRLSRead(db: Database, s: Session, w: Work, fault: Fault) returns (res: ActionState<ClientData>)
    requires db.Valid() && !db.inTransaction
    modifies db
    ensures db.Valid() && !db.inTransaction
    ensures Effect(db.clients, res) == WithRLSReadOutcome(old(db.clients), db.agencies, s, w, fault)
    ensures !Truthy(s.userId) ==> db.log == old(db.log)
    ensures Truthy(s.userId) && !fault.OpenFails? ==>
      var a := ReadAgency(s.orgId);
      db.log == old(db.log) + [Begin, SetScope(a), Statement(Some(a)), if fault.CommitFails? then Rollback else Commit]
  {
    if !Truthy(s.userId) {
      return Failure(NoUserMessage);
    }
    var out;
    if !Truthy(s.orgId) {
      out := ExecuteWithAgencyContext(db, ReadSentinel, w, fault);
    } else {
      out := ExecuteWithAgencyContext(db, s.orgId.value, w, fault);
    }
    match out
    case Returned(r) => res := r;
    case Threw(m) => res := Failure(ReadErrorPrefix + m);
  }

  // ----- Tenant resolution -----

  /** The explicit id wins whenever it is present, even when it is empty (then the write fails
      closed although the session has an organisation); the session's organisation is used
      only when no explicit id is passed. */
  lemma ExplicitIdPrecedence(explicit: Option<string>, orgId: Option<string>)
    ensures explicit.Some? && explicit.value != "" ==> ResolveWriteAgency(explicit, orgId) == explicit
    ensures explicit == Some("") ==> ResolveWriteAgency(explicit, orgId) == None
    ensures explicit.None? ==> ResolveWriteAgency(explicit, orgId) == (if Truthy(orgId) then orgId else None)
  {
  }

  /** No user, or no agency for a write: a failure envelope and an untouched table. */
  lemma WriteFailsClosed(rows: seq<ClientRow>, agencies: set<string>, s: Session, explicit: Option<string>, op: WriteOp, fault: Fault)
    ensures !Truthy(s.userId) ==> WithRLSOutcome(rows, agencies, s, explicit, op, fault) == Effect(rows, Failure(NoUserMessage))
    ensures Truthy(s.userId) && ResolveWriteAgency(explicit, s.orgId).None? ==>
      WithRLSOutcome(rows, agencies, s, explicit, op, fault) == Effect(rows, Failure(NoAgencyMessage))
    ensures Truthy(s.userId) && explicit.None? && !Truthy(s.orgId) ==>
      WithRLSOutcome(rows, agencies, s, explicit, op, fault) == Effect(rows, Failure(NoAgencyMessage))
  {
  }

  /** With a user and a resolved agency `a`, the write is exactly the operation run under
      scope `a` with `a` handed to it; a driver failure becomes an "Internal RLS error: "
      envelope and leaves the table unchanged. */
  lemma WriteRunsUnderResolvedAgency(rows: seq<ClientRow>, agencies: set<string>, s: Session, explicit: Option<string>, op: WriteOp, fault: Fault, a: string)
    requires Truthy(s.userId) && ResolveWriteAgency(explicit, s.orgId) == Some(a)
    ensures fault == NoFault ==> WithRLSOutcome(rows, agencies, s, explicit, op, fault) == Perform(Bind(op, a), rows, agencies, Some(a))
    ensures fault != NoFault ==> WithRLSOutcome(rows, agencies, s, explicit, op, fault) == Effect(rows, Failure(WriteErrorPrefix + fault.message))
  {
  }

  /** Stamping: a create through the wrapper that succeeds has appended one row, whose agency
      is the resolved id whatever the payload says and has an `agencies` row. The policy check
      never rejects it: the generic failure comes only from a resolved agency that has no
      `agencies` row, and leaves the table as it was. */
  lemma CreateStampsResolvedAgency(rows: seq<ClientRow>, agencies: set<string>, s: Session, explicit: Option<string>, p: ClientPayload, newId: string, fault: Fault)
    requires TableConstraints(rows)
    ensures var o := WithRLSOutcome(rows, agencies, s, explicit, CreateOp(p, newId), fault);
      && (o.result == Failure(CreateFailedMessage) ==>
            && Truthy(s.userId) && fault == NoFault
            && ResolveWriteAgency(explicit, s.orgId).Some?
            && ResolveWriteAgency(explicit, s.orgId).value !in agencies
            && o.table == rows)
      && (o.result.Success? ==>
            && ResolveWriteAgency(explicit, s.orgId).Some?
            && ResolveWriteAgency(explicit, s.orgId).value in agencies
            && o.result.data == OneClient(StampRow(p, ResolveWriteAgency(explicit, s.orgId).value, newId))
            && o.result.data.client.agencyId == ResolveWriteAgency(explicit, s.orgId).value
            && o.table == rows + [o.result.data.client])
  {
    if Truthy(s.userId) && ResolveWriteAgency(explicit, s.orgId).Some? {
      var a := ResolveWriteAgency(explicit, s.orgId).value;
      CreateInOwnScope(rows, agencies, a, p, newId);
      if fault != NoFault {
        assert (WriteErrorPrefix + fault.message)[0] != CreateFailedMessage[0];
      }
    }
  }

  /** Isolation through the write wrapper: whatever the session, explicit id, operation and
      fault, every agency other than the resolved one sees the same rows afterwards, and the
      table constraints still hold. */
  lemma WriteIsolation(rows: seq<ClientRow>, agencies: set<string>, s: Session, explicit: Option<string>, op: WriteOp, fault: Fault, b: string)
    requires TableConstraints(rows)
    requires ResolveWriteAgency(explicit, s.orgId) != Some(b)
    ensures TableConstraints(WithRLSOutcome(rows, agencies, s, explicit, op, fault).table)
    ensures SelectVisible(WithRLSOutcome(rows, agencies, s, explicit, op, fault).table, Some(b)) == SelectVisible(rows, Some(b))
  {
    if Truthy(s.userId) && ResolveWriteAgency(explicit, s.orgId).Some? {
      var a := ResolveWriteAgency(explicit, s.orgId).value;
      WorkInvisibleToOtherAgencies(Bind(op, a), rows, agencies, a, b);
    }
  }

  // ----- Reads -----

  /** A read without a user fails; with a user it never fails for a missing organisation and
      runs under the organisation or the sentinel; a driver failure becomes an
      "Internal RLS read error: " envelope. */
  lemma ReadScope(rows: seq<ClientRow>, agencies: set<string>, s: Session, w: Work, fault: Fault)
    ensures !Truthy(s.userId) ==> WithRLSReadOutcome(rows, agencies, s, w, fault) == Effect(rows, Failure(NoUserMessage))
    ensures Truthy(s.userId) && fault == NoFault ==>
      WithRLSReadOutcome(rows, agencies, s, w, fault) == Perform(w, rows, agencies, Some(ReadAgency(s.orgId)))
    ensures Truthy(s.userId) && fault != NoFault ==>
      WithRLSReadOutcome(rows, agencies, s, w, fault) == Effect(rows, Failure(ReadErrorPrefix + fault.message))
  {
  }

  /** A user without an organisation reads an empty list, successfully, provided no agency
      uses the sentinel as its id. */
  lemma ReadWithoutOrganisationIsEmpty(rows: seq<ClientRow>, agencies: set<string>, s: Session)
    requires Truthy(s.userId) && !Truthy(s.orgId)
    requires forall k :: 0 <= k < |rows| ==> rows[k].agencyId != ReadSentinel
    ensures WithRLSReadOutcome(rows, agencies, s, ListWork, NoFault) == Effect(rows, Success(ListedMessage, ClientList([])))
  {
    NothingAdmittedSeesNothing(rows, AgencyOf, Some(ReadSentinel));
  }

  /** A user with an organisation reads exactly that organisation's rows. */
  lemma ReadWithOrganisationIsTenantRows(rows: seq<ClientRow>, agencies: set<string>, s: Session)
    requires Truthy(s.userId) && Truthy(s.orgId)
    ensures var o := WithRLSReadOutcome(rows, agencies, s, ListWork, NoFault);
      && o.table == rows
      && o.result.Success? && o.result.data.ClientList?
      && forall r :: r in o.result.data.clients <==> r in rows && r.agencyId == s.orgId.value
  {
    ListIsTenantRows(rows, s.orgId.value);
  }
}
