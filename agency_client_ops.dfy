/** The units of work the four `agency_clients` server actions hand to the RLS wrappers:
    each runs one statement through the transaction handle and turns what the database did,
    or the error it raised, into an `ActionState` envelope. */
module AgencyClientOps {
  import opened Common
  import opened RowSecurity
  import opened UuidSyntax
  import opened AgencyClientsSchema
  import opened Store

  /** The `data` an envelope carries: one client, a list of clients, or nothing (`void`). */
  datatype ClientData = OneClient(client: ClientRow) | ClientList(clients: seq<ClientRow>) | NoData

  /** What a caller passes to create a client. `agencyId` stands for a field the caller may
      smuggle into the payload at run time although the parameter type omits it. */
  datatype ClientPayload = ClientPayload(
    agencyId: Option<string>,
    clientIdentifier: string,
    clientName: string,
    ga4PropertyId: string,
    credentialReference: Option<string>,
    credentialStatus: Option<CredentialStatus>)

  /** A closure the wrappers pass to the executor, with the values it captured. */
  datatype Work =
    | CreateWork(agencyId: string, payload: ClientPayload, newId: string)
    | ListWork
    | UpdateWork(id: string, patch: ClientPatch)
    | DeleteWork(id: string)

  /** What a unit of work left behind: the table and the envelope it returned. */
  datatype Effect = Effect(table: seq<ClientRow>, result: ActionState<ClientData>)

  const DuplicateIdentifierMessage := "Client Identifier already exists."
  const CreateFailedMessage := "Failed to create client."
  const ListedMessage := "Clients retrieved successfully."
  const UpdateMissMessage := "Client not found or update failed."
  const UpdateFailedMessage := "Failed to update client."
  const DeleteMissMessage := "Client not found or delete failed."
  const DeleteFailedMessage := "Failed to delete client."

  /** `{ ...clientData, agencyId }` with the column defaults filled in; `newId` is the key the
      database generates. The wrapper's `agencyId` comes after the spread and wins. */
  function StampRow(p: ClientPayload, agencyId: string, newId: string): ClientRow {
    ClientRow(newId, agencyId, p.clientIdentifier, p.clientName, p.ga4PropertyId,
              p.credentialReference, p.credentialStatus.GetOr(DefaultCredentialStatus))
  }

  /** The create callback: insert the stamped row, report success, a duplicate, or failure. */
  function CreateEffect(rows: seq<ClientRow>, agencies: set<string>, setting: Setting, agencyId: string, p: ClientPayload, newId: string): Effect {
    var row := StampRow(p, agencyId, newId);
    match Insert(rows, agencies, setting, row)
    case Applied(t, _) => Effect(t, Success(row.clientName + " created successfully.", OneClient(row)))
    case Raised(e) => Effect(rows, Failure(if e.Code() == "23505" then DuplicateIdentifierMessage else CreateFailedMessage))
  }

  /** The read callback: every row the scope sees. */
  function ListEffect(rows: seq<ClientRow>, setting: Setting): Effect {
    Effect(rows, Success(ListedMessage, ClientList(SelectVisible(rows, setting))))
  }

  /** The update callback: RETURNING nothing is a miss. */
  function UpdateEffect(rows: seq<ClientRow>, setting: Setting, id: string, p: ClientPatch): Effect {
    match UpdateById(rows, setting, id, p)
    case Applied(t, None) => Effect(t, Failure(UpdateMissMessage))
    case Applied(t, Some(u)) => Effect(t, Success(u.clientName + " updated successfully.", OneClient(u)))
    case Raised(e) => Effect(rows, Failure(if e.Code() == "23505" then DuplicateIdentifierMessage else UpdateFailedMessage))
  }

  /** The delete callback: RETURNING nothing is a miss. */
  function DeleteEffect(rows: seq<ClientRow>, setting: Setting, id: string): Effect {
    match DeleteById(rows, setting, id)
    case Applied(t, None) => Effect(t, Failure(DeleteMissMessage))
    case Applied(t, Some(d)) => Effect(t, Success("Client '" + d.clientName + "' deleted successfully.", NoData))
    case Raised(_) => Effect(rows, Failure(DeleteFailedMessage))
  }

  /** What a unit of work does to the table and returns, run under `setting` against a database
      whose `agencies` table holds `agencies`. */
  function Perform(w: Work, rows: seq<ClientRow>, agencies: set<string>, setting: Setting): Effect {
    match w
    case CreateWork(a, p, n) => CreateEffect(rows, agencies, setting, a, p, n)
    case ListWork => ListEffect(rows, setting)
    case UpdateWork(id, p) => UpdateEffect(rows, setting, id, p)
    case DeleteWork(id) => DeleteEffect(rows, setting, id)
  }

  /** Runs the unit of work on the transaction handle `tx`: one statement, under whatever the
      setting currently is. */
  method RunWork(tx: Database, w: Work) returns (res: ActionState<ClientData>)
    requires tx.Valid() && tx.inTransaction
    modifies tx`clients, tx`log
    ensures tx.Valid()
    ensures Effect(tx.clients, res) == Perform(w, old(tx.clients), tx.agencies, tx.setting)
    ensures tx.log == old(tx.log) + [Statement(tx.setting)]
  {
    match w
    case CreateWork(agencyId, p, newId) =>
      var row := StampRow(p, agencyId, newId);
      var o := tx.InsertReturning(row);
      if o.Applied? {
        res := Success(row.clientName + " created successfully.", OneClient(row));
      } else if o.error.Code() == "23505" {
        res := Failure(DuplicateIdentifierMessage);
      } else {
        res := Failure(CreateFailedMessage);
      }
    case ListWork =>
      var rows := tx.FindMany();
      res := Success(ListedMessage, ClientList(rows));
    case UpdateWork(id, p) =>
      var o := tx.UpdateReturning(id, p);
      if o.Raised? {
        res := Failure(if o.error.Code() == "23505" then DuplicateIdentifierMessage else UpdateFailedMessage);
      } else if o.returning.None? {
        res := Failure(UpdateMissMessage);
      } else {
        var u := o.returning.value;
        res := Success(u.clientName + " updated successfully.", OneClient(u));
      }
    case DeleteWork(id) =>
      var o := tx.DeleteReturning(id);
      if o.Raised? {
        res := Failure(DeleteFailedMessage);
      } else if o.returning.None? {
        res := Failure(DeleteMissMessage);
      } else {
        res := Success("Client '" + o.returning.value.clientName + "' deleted successfully.", NoData);
      }
  }

  // ----- What the actions promise once the policy applies -----

  /** Stamping: the created row carries the wrapper's agency, whatever agency the payload names,
      and takes the default credential status when the payload gives none. */
  lemma StampIgnoresPayloadAgency(p: ClientPayload, agencyId: string, newId: string, smuggled: Option<string>)
    ensures StampRow(p.(agencyId := smuggled), agencyId, newId) == StampRow(p, agencyId, newId)
    ensures StampRow(p, agencyId, newId).agencyId == agencyId
    ensures p.credentialStatus.None? ==> StampRow(p, agencyId, newId).credentialStatus == Pending
  {
  }

  /** Create under the scope it stamps: it succeeds exactly when neither the generated id nor
      the client identifier is already in the table (any agency's rows count) and the agency has
      an `agencies` row; success appends the stamped row; a duplicate is reported as such, a
      missing agency as a generic failure, and neither changes anything. */
  lemma CreateInOwnScope(rows: seq<ClientRow>, agencies: set<string>, a: string, p: ClientPayload, newId: string)
    requires TableConstraints(rows)
    ensures var e := CreateEffect(rows, agencies, Some(a), a, p, newId);
      var row := StampRow(p, a, newId);
      var duplicate := IdTaken(rows, newId, |rows|) || IdentifierTaken(rows, p.clientIdentifier, |rows|);
      && (e.result.Success? <==> !duplicate && a in agencies)
      && (e.result.Success? ==>
            e.result == Success(p.clientName + " created successfully.", OneClient(row))
            && row.agencyId == a && e.table == rows + [row] && TableConstraints(e.table))
      && (duplicate ==> e == Effect(rows, Failure(DuplicateIdentifierMessage)))
      && (!duplicate && a !in agencies ==> e == Effect(rows, Failure(CreateFailedMessage)))
  {
    var row := StampRow(p, a, newId);
    if Insert(rows, agencies, Some(a), row).Applied? {
      InsertStaysInScope(rows, agencies, Some(a), row);
    }
  }

  /** The policy as a backstop: a create whose stamped agency differs from the scope is
      rejected by the policy check and reported as a generic failure. */
  lemma CreateOutsideScopeRejected(rows: seq<ClientRow>, agencies: set<string>, setting: Setting, a: string, p: ClientPayload, newId: string)
    requires setting != Some(a)
    ensures CreateEffect(rows, agencies, setting, a, p, newId) == Effect(rows, Failure(CreateFailedMessage))
  {
  }

  /** The read returns exactly the rows of the scope's agency, in table order. */
  lemma ListIsTenantRows(rows: seq<ClientRow>, a: string)
    ensures var e := ListEffect(rows, Some(a));
      && e.table == rows
      && e.result.Success? && e.result.data.ClientList?
      && (forall r :: r in e.result.data.clients <==> r in rows && r.agencyId == a)
  {
    SeesExactlyTenantRows(rows, AgencyOf, Some(a));
  }

  /** The row with id `id` that scope `a` reaches, if there is one, is the one at `i`. */
  lemma VisibleRowIsUnique(rows: seq<ClientRow>, a: string, id: string, i: nat)
    requires TableConstraints(rows)
    requires i < |rows| && rows[i].id == id && rows[i].agencyId == a
    ensures FindVisible(rows, Some(a), id) == Some(i)
  {
    var j := FindVisible(rows, Some(a), id).value;
    assert rows[j].id == rows[i].id;
  }

  /** Update in scope `a`. An id, or a smuggled new key, that is not uuid text fails with the
      generic message. Otherwise a miss (another agency's row or no such id) fails with the miss
      message; a hit whose patch smuggles in another agency fails the policy check with the
      generic message; a hit whose new key or identifier is taken by another row reports a
      duplicate; and any other hit rewrites that one row in place. Every failure leaves the
      table as it was. */
  lemma UpdateOutcomes(rows: seq<ClientRow>, a: string, id: string, p: ClientPatch)
    requires TableConstraints(rows)
    ensures var e := UpdateEffect(rows, Some(a), id, p);
      && TableConstraints(e.table)
      && (e.result.Failure? ==> e.table == rows)
      && (!UpdateIdsParse(id, p) ==> e == Effect(rows, Failure(UpdateFailedMessage)))
      && (UpdateIdsParse(id, p) && (forall k :: 0 <= k < |rows| && rows[k].id == id ==> rows[k].agencyId != a) ==>
            e == Effect(rows, Failure(UpdateMissMessage)))
      && (UpdateIdsParse(id, p) ==>
            forall i :: 0 <= i < |rows| && rows[i].id == id && rows[i].agencyId == a ==>
              var u := ApplyPatch(rows[i], p);
              if u.agencyId != a then
                e == Effect(rows, Failure(UpdateFailedMessage))
              else if IdTaken(rows, u.id, i) || IdentifierTaken(rows, u.clientIdentifier, i) then
                e == Effect(rows, Failure(DuplicateIdentifierMessage))
              else
                e == Effect(rows[i := u], Success(u.clientName + " updated successfully.", OneClient(u))))
  {
    var o := UpdateById(rows, Some(a), id, p);
    if o.Applied? {
      UpdateChangesOnlyTarget(rows, Some(a), id, p);
    }
    forall i | 0 <= i < |rows| && rows[i].id == id && rows[i].agencyId == a
      ensures FindVisible(rows, Some(a), id) == Some(i)
    {
      VisibleRowIsUnique(rows, a, id, i);
    }
  }

  /** No update moves a row to another agency: a patch that smuggles in an agency other than
      the scope's fails and changes nothing, whatever it targets. */
  lemma UpdateCannotMoveRow(rows: seq<ClientRow>, a: string, id: string, p: ClientPatch)
    requires p.agencyId.Some? && p.agencyId.value != a
    ensures UpdateEffect(rows, Some(a), id, p).table == rows
    ensures UpdateEffect(rows, Some(a), id, p).result.Failure?
  {
  }

  /** Delete in scope `a`: an id that is not uuid text fails with the generic message; a miss
      fails with the miss message; neither changes anything. A hit removes exactly that row and
      names it in the success message. */
  lemma DeleteOutcomes(rows: seq<ClientRow>, a: string, id: string)
    requires TableConstraints(rows)
    ensures var e := DeleteEffect(rows, Some(a), id);
      && TableConstraints(e.table)
      && (!IsUuid(id) ==> e == Effect(rows, Failure(DeleteFailedMessage)))
      && (IsUuid(id) && (forall k :: 0 <= k < |rows| && rows[k].id == id ==> rows[k].agencyId != a) ==>
            e == Effect(rows, Failure(DeleteMissMessage)))
      && (IsUuid(id) ==>
            forall i :: 0 <= i < |rows| && rows[i].id == id && rows[i].agencyId == a ==>
              e == Effect(rows[..i] + rows[i + 1..], Success("Client '" + rows[i].clientName + "' deleted successfully.", NoData)))
  {
    DeleteRemovesExactlyTarget(rows, Some(a), id);
    forall i | 0 <= i < |rows| && rows[i].id == id && rows[i].agencyId == a
      ensures FindVisible(rows, Some(a), id) == Some(i)
    {
      VisibleRowIsUnique(rows, a, id, i);
    }
  }

  /** Isolation: whatever a unit of work does under scope `a`, every other agency `b`
      sees exactly the rows it saw before, and the constraints still hold. */
  lemma WorkInvisibleToOtherAgencies(w: Work, rows: seq<ClientRow>, agencies: set<string>, a: string, b: string)
    requires TableConstraints(rows) && a != b
    ensures TableConstraints(Perform(w, rows, agencies, Some(a)).table)
    ensures SelectVisible(Perform(w, rows, agencies, Some(a)).table, Some(b)) == SelectVisible(rows, Some(b))
  {
    var noRow := ClientRow("", "", "", "", "", None, Pending);
    match w
    case CreateWork(ag, p, n) =>
      var row := StampRow(p, ag, n);
      WritesInvisibleToOtherAgencies(rows, agencies, a, b, row, "", NoChange);
      if Insert(rows, agencies, Some(a), row).Applied? {
        InsertStaysInScope(rows, agencies, Some(a), row);
      }
    case ListWork =>
    case UpdateWork(id, p) =>
      WritesInvisibleToOtherAgencies(rows, agencies, a, b, noRow, id, p);
      if UpdateById(rows, Some(a), id, p).Applied? {
        UpdateChangesOnlyTarget(rows, Some(a), id, p);
      }
    case DeleteWork(id) =>
      WritesInvisibleToOtherAgencies(rows, agencies, a, b, noRow, id, NoChange);
      DeleteRemovesExactlyTarget(rows, Some(a), id);
  }
}
