/** The four exported server actions on `agency_clients`, each one callback handed to a wrapper,
    and the two-agency scenario of their test suite. */
module AgencyClientActions {
  import opened Common
  import opened RowSecurity
  import opened UuidSyntax
  import opened AgencyClientsSchema
  import opened Store
  import opened AgencyClientOps
  import opened Rls
  import opened RlsHelpers

  /** `createAgencyClientAction(clientData)`; `newId` is the uuid the database generates
      (`defaultRandom()`), so it is always valid uuid text. */
  method CreateAgencyClientAction(db: Database, s: Session, clientData: ClientPayload, newId: string, fault: Fault)
    returns (res: ActionState<ClientData>)
    requires db.Valid() && !db.inTransaction
    requires IsUuid(newId)
    modifies db
    ensures db.Valid() && !db.inTransaction
    ensures Effect(db.clients, res) == WithRLSOutcome(old(db.clients), db.agencies, s, None, CreateOp(clientData, newId), fault)
    // Stamping: the new row belongs to the session's organisation, whatever the payload says.
    ensures res.Success? ==>
      && Truthy(s.orgId) && s.orgId.value in db.agencies
      && res.data == OneClient(StampRow(clientData, s.orgId.value, newId))
      && res.data.client.agencyId == s.orgId.value
      && db.clients == old(db.clients) + [res.data.client]
    ensures forall b :: Some(b) != ResolveWriteAgency(None, s.orgId) ==>
      SelectVisible(db.clients, Some(b)) == SelectVisible(old(db.clients), Some(b))
  {
    res := WithRLS(db, s, None, CreateOp(clientData, newId), fault);
    CreateStampsResolvedAgency(old(db.clients), db.agencies, s, None, clientData, newId, fault);
    forall b | Some(b) != ResolveWriteAgency(None, s.orgId)
      ensures SelectVisible(db.clients, Some(b)) == SelectVisible(old(db.clients), Some(b))
    {
      WriteIsolation(old(db.clients), db.agencies, s, None, CreateOp(clientData, newId), fault, b);
    }
  }

  /** `getMyAgencyClientsAction()`. */
  method GetMyAgencyClientsAction(db: Database, s: Session, fault: Fault) returns (res: ActionState<ClientData>)
    requires db.Valid() && !db.inTransaction
    modifies db
    ensures db.Valid() && !db.inTransaction
    ensures Effect(db.clients, res) == WithRLSReadOutcome(old(db.clients), db.agencies, s, ListWork, fault)
    ensures db.clients == old(db.clients)
    ensures res.Success? ==>
      && res.data.ClientList?
      && forall r :: r in res.data.clients <==> r in db.clients && r.agencyId == ReadAgency(s.orgId)
  {
    res := WithRLSRead(db, s, ListWork, fault);
    ReadScope(old(db.clients), db.agencies, s, ListWork, fault);
    ListIsTenantRows(old(db.clients), ReadAgency(s.orgId));
  }

  /** `updateAgencyClientAction(clientId, updateData)`. */
  method UpdateAgencyClientAction(db: Database, s: Session, clientId: string, updateData: ClientPatch, fault: Fault)
    returns (res: ActionState<ClientData>)
    requires db.Valid() && !db.inTransaction
    modifies db
    ensures db.Valid() && !db.inTransaction
    ensures Effect(db.clients, res) == WithRLSOutcome(old(db.clients), db.agencies, s, None, UpdateOp(clientId, updateData), fault)
    // A success rewrote the organisation's own row with that id, in place, and nothing else;
    // the row stays with the organisation.
    ensures res.Success? ==>
      && Truthy(s.orgId)
      && exists i :: 0 <= i < |old(db.clients)| && old(db.clients)[i].id == clientId
           && old(db.clients)[i].agencyId == s.orgId.value
           && res.data == OneClient(ApplyPatch(old(db.clients)[i], updateData))
           && res.data.client.agencyId == s.orgId.value
           && db.clients == old(db.clients)[i := res.data.client]
    // An id, or a smuggled new key, that is not uuid text: the generic message and no change.
    ensures (Truthy(s.userId) && Truthy(s.orgId) && fault == NoFault && !UpdateIdsParse(clientId, updateData))
      ==> res == Failure(UpdateFailedMessage) && db.clients == old(db.clients)
    // Another agency's row, or no row with that id: the miss message and no change.
    ensures (Truthy(s.userId) && Truthy(s.orgId) && fault == NoFault && UpdateIdsParse(clientId, updateData) &&
             forall k :: 0 <= k < |old(db.clients)| && old(db.clients)[k].id == clientId ==> old(db.clients)[k].agencyId != s.orgId.value)
      ==> res == Failure(UpdateMissMessage) && db.clients == old(db.clients)
    // A smuggled agency other than the caller's own fails and changes nothing.
    ensures updateData.agencyId.Some? && Some(updateData.agencyId.value) != ResolveWriteAgency(None, s.orgId)
      ==> res.Failure? && db.clients == old(db.clients)
    ensures forall b :: Some(b) != ResolveWriteAgency(None, s.orgId) ==>
      SelectVisible(db.clients, Some(b)) == SelectVisible(old(db.clients), Some(b))
  {
    res := WithRLS(db, s, None, UpdateOp(clientId, updateData), fault);
    ghost var rows := old(db.clients);
    if Truthy(s.userId) && Truthy(s.orgId) {
      UpdateOutcomes(rows, s.orgId.value, clientId, updateData);
      if updateData.agencyId.Some? && updateData.agencyId.value != s.orgId.value {
        UpdateCannotMoveRow(rows, s.orgId.value, clientId, updateData);
      }
      if res.Success? {
        var i := FindVisible(rows, Some(s.orgId.value), clientId).value;
        assert rows[i].id == clientId && rows[i].agencyId == s.orgId.value;
      }
    }
    forall b | Some(b) != ResolveWriteAgency(None, s.orgId)
      ensures SelectVisible(db.clients, Some(b)) == SelectVisible(old(db.clients), Some(b))
    {
      WriteIsolation(rows, db.agencies, s, None, UpdateOp(clientId, updateData), fault, b);
    }
  }

  /** `deleteAgencyClientAction(clientId)`. */
  method DeleteAgencyClientAction(db: Database, s: Session, clientId: string, fault: Fault)
    returns (res: ActionState<ClientData>)
    requires db.Valid() && !db.inTransaction
    modifies db
    ensures db.Valid() && !db.inTransaction
    ensures Effect(db.clients, res) == WithRLSOutcome(old(db.clients), db.agencies, s, None, DeleteOp(clientId), fault)
    // A success removed exactly the organisation's own row with that id and names it.
    ensures res.Success? ==>
      && Truthy(s.orgId)
      && exists i :: 0 <= i < |old(db.clients)| && old(db.clients)[i].id == clientId
           && old(db.clients)[i].agencyId == s.orgId.value
           && res == Success("Client '" + old(db.clients)[i].clientName + "' deleted successfully.", NoData)
           && db.clients == old(db.clients)[..i] + old(db.clients)[i + 1..]
    // An id that is not uuid text: the generic message and no change.
    ensures (Truthy(s.userId) && Truthy(s.orgId) && fault == NoFault && !IsUuid(clientId))
      ==> res == Failure(DeleteFailedMessage) && db.clients == old(db.clients)
    // Another agency's row, or no row with that id: the miss message and no change.
    ensures (Truthy(s.userId) && Truthy(s.orgId) && fault == NoFault && IsUuid(clientId) &&
             forall k :: 0 <= k < |old(db.clients)| && old(db.clients)[k].id == clientId ==> old(db.clients)[k].agencyId != s.orgId.value)
      ==> res == Failure(DeleteMissMessage) && db.clients == old(db.clients)
    ensures forall b :: Some(b) != ResolveWriteAgency(None, s.orgId) ==>
      SelectVisible(db.clients, Some(b)) == SelectVisible(old(db.clients), Some(b))
  {
    res := WithRLS(db, s, None, DeleteOp(clientId), fault);
    ghost var rows := old(db.clients);
    if Truthy(s.userId) && Truthy(s.orgId) {
      DeleteOutcomes(rows, s.orgId.value, clientId);
      if res.Success? {
        var i := FindVisible(rows, Some(s.orgId.value), clientId).value;
        assert rows[i].id == clientId && rows[i].agencyId == s.orgId.value;
      }
    }
    forall b | Some(b) != ResolveWriteAgency(None, s.orgId)
      ensures SelectVisible(db.clients, Some(b)) == SelectVisible(old(db.clients), Some(b))
    {
      WriteIsolation(rows, db.agencies, s, None, DeleteOp(clientId), fault, b);
    }
  }

  // ----- The test suite's scenario: agency A owns A1 and A2, agency B owns B1 -----

  const UserA := "user_a_clerk_id"
  const UserB := "user_b_clerk_id"
  const AgencyA := "agency_a_uuid"
  const AgencyB := "agency_b_uuid"

  /** Both agencies have their `agencies` row. */
  function Agencies(): set<string> { {AgencyA, AgencyB} }

  /** The seeded client keys and a key no row has. The suite's own placeholders
      ("client_a1_uuid", ...) are not uuid text, so the scenario takes any well-formed keys. */
  datatype Keys = Keys(a1: string, a2: string, b1: string, absent: string)

  predicate DistinctKeys(k: Keys) {
    && k.a1 != k.a2 && k.a1 != k.b1 && k.a2 != k.b1
    && k.absent != k.a1 && k.absent != k.a2 && k.absent != k.b1
  }

  predicate WellKeyed(k: Keys) {
    DistinctKeys(k) && IsUuid(k.a1) && IsUuid(k.a2) && IsUuid(k.b1) && IsUuid(k.absent)
  }

  function A1(k: Keys): ClientRow { ClientRow(k.a1, AgencyA, "client-a1", "Client A1", "111", None, Pending) }
  function A2(k: Keys): ClientRow { ClientRow(k.a2, AgencyA, "client-a2", "Client A2", "222", None, Pending) }
  function B1(k: Keys): ClientRow { ClientRow(k.b1, AgencyB, "client-b1", "Client B1", "333", None, Pending) }
  function Seeded(k: Keys): seq<ClientRow> { [A1(k), A2(k), B1(k)] }

  const RenameOnly := NoChange.(clientName := Some("Updated Client Name"))

  // Keys in the standard form meet that requirement.

  const KeyPrefix := "00000000-0000-4000-8000-0000000000"
  const IdA1 := KeyPrefix + "a1"
  const IdA2 := KeyPrefix + "a2"
  const IdB1 := KeyPrefix + "b1"
  const IdAbsent := KeyPrefix + "00"

  lemma ExampleKeyIsUuid(tail: string)
    requires |tail| == 2 && IsHexDigit(tail[0]) && IsHexDigit(tail[1])
    ensures IsUuid(KeyPrefix + tail)
  {
    var s := KeyPrefix + tail;
    assert IsCanonical(s) by {
      forall k | 0 <= k < 36
        ensures if k == 8 || k == 13 || k == 18 || k == 23 then s[k] == '-' else IsHexDigit(s[k])
      {
        if k < 34 {
          assert s[k] == KeyPrefix[k];
        } else {
          assert s[k] == tail[k - 34];
        }
      }
    }
    CanonicalIsUuid(s);
  }

  lemma ExampleKeysDiffer(t1: string, t2: string)
    requires |t1| == 2 && |t2| == 2 && t1 != t2
    ensures KeyPrefix + t1 != KeyPrefix + t2
  {
    assert (KeyPrefix + t1)[34..] == t1 && (KeyPrefix + t2)[34..] == t2;
  }

  lemma ExampleKeysWellKeyed()
    ensures WellKeyed(Keys(IdA1, IdA2, IdB1, IdAbsent))
  {
    ExampleKeyIsUuid("a1");
    ExampleKeyIsUuid("a2");
    ExampleKeyIsUuid("b1");
    ExampleKeyIsUuid("00");
    ExampleKeysDiffer("a1", "a2");
    ExampleKeysDiffer("a1", "b1");
    ExampleKeysDiffer("a2", "b1");
    ExampleKeysDiffer("00", "a1");
    ExampleKeysDiffer("00", "a2");
    ExampleKeysDiffer("00", "b1");
  }

  // What each agency's scope sees of the seeded table.

  lemma SeededReads(k: Keys)
    ensures SelectVisible(Seeded(k), Some(AgencyA)) == [A1(k), A2(k)]
    ensures SelectVisible(Seeded(k), Some(AgencyB)) == [B1(k)]
  {
    var r0, r1, r2 := Seeded(k), [A2(k), B1(k)], [B1(k)];
    assert r0[1..] == r1 && r1[1..] == r2 && r2[1..] == [];
    assert Filter(r2, AgencyOf, Some(AgencyA)) == [];
    assert Filter(r1, AgencyOf, Some(AgencyA)) == [A2(k)];
    assert Filter(r0, AgencyOf, Some(AgencyA)) == [A1(k)] + [A2(k)];
    assert Filter(r2, AgencyOf, Some(AgencyB)) == [B1(k)] + [];
    assert Filter(r1, AgencyOf, Some(AgencyB)) == [B1(k)];
    assert Filter(r0, AgencyOf, Some(AgencyB)) == [B1(k)];
  }

  lemma SeededLookups(k: Keys)
    requires DistinctKeys(k)
    ensures FindVisible(Seeded(k), Some(AgencyA), k.a1) == Some(0)
    ensures FindVisible(Seeded(k), Some(AgencyA), k.a2) == Some(1)
    ensures FindVisible(Seeded(k), Some(AgencyA), k.b1).None?
    ensures FindVisible(Seeded(k), Some(AgencyA), k.absent).None?
    ensures FindVisible(Seeded(k), Some(AgencyB), k.a1).None?
  {
    var rows := Seeded(k);
    assert rows[1..] == [A2(k), B1(k)];
    assert FirstVisible(rows[1..], IdOf, AgencyOf, Some(AgencyA), k.a2) == Some(0);
  }

  /** Each user reads only their own agency's clients, in table order. */
  lemma ScenarioReadsAreIsolated(k: Keys)
    ensures WithRLSReadOutcome(Seeded(k), Agencies(), Session(Some(UserA), Some(AgencyA)), ListWork, NoFault)
      == Effect(Seeded(k), Success(ListedMessage, ClientList([A1(k), A2(k)])))
    ensures WithRLSReadOutcome(Seeded(k), Agencies(), Session(Some(UserB), Some(AgencyB)), ListWork, NoFault)
      == Effect(Seeded(k), Success(ListedMessage, ClientList([B1(k)])))
  {
    SeededReads(k);
  }

  /** A creates a client: it is stamped with agency A and appended. */
  lemma ScenarioCreate(k: Keys, newId: string)
    requires newId !in {k.a1, k.a2, k.b1}
    ensures var p := ClientPayload(None, "new-client-test", "New Test Client", "123456789", None, None);
      var row := ClientRow(newId, AgencyA, "new-client-test", "New Test Client", "123456789", None, Pending);
      WithRLSOutcome(Seeded(k), Agencies(), Session(Some(UserA), Some(AgencyA)), None, CreateOp(p, newId), NoFault)
        == Effect(Seeded(k) + [row], Success("New Test Client" + " created successfully.", OneClient(row)))
  {
    var p := ClientPayload(None, "new-client-test", "New Test Client", "123456789", None, None);
    var row := StampRow(p, AgencyA, newId);
    assert !IdTaken(Seeded(k), newId, 3);
    assert !IdentifierTaken(Seeded(k), "new-client-test", 3);
    assert Insert(Seeded(k), Agencies(), Some(AgencyA), row) == Applied(Seeded(k) + [row], Some(row));
    assert ResolveWriteAgency(None, Some(AgencyA)) == Some(AgencyA);
  }

  /** An organisation without an `agencies` row cannot create clients: the foreign key fails
      and the action reports the generic failure. */
  lemma ScenarioCreateWithoutAgencyRow(k: Keys, newId: string)
    requires newId !in {k.a1, k.a2, k.b1}
    ensures var p := ClientPayload(None, "new-client-test", "New Test Client", "123456789", None, None);
      WithRLSOutcome(Seeded(k), Agencies(), Session(Some("user_c_clerk_id"), Some("org_c")), None, CreateOp(p, newId), NoFault)
        == Effect(Seeded(k), Failure(CreateFailedMessage))
  {
    var p := ClientPayload(None, "new-client-test", "New Test Client", "123456789", None, None);
    var row := StampRow(p, "org_c", newId);
    assert !IdTaken(Seeded(k), newId, 3);
    assert !IdentifierTaken(Seeded(k), "new-client-test", 3);
    assert Insert(Seeded(k), Agencies(), Some("org_c"), row) == Raised(ForeignKeyViolation);
    assert ResolveWriteAgency(None, Some("org_c")) == Some("org_c");
  }

  /** A's update and delete aimed at B1, or at a well-formed id no row has, report the miss and
      change nothing. */
  lemma ScenarioOtherTenantIsUnreachable(k: Keys)
    requires WellKeyed(k)
    ensures WithRLSOutcome(Seeded(k), Agencies(), Session(Some(UserA), Some(AgencyA)), None, UpdateOp(k.b1, RenameOnly), NoFault)
      == Effect(Seeded(k), Failure(UpdateMissMessage))
    ensures WithRLSOutcome(Seeded(k), Agencies(), Session(Some(UserA), Some(AgencyA)), None, UpdateOp(k.absent, RenameOnly), NoFault)
      == Effect(Seeded(k), Failure(UpdateMissMessage))
    ensures WithRLSOutcome(Seeded(k), Agencies(), Session(Some(UserA), Some(AgencyA)), None, DeleteOp(k.b1), NoFault)
      == Effect(Seeded(k), Failure(DeleteMissMessage))
    ensures WithRLSOutcome(Seeded(k), Agencies(), Session(Some(UserA), Some(AgencyA)), None, DeleteOp(k.absent), NoFault)
      == Effect(Seeded(k), Failure(DeleteMissMessage))
  {
    var sa := Session(Some(UserA), Some(AgencyA));
    SeededLookups(k);
    WriteRunsUnderResolvedAgency(Seeded(k), Agencies(), sa, None, UpdateOp(k.b1, RenameOnly), NoFault, AgencyA);
    WriteRunsUnderResolvedAgency(Seeded(k), Agencies(), sa, None, UpdateOp(k.absent, RenameOnly), NoFault, AgencyA);
    WriteRunsUnderResolvedAgency(Seeded(k), Agencies(), sa, None, DeleteOp(k.b1), NoFault, AgencyA);
    WriteRunsUnderResolvedAgency(Seeded(k), Agencies(), sa, None, DeleteOp(k.absent), NoFault, AgencyA);
  }

  /** The suite's "non-existent-uuid" is not uuid text: PostgreSQL rejects it before looking at
      any row, and the actions report their generic failures. */
  lemma ScenarioMalformedIdFails(k: Keys)
    ensures WithRLSOutcome(Seeded(k), Agencies(), Session(Some(UserA), Some(AgencyA)), None, UpdateOp("non-existent-uuid", RenameOnly), NoFault)
      == Effect(Seeded(k), Failure(UpdateFailedMessage))
    ensures WithRLSOutcome(Seeded(k), Agencies(), Session(Some(UserA), Some(AgencyA)), None, DeleteOp("non-existent-uuid"), NoFault)
      == Effect(Seeded(k), Failure(DeleteFailedMessage))
  {
    BadFirstCharIsNotUuid("non-existent-uuid");
  }

  /** B's update and delete aimed at A1 report the miss and change nothing. */
  lemma ScenarioOtherTenantIsUnreachableForB(k: Keys)
    requires WellKeyed(k)
    ensures WithRLSOutcome(Seeded(k), Agencies(), Session(Some(UserB), Some(AgencyB)), None, UpdateOp(k.a1, RenameOnly), NoFault)
      == Effect(Seeded(k), Failure(UpdateMissMessage))
    ensures WithRLSOutcome(Seeded(k), Agencies(), Session(Some(UserB), Some(AgencyB)), None, DeleteOp(k.a1), NoFault)
      == Effect(Seeded(k), Failure(DeleteMissMessage))
  {
    var sb := Session(Some(UserB), Some(AgencyB));
    SeededLookups(k);
    WriteRunsUnderResolvedAgency(Seeded(k), Agencies(), sb, None, UpdateOp(k.a1, RenameOnly), NoFault, AgencyB);
    WriteRunsUnderResolvedAgency(Seeded(k), Agencies(), sb, None, DeleteOp(k.a1), NoFault, AgencyB);
  }

  /** A renames its own A1 in place. */
  lemma ScenarioOwnUpdate(k: Keys)
    requires WellKeyed(k)
    ensures WithRLSOutcome(Seeded(k), Agencies(), Session(Some(UserA), Some(AgencyA)), None, UpdateOp(k.a1, RenameOnly), NoFault)
      == Effect([A1(k).(clientName := "Updated Client Name"), A2(k), B1(k)],
                Success("Updated Client Name" + " updated successfully.", OneClient(A1(k).(clientName := "Updated Client Name"))))
  {
    var rows, u := Seeded(k), A1(k).(clientName := "Updated Client Name");
    SeededLookups(k);
    WriteRunsUnderResolvedAgency(rows, Agencies(), Session(Some(UserA), Some(AgencyA)), None, UpdateOp(k.a1, RenameOnly), NoFault, AgencyA);
    assert !IdTaken(rows, k.a1, 0) && !IdentifierTaken(rows, "client-a1", 0) by {
      forall j | 0 <= j < 3 && j != 0 ensures rows[j].id != k.a1 && rows[j].clientIdentifier != "client-a1" {
        assert rows[j] == if j == 1 then A2(k) else B1(k);
      }
    }
    assert ApplyPatch(A1(k), RenameOnly) == u;
    assert rows[0 := u] == [u, A2(k), B1(k)];
  }

  /** A deletes its own A2; the message names it. */
  lemma ScenarioOwnDelete(k: Keys)
    requires WellKeyed(k)
    ensures WithRLSOutcome(Seeded(k), Agencies(), Session(Some(UserA), Some(AgencyA)), None, DeleteOp(k.a2), NoFault)
      == Effect([A1(k), B1(k)], Success("Client '" + "Client A2" + "' deleted successfully.", NoData))
  {
    var rows := Seeded(k);
    SeededLookups(k);
    WriteRunsUnderResolvedAgency(rows, Agencies(), Session(Some(UserA), Some(AgencyA)), None, DeleteOp(k.a2), NoFault, AgencyA);
    assert rows[..1] + rows[2..] == [A1(k), B1(k)];
  }

  /** With sessions that carry no organisation, as the suite's mocked `auth()` returns them,
      the read succeeds with no clients and a create fails closed. */
  lemma ScenarioWithoutOrganisation(k: Keys, p: ClientPayload, newId: string)
    ensures WithRLSReadOutcome(Seeded(k), Agencies(), Session(Some(UserA), None), ListWork, NoFault)
      == Effect(Seeded(k), Success(ListedMessage, ClientList([])))
    ensures WithRLSOutcome(Seeded(k), Agencies(), Session(Some(UserA), None), None, CreateOp(p, newId), NoFault)
      == Effect(Seeded(k), Failure(NoAgencyMessage))
  {
    ReadWithoutOrganisationIsEmpty(Seeded(k), Agencies(), Session(Some(UserA), None));
  }
}
