/** The `agency_clients` table: its columns, its constraints, its isolation policy and how
    SELECT, INSERT ... RETURNING, UPDATE ... WHERE id = ... RETURNING and
    DELETE ... WHERE id = ... RETURNING behave on it once the policy applies. */
module AgencyClientsSchema {
  import opened Common
  import opened RowSecurity
  import opened UuidSyntax

  /** pgEnum `credential_status`. */
  datatype CredentialStatus = Pending | Uploaded | Validated | Error

  /** Column default of `credential_status`. */
  const DefaultCredentialStatus: CredentialStatus := Pending

  function CredentialStatusLabel(s: CredentialStatus): string {
    match s
    case Pending => "pending"
    case Uploaded => "uploaded"
    case Validated => "validated"
    case Error => "error"
  }

  /** Reading a text value into the enum: only the four labels are accepted. */
  function ParseCredentialStatus(t: string): (r: Option<CredentialStatus>)
    ensures r.Some? <==> t in {"pending", "uploaded", "validated", "error"}
    ensures r.Some? ==> CredentialStatusLabel(r.value) == t
  {
    if t == "pending" then Some(Pending)
    else if t == "uploaded" then Some(Uploaded)
    else if t == "validated" then Some(Validated)
    else if t == "error" then Some(Error)
    else None
  }

  lemma CredentialStatusRoundTrip(s: CredentialStatus)
    ensures ParseCredentialStatus(CredentialStatusLabel(s)) == Some(s)
  {
  }

  /** One row. Non-null text columns are plain strings; `credential_reference` is nullable.
      `id` is the text form of the row's uuid as the database stores it. Timestamps are not
      modelled. */
  datatype ClientRow = ClientRow(
    id: string,
    agencyId: string,
    clientIdentifier: string,
    clientName: string,
    ga4PropertyId: string,
    credentialReference: Option<string>,
    credentialStatus: CredentialStatus)

  function AgencyOf(r: ClientRow): string { r.agencyId }

  /** `id` is the primary key and `client_identifier` is UNIQUE over the whole table,
      whatever agency owns the rows. */
  predicate TableConstraints(rows: seq<ClientRow>) {
    forall i, j | 0 <= i < j < |rows| ::
      rows[i].id != rows[j].id && rows[i].clientIdentifier != rows[j].clientIdentifier
  }

  /** A partial update: None leaves a column as it is. The parameter type leaves out `id` and
      `agencyId`, but the object is spread into the statement as it arrives at run time, so a
      caller can still smuggle either key in. */
  datatype ClientPatch = ClientPatch(
    id: Option<string>,
    agencyId: Option<string>,
    clientIdentifier: Option<string>,
    clientName: Option<string>,
    ga4PropertyId: Option<string>,
    credentialReference: Option<Option<string>>,
    credentialStatus: Option<CredentialStatus>)

  /** SELECT * FROM agency_clients under `setting`. */
  function SelectVisible(rows: seq<ClientRow>, setting: Setting): seq<ClientRow> {
    Filter(rows, AgencyOf, setting)
  }

  /** The patch that names no column. */
  const NoChange := ClientPatch(None, None, None, None, None, None, None)

  /** Whether a row other than the one at `except` already has the key `id`
      (`except == |rows|` excludes none). */
  predicate IdTaken(rows: seq<ClientRow>, id: string, except: nat) {
    exists k :: 0 <= k < |rows| && k != except && rows[k].id == id
  }

  /** Whether a row other than the one at `except` already uses `ident`
      (`except == |rows|` excludes none). The unique index sees rows the policy hides. */
  predicate IdentifierTaken(rows: seq<ClientRow>, ident: string, except: nat) {
    exists k :: 0 <= k < |rows| && k != except && rows[k].clientIdentifier == ident
  }

  /** INSERT under `setting`, with `agencies` the ids present in `agencies`. A `for: "all"`
      policy with only USING also checks new rows, before the unique indexes are consulted; the
      foreign key `agency_id -> agencies.id` is checked last, once the row is in. The key `id` is
      generated by the database and is a valid uuid. */
  function Insert(rows: seq<ClientRow>, agencies: set<string>, setting: Setting, row: ClientRow): Outcome<ClientRow> {
    if !Admits(setting, row.agencyId) then Raised(PolicyViolation)
    else if IdTaken(rows, row.id, |rows|) || IdentifierTaken(rows, row.clientIdentifier, |rows|) then Raised(UniqueViolation)
    else if row.agencyId !in agencies then Raised(ForeignKeyViolation)
    else Applied(rows + [row], Some(row))
  }

  function IdOf(r: ClientRow): string { r.id }

  /** The index of the first row with this `id` that the policy lets the statement see. */
  function FindVisible(rows: seq<ClientRow>, setting: Setting, id: string): Option<nat> {
    FirstVisible(rows, IdOf, AgencyOf, setting, id)
  }

  /** `.set({...patch})`: every column the patch names takes the new value. A patch that names
      neither key keeps the row's identity and owner. */
  function ApplyPatch(row: ClientRow, p: ClientPatch): (r: ClientRow)
    ensures p.id.None? && p.agencyId.None? ==> r.id == row.id && r.agencyId == row.agencyId
    ensures p == NoChange ==> r == row
  {
    ClientRow(
      p.id.GetOr(row.id),
      p.agencyId.GetOr(row.agencyId),
      p.clientIdentifier.GetOr(row.clientIdentifier),
      p.clientName.GetOr(row.clientName),
      p.ga4PropertyId.GetOr(row.ga4PropertyId),
      p.credentialReference.GetOr(row.credentialReference),
      p.credentialStatus.GetOr(row.credentialStatus))
  }

  /** The uuid values an UPDATE binds, the `WHERE id = ...` operand and a smuggled new key,
      are valid uuid text. */
  predicate UpdateIdsParse(id: string, p: ClientPatch) {
    IsUuid(id) && (p.id.Some? ==> IsUuid(p.id.value))
  }

  /** UPDATE agency_clients SET ... WHERE id = `id` RETURNING * under `setting`.
      A uuid value that does not parse fails the statement before any row is read. A row the
      policy hides is not matched; the new row is checked against the policy and then against
      the primary key and the unique index. The policy keeps `agency_id` as it was, so the
      foreign key, which PostgreSQL re-checks only when the column changes, never fires here. */
  function UpdateById(rows: seq<ClientRow>, setting: Setting, id: string, p: ClientPatch): Outcome<ClientRow> {
    if !UpdateIdsParse(id, p) then Raised(InvalidTextRepresentation)
    else
      match FindVisible(rows, setting, id)
      case None => Applied(rows, None)
      case Some(i) =>
        var updated := ApplyPatch(rows[i], p);
        if !Admits(setting, updated.agencyId) then Raised(PolicyViolation)
        else if IdTaken(rows, updated.id, i) || IdentifierTaken(rows, updated.clientIdentifier, i) then Raised(UniqueViolation)
        else Applied(rows[i := updated], Some(updated))
  }

  /** DELETE FROM agency_clients WHERE id = `id` RETURNING ... under `setting`. */
  function DeleteById(rows: seq<ClientRow>, setting: Setting, id: string): Outcome<ClientRow> {
    if !IsUuid(id) then Raised(InvalidTextRepresentation)
    else
      match FindVisible(rows, setting, id)
      case None => Applied(rows, None)
      case Some(i) => Applied(rows[..i] + rows[i + 1..], Some(rows[i]))
  }

  // ----- What the policy and the constraints guarantee -----

  /** An insert that applies adds one row of the scope's own agency, one that exists in
      `agencies`, at the end, and keeps both constraints. */
  lemma InsertStaysInScope(rows: seq<ClientRow>, agencies: set<string>, setting: Setting, row: ClientRow)
    requires TableConstraints(rows)
    requires Insert(rows, agencies, setting, row).Applied?
    ensures setting == Some(row.agencyId) && row.agencyId in agencies
    ensures Insert(rows, agencies, setting, row).table == rows + [row]
    ensures TableConstraints(Insert(rows, agencies, setting, row).table)
  {
    var t := rows + [row];
    forall i, j | 0 <= i < j < |t|
      ensures t[i].id != t[j].id && t[i].clientIdentifier != t[j].clientIdentifier
    {
      if j == |rows| {
        assert !IdTaken(rows, row.id, |rows|) && !IdentifierTaken(rows, row.clientIdentifier, |rows|);
        assert rows[i] == t[i];
      }
    }
  }

  /** Whatever the agency, an identifier already in the table makes the insert fail. */
  lemma {:induction false} IdentifierUniqueAcrossAgencies(rows: seq<ClientRow>, agencies: set<string>, setting: Setting, row: ClientRow, k: nat)
    requires k < |rows| && rows[k].clientIdentifier == row.clientIdentifier
    ensures Insert(rows, agencies, setting, row).Raised?
    ensures Admits(setting, row.agencyId) ==> Insert(rows, agencies, setting, row) == Raised(UniqueViolation)
  {
    assert IdentifierTaken(rows, row.clientIdentifier, |rows|);
  }

  /** An insert for an agency with no `agencies` row fails on the foreign key, once the policy
      and the unique indexes have let it through. */
  lemma InsertNeedsAgencyRow(rows: seq<ClientRow>, agencies: set<string>, setting: Setting, row: ClientRow)
    requires Admits(setting, row.agencyId) && row.agencyId !in agencies
    requires !IdTaken(rows, row.id, |rows|) && !IdentifierTaken(rows, row.clientIdentifier, |rows|)
    ensures Insert(rows, agencies, setting, row) == Raised(ForeignKeyViolation)
    ensures Insert(rows, agencies, setting, row).error.Code() == "23503"
  {
  }

  /** A uuid operand that does not parse fails UPDATE and DELETE, whatever the table holds;
      with operands that parse, neither statement ever raises that error. */
  lemma MalformedIdFailsFirst(rows: seq<ClientRow>, setting: Setting, id: string, p: ClientPatch)
    ensures UpdateById(rows, setting, id, p) == Raised(InvalidTextRepresentation) <==> !UpdateIdsParse(id, p)
    ensures DeleteById(rows, setting, id) == Raised(InvalidTextRepresentation) <==> !IsUuid(id)
    ensures !IsUuid(id) ==> UpdateById(rows, setting, id, p).error.Code() == "22P02"
  {
  }

  /** An update that applies changes only the matched row, in place, keeps its agency, and
      keeps both constraints; the new row is the patched row. */
  lemma UpdateChangesOnlyTarget(rows: seq<ClientRow>, setting: Setting, id: string, p: ClientPatch)
    requires TableConstraints(rows)
    requires UpdateById(rows, setting, id, p).Applied?
    ensures var o := UpdateById(rows, setting, id, p);
      && |o.table| == |rows|
      && TableConstraints(o.table)
      && (forall k :: 0 <= k < |rows| && !(rows[k].id == id && Admits(setting, rows[k].agencyId)) ==> o.table[k] == rows[k])
      && (o.returning.Some? ==>
            exists i :: 0 <= i < |rows| && rows[i].id == id && Admits(setting, rows[i].agencyId)
                        && o.table[i] == o.returning.value == ApplyPatch(rows[i], p)
                        && o.returning.value.agencyId == rows[i].agencyId)
      && (o.returning.None? ==> o.table == rows)
  {
    match FindVisible(rows, setting, id)
    case None =>
    case Some(i) =>
      var updated := ApplyPatch(rows[i], p);
      var t := rows[i := updated];
      assert !IdTaken(rows, updated.id, i) && !IdentifierTaken(rows, updated.clientIdentifier, i);
      forall a, b | 0 <= a < b < |t|
        ensures t[a].id != t[b].id && t[a].clientIdentifier != t[b].clientIdentifier
      {
        if a == i {
          assert rows[b].id != updated.id && rows[b].clientIdentifier != updated.clientIdentifier;
        } else if b == i {
          assert rows[a].id != updated.id && rows[a].clientIdentifier != updated.clientIdentifier;
        }
      }
      forall k | 0 <= k < |rows| && !(rows[k].id == id && Admits(setting, rows[k].agencyId))
        ensures t[k] == rows[k]
      {
      }
  }

  /** An update or delete by a well-formed id that no visible row has (another agency's row,
      or no row at all) matches nothing and changes nothing. */
  lemma UpdateMissIsNoop(rows: seq<ClientRow>, a: string, id: string, p: ClientPatch)
    requires IsUuid(id)
    requires forall k :: 0 <= k < |rows| && rows[k].id == id ==> rows[k].agencyId != a
    ensures UpdateIdsParse(id, p) ==> UpdateById(rows, Some(a), id, p) == Applied(rows, None)
    ensures DeleteById(rows, Some(a), id) == Applied(rows, None)
  {
  }

  /** Removing the element at `i`: the rest shift down by one and the multiset loses one copy. */
  lemma RemoveAt(rows: seq<ClientRow>, i: nat)
    requires i < |rows|
    ensures var t := rows[..i] + rows[i + 1..];
      && |t| == |rows| - 1
      && (forall k :: 0 <= k < |t| ==> t[k] == rows[if k < i then k else k + 1])
      && multiset(t) + multiset{rows[i]} == multiset(rows)
  {
    assert rows == rows[..i] + [rows[i]] + rows[i + 1..];
  }

  /** A delete by a malformed id fails; otherwise it removes exactly the matched row and keeps
      the constraints, and afterwards no row with that id remains. */
  lemma DeleteRemovesExactlyTarget(rows: seq<ClientRow>, setting: Setting, id: string)
    requires TableConstraints(rows)
    ensures var o := DeleteById(rows, setting, id);
      && (o.Raised? <==> !IsUuid(id))
      && (o.Applied? ==>
            && TableConstraints(o.table)
            && (o.returning.None? ==> o.table == rows)
            && (o.returning.Some? ==>
                  && o.returning.value.id == id && Admits(setting, o.returning.value.agencyId)
                  && |o.table| == |rows| - 1
                  && multiset(o.table) + multiset{o.returning.value} == multiset(rows)
                  && forall k :: 0 <= k < |o.table| ==> o.table[k].id != id))
  {
    if IsUuid(id) {
      match FindVisible(rows, setting, id)
      case None =>
      case Some(i) =>
        assert rows[i].id == id && Admits(setting, rows[i].agencyId);
        var t := rows[..i] + rows[i + 1..];
        assert DeleteById(rows, setting, id) == Applied(t, Some(rows[i]));
        RemoveAt(rows, i);
        forall a, b | 0 <= a < b < |t|
          ensures t[a].id != t[b].id && t[a].clientIdentifier != t[b].clientIdentifier
        {
          assert t[a] == rows[if a < i then a else a + 1];
          assert t[b] == rows[if b < i then b else b + 1];
        }
        forall k | 0 <= k < |t| ensures t[k].id != id {
          assert t[k] == rows[if k < i then k else k + 1];
        }
    }
  }

  /** Isolation: no statement run under agency `a` changes what any other agency `b` sees,
      whatever the patch smuggles in. */
  lemma WritesInvisibleToOtherAgencies(rows: seq<ClientRow>, agencies: set<string>, a: string, b: string, row: ClientRow, id: string, p: ClientPatch)
    requires a != b
    ensures Insert(rows, agencies, Some(a), row).Applied? ==>
      SelectVisible(Insert(rows, agencies, Some(a), row).table, Some(b)) == SelectVisible(rows, Some(b))
    ensures UpdateById(rows, Some(a), id, p).Applied? ==>
      SelectVisible(UpdateById(rows, Some(a), id, p).table, Some(b)) == SelectVisible(rows, Some(b))
    ensures DeleteById(rows, Some(a), id).Applied? ==>
      SelectVisible(DeleteById(rows, Some(a), id).table, Some(b)) == SelectVisible(rows, Some(b))
  {
    if Insert(rows, agencies, Some(a), row).Applied? {
      FilterAppend(rows, [row], AgencyOf, Some(b));
      assert [row][1..] == [];
    }
    if IsUuid(id) {
      match FindVisible(rows, Some(a), id)
      case None =>
      case Some(i) =>
        var updated := ApplyPatch(rows[i], p);
        if Admits(Some(a), updated.agencyId) {
          FilterIgnoresHidden(rows[i := updated], rows, AgencyOf, Some(b));
        }
        FilterIgnoresHiddenRemoval(rows, i, AgencyOf, Some(b));
    }
  }
}
