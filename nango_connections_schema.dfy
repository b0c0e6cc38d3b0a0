/** The `nango_connections` table: its columns, constraints and isolation policy, with the
    statements the policy governs (SELECT, INSERT, UPDATE ... WHERE id = ...). */
module NangoConnectionsSchema {
  import opened Common
  import opened RowSecurity
  import opened UuidSyntax

  /** pgEnum `nango_connection_status`. */
  datatype ConnectionStatus = Pending | Active | Error | Revoked

  /** Column default of `status`. */
  const DefaultConnectionStatus: ConnectionStatus := Pending

  function ConnectionStatusLabel(s: ConnectionStatus): string {
    match s
    case Pending => "pending"
    case Active => "active"
    case Error => "error"
    case Revoked => "revoked"
  }

  /** Reading a text value into the enum: only the four labels are accepted. */
  function ParseConnectionStatus(t: string): (r: Option<ConnectionStatus>)
    ensures r.Some? <==> t in {"pending", "active", "error", "revoked"}
    ensures r.Some? ==> ConnectionStatusLabel(r.value) == t
  {
    if t == "pending" then Some(Pending)
    else if t == "active" then Some(Active)
    else if t == "error" then Some(Error)
    else if t == "revoked" then Some(Revoked)
    else None
  }

  /** One row. `agency_id`, `user_id` and `provider_config_key` are non-null; `name`,
      `nango_connection_id` and `error_message` are nullable. Timestamps are not modelled. */
  datatype ConnectionRow = ConnectionRow(
    id: string,
    agencyId: string,
    userId: string,
    name: Option<string>,
    nangoConnectionId: Option<string>,
    providerConfigKey: string,
    status: ConnectionStatus,
    errorMessage: Option<string>)

  function AgencyOf(r: ConnectionRow): string { r.agencyId }

  /** The values an insert supplies; `status` may be left to its default. */
  datatype ConnectionPayload = ConnectionPayload(
    agencyId: string,
    userId: string,
    name: Option<string>,
    nangoConnectionId: Option<string>,
    providerConfigKey: string,
    status: Option<ConnectionStatus>,
    errorMessage: Option<string>)

  /** The row an insert of `p` creates, with generated key `id`. */
  function NewConnectionRow(p: ConnectionPayload, id: string): (r: ConnectionRow)
    ensures p.status.None? ==> r.status == Pending
    ensures r.agencyId == p.agencyId && r.nangoConnectionId == p.nangoConnectionId
  {
    ConnectionRow(id, p.agencyId, p.userId, p.name, p.nangoConnectionId, p.providerConfigKey,
                  p.status.GetOr(DefaultConnectionStatus), p.errorMessage)
  }

  /** Two present connection ids collide; NULLs never do (UNIQUE treats NULLs as distinct). */
  predicate Collide(a: Option<string>, b: Option<string>) {
    a.Some? && b.Some? && a.value == b.value
  }

  /** Primary key on `id`; UNIQUE on `nango_connection_id`. */
  predicate TableConstraints(rows: seq<ConnectionRow>) {
    forall i, j | 0 <= i < j < |rows| ::
      rows[i].id != rows[j].id && !Collide(rows[i].nangoConnectionId, rows[j].nangoConnectionId)
  }

  /** Whether a row other than the one at `except` conflicts with `row` on a unique column
      (`except == |rows|` excludes none). */
  predicate Conflicts(rows: seq<ConnectionRow>, row: ConnectionRow, except: nat) {
    exists k :: 0 <= k < |rows| && k != except &&
      (rows[k].id == row.id || Collide(rows[k].nangoConnectionId, row.nangoConnectionId))
  }

  /** SELECT * FROM nango_connections under `setting`. */
  function SelectVisible(rows: seq<ConnectionRow>, setting: Setting): seq<ConnectionRow> {
    Filter(rows, AgencyOf, setting)
  }

  /** INSERT under `setting`: the policy checks the new row, then the unique indexes, then the
      foreign keys `agency_id -> agencies.id` and `user_id -> profiles.user_id`, against the ids
      present in `agencies` and `profiles`. */
  function Insert(rows: seq<ConnectionRow>, agencies: set<string>, profiles: set<string>, setting: Setting, row: ConnectionRow): Outcome<ConnectionRow> {
    if !Admits(setting, row.agencyId) then Raised(PolicyViolation)
    else if Conflicts(rows, row, |rows|) then Raised(UniqueViolation)
    else if row.agencyId !in agencies || row.userId !in profiles then Raised(ForeignKeyViolation)
    else Applied(rows + [row], Some(row))
  }

  function IdOf(r: ConnectionRow): string { r.id }

  /** The index of the first row with this `id` that the policy lets the statement see. */
  function FindVisible(rows: seq<ConnectionRow>, setting: Setting, id: string): Option<nat> {
    FirstVisible(rows, IdOf, AgencyOf, setting, id)
  }

  /** UPDATE nango_connections SET status, error_message WHERE id = `id` RETURNING * under
      `setting`. No statement of this kind appears among the modelled files; it stands for the
      policy's UPDATE case on this table, as any later status change would meet it. */
  function SetStatus(rows: seq<ConnectionRow>, setting: Setting, id: string, status: ConnectionStatus, msg: Option<string>): Outcome<ConnectionRow> {
    if !IsUuid(id) then Raised(InvalidTextRepresentation)
    else
      match FindVisible(rows, setting, id)
      case None => Applied(rows, None)
      case Some(i) =>
        var updated := rows[i].(status := status, errorMessage := msg);
        if !Admits(setting, updated.agencyId) then Raised(PolicyViolation)
        else Applied(rows[i := updated], Some(updated))
  }

  // ----- What the policy and the constraints guarantee -----

  /** An insert applies exactly when the row belongs to the scope's agency, collides with no
      existing row and names an existing agency and profile; it then keeps the constraints and
      leaves other agencies' views alone. */
  lemma InsertGuardedByPolicy(rows: seq<ConnectionRow>, agencies: set<string>, profiles: set<string>, setting: Setting, row: ConnectionRow, b: string)
    requires TableConstraints(rows)
    ensures Insert(rows, agencies, profiles, setting, row).Applied? <==>
      Admits(setting, row.agencyId) && !Conflicts(rows, row, |rows|) && row.agencyId in agencies && row.userId in profiles
    ensures Insert(rows, agencies, profiles, setting, row).Applied? ==>
      && TableConstraints(Insert(rows, agencies, profiles, setting, row).table)
      && (Some(b) != setting ==> SelectVisible(Insert(rows, agencies, profiles, setting, row).table, Some(b)) == SelectVisible(rows, Some(b)))
  {
    if Insert(rows, agencies, profiles, setting, row).Applied? {
      var t := rows + [row];
      forall i, j | 0 <= i < j < |t|
        ensures t[i].id != t[j].id && !Collide(t[i].nangoConnectionId, t[j].nangoConnectionId)
      {
        if j == |rows| {
          assert t[i] == rows[i];
        }
      }
      FilterAppend(rows, [row], AgencyOf, Some(b));
      assert [row][1..] == [];
    }
  }

  /** Any number of connections without a Nango id can coexist: a row whose connection id is
      NULL only conflicts on the primary key. */
  lemma {:induction false} NullConnectionIdNeverCollides(rows: seq<ConnectionRow>, row: ConnectionRow)
    requires row.nangoConnectionId.None?
    ensures Conflicts(rows, row, |rows|) <==> exists k :: 0 <= k < |rows| && rows[k].id == row.id
  {
    if Conflicts(rows, row, |rows|) {
      var k :| 0 <= k < |rows| && k != |rows| &&
        (rows[k].id == row.id || Collide(rows[k].nangoConnectionId, row.nangoConnectionId));
      assert rows[k].id == row.id;
    }
  }

  /** A status update under agency `a` by a malformed id fails; otherwise it reaches only a row
      of `a` with that id, and every other row, and so every other agency's view, is unchanged. */
  lemma SetStatusIsolated(rows: seq<ConnectionRow>, a: string, b: string, id: string, status: ConnectionStatus, msg: Option<string>)
    requires a != b
    ensures var o := SetStatus(rows, Some(a), id, status, msg);
      && (o.Raised? <==> !IsUuid(id))
      && (o.Applied? ==>
            && |o.table| == |rows|
            && (forall k :: 0 <= k < |rows| && !(rows[k].id == id && rows[k].agencyId == a) ==> o.table[k] == rows[k])
            && SelectVisible(o.table, Some(b)) == SelectVisible(rows, Some(b)))
  {
    if IsUuid(id) {
      match FindVisible(rows, Some(a), id)
      case None =>
      case Some(i) =>
        var updated := rows[i].(status := status, errorMessage := msg);
        FilterIgnoresHidden(rows[i := updated], rows, AgencyOf, Some(b));
    }
  }
}
