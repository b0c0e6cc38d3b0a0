/** One database connection seen by the scope executor: the `agency_clients` rows, the
    transaction state, and the transaction-local setting `app.current_agency_id`.
    Each method is one statement sent over the connection; the ghost `log` records them in order. */
module Store {
  import opened Common
  import opened RowSecurity
  import opened UuidSyntax
  import opened AgencyClientsSchema

  /** What the connection executed, in order. `Statement(s)` is a statement on the
      tenant-owned table, run while the setting read `s`. */
  datatype TxEvent = Begin | SetScope(agencyId: string) | Statement(setting: Setting) | Commit | Rollback

  class Database {
    /** The table as this connection sees it, its own uncommitted writes included. */
    var clients: seq<ClientRow>
    /** The table when the open transaction began; a rollback returns to it. */
    var committed: seq<ClientRow>
    /** `current_setting('app.current_agency_id', true)`. */
    var setting: Setting
    var inTransaction: bool
    /** The ids in `agencies`, which the foreign key of `agency_clients` refers to. The
        `agencies` table is written elsewhere; no statement modelled here changes it. */
    const agencies: set<string>
    ghost var log: seq<TxEvent>

    /** Constraints hold at all times; outside a transaction no scope is set and nothing is pending. */
    ghost predicate Valid()
      reads this
    {
      && TableConstraints(clients)
      && TableConstraints(committed)
      && (!inTransaction ==> setting == None && clients == committed)
    }

    /** A connection to a database holding `rows`, with `agencyIds` in `agencies`. */
    constructor (rows: seq<ClientRow>, agencyIds: set<string>)
      requires TableConstraints(rows)
      ensures Valid() && !inTransaction
      ensures clients == rows && agencies == agencyIds && log == []
    {
      agencies := agencyIds;
      clients, committed := rows, rows;
      setting, inTransaction := None, false;
      log := [];
    }

    /** BEGIN. No scope is set yet. */
    method BeginTransaction()
      requires Valid() && !inTransaction
      modifies this
      ensures Valid() && inTransaction && setting == None
      ensures clients == old(clients) && committed == old(clients)
      ensures log == old(log) + [Begin]
    {
      committed := clients;
      inTransaction := true;
      log := log + [Begin];
    }

    /** `SELECT set_current_agency_id($1)`: sets the setting for the rest of this transaction. */
    method SetCurrentAgencyId(agencyId: string)
      requires Valid() && inTransaction
      modifies this`setting, this`log
      ensures Valid() && setting == Some(agencyId)
      ensures log == old(log) + [SetScope(agencyId)]
    {
      setting := Some(agencyId);
      log := log + [SetScope(agencyId)];
    }

    /** `tx.query.agencyClients.findMany()`: the rows the policy lets this transaction see. */
    method FindMany() returns (rows: seq<ClientRow>)
      requires Valid() && inTransaction
      modifies this`log
      ensures rows == SelectVisible(clients, setting)
      ensures forall r :: r in rows <==> r in clients && Admits(setting, r.agencyId)
      ensures log == old(log) + [Statement(setting)]
    {
      SeesExactlyTenantRows(clients, AgencyOf, setting);
      rows := SelectVisible(clients, setting);
      log := log + [Statement(setting)];
    }

    /** `tx.insert(agencyClientsTable).values(row).returning()`. */
    method InsertReturning(row: ClientRow) returns (o: Outcome<ClientRow>)
      requires Valid() && inTransaction
      modifies this`clients, this`log
      ensures Valid()
      ensures o == Insert(old(clients), agencies, setting, row)
      ensures clients == if o.Applied? then old(clients) + [row] else old(clients)
      ensures o.Applied? ==> setting == Some(row.agencyId) && row.agencyId in agencies
      ensures log == old(log) + [Statement(setting)]
    {
      o := Insert(clients, agencies, setting, row);
      if o.Applied? {
        InsertStaysInScope(clients, agencies, setting, row);
        clients := o.table;
      }
      log := log + [Statement(setting)];
    }

    /** `tx.update(agencyClientsTable).set(patch).where(eq(id, ...)).returning()`. */
    method UpdateReturning(id: string, p: ClientPatch) returns (o: Outcome<ClientRow>)
      requires Valid() && inTransaction
      modifies this`clients, this`log
      ensures Valid()
      ensures o == UpdateById(old(clients), setting, id, p)
      ensures clients == if o.Applied? then o.table else old(clients)
      ensures |clients| == |old(clients)|
      ensures forall k :: 0 <= k < |clients| && !Admits(setting, old(clients)[k].agencyId) ==> clients[k] == old(clients)[k]
      ensures log == old(log) + [Statement(setting)]
    {
      o := UpdateById(clients, setting, id, p);
      if o.Applied? {
        UpdateChangesOnlyTarget(clients, setting, id, p);
        clients := o.table;
      }
      log := log + [Statement(setting)];
    }

    /** `tx.delete(agencyClientsTable).where(eq(id, ...)).returning(...)`. */
    method DeleteReturning(id: string) returns (o: Outcome<ClientRow>)
      requires Valid() && inTransaction
      modifies this`clients, this`log
      ensures Valid()
      ensures o == DeleteById(old(clients), setting, id)
      ensures o.Raised? <==> !IsUuid(id)
      ensures clients == if o.Applied? then o.table else old(clients)
      ensures o.Applied? && o.returning.Some? ==>
        o.returning.value.id == id && Admits(setting, o.returning.value.agencyId)
        && multiset(clients) + multiset{o.returning.value} == multiset(old(clients))
      ensures o.Applied? && o.returning.None? ==> clients == old(clients)
      ensures log == old(log) + [Statement(setting)]
    {
      DeleteRemovesExactlyTarget(clients, setting, id);
      o := DeleteById(clients, setting, id);
      if o.Applied? {
        clients := o.table;
      }
      log := log + [Statement(setting)];
    }

    /** COMMIT: the transaction's writes become the table and its setting is discarded. */
    method CommitTransaction()
      requires Valid() && inTransaction
      modifies this
      ensures Valid() && !inTransaction && setting == None
      ensures clients == old(clients)
      ensures log == old(log) + [Commit]
    {
      committed := clients;
      setting, inTransaction := None, false;
      log := log + [Commit];
    }

    /** ROLLBACK: the transaction's writes and its setting are discarded. */
    method RollbackTransaction()
      requires Valid() && inTransaction
      modifies this
      ensures Valid() && !inTransaction && setting == None
      ensures clients == old(committed)
      ensures log == old(log) + [Rollback]
    {
      clients := committed;
      setting, inTransaction := None, false;
      log := log + [Rollback];
    }
  }
}
