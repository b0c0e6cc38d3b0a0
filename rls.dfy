/** The scope executor: refuse an empty agency id, open a transaction, make the agency id the
    transaction's `app.current_agency_id`, run the unit of work on the transaction handle, and
    return its result. The setting is transaction-local, so it ends with the transaction. */
module Rls {
  import opened Common
  import opened RowSecurity
  import opened AgencyClientsSchema
  import opened Store
  import opened AgencyClientOps

  /** Failures of the database driver, which no code shown here controls: the transaction
      cannot be opened, or COMMIT fails (the transaction is then rolled back). */
  datatype Fault = NoFault | OpenFails(message: string) | CommitFails(message: string)

  /** A call that returned a value or threw an `Error` with a message. */
  datatype Thrown<T> = Returned(value: T) | Threw(message: string)

  /** The table after one executor call, and what the call returned or threw. */
  datatype Executed = Executed(table: seq<ClientRow>, outcome: Thrown<ActionState<ClientData>>)

  const GuardMessage := "executeWithAgencyContext requires a valid agencyId."

  /** What one call of the executor does to the table and what it yields, on a database whose
      `agencies` table holds `agencies`. */
  function Execute(rows: seq<ClientRow>, agencies: set<string>, agencyId: string, w: Work, fault: Fault): Executed {
    if agencyId == "" then Executed(rows, Threw(GuardMessage))
    else if fault.OpenFails? then Executed(rows, Threw(fault.message))
    else
      var e := Perform(w, rows, agencies, Some(agencyId));
      if fault.CommitFails? then Executed(rows, Threw(fault.message))
      else Executed(e.table, Returned(e.result))
  }

  /** `executeWithAgencyContext(agencyId, operation)`. */
  method ExecuteWithAgencyContext(db: Database, agencyId: string, w: Work, fault: Fault) returns (out: Thrown<ActionState<ClientData>>)
    requires db.Valid() && !db.inTransaction
    modifies db
    ensures db.Valid() && !db.inTransaction && db.setting == None
    ensures Executed(db.clients, out) == Execute(old(db.clients), db.agencies, agencyId, w, fault)
    // An empty id is refused before anything reaches the database.
    ensures agencyId == "" ==> out == Threw(GuardMessage) && db.log == old(db.log)
    ensures agencyId != "" && fault.OpenFails? ==> db.log == old(db.log)
    // Otherwise the scope is set first, to exactly `agencyId`, the work's statement runs under
    // it, and the transaction ends.
    ensures agencyId != "" && !fault.OpenFails? ==>
      db.log == old(db.log) + [Begin, SetScope(agencyId), Statement(Some(agencyId)),
                               if fault.CommitFails? then Rollback else Commit]
    // A throw leaves the table as it was.
    ensures out.Threw? ==> db.clients == old(db.clients)
  {
    if agencyId == "" {
      return Threw(GuardMessage);
    }
    if fault.OpenFails? {
      return Threw(fault.message);
    }
    db.BeginTransaction();
    db.SetCurrentAgencyId(agencyId);
    var result := RunWork(db, w);
    if fault.CommitFails? {
      db.RollbackTransaction();
      out := Threw(fault.message);
    } else {
      db.CommitTransaction();
      out := Returned(result);
    }
  }

  /** A call either returns the work's own result with the work's own effect on the table, or
      throws and leaves the table as it was; only a non-empty id ever reaches the work. */
  lemma ExecuteIsAtomic(rows: seq<ClientRow>, agencies: set<string>, agencyId: string, w: Work, fault: Fault)
    ensures var x := Execute(rows, agencies, agencyId, w, fault);
      && (x.outcome.Threw? ==> x.table == rows)
      && (x.outcome.Returned? ==>
            agencyId != "" && fault == NoFault
            && Effect(x.table, x.outcome.value) == Perform(w, rows, agencies, Some(agencyId)))
  {
  }
}
