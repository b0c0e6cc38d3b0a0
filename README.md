# Tenant isolation of the GA4 agency portal, in Dafny

This project models the part of the agency portal that keeps one agency's data away from
every other agency, and proves that it does so.

Agencies own clients, which are rows of `agency_clients`, and Nango connections, which are rows
of `nango_connections`. Each row carries an `agency_id`. Both tables declare the row policy
`agency_id = current_setting('app.current_agency_id', true)` for all commands.

Every server action that touches these rows goes through one of two wrappers:

- `withRLS` handles writes. It resolves the agency from an explicit id, or else from the
  session's organisation, and fails closed when neither gives one.
- `withRLSRead` handles reads. When there is no organisation it falls back to a sentinel scope
  that matches no row.

Both wrappers hand the unit of work to the scope executor `executeWithAgencyContext`. The
executor refuses an empty id, opens a transaction, sets the scope as its first statement, runs
the work on the transaction handle, and commits.

The modules follow the source files:

| module | models |
|---|---|
| `Common` | the `ActionState` envelope, an `Option`, and JavaScript truthiness of an optional string |
| `UuidSyntax` | the text PostgreSQL accepts for a `uuid` value; anything else raises `invalid_text_representation` (22P02) before a row is read |
| `RowSecurity` | the policy predicate, the rows a statement sees under a setting, and the database errors with their SQLSTATE codes |
| `AgencyClientsSchema` | `agency_clients`: columns, the credential-status enum and its default, the uuid primary key, the table-wide unique `client_identifier`, the foreign key to `agencies`, and SELECT/INSERT/UPDATE/DELETE under the policy |
| `NangoConnectionsSchema` | `nango_connections`: columns, the status enum and its default, the nullable unique `nango_connection_id`, the foreign keys to `agencies` and `profiles`, and the policy |
| `Store` | one database connection as a class: the table, the ids in `agencies`, the transaction, the transaction-local setting, and a ghost log of the statements sent |
| `AgencyClientOps` | the four callbacks of the client actions, as units of work over the transaction handle |
| `Rls` | `executeWithAgencyContext` |
| `RlsHelpers` | `withRLS` and `withRLSRead`, tenant resolution, and the envelopes |
| `AgencyClientActions` | `createAgencyClientAction`, `getMyAgencyClientsAction`, `updateAgencyClientAction` and `deleteAgencyClientAction`, plus the two-agency scenario of the action tests |
| `PropertySelection` | the property-import form: the suggested identifier, sanitising and checking identifiers, the change handlers, `validateSelections`, and the import list built in `handleSubmit` |

The stateful parts are methods on `Store.Database`: the executor, the wrappers and the actions.
Each is proved against a pure function of the old table, such as `Rls.Execute`,
`RlsHelpers.WithRLSOutcome` or `AgencyClientOps.Perform`. The isolation properties are lemmas
about those functions.

The session (`auth()`) and driver failures are inputs. `Rls.Fault` stands for a transaction that
cannot be opened or a COMMIT that fails. The key the database generates for a new client is a
parameter. The ids present in `agencies` are an input too: that table is written elsewhere, and a
create for an organisation without an `agencies` row fails on the foreign key.

**Where the action tests and the code disagree (the model follows the code):**

- The tests expect the failures of update and delete to match `/not found or access denied/`
  (`actions/__tests__/db/agency-clients-actions.test.ts:193`, `:253`). The code returns
  "Client not found or update failed." and "Client not found or delete failed."
  (`actions/db/agency-clients-actions.ts:85`, `:118`). The model returns the code's messages
  (`AgencyClientActions.ScenarioOtherTenantIsUnreachable`).
- The tests' client ids ("client_a1_uuid", ...) and "non-existent-uuid"
  (`actions/__tests__/db/agency-clients-actions.test.ts:20-22`, `:203`, `:263`) are not uuid
  text, and `id` is a `uuid` column. PostgreSQL rejects such an id before it looks at any row, so
  the catch blocks answer "Failed to update client." and "Failed to delete client."
  (`AgencyClientActions.ScenarioMalformedIdFails`). The other scenario lemmas take any
  well-formed, distinct keys for the seeded clients and for the missing one
  (`AgencyClientActions.WellKeyed`), with one concrete choice shown to qualify
  (`AgencyClientActions.ExampleKeysWellKeyed`).
- The tests' sessions carry a user but no organisation
  (`actions/__tests__/db/agency-clients-actions.test.ts:73`, `:89`, `:105`, and so on). Under
  the code such a read runs under the sentinel and returns an empty list, and such a create fails
  with "Unauthorized: Cannot determine active agency/organization."
  (`AgencyClientActions.ScenarioWithoutOrganisation`). The other scenario lemmas therefore give
  the session the agency's organisation id, which is what the tests evidently mean.

## Model

| member | source | states |
|---|---|---|
| UuidSyntax.CanonicalIsUuid | db/schema/agency-clients-schema.ts:23 | the standard 36-character form, hex digits with hyphens at positions 8, 13, 18 and 23, is accepted as a `uuid` value |
| UuidSyntax.BareHexIsUuid | db/schema/agency-clients-schema.ts:23 | 32 hex digits without hyphens are accepted as a `uuid` value |
| UuidSyntax.BadFirstCharIsNotUuid | db/schema/agency-clients-schema.ts:23 | text that starts with neither a hex digit nor a brace, such as "non-existent-uuid", is rejected |
| RowSecurity.Filter | db/schema/agency-clients-schema.ts:47-50 | a statement sees only rows that are in the table and that the policy admits, and never more rows than the table holds |
| RowSecurity.FilterExact | db/schema/agency-clients-schema.ts:47-50 | a row is seen exactly when it is in the table and its agency equals the current setting (both directions) |
| RowSecurity.SeesExactlyTenantRows | db/schema/agency-clients-schema.ts:47-50 | a scoped read of either tenant-owned table returns exactly the rows of the scope's agency (both directions), and nothing without a scope |
| RowSecurity.NoScopeSeesNothing | db/schema/agency-clients-schema.ts:49 | with no `app.current_agency_id` set, the setting reads NULL and no row is visible |
| RowSecurity.NothingAdmittedSeesNothing | actions/db/rls-helpers.ts:86-89 | a scope that no row's agency equals (such as the read sentinel) sees an empty table |
| RowSecurity.FilterAppend | db/schema/agency-clients-schema.ts:47-50 | what a scope sees of two concatenated tables is what it sees of each, in order |
| RowSecurity.FilterIgnoresHidden | db/schema/agency-clients-schema.ts:47-50 | two tables that differ only in rows hidden from a scope look identical to it |
| RowSecurity.FilterIgnoresHiddenRemoval | db/schema/agency-clients-schema.ts:47-50 | removing a row hidden from a scope does not change what that scope sees |
| AgencyClientsSchema.ParseCredentialStatus | db/schema/agency-clients-schema.ts:13-18 | a text value is accepted exactly when it is one of the four labels pending/uploaded/validated/error, and then it maps to the status with that label |
| AgencyClientsSchema.CredentialStatusRoundTrip | db/schema/agency-clients-schema.ts:13-18 | every credential status reads back from its label |
| RowSecurity.FirstVisible | db/schema/agency-clients-schema.ts:47-50 | the row a `WHERE id = ...` match reaches has that id and is admitted by the policy; no row is reached exactly when no admitted row has that id (used for both tables) |
| AgencyClientsSchema.ApplyPatch | actions/db/agency-clients-actions.ts:74-79 | each column the patch names takes the new value; a patch that names neither `id` nor `agency_id` keeps the row's key and owner, and the empty patch keeps the row |
| AgencyClientsSchema.InsertStaysInScope | db/schema/agency-clients-schema.ts:23-50 | an insert applies only when the new row's agency equals the scope (the USING clause acting as WITH CHECK) and has an `agencies` row; it then appends the row and keeps the key and uniqueness constraints |
| AgencyClientsSchema.IdentifierUniqueAcrossAgencies | db/schema/agency-clients-schema.ts:28 | an insert whose client identifier is already used by any row, including a row of another agency that the policy hides, is rejected, and with a unique violation when the policy admits it |
| AgencyClientsSchema.InsertNeedsAgencyRow | db/schema/agency-clients-schema.ts:24-26 | an insert that passes the policy and the unique checks but names an agency without an `agencies` row raises the foreign-key violation 23503 |
| AgencyClientsSchema.MalformedIdFailsFirst | db/schema/agency-clients-schema.ts:23 | UPDATE and DELETE raise 22P02 exactly when the id (or a new key the patch carries) is not uuid text, whatever the table holds |
| AgencyClientsSchema.UpdateChangesOnlyTarget | db/schema/agency-clients-schema.ts:28-50 | an update that applies changes at most the one visible row with that id, to the patched row, keeps its agency, keeps the constraints, and leaves every other row as it was |
| AgencyClientsSchema.UpdateMissIsNoop | db/schema/agency-clients-schema.ts:47-50 | an UPDATE or DELETE by a well-formed id that no row of the scope's agency has matches nothing and changes nothing |
| AgencyClientsSchema.DeleteRemovesExactlyTarget | db/schema/agency-clients-schema.ts:23-50 | a DELETE fails exactly when the id is not uuid text; otherwise it removes exactly the one visible row with that id and returns it, or removes nothing; the constraints still hold and no row with that id is left |
| AgencyClientsSchema.WritesInvisibleToOtherAgencies | db/schema/agency-clients-schema.ts:47-50 | whatever insert, update or delete runs under agency `a`, whatever the patch smuggles in, every other agency `b` sees the same rows afterwards |
| NangoConnectionsSchema.ParseConnectionStatus | db/schema/nango-connections-schema.ts:13-18 | a text value is accepted exactly when it is one of pending/active/error/revoked, and maps to the status with that label |
| NangoConnectionsSchema.NewConnectionRow | db/schema/nango-connections-schema.ts:24-41 | a new connection takes the status default `pending` when none is given, and keeps the agency and Nango connection id it was given |
| NangoConnectionsSchema.InsertGuardedByPolicy | db/schema/nango-connections-schema.ts:24-56 | an insert applies exactly when the row belongs to the scope's agency, conflicts with no row on a unique column, and names an existing agency and profile; it then keeps the constraints and no other agency's view changes |
| NangoConnectionsSchema.NullConnectionIdNeverCollides | db/schema/nango-connections-schema.ts:35 | a connection without a Nango id conflicts only on the primary key, so any number of them may coexist |
| NangoConnectionsSchema.SetStatusIsolated | db/schema/nango-connections-schema.ts:50-56 | a status update under agency `a` fails exactly on a malformed id; otherwise it changes at most a row of `a` with that id, and every other row and every other agency's view stays the same |
| Store.Database.constructor | db/rls.ts:32 | a fresh connection holds the given rows and `agencies` ids, has no transaction open and no scope set |
| Store.Database.BeginTransaction | db/rls.ts:32 | BEGIN opens a transaction with no scope set and remembers the table for a rollback |
| Store.Database.SetCurrentAgencyId | db/rls.ts:35 | `set_current_agency_id` makes the setting exactly the given id for the rest of the transaction |
| Store.Database.FindMany | actions/db/agency-clients-actions.ts:52 | `findMany` returns exactly the rows the current setting admits |
| Store.Database.InsertReturning | actions/db/agency-clients-actions.ts:21-27 | the insert's outcome is the policy-, key- and foreign-key-checked INSERT; on success the row was appended, only in its own agency's scope and for an agency with an `agencies` row |
| Store.Database.UpdateReturning | actions/db/agency-clients-actions.ts:74-82 | the update's outcome is the policy-checked UPDATE; the table keeps its length and no row hidden from the scope changes |
| Store.Database.DeleteReturning | actions/db/agency-clients-actions.ts:111-115 | a returned row has the requested id and is admitted, and the new table is the old one less exactly that row (as a multiset); with nothing returned the table is unchanged |
| Store.Database.CommitTransaction | db/rls.ts:32-44 | COMMIT keeps the transaction's writes and discards the setting, as the comment at db/rls.ts:40-41 says the setting is cleared (assumed, not derived) |
| Store.Database.RollbackTransaction | db/rls.ts:32-44 | ROLLBACK restores the table as it was at BEGIN and discards the setting (assumed from the same comment) |
| AgencyClientOps.RunWork | actions/db/agency-clients-actions.ts:19-126 | each callback sends one statement through the transaction handle under the current setting, and its table and envelope are those of `Perform` |
| AgencyClientOps.StampIgnoresPayloadAgency | actions/db/agency-clients-actions.ts:21-27 | the created row carries the wrapper's agency whatever agency the payload smuggles in, and takes credential status `pending` by default |
| AgencyClientOps.CreateInOwnScope | actions/db/agency-clients-actions.ts:19-42 | a create succeeds exactly when neither the new id nor the client identifier is taken (rows of any agency count) and the agency has an `agencies` row; success appends the stamped row with the success message; a duplicate gives "Client Identifier already exists.", a missing agency "Failed to create client.", and neither changes anything |
| AgencyClientOps.CreateOutsideScopeRejected | db/schema/agency-clients-schema.ts:47-50 | a create whose stamped agency differs from the scope is rejected by the policy and reported as "Failed to create client." with the table unchanged |
| AgencyClientOps.ListIsTenantRows | actions/db/agency-clients-actions.ts:50-59 | the read succeeds with exactly the rows of the scope's agency and changes nothing |
| AgencyClientOps.VisibleRowIsUnique | db/schema/agency-clients-schema.ts:23 | because `id` is the primary key, the row of agency `a` with a given id is the one `WHERE id = ...` reaches under scope `a` |
| AgencyClientOps.UpdateOutcomes | actions/db/agency-clients-actions.ts:73-100 | under agency `a`: an id or smuggled key that is not uuid text gives "Failed to update client."; a well-formed id that no row of `a` has gives the miss message; a hit whose patch smuggles in another agency gives "Failed to update client."; a hit whose key or identifier is taken reports a duplicate; any other hit replaces that row in place with the patched row; every failure leaves the table unchanged |
| AgencyClientOps.UpdateCannotMoveRow | actions/db/agency-clients-actions.ts:74-82 | a patch that smuggles in an agency other than the scope's fails and changes nothing, whatever id it targets |
| AgencyClientOps.DeleteOutcomes | actions/db/agency-clients-actions.ts:110-129 | under agency `a`: an id that is not uuid text gives "Failed to delete client."; a well-formed miss gives "Client not found or delete failed."; neither changes anything; a hit removes exactly that row and names it in the success message |
| AgencyClientOps.WorkInvisibleToOtherAgencies | actions/db/agency-clients-actions.ts:15-131 | whatever unit of work runs under agency `a`, every other agency sees exactly the rows it saw before, and the table constraints still hold |
| Rls.ExecuteWithAgencyContext | db/rls.ts:23-45 | an empty id throws before anything is sent; otherwise the log gains exactly BEGIN, the scope set to the given id, the work's statement under that scope, then COMMIT (or ROLLBACK when the commit fails); afterwards no transaction is open and no scope is set; a throw leaves the table unchanged |
| Rls.ExecuteIsAtomic | db/rls.ts:32-44 | a call either returns the work's own result with the work's own effect under scope `agencyId`, with a non-empty id, or throws and leaves the table as it was |
| RlsHelpers.ResolveWriteAgency | actions/db/rls-helpers.ts:52-58 | a resolved agency is never empty |
| RlsHelpers.ReadAgency | actions/db/rls-helpers.ts:86-91 | a read runs under the session's organisation when there is one, and under the non-empty sentinel otherwise |
| RlsHelpers.WithRLS | actions/db/rls-helpers.ts:37-68 | the table and envelope are those of `WithRLSOutcome`; with no user or no resolved agency nothing is sent to the database; otherwise the work runs in one transaction whose scope is the resolved agency |
| RlsHelpers.WithRLSRead | actions/db/rls-helpers.ts:76-97 | the table and envelope are those of `WithRLSReadOutcome`; with no user nothing is sent; otherwise the work runs in one transaction scoped to the organisation or the sentinel |
| RlsHelpers.ExplicitIdPrecedence | actions/db/rls-helpers.ts:52 | a non-empty explicit agency id wins over the session's organisation; an explicit empty id is not skipped by `??` and so fails closed even when the session has an organisation; the organisation is used only when no explicit id is passed |
| RlsHelpers.WriteFailsClosed | actions/db/rls-helpers.ts:45-58 | no user gives "Unauthorized: No user logged in."; no resolvable agency gives "Unauthorized: Cannot determine active agency/organization."; in both cases the table is unchanged |
| RlsHelpers.WriteRunsUnderResolvedAgency | actions/db/rls-helpers.ts:60-67 | with a user and resolved agency `a`, the write is exactly the operation bound to `a` and run under scope `a`; a driver failure becomes an "Internal RLS error: " envelope with the table unchanged |
| RlsHelpers.CreateStampsResolvedAgency | actions/db/rls-helpers.ts:52-62 | a successful create appended one row, stamped with the resolved agency whatever the payload says, for an agency with an `agencies` row; "Failed to create client." arises only when the resolved agency has no `agencies` row, never from the policy, and leaves the table unchanged |
| RlsHelpers.WriteIsolation | actions/db/rls-helpers.ts:37-68 | whatever the session, explicit id, operation or driver failure, every agency other than the resolved one sees the same rows after a write, and the constraints still hold |
| RlsHelpers.ReadScope | actions/db/rls-helpers.ts:76-97 | a read without a user fails; with a user it never fails for a missing organisation and runs under the organisation or the sentinel; a driver failure becomes an "Internal RLS read error: " envelope |
| RlsHelpers.ReadWithoutOrganisationIsEmpty | actions/db/rls-helpers.ts:86-89 | a user without an organisation reads an empty list successfully, given that no agency uses the sentinel as its id |
| RlsHelpers.ReadWithOrganisationIsTenantRows | actions/db/rls-helpers.ts:91 | a user with an organisation reads exactly that organisation's clients |
| AgencyClientActions.CreateAgencyClientAction | actions/db/agency-clients-actions.ts:15-43 | for a generated key that is uuid text, a successful create happened under a truthy organisation that has an `agencies` row and appended exactly the row stamped with that organisation; no other agency's view changes |
| AgencyClientActions.GetMyAgencyClientsAction | actions/db/agency-clients-actions.ts:46-64 | the table is unchanged; success returns exactly the rows of the organisation (or of the sentinel when there is none) |
| AgencyClientActions.UpdateAgencyClientAction | actions/db/agency-clients-actions.ts:67-102 | a success rewrote, in place, the one row of the caller's agency with that id, with the patch applied and the agency kept; an id that is not uuid text gives "Failed to update client."; a well-formed id the caller's agency does not own gives "Client not found or update failed."; a smuggled other agency fails; each failure leaves the table unchanged; other agencies' views never change |
| AgencyClientActions.DeleteAgencyClientAction | actions/db/agency-clients-actions.ts:105-131 | a success removed exactly the one row of the caller's agency with that id and names it in the message; an id that is not uuid text gives "Failed to delete client."; a well-formed id the caller's agency does not own gives "Client not found or delete failed."; both leave the table unchanged; other agencies' views never change |
| AgencyClientActions.ScenarioReadsAreIsolated | actions/__tests__/db/agency-clients-actions.test.ts:71-101 | with A1, A2 of agency A and B1 of agency B seeded under any keys, A reads exactly [A1, A2] and B reads exactly [B1] |
| AgencyClientActions.ScenarioCreate | actions/__tests__/db/agency-clients-actions.test.ts:127-143 | A's create of "new-client-test" succeeds, is stamped with agency A, and is appended to the table |
| AgencyClientActions.ScenarioCreateWithoutAgencyRow | actions/db/agency-clients-actions.ts:35-41 | an organisation without an `agencies` row creating the same client gets "Failed to create client." and the table is unchanged |
| AgencyClientActions.ScenarioOtherTenantIsUnreachable | actions/__tests__/db/agency-clients-actions.test.ts:184-256 | with well-formed distinct keys, A updating or deleting B1, or a well-formed id no row has, gets the code's miss failure and leaves the table unchanged |
| AgencyClientActions.ScenarioMalformedIdFails | actions/__tests__/db/agency-clients-actions.test.ts:198-268 | A updating or deleting "non-existent-uuid" gets "Failed to update client." or "Failed to delete client." (not the miss message) and leaves the table unchanged |
| AgencyClientActions.ScenarioOtherTenantIsUnreachableForB | actions/__tests__/db/agency-clients-actions.test.ts:218-282 | with well-formed distinct keys, B updating or deleting A1 gets the code's miss failure and leaves the table unchanged |
| AgencyClientActions.ScenarioOwnUpdate | actions/__tests__/db/agency-clients-actions.test.ts:168-182 | A renaming A1 succeeds with the new name, the same id and agency, and only A1 changes |
| AgencyClientActions.ScenarioOwnDelete | actions/__tests__/db/agency-clients-actions.test.ts:228-242 | A deleting A2 leaves [A1, B1] and reports "Client 'Client A2' deleted successfully." |
| AgencyClientActions.ScenarioWithoutOrganisation | actions/__tests__/db/agency-clients-actions.test.ts:103-116 | under the tests' organisation-less session a read returns an empty list successfully and a create fails with the no-agency message |
| AgencyClientActions.ExampleKeysWellKeyed | db/schema/agency-clients-schema.ts:23 | four keys in the standard uuid form are valid uuid text and pairwise distinct, so the scenario lemmas apply to them |
| PropertySelection.LowerChar | app/agency/settings/connections/_components/property-selection-form.tsx:64 | upper-case ASCII letters map to their lower-case letter; every other character is kept |
| PropertySelection.Keep | app/agency/settings/connections/_components/property-selection-form.tsx:65 | removing the characters a class rejects leaves only accepted characters and never lengthens the text |
| PropertySelection.KeepOne | app/agency/settings/connections/_components/property-selection-form.tsx:65 | a single character is kept exactly when the class accepts it |
| PropertySelection.KeepAppend | app/agency/settings/connections/_components/property-selection-form.tsx:65 | filtering distributes over concatenation; with `KeepOne` the result is exactly the accepted characters of the input, in order |
| PropertySelection.Take | app/agency/settings/connections/_components/property-selection-form.tsx:67 | `slice(0, 50)` yields a prefix of at most 50 characters, and the whole text when it is short enough |
| PropertySelection.FormatIff | app/agency/settings/connections/_components/property-selection-form.tsx:93-94 | `^[a-z0-9]+(?:-[a-z0-9]+)*$` accepts exactly the non-empty strings of `[a-z0-9-]` that neither start nor end with a hyphen and have no doubled hyphen |
| PropertySelection.TailIff | app/agency/settings/connections/_components/property-selection-form.tsx:94 | the repeated `-[a-z0-9]+` groups accept exactly the strings of `[a-z0-9-]` with no doubled hyphen and no trailing hyphen |
| PropertySelection.Sanitise | app/agency/settings/connections/_components/property-selection-form.tsx:92 | the sanitised value has only `[a-z0-9-]` and is no longer than the input |
| PropertySelection.SanitiseFixpoint | app/agency/settings/connections/_components/property-selection-form.tsx:92 | a value is left unchanged by sanitising exactly when it consists of `[a-z0-9-]` already |
| PropertySelection.SanitiseIdempotent | app/agency/settings/connections/_components/property-selection-form.tsx:92 | sanitising twice is sanitising once |
| PropertySelection.SanitiseOne | app/agency/settings/connections/_components/property-selection-form.tsx:92 | one character is lowercased and kept exactly when the lowered character is in `[a-z0-9-]` |
| PropertySelection.SanitiseAppend | app/agency/settings/connections/_components/property-selection-form.tsx:92 | sanitising distributes over concatenation, so the result is the lowered accepted characters of the input, in order |
| PropertySelection.SanitiseDropsOnlyRejected | app/agency/settings/connections/_components/property-selection-form.tsx:92 | a rejected character is dropped and the text on either side is sanitised as if the two were adjacent |
| PropertySelection.CollapseSpaces | app/agency/settings/connections/_components/property-selection-form.tsx:66 | the result holds no whitespace, every character is a hyphen or comes from the input, and it is no longer than the input |
| PropertySelection.CollapseWithoutSpaces | app/agency/settings/connections/_components/property-selection-form.tsx:66 | text without whitespace goes through `replace(/\s+/g, "-")` unchanged |
| PropertySelection.CollapseRun | app/agency/settings/connections/_components/property-selection-form.tsx:66 | a run of whitespace at the start of the text, followed by the end or a non-whitespace character, becomes exactly one hyphen |
| PropertySelection.CollapseStep | app/agency/settings/connections/_components/property-selection-form.tsx:66 | a non-whitespace character is copied unchanged and ends any run, whatever came before it |
| PropertySelection.CollapseAppend | app/agency/settings/connections/_components/property-selection-form.tsx:66 | text ending in a non-whitespace character is collapsed on its own, and what follows it is collapsed as if it started the text |
| PropertySelection.CollapseInteriorRun | app/agency/settings/connections/_components/property-selection-form.tsx:66 | a run of whitespace after a non-whitespace character, followed by the end or a non-whitespace character, becomes exactly one hyphen, and the text on either side is collapsed on its own |
| PropertySelection.SuggestIdentifierAsWritten | app/agency/settings/connections/_components/property-selection-form.tsx:63-67 | the suggestion as the form computes it is at most 50 characters, all of `[a-z0-9-]` |
| PropertySelection.WellFormedNamesKeptAsWritten | app/agency/settings/connections/_components/property-selection-form.tsx:63-67 | a display name that already meets the identifier format and fits in 50 characters is suggested unchanged |
| PropertySelection.SuggestionAsWrittenCanBeMalformed | app/agency/settings/connections/_components/property-selection-form.tsx:63-94 | the display name "a - b" is suggested as "a---b", which the identifier format rejects |
| PropertySelection.JoinRuns | app/agency/settings/connections/_components/property-selection-form.tsx:63-67 | the words of a name joined by single hyphens contain only `[a-z0-9-]`, have no doubled hyphen, and begin and end with a letter or digit |
| PropertySelection.TrimTrailingHyphen | app/agency/settings/connections/_components/property-selection-form.tsx:67 | dropping one trailing hyphen from text without doubled hyphens leaves a prefix that does not end in a hyphen |
| PropertySelection.SuggestIdentifier | app/agency/settings/connections/_components/property-selection-form.tsx:63-67 | the corrected suggestion is at most 50 characters and is empty or meets the identifier format |
| PropertySelection.WellFormedNamesKept | app/agency/settings/connections/_components/property-selection-form.tsx:63-67 | the corrected suggestion still keeps a well-formed display name of at most 50 characters unchanged |
| PropertySelection.SuggestionCorrected | app/agency/settings/connections/_components/property-selection-form.tsx:63-67 | the corrected suggestion for "a - b" is the well-formed "a-b" |
| PropertySelection.Find | app/agency/settings/connections/_components/property-selection-form.tsx:57-79 | a found key's slot has that property name; nothing is found exactly when the key is absent |
| PropertySelection.Put | app/agency/settings/connections/_components/property-selection-form.tsx:69 | assigning a record key keeps the keys distinct, replaces an existing key's entry in place, and appends a new key last |
| PropertySelection.InitialEntry | app/agency/settings/connections/_components/property-selection-form.tsx:63-74 | each entry starts unselected, without error, named by the display name, with the suggestion as the form computes it: at most 50 characters, all of `[a-z0-9-]`, not necessarily well-formed |
| PropertySelection.InitialState | app/agency/settings/connections/_components/property-selection-form.tsx:57-79 | the starting record has one key per fetched property name and no other, and each entry is the initial entry (as-written suggestion) of a fetched property with that name |
| PropertySelection.InitialStateInOrder | app/agency/settings/connections/_components/property-selection-form.tsx:57-79 | with distinct property names the record lists the properties in fetched order, each with its initial entry |
| PropertySelection.SetEntry | app/agency/settings/connections/_components/property-selection-form.tsx:82-85 | writing one key's entry keeps the keys and their order and leaves every other entry as it was |
| PropertySelection.HandleCheckboxChange | app/agency/settings/connections/_components/property-selection-form.tsx:81-88 | only the named entry's `isSelected` changes, to the new value |
| PropertySelection.HandleIdentifierChange | app/agency/settings/connections/_components/property-selection-form.tsx:90-109 | the named entry stores the sanitised value, and has the format error exactly when that value is non-empty and malformed; its selection, its name and every other entry stay the same |
| PropertySelection.HandleNameChange | app/agency/settings/connections/_components/property-selection-form.tsx:111-121 | only the named entry's `clientName` changes, to the new value |
| PropertySelection.CheckboxRoundTrip | app/agency/settings/connections/_components/property-selection-form.tsx:81-88 | ticking a box and setting it back restores the record |
| PropertySelection.IdentifierChangeIdempotent | app/agency/settings/connections/_components/property-selection-form.tsx:90-109 | typing back the identifier that was stored changes nothing |
| PropertySelection.FormatMessageMentionsLowercase | app/agency/settings/connections/_components/property-selection-form.tsx:103-134 | the handler's format error contains "lowercase", so validation recognises it |
| PropertySelection.ValidateSlot | app/agency/settings/connections/_components/property-selection-form.tsx:129-148 | validation changes only an entry's error, never its key, selection, identifier or name |
| PropertySelection.ValidatedForm | app/agency/settings/connections/_components/property-selection-form.tsx:126-149 | validation keeps every entry of the record |
| PropertySelection.ValidateSelections | app/agency/settings/connections/_components/property-selection-form.tsx:123-161 | the verdict is true exactly when some entry is selected and every selected entry has an identifier, a name and no format error; the new record has each entry validated in key order; the global error is the no-selection message exactly when nothing is selected |
| PropertySelection.ValidationErrors | app/agency/settings/connections/_components/property-selection-form.tsx:129-148 | unselected entries lose their error; a selected entry without an identifier gets "Client Identifier is required."; a selected entry without a name gets "Client Name is required." appended |
| PropertySelection.MalformedSuggestionPassesValidation | app/agency/settings/connections/_components/property-selection-form.tsx:129-137 | a selected entry holding the malformed suggestion "a---b" and no error passes validation, because validation only looks for an existing format error |
| PropertySelection.TickSingleProperty | app/agency/settings/connections/_components/property-selection-form.tsx:57-88 | ticking the one box of a form built from a single property selects its starting entry and changes nothing else |
| PropertySelection.MalformedStartPassesValidation | app/agency/settings/connections/_components/property-selection-form.tsx:57-137 | a fetched property displayed as "a - b" starts with the identifier "a---b"; once ticked, the form passes validation although that identifier breaks the format |
| PropertySelection.RevalidationAgrees | app/agency/settings/connections/_components/property-selection-form.tsx:123-161 | validating an already validated record gives the same verdict |
| PropertySelection.NameComplaintRepeats | app/agency/settings/connections/_components/property-selection-form.tsx:138-144 | the name complaint is appended again on each failed validation of the same entry |
| PropertySelection.ImportList | app/agency/settings/connections/_components/property-selection-form.tsx:171-177 | the import list is no longer than the record |
| PropertySelection.ImportListExact | app/agency/settings/connections/_components/property-selection-form.tsx:171-177 | an item is imported exactly when it is the projection of a selected entry |
| PropertySelection.ValidationKeepsImportList | app/agency/settings/connections/_components/property-selection-form.tsx:126-177 | validation writes only errors, so the list built from the record before validation equals the one built after it |
| PropertySelection.ValidImportList | app/agency/settings/connections/_components/property-selection-form.tsx:153-177 | a valid record imports at least one item, and every item has an identifier and a name |
| PropertySelection.HandleSubmit | app/agency/settings/connections/_components/property-selection-form.tsx:163-197 | submission stops exactly when validation fails; it is refused with "Agency ID is required but not available" exactly when validation passes and the agency id is empty; otherwise it sends the non-empty import list of selected entries, each with an identifier and a name |

## Left out

- Concurrency: one request and one transaction at a time. That a transaction-local setting is invisible to concurrent transactions is PostgreSQL's guarantee. `Store.Database.CommitTransaction` and `RollbackTransaction` assume that the setting is cleared when the transaction ends, as the comment at `db/rls.ts:40-41` says; the SQL of `set_current_agency_id` is not part of this model, so that is not derived.
- The session provider: `auth()` is the input `RlsHelpers.Session`. The user id is checked for truthiness but none of the callbacks uses it.
- The ORM and SQL text: the four statements are modelled by their effect under the policy, and `set_current_agency_id` as "the setting becomes this id". Its SQL definition is not part of this model.
- The policy is taken to be enabled on both tables. Nothing shown enables or forces it. No agency is assumed to use the read sentinel as its id (`RlsHelpers.ReadWithoutOrganisationIsEmpty` requires it).
- PostgreSQL's aborted-transaction state after an error is caught inside a callback: a statement that raises leaves the table as it was and the callback returns its envelope, after which the model commits.
- Driver failures are the `Rls.Fault` parameter, not modelled causes. The read action's own catch ("Failed to retrieve clients.", `actions/db/agency-clients-actions.ts:60-63`) is therefore unreachable in the model.
- The generated primary key of a new client is a parameter (`newId`). `AgencyClientActions.CreateAgencyClientAction` requires it to be valid uuid text, as `defaultRandom()` always produces. The lemmas below the action (`AgencyClientOps.CreateInOwnScope`, `RlsHelpers.CreateStampsResolvedAgency` and the create scenarios) take any key, and the insert does not re-check its syntax. Timestamps (`createdAt`, `updatedAt: new Date()`), `revalidatePath` and console logging are left out as clock, cache and log side effects.
- Ids are compared as text, not as 16-byte uuid values. Two spellings of one uuid that PostgreSQL would match (upper-case digits, braces, missing hyphens) are different keys in the model. Valid uuid text is accepted exactly as PostgreSQL's input syntax describes it (`UuidSyntax.IsUuid`).
- The `agencies` and `profiles` tables are inputs: nothing in the modelled code writes them, and their own policies and cascades (`onDelete: "cascade"`) are not modelled.
- `NangoConnectionsSchema.SetStatus`: no contract of its own. It stands for no statement in the modelled files; it shows the policy's UPDATE case on this table, and its guarantee is `NangoConnectionsSchema.SetStatusIsolated`. No nango action is modelled: the Nango and Google network code, webhooks, unscoped single-statement wrappers and `bulkCreateAgencyClientsAction` are not part of this model.
- PropertySelection: lowercasing and `\s` cover ASCII only. JavaScript's `toLowerCase` and `\s` are Unicode-aware.
- PropertySelection: the record is a sequence of slots in key insertion order. JavaScript lists integer-like keys first; GA4 keys look like `properties/123` and are never integer-like.
- PropertySelection.HandleCheckboxChange, HandleIdentifierChange, HandleNameChange: require that the key is present and the keys distinct. The form only calls them for rendered keys; for an absent key the source would create a partial entry.
- Clearing the global error in the handlers, the loading flag, toasts, the JSX, and the classification of errors after the bulk call are UI and are left out. `PropertySelection.HandleSubmit` stops where the bulk-create action is called.
- PropertySelection.ValidateSelections: `{ ...selectionState }` is a shallow copy, so the source writes errors into the very entry objects of the state it read. The model returns a new record. The import list is the same either way (`PropertySelection.ValidationKeepsImportList`).
- The field values of the two-agency scenario (identifiers, names, GA4 ids) are illustrative. The agencies and users come from the action tests; the client keys are any well-formed distinct uuid text, because the tests' placeholders are not.

## Findings

| source | as written | input that shows it | evidently intended | confidence | as-written member | corrected member |
|---|---|---|---|---|---|---|
| app/agency/settings/connections/_components/property-selection-form.tsx:63-67 | the suggestion keeps existing hyphens and turns each whitespace run into another hyphen; leading or trailing whitespace, or a 50-character cut, can also leave a hyphen at either end; validation (:134) never re-checks the format, so the malformed identifier can be submitted | display name "a - b" gives "a---b", which the format at :93-94 rejects and validation lets through | the suggestion is empty or meets the identifier format the form enforces at :93-94 | high for the input shown, not executed | PropertySelection.SuggestionAsWrittenCanBeMalformed | PropertySelection.SuggestIdentifier |

The form's starting state keeps the suggestion as written (`PropertySelection.InitialEntry`), and `PropertySelection.MalformedStartPassesValidation` follows the malformed identifier from a fetched property through a passing validation. `PropertySelection.SuggestIdentifier` is the corrected suggestion, with the intended property proved about it.
