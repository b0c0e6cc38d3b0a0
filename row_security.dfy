/** The tenant-isolation row policy that both tenant-owned tables declare:
    `agency_id = current_setting('app.current_agency_id', true)::text`, for all commands. */
module RowSecurity {
  import opened Common

  /** What `current_setting('app.current_agency_id', true)` reads inside a statement:
      None (SQL NULL) when no scope has been set in the current transaction. */
  type Setting = Option<string>

  /** Errors the storage engine raises, with their SQLSTATE codes: a text value a `uuid`
      parameter cannot take, a unique or primary-key clash, a foreign key with no target row,
      and a new row the policy does not admit. */
  datatype DbError = InvalidTextRepresentation | UniqueViolation | ForeignKeyViolation | PolicyViolation {
    function Code(): string {
      match this
      case InvalidTextRepresentation => "22P02"
      case UniqueViolation => "23505"
      case ForeignKeyViolation => "23503"
      case PolicyViolation => "42501"
    }
  }

  /** A statement either applies (new table contents, the row RETURNING yields, if any)
      or raises and leaves the table as it was. */
  datatype Outcome<R> = Applied(table: seq<R>, returning: Option<R>) | Raised(error: DbError)

  /** The policy's USING expression. Comparing with NULL yields NULL, which admits no row. */
  predicate Admits(setting: Setting, agencyId: string) {
    setting == Some(agencyId)
  }

  /** The rows a statement running under `setting` can see, in table order. */
  function Filter<R(==)>(rows: seq<R>, agencyOf: R -> string, setting: Setting): (r: seq<R>)
    ensures |r| <= |rows|
    ensures forall x :: x in r ==> x in rows && Admits(setting, agencyOf(x))
  {
    if rows == [] then []
    else if Admits(setting, agencyOf(rows[0])) then [rows[0]] + Filter(rows[1..], agencyOf, setting)
    else Filter(rows[1..], agencyOf, setting)
  }

  /** The index of the first row with key `id` that a statement under `setting` can see:
      what `WHERE id = ...` reaches once the policy applies. */
  function FirstVisible<R>(rows: seq<R>, idOf: R -> string, agencyOf: R -> string, setting: Setting, id: string): (r: Option<nat>)
    ensures r.Some? ==> r.value < |rows| && idOf(rows[r.value]) == id && Admits(setting, agencyOf(rows[r.value]))
    ensures r.None? <==> forall k :: 0 <= k < |rows| ==> !(idOf(rows[k]) == id && Admits(setting, agencyOf(rows[k])))
  {
    if rows == [] then None
    else if idOf(rows[0]) == id && Admits(setting, agencyOf(rows[0])) then Some(0)
    else
      match FirstVisible(rows[1..], idOf, agencyOf, setting, id)
      case None => None
      case Some(k) => Some(k + 1)
  }

  /** A scoped read returns exactly the rows of the scope's agency, and nothing without a
      scope; every tenant-owned table inherits this from the shared policy. */
  lemma SeesExactlyTenantRows<R>(rows: seq<R>, agencyOf: R -> string, setting: Setting)
    ensures forall r :: r in Filter(rows, agencyOf, setting) <==> r in rows && Admits(setting, agencyOf(r))
    ensures setting.None? ==> Filter(rows, agencyOf, setting) == []
  {
    forall r {
      FilterExact(rows, agencyOf, setting, r);
    }
    if setting.None? {
      NoScopeSeesNothing(rows, agencyOf);
    }
  }

  /** A row is seen exactly when it is in the table and the policy admits it. */
  lemma {:induction false} FilterExact<R>(rows: seq<R>, agencyOf: R -> string, setting: Setting, x: R)
    ensures x in Filter(rows, agencyOf, setting) <==> x in rows && Admits(setting, agencyOf(x))
  {
    if rows != [] {
      FilterExact(rows[1..], agencyOf, setting, x);
      assert rows == [rows[0]] + rows[1..];
    }
  }

  /** Without a scope no row is visible. */
  lemma {:induction false} NoScopeSeesNothing<R>(rows: seq<R>, agencyOf: R -> string)
    ensures Filter(rows, agencyOf, None) == []
  {
    if rows != [] {
      NoScopeSeesNothing(rows[1..], agencyOf);
    }
  }

  /** When the policy admits no row of the table, a statement sees nothing. */
  lemma {:induction false} NothingAdmittedSeesNothing<R>(rows: seq<R>, agencyOf: R -> string, setting: Setting)
    requires forall k :: 0 <= k < |rows| ==> !Admits(setting, agencyOf(rows[k]))
    ensures Filter(rows, agencyOf, setting) == []
  {
    if rows != [] {
      NothingAdmittedSeesNothing(rows[1..], agencyOf, setting);
    }
  }

  lemma {:induction false} FilterAppend<R>(a: seq<R>, b: seq<R>, agencyOf: R -> string, setting: Setting)
    ensures Filter(a + b, agencyOf, setting) == Filter(a, agencyOf, setting) + Filter(b, agencyOf, setting)
  {
    if a == [] {
      assert a + b == b;
    } else {
      assert (a + b)[1..] == a[1..] + b;
      FilterAppend(a[1..], b, agencyOf, setting);
    }
  }

  /** Two tables that differ only in rows hidden from `setting` look the same under it. */
  lemma {:induction false} FilterIgnoresHidden<R>(s: seq<R>, t: seq<R>, agencyOf: R -> string, setting: Setting)
    requires |s| == |t|
    requires forall k :: 0 <= k < |s| ==>
      s[k] == t[k] || (!Admits(setting, agencyOf(s[k])) && !Admits(setting, agencyOf(t[k])))
    ensures Filter(s, agencyOf, setting) == Filter(t, agencyOf, setting)
  {
    if s != [] {
      assert forall k :: 0 <= k < |s| - 1 ==> s[1..][k] == s[k + 1] && t[1..][k] == t[k + 1];
      FilterIgnoresHidden(s[1..], t[1..], agencyOf, setting);
    }
  }

  /** Removing a row hidden from `setting` does not change what `setting` sees. */
  lemma FilterIgnoresHiddenRemoval<R>(rows: seq<R>, i: nat, agencyOf: R -> string, setting: Setting)
    requires i < |rows| && !Admits(setting, agencyOf(rows[i]))
    ensures Filter(rows[..i] + rows[i + 1..], agencyOf, setting) == Filter(rows, agencyOf, setting)
  {
    assert rows == rows[..i] + ([rows[i]] + rows[i + 1..]);
    FilterAppend(rows[..i], [rows[i]] + rows[i + 1..], agencyOf, setting);
    FilterAppend([rows[i]], rows[i + 1..], agencyOf, setting);
    FilterAppend(rows[..i], rows[i + 1..], agencyOf, setting);
    assert Filter([rows[i]], agencyOf, setting) == [] by {
      assert [rows[i]][1..] == [];
    }
  }
}
