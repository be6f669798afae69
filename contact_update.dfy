/** The partial-update builder `updateApprover` (src/models/UserProfile.ts)
    and `updateRecipient` (src/models/RecipientProfile.ts) share: every
    entry of the request object whose value is defined and whose key is
    neither `id` nor `userId` becomes `snake_case(key) = $n`, followed by
    `updated_at = CURRENT_TIMESTAMP` and `WHERE id = $n`. */
module ContactUpdate {
  import opened Common
  import opened Schema
  import opened JsStrings
  import opened Sql
  import opened CamelKeys

  /** One `[key, value]` pair of `Object.entries(data)`, in enumeration order. */
  type Entry = (string, JsText)

  /** The filter of the loop body. */
  predicate Passes(e: Entry) {
    !e.1.Undefined? && e.0 != "id" && e.0 != "userId"
  }

  /** The entries the loop turns into SET items, in their order. */
  function KeptEntries(entries: seq<Entry>): (r: seq<Entry>)
    ensures |r| <= |entries|
    ensures forall e :: e in r <==> e in entries && Passes(e)
    decreases |entries|
  {
    if entries == [] then []
    else
      var init := entries[..|entries| - 1];
      var last := entries[|entries| - 1];
      assert entries == init + [last];
      KeptEntries(init) + (if Passes(last) then [last] else [])
  }

  /** The value bound for a kept entry. */
  function ToValue(v: JsText): Value {
    match v
    case Str(s) => Text(s)
    case _ => SqlNull
  }

  /** The statement the builder sends: `$1 … $k` for the kept entries in
      order, then the timestamp, and the id as the last value, `$(k+1)`. */
  predicate ContactUpdateShape(entries: seq<Entry>, id: int, s: Statement) {
    SetsFor(KeptEntries(entries), id, s)
  }

  /** The same, for the kept entries themselves. */
  predicate SetsFor(kept: seq<Entry>, id: int, s: Statement) {
    var k := |kept|;
    && |s.sets| == k + 1 && |s.values| == k + 1
    && (forall j :: 0 <= j < k ==> s.sets[j] == Assign(SnakeCase(kept[j].0), j + 1))
    && (forall j :: 0 <= j < k ==> s.values[j] == ToValue(kept[j].1))
    && s.sets[k] == StampNow("updated_at")
    && s.values[k] == Int(id)
    && s.whereId == |s.values|
    && s.whereOwner.None?
  }

  /** The `forEach` loop, the empty check and the WHERE clause. */
  method BuildContactUpdate(entries: seq<Entry>, id: int) returns (stmt: Option<Statement>)
    ensures stmt.None? <==> KeptEntries(entries) == []
    ensures stmt.Some? ==> ContactUpdateShape(entries, id, stmt.value)
  {
    var setClause: seq<SetItem> := [];
    var values: seq<Value> := [];
    var paramCount: nat := 1;
    var i := 0;
    while i < |entries|
      invariant 0 <= i <= |entries|
      invariant |setClause| == |values| == |KeptEntries(entries[..i])| && paramCount == |values| + 1
      invariant forall j :: 0 <= j < |values| ==>
        setClause[j] == Assign(SnakeCase(KeptEntries(entries[..i])[j].0), j + 1)
        && values[j] == ToValue(KeptEntries(entries[..i])[j].1)
    {
      assert entries[..i + 1][..i] == entries[..i];
      var (key, value) := entries[i];
      if !value.Undefined? && key != "id" && key != "userId" {
        var dbColumn := SnakeCase(key);
        setClause := setClause + [Assign(dbColumn, paramCount)];
        values := values + [ToValue(value)];
        paramCount := paramCount + 1;
      }
      i := i + 1;
    }
    assert entries[..i] == entries;
    if |setClause| == 0 {
      return None;
    }
    setClause := setClause + [StampNow("updated_at")];
    values := values + [Int(id)];
    stmt := Some(Statement(setClause, values, paramCount, None));
  }

  /** The cell a kept value leaves in the VARCHAR column of field `f`: its
      text cut to the column's width, or NULL. */
  function FieldCell(f: ContactField, v: JsText): Option<string> {
    if v.Str? then Some(StoredVarchar(f.Width(), v.s)) else None
  }

  /** The creation time a kept value leaves in `created_at`. */
  function KeptTime(readTime: string -> Option<Time>, v: JsText): Option<Time> {
    if v.Str? then readTime(v.s) else None
  }

  /** `after` is `before` with each kept entry written to the column its key
      names, every other column as it was, and `updated_at` set to `now`. */
  ghost predicate ContactPatched(t: ContactTable, readTime: string -> Option<Time>, kept: seq<Entry>, before: ContactRow, after: ContactRow, now: Time) {
    && after.updatedAt == now
    && (forall e :: e in kept && SnakeCase(e.0) == "created_at" ==> after.createdAt == KeptTime(readTime, e.1))
    && ((forall e :: e in kept ==> SnakeCase(e.0) != "created_at") ==> after.createdAt == before.createdAt)
    && (forall e, f :: e in kept && SnakeCase(e.0) == ColumnName(t, f) ==> Get(after.contact, f) == FieldCell(f, e.1))
    && (forall f :: (forall e :: e in kept ==> SnakeCase(e.0) != ColumnName(t, f)) ==> Get(after.contact, f) == Get(before.contact, f))
    && (forall e :: e in kept && SnakeCase(e.0) == "user_id" ==> e.1.Str? && after.userId == StoredVarchar(UserIdWidth, e.1.s))
    && ((forall e :: e in kept ==> SnakeCase(e.0) != "user_id") ==> after.userId == before.userId)
  }

  /** A field a kept entry names holds that entry's value afterwards. */
  lemma PatchedWritten(t: ContactTable, env: Env, before: ContactRow, kept: seq<Entry>, id: int, s: Statement, now: Time)
    requires SetsFor(kept, id, s) && Distinct(SetColumns(s.sets))
    requires ApplyContactSets(t, env, before, s.sets, s.values, now).Ok?
    ensures var after := ApplyContactSets(t, env, before, s.sets, s.values, now).value;
      forall e, f :: e in kept && SnakeCase(e.0) == ColumnName(t, f) ==> Get(after.contact, f) == FieldCell(f, e.1)
  {
    var after := ApplyContactSets(t, env, before, s.sets, s.values, now).value;
    forall e, f | e in kept && SnakeCase(e.0) == ColumnName(t, f)
      ensures Get(after.contact, f) == FieldCell(f, e.1)
    {
      var j :| 0 <= j < |kept| && kept[j] == e;
      KeptItem(kept, id, s, j, f);
      FieldWritten(t, env, before, s.sets, s.values, now, j, f);
    }
  }

  /** The item of the built SET list for the `j`-th kept entry names the
      entry's rewritten key and writes the entry's cell. */
  lemma KeptItem(kept: seq<Entry>, id: int, s: Statement, j: nat, f: ContactField)
    requires SetsFor(kept, id, s) && j < |kept|
    ensures s.sets[j].column == SnakeCase(kept[j].0)
    ensures AssignedCell(f.Width(), s.sets[j], s.values) == FieldCell(f, kept[j].1)
  {
    assert s.sets[j] == Assign(SnakeCase(kept[j].0), j + 1);
    assert s.values[j] == ToValue(kept[j].1);
  }

  /** A field no kept entry names keeps its value. */
  lemma PatchedUntouched(t: ContactTable, env: Env, before: ContactRow, kept: seq<Entry>, id: int, s: Statement, now: Time)
    requires SetsFor(kept, id, s) && Distinct(SetColumns(s.sets))
    requires ApplyContactSets(t, env, before, s.sets, s.values, now).Ok?
    ensures var after := ApplyContactSets(t, env, before, s.sets, s.values, now).value;
      forall f :: (forall e :: e in kept ==> SnakeCase(e.0) != ColumnName(t, f)) ==> Get(after.contact, f) == Get(before.contact, f)
  {
    forall f | forall e :: e in kept ==> SnakeCase(e.0) != ColumnName(t, f)
      ensures Get(ApplyContactSets(t, env, before, s.sets, s.values, now).value.contact, f) == Get(before.contact, f)
    {
      ColumnNameIsPrefixed(t, f);
      ShapeAvoids(kept, id, s, ColumnName(t, f));
      FieldUntouched(t, env, before, s.sets, s.values, now, f);
    }
  }

  /** A column that no kept key rewrites to and that is not the timestamp
      is named by no item of the built SET list. */
  lemma ShapeAvoids(kept: seq<Entry>, id: int, s: Statement, col: string)
    requires SetsFor(kept, id, s)
    requires col != "updated_at" && forall e :: e in kept ==> SnakeCase(e.0) != col
    ensures forall j :: 0 <= j < |s.sets| ==> s.sets[j].column != col
  {
    forall j | 0 <= j < |s.sets|
      ensures s.sets[j].column != col
    {
      if j < |kept| {
        assert kept[j] in kept;
      }
    }
  }

  /** The timestamps after the SET list of a built statement: `updated_at`
      is the current time, and `created_at` stays unless a kept key names
      it. */
  lemma PatchedStamp(t: ContactTable, env: Env, before: ContactRow, kept: seq<Entry>, id: int, s: Statement, now: Time)
    requires SetsFor(kept, id, s) && Distinct(SetColumns(s.sets))
    requires ApplyContactSets(t, env, before, s.sets, s.values, now).Ok?
    ensures var after := ApplyContactSets(t, env, before, s.sets, s.values, now).value;
      && after.updatedAt == now
      && ((forall e :: e in kept ==> SnakeCase(e.0) != "created_at") ==> after.createdAt == before.createdAt)
  {
    ApplyContactSetsEffect(t, env, before, s.sets, s.values, now);
    LookupAt(s.sets, |kept|);
    if forall e :: e in kept ==> SnakeCase(e.0) != "created_at" {
      ShapeAvoids(kept, id, s, "created_at");
    }
  }

  /** A kept key that rewrites to `created_at` sets it to the time its
      text is read as, or to NULL. */
  lemma PatchedCreated(t: ContactTable, env: Env, before: ContactRow, kept: seq<Entry>, id: int, s: Statement, now: Time)
    requires SetsFor(kept, id, s) && Distinct(SetColumns(s.sets))
    requires ApplyContactSets(t, env, before, s.sets, s.values, now).Ok?
    ensures var after := ApplyContactSets(t, env, before, s.sets, s.values, now).value;
      forall e :: e in kept && SnakeCase(e.0) == "created_at" ==> after.createdAt == KeptTime(env.readTime, e.1)
  {
    var after := ApplyContactSets(t, env, before, s.sets, s.values, now).value;
    forall e | e in kept && SnakeCase(e.0) == "created_at"
      ensures after.createdAt == KeptTime(env.readTime, e.1)
    {
      var j :| 0 <= j < |kept| && kept[j] == e;
      KeptTimeItem(env.readTime, kept, id, s, j);
      CreatedWritten(t, env, before, s.sets, s.values, now, j);
    }
  }

  /** The item of the built SET list for the `j`-th kept entry writes the
      time the entry's text is read as. */
  lemma KeptTimeItem(readTime: string -> Option<Time>, kept: seq<Entry>, id: int, s: Statement, j: nat)
    requires SetsFor(kept, id, s) && j < |kept|
    ensures s.sets[j].column == SnakeCase(kept[j].0)
    ensures AssignedTime(readTime, s.sets[j], s.values) == KeptTime(readTime, kept[j].1)
  {
    assert s.sets[j] == Assign(SnakeCase(kept[j].0), j + 1);
    assert s.values[j] == ToValue(kept[j].1);
  }

  /** A kept key that rewrites to `user_id` moves the row to the user its
      value names. */
  lemma PatchedOwner(t: ContactTable, env: Env, before: ContactRow, kept: seq<Entry>, id: int, s: Statement, now: Time)
    requires SetsFor(kept, id, s) && Distinct(SetColumns(s.sets))
    requires ApplyContactSets(t, env, before, s.sets, s.values, now).Ok?
    ensures var after := ApplyContactSets(t, env, before, s.sets, s.values, now).value;
      forall e :: e in kept && SnakeCase(e.0) == "user_id" ==> e.1.Str? && after.userId == StoredVarchar(UserIdWidth, e.1.s)
  {
    var after := ApplyContactSets(t, env, before, s.sets, s.values, now).value;
    forall e | e in kept && SnakeCase(e.0) == "user_id"
      ensures e.1.Str? && after.userId == StoredVarchar(UserIdWidth, e.1.s)
    {
      var j :| 0 <= j < |kept| && kept[j] == e;
      OwnerIsText(t, env, before, s.sets, s.values, now, j);
      OwnerAssigned(t, env, before, s.sets, s.values, now, j);
      OwnerOfText(s.sets[j], s.values, before.userId);
      assert s.values[j] == ToValue(kept[j].1);
    }
  }

  /** Without such a key the owner stays. */
  lemma KeptOwner(t: ContactTable, env: Env, before: ContactRow, kept: seq<Entry>, id: int, s: Statement, now: Time)
    requires SetsFor(kept, id, s) && Distinct(SetColumns(s.sets))
    requires ApplyContactSets(t, env, before, s.sets, s.values, now).Ok?
    requires forall e :: e in kept ==> SnakeCase(e.0) != "user_id"
    ensures ApplyContactSets(t, env, before, s.sets, s.values, now).value.userId == before.userId
  {
    assert "user_id" != "updated_at";
    ShapeAvoids(kept, id, s, "user_id");
    OwnerUntouched(t, env, before, s.sets, s.values, now);
  }

  /** An accepted update touches the row with that id, whoever owns it, and
      changes exactly the columns named by the kept entries and `updated_at`. */
  lemma ContactUpdateEffect(t: ContactTable, env: Env, rows: map<int, ContactRow>, entries: seq<Entry>, id: int, s: Statement, now: Time)
    requires ContactUpdateShape(entries, id, s)
    requires ExecContactUpdate(t, env, rows, s, now).Ok? && ExecContactUpdate(t, env, rows, s, now).value.Some?
    ensures var (key, after) := ExecContactUpdate(t, env, rows, s, now).value.value;
      key == id && id in rows && ContactPatched(t, env.readTime, KeptEntries(entries), rows[id], after, now)
  {
    ExecContactUpdateRow(t, env, rows, s, now);
    assert Bound(s.values, s.whereId) == Some(Int(id));
    var kept := KeptEntries(entries);
    PatchedWritten(t, env, rows[id], kept, id, s, now);
    PatchedUntouched(t, env, rows[id], kept, id, s, now);
    PatchedOwner(t, env, rows[id], kept, id, s, now);
    if forall e :: e in kept ==> SnakeCase(e.0) != "user_id" {
      KeptOwner(t, env, rows[id], kept, id, s, now);
    }
    PatchedStamp(t, env, rows[id], kept, id, s, now);
    PatchedCreated(t, env, rows[id], kept, id, s, now);
  }

  /* ---------- when the update succeeds ---------- */

  /** The kept keys rewrite to distinct columns a parameter may be bound to
      (so none of them is `updated_at`, which the builder stamps itself). */
  predicate KeysPrepare(t: ContactTable, kept: seq<Entry>) {
    && (forall e :: e in kept ==> SnakeCase(e.0) in ContactWritable(t))
    && (forall i, j :: 0 <= i < j < |kept| ==> SnakeCase(kept[i].0) != SnakeCase(kept[j].0))
  }

  /** Every kept value converts to the type of the column its key names. */
  predicate ValuesConvert(t: ContactTable, readTime: string -> Option<Time>, kept: seq<Entry>) {
    forall e :: e in kept ==> ContactValueError(t, readTime, SnakeCase(e.0), ToValue(e.1)).None?
  }

  /** Every kept value is accepted on a row: it converts, an owner it names
      is a user, and a NOT NULL column gets text. */
  predicate ValuesAccepted(t: ContactTable, env: Env, kept: seq<Entry>) {
    forall e :: e in kept ==> AssignAccepts(t, env, SnakeCase(e.0), ToValue(e.1))
  }

  /** How an update with these entries ends. */
  datatype UpdateOutcome =
    | NothingSent   // no entry is kept, so no statement is sent
    | Rejected      // the statement, or the matched row, raises an error
    | NoMatch       // the statement runs and no row has that id
    | Matched       // the row with that id is updated

  /** The outcome in terms of the entries: the statement fails before any
      row is read unless its keys prepare, its values convert and the id is
      an INTEGER; otherwise it matches nothing when the id is absent, and
      on the matched row it fails unless every value is accepted. */
  function ContactUpdateOutcome(t: ContactTable, env: Env, rows: map<int, ContactRow>, entries: seq<Entry>, id: int): UpdateOutcome {
    var kept := KeptEntries(entries);
    if kept == [] then NothingSent
    else if !KeysPrepare(t, kept) || !ValuesConvert(t, env.readTime, kept) || !IsInt4(id) then Rejected
    else if id !in rows then NoMatch
    else if !ValuesAccepted(t, env, kept) then Rejected
    else Matched
  }

  /** The columns the kept keys rewrite to, in order. */
  function KeyColumns(kept: seq<Entry>): (cols: seq<string>)
    ensures |cols| == |kept|
    ensures forall j :: 0 <= j < |kept| ==> cols[j] == SnakeCase(kept[j].0)
  {
    seq(|kept|, j requires 0 <= j < |kept| => SnakeCase(kept[j].0))
  }

  /** The values bound for the kept entries, in order. */
  function KeyValues(kept: seq<Entry>): (vals: seq<Value>)
    ensures |vals| == |kept|
    ensures forall j :: 0 <= j < |kept| ==> vals[j] == ToValue(kept[j].1)
  {
    seq(|kept|, j requires 0 <= j < |kept| => ToValue(kept[j].1))
  }

  /** A built statement is a `Keyed` statement over these columns and values. */
  lemma ShapeKeyed(kept: seq<Entry>, id: int, s: Statement)
    requires SetsFor(kept, id, s)
    ensures Keyed(KeyColumns(kept), KeyValues(kept), s)
  {
  }

  /** The built statement prepares exactly when the kept keys do. */
  lemma ShapePrepares(t: ContactTable, kept: seq<Entry>, id: int, s: Statement)
    requires SetsFor(kept, id, s)
    ensures PrepareError(ContactColumns(t), ContactWritable(t), s.sets, s.values).None? <==> KeysPrepare(t, kept)
  {
    var cols := KeyColumns(kept);
    ShapeKeyed(kept, id, s);
    StampNotWritable(t);
    KeyedPrepares(ContactColumns(t), ContactWritable(t), cols, KeyValues(kept), s);
    if forall j :: 0 <= j < |cols| ==> cols[j] in ContactWritable(t) {
      forall e | e in kept
        ensures SnakeCase(e.0) in ContactWritable(t)
      {
        var j :| 0 <= j < |kept| && kept[j] == e;
        assert cols[j] == SnakeCase(e.0);
      }
    }
    if forall e :: e in kept ==> SnakeCase(e.0) in ContactWritable(t) {
      forall j | 0 <= j < |cols|
        ensures cols[j] in ContactWritable(t)
      {
        assert kept[j] in kept;
      }
    }
  }

  /** The built statement's values convert exactly when the kept values do. */
  lemma ShapeConverts(t: ContactTable, readTime: string -> Option<Time>, kept: seq<Entry>, id: int, s: Statement)
    requires SetsFor(kept, id, s)
    ensures FirstValueError((c, v) => ContactValueError(t, readTime, c, v), s.sets, s.values).None? <==> ValuesConvert(t, readTime, kept)
  {
    var check := (c, v) => ContactValueError(t, readTime, c, v);
    var cols, vals := KeyColumns(kept), KeyValues(kept);
    ShapeKeyed(kept, id, s);
    KeyedConverts(check, cols, vals, s);
    if forall j :: 0 <= j < |cols| ==> check(cols[j], vals[j]).None? {
      forall e | e in kept
        ensures ContactValueError(t, readTime, SnakeCase(e.0), ToValue(e.1)).None?
      {
        var j :| 0 <= j < |kept| && kept[j] == e;
        assert check(cols[j], vals[j]).None?;
      }
    }
    if ValuesConvert(t, readTime, kept) {
      forall j | 0 <= j < |cols|
        ensures check(cols[j], vals[j]).None?
      {
        assert kept[j] in kept;
      }
    }
  }

  /** The built SET list is accepted on a row exactly when the kept values are. */
  lemma ShapeAccepts(t: ContactTable, env: Env, row: ContactRow, kept: seq<Entry>, id: int, s: Statement, now: Time)
    requires SetsFor(kept, id, s)
    ensures ApplyContactSets(t, env, row, s.sets, s.values, now).Ok? <==> ValuesAccepted(t, env, kept)
  {
    var cols, vals := KeyColumns(kept), KeyValues(kept);
    ShapeKeyed(kept, id, s);
    KeyedAccepts(t, env, row, cols, vals, s, now);
    if forall j :: 0 <= j < |cols| ==> AssignAccepts(t, env, cols[j], vals[j]) {
      forall e | e in kept
        ensures AssignAccepts(t, env, SnakeCase(e.0), ToValue(e.1))
      {
        var j :| 0 <= j < |kept| && kept[j] == e;
        assert AssignAccepts(t, env, cols[j], vals[j]);
      }
    }
    if ValuesAccepted(t, env, kept) {
      forall j | 0 <= j < |cols|
        ensures AssignAccepts(t, env, cols[j], vals[j])
      {
        assert kept[j] in kept;
      }
    }
  }

  /** The built statement fails, matches nothing, or updates the row
      exactly as `ContactUpdateOutcome` says. */
  lemma ContactUpdateOutcomeExec(t: ContactTable, env: Env, rows: map<int, ContactRow>, entries: seq<Entry>, id: int, s: Statement, now: Time)
    requires ContactUpdateShape(entries, id, s) && KeptEntries(entries) != []
    ensures var r := ExecContactUpdate(t, env, rows, s, now);
      var o := ContactUpdateOutcome(t, env, rows, entries, id);
      && (r.Err? <==> o == Rejected)
      && (r == Ok(None) <==> o == NoMatch)
      && (r.Ok? && r.value.Some? <==> o == Matched)
  {
    var kept := KeptEntries(entries);
    ShapePrepares(t, kept, id, s);
    ShapeConverts(t, env.readTime, kept, id, s);
    assert Bound(s.values, s.whereId) == Some(Int(id));
    if id in rows {
      ShapeAccepts(t, env, rows[id], kept, id, s, now);
    }
  }

  /** The shared body of `updateApprover` and `updateRecipient`: builds the
      statement and runs it. With no kept entry nothing is sent and the
      result is null; otherwise the result is an error, null or the updated
      row exactly as `ContactUpdateOutcome` says. The updated row is the row
      with that id, whoever owns it, changed as `ContactPatched` says, and
      owned by a user. */
  method RunContactUpdate(t: ContactTable, env: Env, rows: map<int, ContactRow>, entries: seq<Entry>, id: int, now: Time)
    returns (res: Result<Option<(int, ContactRow)>, DbError>)
    ensures var o := ContactUpdateOutcome(t, env, rows, entries, id);
      && (res.Err? <==> o == Rejected)
      && (res == Ok(None) <==> o == NothingSent || o == NoMatch)
    ensures res.Ok? && res.value.Some? ==>
      var (key, after) := res.value.value;
      && key == id && id in rows
      && after.userId in env.users + {rows[id].userId}
      && ContactPatched(t, env.readTime, KeptEntries(entries), rows[id], after, now)
  {
    var stmt := BuildContactUpdate(entries, id);
    if stmt.None? {
      return Ok(None);
    }
    res := ExecContactUpdate(t, env, rows, stmt.value, now);
    ContactUpdateOutcomeExec(t, env, rows, entries, id, stmt.value, now);
    if res.Ok? && res.value.Some? {
      ContactUpdateEffect(t, env, rows, entries, id, stmt.value, now);
      ExecContactUpdateRow(t, env, rows, stmt.value, now);
    }
  }

  /** The derived contact-number columns are not columns of the table. */
  lemma ContactNumberKeyUnknown(t: ContactTable, f: ContactField)
    requires f == ContactNumber1 || f == ContactNumber2
    ensures SnakeCase(CamelKey(t, f)) !in ContactColumns(t)
  {
    CamelKeyColumn(t, f);
  }

  /** So an update whose body carries a defined contact number under its
      own key always fails, whatever else it holds and whichever row it names. */
  lemma ContactNumberUpdateFails(t: ContactTable, env: Env, rows: map<int, ContactRow>, entries: seq<Entry>, id: int, f: ContactField, v: JsText)
    requires f == ContactNumber1 || f == ContactNumber2
    requires (CamelKey(t, f), v) in entries && !v.Undefined?
    ensures ContactUpdateOutcome(t, env, rows, entries, id) == Rejected
  {
    var kept := KeptEntries(entries);
    var e := (CamelKey(t, f), v);
    assert e in kept;
    ContactNumberKeyUnknown(t, f);
  }
}
