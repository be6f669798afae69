/** The part of the relational store the models depend on: parameterized
    UPDATE and INSERT statements over the tables of src/config/database.ts,
    their prepare-time errors (unknown column, column assigned twice,
    placeholder without a value), their conversion errors (text longer
    than its VARCHAR column takes, a `created_at` text that is not a
    timestamp, an id outside the INTEGER range), which come before any row
    is read, and their row-level errors (NOT NULL, foreign key). SQL text
    is represented by its structure. */
module Sql {
  import opened Common
  import opened Schema

  /** One item of a SET list: `column = $param` or `column = CURRENT_TIMESTAMP`. */
  datatype SetItem = Assign(column: string, param: nat) | StampNow(column: string)

  /** `UPDATE … SET sets WHERE id = $whereId [AND user_id = $whereOwner]`
      together with the values bound to `$1 … $n`. */
  datatype Statement = Statement(sets: seq<SetItem>, values: seq<Value>, whereId: nat, whereOwner: Option<nat>)

  /** The value bound to placeholder `$p`, if there is one. */
  function Bound(values: seq<Value>, p: nat): (r: Option<Value>)
    ensures r.Some? <==> 1 <= p <= |values|
    ensures r.Some? ==> r.value == values[p - 1]
  {
    if 1 <= p <= |values| then Some(values[p - 1]) else None
  }

  function SetColumns(sets: seq<SetItem>): (cols: seq<string>)
    ensures |cols| == |sets|
    ensures forall i :: 0 <= i < |sets| ==> cols[i] == sets[i].column
  {
    seq(|sets|, i requires 0 <= i < |sets| => sets[i].column)
  }

  /** The prepare-time error of one SET item, given every column of the
      table and the columns a parameter may be bound to. */
  function ItemError(columns: set<string>, writable: set<string>, item: SetItem, values: seq<Value>): Option<DbError> {
    if item.column !in columns then Some(UndefinedColumn(item.column))
    else match item
      case StampNow(_) => None
      case Assign(c, p) =>
        if Bound(values, p).None? then Some(BindMismatch)
        else if c !in writable then Some(UnsupportedAssignment(c))
        else None
  }

  /** The error a statement raises before any row is read: items are checked
      in order, and an item whose column an earlier item (in `seen`) already
      assigns is a duplicate assignment. */
  function FirstError(columns: set<string>, writable: set<string>, sets: seq<SetItem>, values: seq<Value>, seen: seq<string>): (e: Option<DbError>)
    ensures e.None? ==> Distinct(seen) ==> Distinct(seen + SetColumns(sets))
    ensures e.None? ==> forall i :: 0 <= i < |sets| ==> sets[i].column in columns
    ensures e.None? ==> forall i :: 0 <= i < |sets| && sets[i].Assign? ==>
      sets[i].column in writable && 1 <= sets[i].param <= |values|
    decreases |sets|
  {
    if sets == [] then None
    else
      var item := sets[0];
      var err := ItemError(columns, writable, item, values);
      if err.Some? then err
      else if item.column in seen then Some(DuplicateColumn)
      else
        var rest := FirstError(columns, writable, sets[1..], values, seen + [item.column]);
        assert seen + SetColumns(sets) == (seen + [item.column]) + SetColumns(sets[1..]);
        rest
  }

  function PrepareError(columns: set<string>, writable: set<string>, sets: seq<SetItem>, values: seq<Value>): (e: Option<DbError>)
    ensures e.None? ==> Distinct(SetColumns(sets))
    ensures e.None? ==> forall i :: 0 <= i < |sets| ==> sets[i].column in columns
    ensures e.None? ==> forall i :: 0 <= i < |sets| && sets[i].Assign? ==>
      sets[i].column in writable && 1 <= sets[i].param <= |values|
  {
    var e := FirstError(columns, writable, sets, values, []);
    assert [] + SetColumns(sets) == SetColumns(sets);
    e
  }

  /** Conversely, a statement whose items are all acceptable and whose
      columns are distinct prepares without error. */
  lemma {:induction false} FirstErrorNone(columns: set<string>, writable: set<string>, sets: seq<SetItem>, values: seq<Value>, seen: seq<string>)
    requires forall i :: 0 <= i < |sets| ==> ItemError(columns, writable, sets[i], values).None?
    requires Distinct(seen + SetColumns(sets))
    ensures FirstError(columns, writable, sets, values, seen).None?
    decreases |sets|
  {
    if sets != [] {
      var all := seen + SetColumns(sets);
      assert all[|seen|] == sets[0].column;
      assert sets[0].column !in seen by {
        forall i | 0 <= i < |seen|
          ensures seen[i] != sets[0].column
        {
          assert all[i] == seen[i];
        }
      }
      assert all == (seen + [sets[0].column]) + SetColumns(sets[1..]);
      FirstErrorNone(columns, writable, sets[1..], values, seen + [sets[0].column]);
    }
  }

  lemma PrepareErrorNone(columns: set<string>, writable: set<string>, sets: seq<SetItem>, values: seq<Value>)
    requires forall i :: 0 <= i < |sets| ==> ItemError(columns, writable, sets[i], values).None?
    requires Distinct(SetColumns(sets))
    ensures PrepareError(columns, writable, sets, values).None?
  {
    assert [] + SetColumns(sets) == SetColumns(sets);
    FirstErrorNone(columns, writable, sets, values, []);
  }

  /** The first rejected item decides the error when every earlier item is
      acceptable and assigns a new column. */
  lemma {:induction false} FirstErrorAt(columns: set<string>, writable: set<string>, sets: seq<SetItem>, values: seq<Value>, seen: seq<string>, j: nat)
    requires j < |sets|
    requires forall i :: 0 <= i < j ==> ItemError(columns, writable, sets[i], values).None?
    requires Distinct(seen + SetColumns(sets[..j]))
    requires ItemError(columns, writable, sets[j], values).Some?
    ensures FirstError(columns, writable, sets, values, seen) == ItemError(columns, writable, sets[j], values)
    decreases j
  {
    if j > 0 {
      var all := seen + SetColumns(sets[..j]);
      assert all[|seen|] == sets[0].column;
      assert sets[0].column !in seen by {
        forall i | 0 <= i < |seen|
          ensures seen[i] != sets[0].column
        {
          assert all[i] == seen[i];
        }
      }
      assert sets[1..][..j - 1] == sets[1..j];
      assert all == (seen + [sets[0].column]) + SetColumns(sets[1..][..j - 1]);
      FirstErrorAt(columns, writable, sets[1..], values, seen + [sets[0].column], j - 1);
    }
  }

  /** The error converting a bound value to the type of its column raises,
      given how the error of one parameter is found. The server converts
      every parameter before it reads any row, so such an error does not
      depend on the rows. */
  function FirstValueError(check: (string, Value) -> Option<DbError>, sets: seq<SetItem>, values: seq<Value>): (e: Option<DbError>)
    ensures e.None? <==> forall i :: 0 <= i < |sets| && sets[i].Assign? && 1 <= sets[i].param <= |values| ==>
      check(sets[i].column, values[sets[i].param - 1]).None?
    decreases |sets|
  {
    if sets == [] then None
    else
      var item := sets[0];
      var err := if item.Assign? && 1 <= item.param <= |values| then check(item.column, values[item.param - 1]) else None;
      if err.Some? then err
      else
        var rest := FirstValueError(check, sets[1..], values);
        assert forall i :: 1 <= i < |sets| ==> sets[i] == sets[1..][i - 1];
        rest
  }

  /* ---------- user_approvers and user_recipients ---------- */

  /** What a statement on a person table needs besides its rows: the user
      ids its foreign key references, and how the server reads timestamp
      text (which depends on its DateStyle and TimeZone settings). */
  datatype Env = Env(users: set<string>, readTime: string -> Option<Time>)

  /** The columns a parameter may be bound to: the owner, `created_at` and
      the contact fields. */
  function ContactWritable(t: ContactTable): set<string> {
    {"user_id", "created_at", ColumnName(t, Name), ColumnName(t, Email), ColumnName(t, ContactNumber1),
     ColumnName(t, ContactNumber2), ColumnName(t, Relationship), ColumnName(t, Instagram),
     ColumnName(t, Linkedin), ColumnName(t, Twitter), ColumnName(t, Facebook)}
  }

  /** Every column of the table (src/config/database.ts:74-108). */
  function ContactColumns(t: ContactTable): set<string> {
    {"id", "updated_at"} + ContactWritable(t)
  }

  /** The error converting `v` to the type of column `col` raises: text
      longer than a VARCHAR column takes, or text for `created_at` that
      the server does not read as a timestamp. */
  function ContactValueError(t: ContactTable, readTime: string -> Option<Time>, col: string, v: Value): (e: Option<DbError>)
    ensures e.Some? ==> v.Text?
    ensures col == "user_id" && v.Text? ==> (e.None? <==> FitsVarchar(UserIdWidth, v.s))
    ensures col == "created_at" && v.Text? ==> (e.None? <==> readTime(v.s).Some?)
    ensures FieldOfColumn(t, col).Some? && v.Text? ==> (e.None? <==> FitsVarchar(FieldOfColumn(t, col).value.Width(), v.s))
  {
    match v
    case Text(s) =>
      if col == "user_id" then (if FitsVarchar(UserIdWidth, s) then None else Some(StringTooLong(col)))
      else if col == "created_at" then (if readTime(s).Some? then None else Some(InvalidDatetime(col)))
      else (
        match FieldOfColumn(t, col)
        case Some(f) => if FitsVarchar(f.Width(), s) then None else Some(StringTooLong(col))
        case None => None)
    case _ => None
  }

  /** One `column = value` on a row: the value is converted (an error if it
      does not fit its column, text cut to the column's width otherwise), a
      NULL owner or name or email violates NOT NULL, and an owner that is
      not a user violates the foreign key. */
  function AssignContact(t: ContactTable, env: Env, row: ContactRow, col: string, v: Value): (r: Result<ContactRow, DbError>)
    ensures r.Ok? ==> r.value.updatedAt == row.updatedAt
    ensures r.Ok? && col != "created_at" ==> r.value.createdAt == row.createdAt
    ensures r.Ok? ==> r.value.userId in env.users + {row.userId}
    ensures r.Ok? && col == "user_id" ==> v.Text?
  {
    match ContactValueError(t, env.readTime, col, v)
    case Some(e) => Err(e)
    case None =>
      if col == "user_id" then
        match v
        case Text(u) =>
          var owner := StoredVarchar(UserIdWidth, u);
          if owner in env.users then Ok(row.(userId := owner)) else Err(ForeignKeyViolation)
        case SqlNull => Err(NotNullViolation(col))
        case _ => Err(UnsupportedAssignment(col))
      else if col == "created_at" then
        match v
        case Text(s) => Ok(row.(createdAt := env.readTime(s)))
        case SqlNull => Ok(row.(createdAt := None))
        case _ => Err(UnsupportedAssignment(col))
      else
        match FieldOfColumn(t, col)
        case None => Err(UndefinedColumn(col))
        case Some(f) =>
          match v
          case Text(s) => Ok(row.(contact := Put(row.contact, f, Some(StoredVarchar(f.Width(), s)))))
          case SqlNull =>
            if f.Nullable() then Ok(row.(contact := Put(row.contact, f, None))) else Err(NotNullViolation(col))
          case _ => Err(UnsupportedAssignment(col))
  }

  /** One SET item applied to a row. */
  function ContactStep(t: ContactTable, env: Env, row: ContactRow, item: SetItem, values: seq<Value>, now: Time): (r: Result<ContactRow, DbError>)
    ensures r.Ok? && item.column != "created_at" ==> r.value.createdAt == row.createdAt
    ensures r.Ok? ==> r.value.userId in env.users + {row.userId}
    ensures r.Ok? && item.Assign? ==> r.value.updatedAt == row.updatedAt
    ensures r.Ok? && item.column == "user_id" ==> item.Assign? && 1 <= item.param <= |values| && values[item.param - 1].Text?
  {
    match item
    case StampNow(c) => if c == "updated_at" then Ok(row.(updatedAt := now)) else Err(UnsupportedAssignment(c))
    case Assign(c, p) => if 1 <= p <= |values| then AssignContact(t, env, row, c, values[p - 1]) else Err(BindMismatch)
  }

  /** The SET list applied to one row, item after item (the columns are
      distinct, so this is the simultaneous assignment SQL performs). */
  function ApplyContactSets(t: ContactTable, env: Env, row: ContactRow, sets: seq<SetItem>, values: seq<Value>, now: Time): (r: Result<ContactRow, DbError>)
    ensures r.Ok? && (forall i :: 0 <= i < |sets| ==> sets[i].column != "created_at") ==> r.value.createdAt == row.createdAt
    ensures r.Ok? ==> r.value.userId in env.users + {row.userId}
    ensures r.Ok? && (forall i :: 0 <= i < |sets| ==> sets[i].Assign?) ==> r.value.updatedAt == row.updatedAt
    decreases |sets|
  {
    if sets == [] then Ok(row)
    else
      match ContactStep(t, env, row, sets[0], values, now)
      case Err(e) => Err(e)
      case Ok(next) =>
        assert forall i :: 1 <= i < |sets| ==> sets[i] == sets[1..][i - 1];
        ApplyContactSets(t, env, next, sets[1..], values, now)
  }

  /** Whether `col = v` is accepted: the value converts, and the owner it
      writes is a user and a NOT NULL field gets text. This does not depend
      on the row. */
  predicate AssignAccepts(t: ContactTable, env: Env, col: string, v: Value) {
    && ContactValueError(t, env.readTime, col, v).None?
    && if col == "user_id" then v.Text? && StoredVarchar(UserIdWidth, v.s) in env.users
       else if col == "created_at" then v.Text? || v.SqlNull?
       else FieldOfColumn(t, col).Some? && (v.Text? || (v.SqlNull? && FieldOfColumn(t, col).value.Nullable()))
  }

  /** Whether a SET item is accepted on any row. */
  predicate StepAccepts(t: ContactTable, env: Env, item: SetItem, values: seq<Value>) {
    match item
    case StampNow(c) => c == "updated_at"
    case Assign(c, p) => 1 <= p <= |values| && AssignAccepts(t, env, c, values[p - 1])
  }

  /** A SET list is accepted exactly when each of its items is. */
  lemma {:induction false} ApplyAccepts(t: ContactTable, env: Env, row: ContactRow, sets: seq<SetItem>, values: seq<Value>, now: Time)
    ensures ApplyContactSets(t, env, row, sets, values, now).Ok? <==>
      forall i :: 0 <= i < |sets| ==> StepAccepts(t, env, sets[i], values)
    decreases |sets|
  {
    if sets != [] {
      assert ContactStep(t, env, row, sets[0], values, now).Ok? <==> StepAccepts(t, env, sets[0], values);
      if ContactStep(t, env, row, sets[0], values, now).Ok? {
        var next := ContactStep(t, env, row, sets[0], values, now).value;
        ApplyAccepts(t, env, next, sets[1..], values, now);
        assert forall i :: 1 <= i < |sets| ==> sets[i] == sets[1..][i - 1];
      }
    }
  }

  /** The item of `sets` that assigns `col`, the first one if several do. */
  function Lookup(sets: seq<SetItem>, col: string): (r: Option<SetItem>)
    ensures r.None? <==> forall i :: 0 <= i < |sets| ==> sets[i].column != col
    ensures r.Some? ==> r.value.column == col
  {
    if sets == [] then None
    else if sets[0].column == col then Some(sets[0])
    else
      var r := Lookup(sets[1..], col);
      assert forall i :: 1 <= i < |sets| ==> sets[i] == sets[1..][i - 1];
      r
  }

  /** In a SET list with distinct columns, each column's item is found. */
  lemma {:induction false} LookupAt(sets: seq<SetItem>, j: nat)
    requires Distinct(SetColumns(sets)) && j < |sets|
    ensures Lookup(sets, sets[j].column) == Some(sets[j])
  {
    if j > 0 {
      assert SetColumns(sets)[0] != SetColumns(sets)[j];
      assert SetColumns(sets[1..]) == SetColumns(sets)[1..];
      assert sets[1..][j - 1] == sets[j];
      LookupAt(sets[1..], j - 1);
    }
  }

  /** The value a SET item binds, when it binds one. */
  function AssignedValue(item: SetItem, values: seq<Value>): Value {
    if item.Assign? && 1 <= item.param <= |values| then values[item.param - 1] else SqlNull
  }

  /** The cell a SET item writes into the nullable VARCHAR(n) column of a
      field: its text cut to the width, or NULL. */
  function AssignedCell(n: nat, item: SetItem, values: seq<Value>): Option<string> {
    match AssignedValue(item, values)
    case Text(s) => Some(StoredVarchar(n, s))
    case _ => None
  }

  /** The owner a SET item of `user_id` writes. */
  function AssignedOwner(item: SetItem, values: seq<Value>, current: string): string {
    match AssignedValue(item, values)
    case Text(u) => StoredVarchar(UserIdWidth, u)
    case _ => current
  }

  /** The creation time a SET item of `created_at` writes: the time its
      text is read as, or NULL. */
  function AssignedTime(readTime: string -> Option<Time>, item: SetItem, values: seq<Value>): Option<Time> {
    match AssignedValue(item, values)
    case Text(s) => readTime(s)
    case _ => None
  }

  /** One accepted SET item changes its own column and nothing else. */
  lemma ContactStepEffect(t: ContactTable, env: Env, row: ContactRow, item: SetItem, values: seq<Value>, now: Time)
    requires ContactStep(t, env, row, item, values, now).Ok?
    ensures var next := ContactStep(t, env, row, item, values, now).value;
      && (forall f :: Get(next.contact, f) == if item.column == ColumnName(t, f) then AssignedCell(f.Width(), item, values) else Get(row.contact, f))
      && next.userId == (if item.column == "user_id" then AssignedOwner(item, values, row.userId) else row.userId)
      && next.updatedAt == (if item.column == "updated_at" then now else row.updatedAt)
      && next.createdAt == (if item.column == "created_at" then AssignedTime(env.readTime, item, values) else row.createdAt)
  {
    var next := ContactStep(t, env, row, item, values, now).value;
    forall f
      ensures Get(next.contact, f) == if item.column == ColumnName(t, f) then AssignedCell(f.Width(), item, values) else Get(row.contact, f)
    {
      ContactStepField(t, env, row, item, values, now, f);
    }
    ContactStepOthers(t, env, row, item, values, now);
  }

  /** The owner and the timestamps after one accepted SET item. */
  lemma ContactStepOthers(t: ContactTable, env: Env, row: ContactRow, item: SetItem, values: seq<Value>, now: Time)
    requires ContactStep(t, env, row, item, values, now).Ok?
    ensures var next := ContactStep(t, env, row, item, values, now).value;
      && next.userId == (if item.column == "user_id" then AssignedOwner(item, values, row.userId) else row.userId)
      && next.updatedAt == (if item.column == "updated_at" then now else row.updatedAt)
      && next.createdAt == (if item.column == "created_at" then AssignedTime(env.readTime, item, values) else row.createdAt)
  {
    match item
    case StampNow(c) =>
    case Assign(c, p) =>
      var v := values[p - 1];
      assert ContactStep(t, env, row, item, values, now) == AssignContact(t, env, row, c, v);
      AssignOwner(t, env, row, c, v);
      AssignCreated(t, env, row, c, v);
  }

  /** Field `f` after one accepted SET item. */
  lemma ContactStepField(t: ContactTable, env: Env, row: ContactRow, item: SetItem, values: seq<Value>, now: Time, f: ContactField)
    requires ContactStep(t, env, row, item, values, now).Ok?
    ensures var next := ContactStep(t, env, row, item, values, now).value;
      Get(next.contact, f) == if item.column == ColumnName(t, f) then AssignedCell(f.Width(), item, values) else Get(row.contact, f)
  {
    if item.Assign? {
      AssignField(t, env, row, item.column, values[item.param - 1], f);
    } else {
      ColumnNameIsPrefixed(t, f);
    }
  }

  /** The owner after an accepted `col = v`. */
  lemma AssignOwner(t: ContactTable, env: Env, row: ContactRow, col: string, v: Value)
    requires AssignContact(t, env, row, col, v).Ok?
    ensures AssignContact(t, env, row, col, v).value.userId ==
      if col == "user_id" then StoredVarchar(UserIdWidth, v.s) else row.userId
  {
  }

  /** The creation time after an accepted `col = v`. */
  lemma AssignCreated(t: ContactTable, env: Env, row: ContactRow, col: string, v: Value)
    requires AssignContact(t, env, row, col, v).Ok?
    ensures AssignContact(t, env, row, col, v).value.createdAt ==
      if col != "created_at" then row.createdAt else if v.Text? then env.readTime(v.s) else None
  {
  }

  /** Field `f` after an accepted `col = v`. */
  lemma AssignField(t: ContactTable, env: Env, row: ContactRow, col: string, v: Value, f: ContactField)
    requires AssignContact(t, env, row, col, v).Ok?
    ensures Get(AssignContact(t, env, row, col, v).value.contact, f) ==
      if col != ColumnName(t, f) then Get(row.contact, f) else if v.Text? then Some(StoredVarchar(f.Width(), v.s)) else None
  {
    ColumnNameIsPrefixed(t, f);
    if col == ColumnName(t, f) {
      FieldOfColumnName(t, f);
    }
  }

  /** After an accepted SET list with distinct columns, each column holds
      what its item wrote, or what it held before when no item names it. */
  lemma {:induction false} ApplyContactSetsEffect(t: ContactTable, env: Env, row: ContactRow, sets: seq<SetItem>, values: seq<Value>, now: Time)
    requires Distinct(SetColumns(sets))
    requires ApplyContactSets(t, env, row, sets, values, now).Ok?
    ensures var r := ApplyContactSets(t, env, row, sets, values, now).value;
      && (forall f :: Get(r.contact, f) ==
            match Lookup(sets, ColumnName(t, f)) case None => Get(row.contact, f) case Some(item) => AssignedCell(f.Width(), item, values))
      && r.userId == (match Lookup(sets, "user_id") case None => row.userId case Some(item) => AssignedOwner(item, values, row.userId))
      && r.updatedAt == (if Lookup(sets, "updated_at").Some? then now else row.updatedAt)
      && r.createdAt == (match Lookup(sets, "created_at") case None => row.createdAt case Some(item) => AssignedTime(env.readTime, item, values))
    decreases |sets|
  {
    if sets != [] {
      ContactStepEffect(t, env, row, sets[0], values, now);
      var next := ContactStep(t, env, row, sets[0], values, now).value;
      var rest := sets[1..];
      assert SetColumns(rest) == SetColumns(sets)[1..];
      ApplyContactSetsEffect(t, env, next, rest, values, now);
      forall i | 0 <= i < |rest|
        ensures rest[i].column != sets[0].column
      {
        assert SetColumns(sets)[0] != SetColumns(sets)[i + 1];
      }
      assert Lookup(rest, sets[0].column).None?;
    }
  }

  /** The item of an accepted SET list that names field `f` decides it. */
  lemma FieldWritten(t: ContactTable, env: Env, row: ContactRow, sets: seq<SetItem>, values: seq<Value>, now: Time, j: nat, f: ContactField)
    requires Distinct(SetColumns(sets)) && ApplyContactSets(t, env, row, sets, values, now).Ok?
    requires j < |sets| && sets[j].column == ColumnName(t, f)
    ensures Get(ApplyContactSets(t, env, row, sets, values, now).value.contact, f) == AssignedCell(f.Width(), sets[j], values)
  {
    ApplyContactSetsEffect(t, env, row, sets, values, now);
    LookupAt(sets, j);
  }

  /** The item of an accepted SET list that names `user_id` binds a text. */
  lemma OwnerIsText(t: ContactTable, env: Env, row: ContactRow, sets: seq<SetItem>, values: seq<Value>, now: Time, j: nat)
    requires ApplyContactSets(t, env, row, sets, values, now).Ok?
    requires j < |sets| && sets[j].column == "user_id"
    ensures sets[j].Assign? && 1 <= sets[j].param <= |values| && values[sets[j].param - 1].Text?
  {
    ApplyAccepts(t, env, row, sets, values, now);
    assert StepAccepts(t, env, sets[j], values);
  }

  /** The owner a `user_id` item binding a text writes: that text, cut to
      the column's width. */
  lemma OwnerOfText(item: SetItem, values: seq<Value>, current: string)
    requires item.Assign? && 1 <= item.param <= |values| && values[item.param - 1].Text?
    ensures AssignedOwner(item, values, current) == StoredVarchar(UserIdWidth, values[item.param - 1].s)
  {
  }

  /** The item of an accepted SET list that names `user_id` decides the
      owner. */
  lemma OwnerAssigned(t: ContactTable, env: Env, row: ContactRow, sets: seq<SetItem>, values: seq<Value>, now: Time, j: nat)
    requires Distinct(SetColumns(sets)) && ApplyContactSets(t, env, row, sets, values, now).Ok?
    requires j < |sets| && sets[j].column == "user_id"
    ensures ApplyContactSets(t, env, row, sets, values, now).value.userId == AssignedOwner(sets[j], values, row.userId)
  {
    ApplyContactSetsEffect(t, env, row, sets, values, now);
    LookupAt(sets, j);
  }

  /** The item of an accepted SET list that names `created_at` decides it. */
  lemma CreatedWritten(t: ContactTable, env: Env, row: ContactRow, sets: seq<SetItem>, values: seq<Value>, now: Time, j: nat)
    requires Distinct(SetColumns(sets)) && ApplyContactSets(t, env, row, sets, values, now).Ok?
    requires j < |sets| && sets[j].column == "created_at"
    ensures ApplyContactSets(t, env, row, sets, values, now).value.createdAt == AssignedTime(env.readTime, sets[j], values)
  {
    ApplyContactSetsEffect(t, env, row, sets, values, now);
    LookupAt(sets, j);
  }

  /** A SET list that names no column of field `f` leaves that field. */
  lemma FieldUntouched(t: ContactTable, env: Env, row: ContactRow, sets: seq<SetItem>, values: seq<Value>, now: Time, f: ContactField)
    requires Distinct(SetColumns(sets)) && ApplyContactSets(t, env, row, sets, values, now).Ok?
    requires forall j :: 0 <= j < |sets| ==> sets[j].column != ColumnName(t, f)
    ensures Get(ApplyContactSets(t, env, row, sets, values, now).value.contact, f) == Get(row.contact, f)
  {
    ApplyContactSetsEffect(t, env, row, sets, values, now);
  }

  /** A SET list without a `user_id` item leaves the owner. */
  lemma OwnerUntouched(t: ContactTable, env: Env, row: ContactRow, sets: seq<SetItem>, values: seq<Value>, now: Time)
    requires Distinct(SetColumns(sets)) && ApplyContactSets(t, env, row, sets, values, now).Ok?
    requires forall j :: 0 <= j < |sets| ==> sets[j].column != "user_id"
    ensures ApplyContactSets(t, env, row, sets, values, now).value.userId == row.userId
  {
    ApplyContactSetsEffect(t, env, row, sets, values, now);
  }

  /** Whether the row with key `id` satisfies the optional owner condition. */
  function OwnerMatches(owner: Option<nat>, values: seq<Value>, rowOwner: string): bool {
    match owner
    case None => true
    case Some(p) => Bound(values, p) == Some(Text(rowOwner))
  }

  /** Executes an UPDATE on `user_approvers` or `user_recipients`: `Ok(None)`
      when no row matched, otherwise the id and the new row. Errors of the
      statement itself (unknown or repeated column, a value its column does
      not take, an id outside the range of the SERIAL column) come before
      any row is read; NOT NULL and the foreign key are checked on the
      matched row. */
  function ExecContactUpdate(t: ContactTable, env: Env, rows: map<int, ContactRow>, stmt: Statement, now: Time): (r: Result<Option<(int, ContactRow)>, DbError>)
    ensures r.Ok? ==> PrepareError(ContactColumns(t), ContactWritable(t), stmt.sets, stmt.values).None?
    ensures r.Ok? ==> exists id :: Bound(stmt.values, stmt.whereId) == Some(Int(id)) && IsInt4(id)
    ensures r.Ok? && r.value.Some? ==> var id := r.value.value.0;
      && id in rows && Bound(stmt.values, stmt.whereId) == Some(Int(id))
      && OwnerMatches(stmt.whereOwner, stmt.values, rows[id].userId)
    ensures r.Ok? && r.value.None? ==> forall id :: Bound(stmt.values, stmt.whereId) == Some(Int(id)) ==>
      !(id in rows && OwnerMatches(stmt.whereOwner, stmt.values, rows[id].userId))
  {
    match PrepareError(ContactColumns(t), ContactWritable(t), stmt.sets, stmt.values)
    case Some(e) => Err(e)
    case None =>
      match FirstValueError((c, v) => ContactValueError(t, env.readTime, c, v), stmt.sets, stmt.values)
      case Some(e) => Err(e)
      case None =>
        match Bound(stmt.values, stmt.whereId)
        case Some(Int(id)) =>
          if !IsInt4(id) then Err(NumericOutOfRange)
          else if id in rows && OwnerMatches(stmt.whereOwner, stmt.values, rows[id].userId) then
            match ApplyContactSets(t, env, rows[id], stmt.sets, stmt.values, now)
            case Ok(row) => Ok(Some((id, row)))
            case Err(e) => Err(e)
          else Ok(None)
        case _ => Err(BindMismatch)
  }

  /** A matched update binds the id at `whereId`, has distinct SET columns
      and yields the row its SET list produces. */
  lemma ExecContactUpdateRow(t: ContactTable, env: Env, rows: map<int, ContactRow>, stmt: Statement, now: Time)
    requires ExecContactUpdate(t, env, rows, stmt, now).Ok? && ExecContactUpdate(t, env, rows, stmt, now).value.Some?
    ensures var (key, after) := ExecContactUpdate(t, env, rows, stmt, now).value.value;
      && Bound(stmt.values, stmt.whereId) == Some(Int(key)) && key in rows
      && Distinct(SetColumns(stmt.sets))
      && ApplyContactSets(t, env, rows[key], stmt.sets, stmt.values, now) == Ok(after)
  {
  }

  /** `UPDATE … SET cols[0] = $1, …, cols[k-1] = $k, updated_at =
      CURRENT_TIMESTAMP WHERE id = $(k+1)` with `vals` bound to `$1 … $k`. */
  predicate Keyed(cols: seq<string>, vals: seq<Value>, s: Statement) {
    var k := |cols|;
    && |vals| == k && |s.sets| == k + 1 && |s.values| == k + 1
    && (forall j :: 0 <= j < k ==> s.sets[j] == Assign(cols[j], j + 1) && s.values[j] == vals[j])
    && s.sets[k] == StampNow("updated_at")
  }

  /** `updated_at` is a column no parameter is bound to. */
  lemma StampNotWritable(t: ContactTable)
    ensures "updated_at" in ContactColumns(t) && "updated_at" !in ContactWritable(t)
    ensures ContactWritable(t) <= ContactColumns(t)
  {
    forall f
      ensures ColumnName(t, f) != "updated_at"
    {
      ColumnNameIsPrefixed(t, f);
    }
  }

  /** Such a statement prepares exactly when its columns are distinct and
      each may be bound to. */
  lemma KeyedPrepares(columns: set<string>, writable: set<string>, cols: seq<string>, vals: seq<Value>, s: Statement)
    requires Keyed(cols, vals, s)
    requires "updated_at" in columns && "updated_at" !in writable && writable <= columns
    ensures PrepareError(columns, writable, s.sets, s.values).None? <==>
      (forall j :: 0 <= j < |cols| ==> cols[j] in writable) && Distinct(cols)
  {
    var k := |cols|;
    if PrepareError(columns, writable, s.sets, s.values).None? {
      forall i, j | 0 <= i < j < k
        ensures cols[i] != cols[j]
      {
        assert SetColumns(s.sets)[i] == cols[i] && SetColumns(s.sets)[j] == cols[j];
      }
    }
    if (forall j :: 0 <= j < k ==> cols[j] in writable) && Distinct(cols) {
      forall i | 0 <= i < |s.sets|
        ensures ItemError(columns, writable, s.sets[i], s.values).None?
      {
      }
      forall i, j | 0 <= i < j < |s.sets|
        ensures SetColumns(s.sets)[i] != SetColumns(s.sets)[j]
      {
      }
      PrepareErrorNone(columns, writable, s.sets, s.values);
    }
  }

  /** Such a statement's values convert exactly when each of `vals` does. */
  lemma KeyedConverts(check: (string, Value) -> Option<DbError>, cols: seq<string>, vals: seq<Value>, s: Statement)
    requires Keyed(cols, vals, s)
    ensures FirstValueError(check, s.sets, s.values).None? <==>
      forall j :: 0 <= j < |cols| ==> check(cols[j], vals[j]).None?
  {
    if FirstValueError(check, s.sets, s.values).None? {
      forall j | 0 <= j < |cols|
        ensures check(cols[j], vals[j]).None?
      {
        assert s.sets[j].Assign? && s.sets[j].param == j + 1;
      }
    }
  }

  /** Such a SET list is accepted on a row exactly when each assignment is. */
  lemma KeyedAccepts(t: ContactTable, env: Env, row: ContactRow, cols: seq<string>, vals: seq<Value>, s: Statement, now: Time)
    requires Keyed(cols, vals, s)
    ensures ApplyContactSets(t, env, row, s.sets, s.values, now).Ok? <==>
      forall j :: 0 <= j < |cols| ==> AssignAccepts(t, env, cols[j], vals[j])
  {
    ApplyAccepts(t, env, row, s.sets, s.values, now);
    forall j | 0 <= j < |cols|
      ensures StepAccepts(t, env, s.sets[j], s.values) <==> AssignAccepts(t, env, cols[j], vals[j])
    {
      KeyedStep(t, env, cols, vals, s, j);
    }
    assert StepAccepts(t, env, s.sets[|cols|], s.values);
  }

  /** The `j`-th item of such a list is accepted exactly when its
      assignment is. */
  lemma KeyedStep(t: ContactTable, env: Env, cols: seq<string>, vals: seq<Value>, s: Statement, j: nat)
    requires Keyed(cols, vals, s) && j < |cols|
    ensures StepAccepts(t, env, s.sets[j], s.values) <==> AssignAccepts(t, env, cols[j], vals[j])
  {
    assert s.sets[j] == Assign(cols[j], j + 1) && s.values[j] == vals[j];
  }

  /** The row an INSERT starts from before its listed columns are assigned. */
  function BlankContact(now: Time): ContactRow {
    ContactRow("", Contact("", "", None, None, None, None, None, None, None), Some(now), now)
  }

  /** The assignments `cols[i] = $(i+1)` an INSERT's column list stands for. */
  function InsertSets(cols: seq<string>): (sets: seq<SetItem>)
    ensures |sets| == |cols|
    ensures forall i :: 0 <= i < |cols| ==> sets[i] == Assign(cols[i], i + 1)
  {
    seq(|cols|, i requires 0 <= i < |cols| => Assign(cols[i], i + 1))
  }

  /** `INSERT INTO t (cols) VALUES ($1, …, $k)` with `values` bound: unknown
      or repeated columns fail, so does a value count other than k, and so do
      NOT NULL columns left out of `cols`. */
  function ExecContactInsert(t: ContactTable, env: Env, cols: seq<string>, values: seq<Value>, now: Time): (r: Result<ContactRow, DbError>)
    ensures r.Ok? ==> r.value.userId in env.users
    ensures r.Ok? && "created_at" !in cols ==> r.value.createdAt == Some(now)
    ensures r.Ok? ==> r.value.updatedAt == now
  {
    var sets := InsertSets(cols);
    match PrepareError(ContactColumns(t), ContactWritable(t), sets, values)
    case Some(e) => Err(e)
    case None =>
      if |values| != |cols| then Err(BindMismatch)
      else if "user_id" !in cols then Err(NotNullViolation("user_id"))
      else if ColumnName(t, Name) !in cols then Err(NotNullViolation(ColumnName(t, Name)))
      else if ColumnName(t, Email) !in cols then Err(NotNullViolation(ColumnName(t, Email)))
      else
        match ApplyContactSets(t, env, BlankContact(now), sets, values, now)
        case Err(e) => Err(e)
        case Ok(row) =>
          if row.userId in env.users then Ok(row) else Err(ForeignKeyViolation)
  }

  /* ---------- user_notes ---------- */

  /** The columns the models read from `user_notes`; its DDL is not among
      the shown files. */
  const NoteColumns: set<string> := {"id", "user_id", "note", "attachment", "recipient_ids", "created_at", "updated_at"}

  const NoteWritable: set<string> := {"note", "attachment", "recipient_ids"}

  function AssignNote(row: NoteRow, col: string, v: Value): (r: Result<NoteRow, DbError>)
    ensures r.Ok? ==> r.value.userId == row.userId && r.value.createdAt == row.createdAt && r.value.updatedAt == row.updatedAt
  {
    if col == "note" then
      match v
      case Text(s) => Ok(row.(note := s))
      case _ => Err(UnsupportedAssignment(col))
    else if col == "attachment" then
      match v
      case Text(s) => Ok(row.(attachment := Some(s)))
      case SqlNull => Ok(row.(attachment := None))
      case _ => Err(UnsupportedAssignment(col))
    else if col == "recipient_ids" then
      match v
      case IntArray(ids) => Ok(row.(recipientIds := Some(ids)))
      case SqlNull => Ok(row.(recipientIds := None))
      case _ => Err(UnsupportedAssignment(col))
    else Err(UndefinedColumn(col))
  }

  function ApplyNoteSets(row: NoteRow, sets: seq<SetItem>, values: seq<Value>, now: Time): (r: Result<NoteRow, DbError>)
    ensures r.Ok? ==> r.value.userId == row.userId && r.value.createdAt == row.createdAt
    decreases |sets|
  {
    if sets == [] then Ok(row)
    else
      var step :=
        match sets[0]
        case StampNow(c) => if c == "updated_at" then Ok(row.(updatedAt := now)) else Err(UnsupportedAssignment(c))
        case Assign(c, p) => if 1 <= p <= |values| then AssignNote(row, c, values[p - 1]) else Err(BindMismatch);
      match step
      case Err(e) => Err(e)
      case Ok(next) => ApplyNoteSets(next, sets[1..], values, now)
  }

  /** Executes an UPDATE on `user_notes`. */
  function ExecNoteUpdate(rows: map<int, NoteRow>, stmt: Statement, now: Time): (r: Result<Option<(int, NoteRow)>, DbError>)
    ensures r.Ok? && r.value.Some? ==> r.value.value.0 in rows && r.value.value.1.userId == rows[r.value.value.0].userId
  {
    match PrepareError(NoteColumns, NoteWritable, stmt.sets, stmt.values)
    case Some(e) => Err(e)
    case None =>
      match Bound(stmt.values, stmt.whereId)
      case Some(Int(id)) =>
        if id in rows && OwnerMatches(stmt.whereOwner, stmt.values, rows[id].userId) then
          match ApplyNoteSets(rows[id], stmt.sets, stmt.values, now)
          case Ok(row) => Ok(Some((id, row)))
          case Err(e) => Err(e)
        else Ok(None)
      case _ => Err(BindMismatch)
  }

  /* ---------- users ---------- */

  const UserColumns: set<string> := {"id", "email", "name", "picture", "provider", "created_at", "updated_at", "last_login"}

  /** The columns the source binds parameters to in `users`. */
  const UserWritable: set<string> := {"name", "picture"}

  /** The error converting `v` to the type of column `col` of `users`
      raises: `name` is a VARCHAR(255); `picture` is TEXT. */
  function UserValueError(col: string, v: Value): (e: Option<DbError>)
    ensures col == "name" && v.Text? ==> (e.None? <==> FitsVarchar(UserNameWidth, v.s))
    ensures col != "name" ==> e.None?
  {
    if col == "name" && v.Text? && !FitsVarchar(UserNameWidth, v.s) then Some(StringTooLong(col)) else None
  }

  function AssignUser(row: UserRow, col: string, v: Value): (r: Result<UserRow, DbError>)
    ensures r.Ok? ==> r.value.email == row.email && r.value.createdAt == row.createdAt
  {
    match UserValueError(col, v)
    case Some(e) => Err(e)
    case None =>
      if col == "name" then
        match v
        case Text(s) => Ok(row.(name := StoredVarchar(UserNameWidth, s)))
        case SqlNull => Err(NotNullViolation(col))
        case _ => Err(UnsupportedAssignment(col))
      else if col == "picture" then
        match v
        case Text(s) => Ok(row.(picture := Some(s)))
        case SqlNull => Ok(row.(picture := None))
        case _ => Err(UnsupportedAssignment(col))
      else Err(UnsupportedAssignment(col))
  }

  function ApplyUserSets(row: UserRow, sets: seq<SetItem>, values: seq<Value>, now: Time): (r: Result<UserRow, DbError>)
    ensures r.Ok? ==> r.value.email == row.email && r.value.createdAt == row.createdAt
    decreases |sets|
  {
    if sets == [] then Ok(row)
    else
      var step :=
        match sets[0]
        case StampNow(c) =>
          if c == "updated_at" then Ok(row.(updatedAt := now))
          else if c == "last_login" then Ok(row.(lastLogin := now))
          else Err(UnsupportedAssignment(c))
        case Assign(c, p) => if 1 <= p <= |values| then AssignUser(row, c, values[p - 1]) else Err(BindMismatch);
      match step
      case Err(e) => Err(e)
      case Ok(next) => ApplyUserSets(next, sets[1..], values, now)
  }

  /** Executes an UPDATE on `users`, whose key is the external id; a value
      its column does not take fails before any row is read. */
  function ExecUserUpdate(rows: map<string, UserRow>, stmt: Statement, now: Time): (r: Result<Option<(string, UserRow)>, DbError>)
    ensures r.Ok? && r.value.Some? ==> r.value.value.0 in rows && r.value.value.1.email == rows[r.value.value.0].email
  {
    match PrepareError(UserColumns, UserWritable, stmt.sets, stmt.values)
    case Some(e) => Err(e)
    case None =>
      match FirstValueError(UserValueError, stmt.sets, stmt.values)
      case Some(e) => Err(e)
      case None =>
        match Bound(stmt.values, stmt.whereId)
        case Some(Text(id)) =>
          if id in rows then
            match ApplyUserSets(rows[id], stmt.sets, stmt.values, now)
            case Ok(row) => Ok(Some((id, row)))
            case Err(e) => Err(e)
          else Ok(None)
        case _ => Err(BindMismatch)
  }
}
