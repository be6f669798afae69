/** The ten-column INSERT `addRecipient` sends (src/models/RecipientProfile.ts:8-27)
    and `addApprover` evidently means to send (src/models/UserProfile.ts:130-150):
    the owner, the NOT NULL name and email as given, and every optional
    field as `value || null`. */
module ContactInsert {
  import opened Common
  import opened Schema
  import opened Sql

  /** The record a create route passes to the model: the owner and the nine
      contact fields as the request body holds them. */
  datatype ContactData = ContactData(
    userId: string,
    name: JsText,
    email: JsText,
    contactNumber1: JsText,
    contactNumber2: JsText,
    relationship: JsText,
    instagram: JsText,
    linkedin: JsText,
    twitter: JsText,
    facebook: JsText)

  /** The body value of field `f`. */
  function Raw(d: ContactData, f: ContactField): JsText {
    match f
    case Name => d.name
    case Email => d.email
    case ContactNumber1 => d.contactNumber1
    case ContactNumber2 => d.contactNumber2
    case Relationship => d.relationship
    case Instagram => d.instagram
    case Linkedin => d.linkedin
    case Twitter => d.twitter
    case Facebook => d.facebook
  }

  /** A body value bound as given: a string, or NULL for `null`/`undefined`. */
  function AsGiven(v: JsText): (r: Value)
    ensures r.Text? <==> v.Str?
    ensures r.Text? ==> r.s == v.s
  {
    if v.Str? then Text(v.s) else SqlNull
  }

  /** The value bound for field `f`: name and email as given, every other
      field as `value || null`. */
  function BoundFor(d: ContactData, f: ContactField): (v: Value)
    ensures v.Text? || v.SqlNull?
    ensures f.Nullable() ==> AsCell(v) == OrNull(Raw(d, f))
    ensures !f.Nullable() ==> (v.Text? <==> Raw(d, f).Str?)
  {
    if f.Nullable() then CellValue(OrNull(Raw(d, f))) else AsGiven(Raw(d, f))
  }

  /** `user_id` and the nine contact columns of `t`, in the order of the DDL. */
  function InsertColumns(t: ContactTable): (cols: seq<string>)
    ensures |cols| == 1 + |Fields| && cols[0] == "user_id"
    ensures forall i :: 0 <= i < |Fields| ==> cols[i + 1] == ColumnName(t, Fields[i])
  {
    ["user_id"] + seq(|Fields|, i requires 0 <= i < |Fields| => ColumnName(t, Fields[i]))
  }

  /** The ten values, in the same order. */
  function InsertValues(d: ContactData): (vs: seq<Value>)
    ensures |vs| == 1 + |Fields| && vs[0] == Text(d.userId)
    ensures forall i :: 0 <= i < |Fields| ==> vs[i + 1] == BoundFor(d, Fields[i])
  {
    [Text(d.userId)] + seq(|Fields|, i requires 0 <= i < |Fields| => BoundFor(d, Fields[i]))
  }

  /** Every bound text fits its VARCHAR column: the owner its 255
      characters, each field the width of its column. */
  predicate InsertFits(d: ContactData) {
    && FitsVarchar(UserIdWidth, d.userId)
    && forall f :: BoundFor(d, f).Text? ==> FitsVarchar(f.Width(), BoundFor(d, f).s)
  }

  /** The owner a successful insert stores: the id cut to its column. */
  function StoredOwner(d: ContactData): string {
    StoredVarchar(UserIdWidth, d.userId)
  }

  /** The contact a successful insert stores: each bound text cut to the
      width of its column. */
  function StoredContact(d: ContactData): (c: Contact)
    requires d.name.Str? && d.email.Str?
    ensures forall f :: Get(c, f) == StoredCell(f.Width(), AsCell(BoundFor(d, f)))
  {
    Contact(StoredVarchar(Name.Width(), d.name.s), StoredVarchar(Email.Width(), d.email.s),
            StoredCell(ContactNumber1.Width(), OrNull(d.contactNumber1)),
            StoredCell(ContactNumber2.Width(), OrNull(d.contactNumber2)),
            StoredCell(Relationship.Width(), OrNull(d.relationship)),
            StoredCell(Instagram.Width(), OrNull(d.instagram)),
            StoredCell(Linkedin.Width(), OrNull(d.linkedin)),
            StoredCell(Twitter.Width(), OrNull(d.twitter)),
            StoredCell(Facebook.Width(), OrNull(d.facebook)))
  }

  /** The contact columns of a table are distinct and differ from `user_id`
      and the timestamps. */
  lemma ColumnsDistinct(t: ContactTable)
    ensures Distinct(InsertColumns(t))
    ensures forall i :: 0 <= i < |InsertColumns(t)| ==> InsertColumns(t)[i] != "updated_at" && InsertColumns(t)[i] != "created_at"
  {
    var cols := InsertColumns(t);
    FieldsDistinct();
    forall i, j | 0 <= i < j < |cols|
      ensures cols[i] != cols[j]
    {
      ColumnNameIsPrefixed(t, Fields[j - 1]);
      if i > 0 {
        assert Fields[i - 1] != Fields[j - 1];
        FieldOfColumnName(t, Fields[i - 1]);
        FieldOfColumnName(t, Fields[j - 1]);
      }
    }
    forall i | 0 < i < |cols|
      ensures cols[i] != "updated_at" && cols[i] != "created_at"
    {
      ColumnNameIsPrefixed(t, Fields[i - 1]);
    }
  }

  /** The ten columns are known, distinct and writable. */
  lemma InsertPrepares(t: ContactTable, d: ContactData)
    ensures PrepareError(ContactColumns(t), ContactWritable(t), InsertSets(InsertColumns(t)), InsertValues(d)).None?
  {
    var cols := InsertColumns(t);
    var sets := InsertSets(cols);
    ColumnsDistinct(t);
    assert SetColumns(sets) == cols;
    forall i | 0 < i < |sets|
      ensures sets[i].column in ContactWritable(t)
    {
      ColumnWritable(t, Fields[i - 1]);
    }
    PrepareErrorNone(ContactColumns(t), ContactWritable(t), sets, InsertValues(d));
  }

  /** Every contact column may be assigned; this follows from the
      definitions directly. */
  lemma ColumnWritable(t: ContactTable, f: ContactField)
    ensures ColumnName(t, f) in ContactWritable(t)
  {
  }

  /** The insert succeeds exactly when every text fits its column, the
      owner exists and a name and an email are given; the row then holds
      the given name and email, every optional field as `value || null`,
      each cut to its column's width, and the current time in both
      timestamps. */
  lemma InsertEffect(t: ContactTable, env: Env, d: ContactData, now: Time)
    ensures var r := ExecContactInsert(t, env, InsertColumns(t), InsertValues(d), now);
      && (r.Ok? <==> InsertFits(d) && StoredOwner(d) in env.users && d.name.Str? && d.email.Str?)
      && (r.Ok? ==> r.value == ContactRow(StoredOwner(d), StoredContact(d), Some(now), now))
  {
    var sets := InsertSets(InsertColumns(t));
    var values := InsertValues(d);
    var blank := BlankContact(now);
    InsertReachesRow(t, env, d, now);
    ApplyAccepts(t, env, blank, sets, values, now);
    if InsertFits(d) && StoredOwner(d) in env.users && d.name.Str? && d.email.Str? {
      InsertApplies(t, env, d, now);
    } else if !FitsVarchar(UserIdWidth, d.userId) || StoredOwner(d) !in env.users {
      assert !StepAccepts(t, env, sets[0], values);
    } else if !InsertFits(d) {
      var f :| BoundFor(d, f).Text? && !FitsVarchar(f.Width(), BoundFor(d, f).s);
      FieldRejected(t, env, d, f);
    } else if !d.name.Str? {
      FieldRejected(t, env, d, Name);
    } else {
      FieldRejected(t, env, d, Email);
    }
  }

  /** The insert passes its prepare-time and column-list checks, so its
      outcome is that of assigning the ten values to a blank row, followed
      by the foreign-key check. */
  lemma InsertReachesRow(t: ContactTable, env: Env, d: ContactData, now: Time)
    ensures var sets := InsertSets(InsertColumns(t));
      ExecContactInsert(t, env, InsertColumns(t), InsertValues(d), now) ==
        match ApplyContactSets(t, env, BlankContact(now), sets, InsertValues(d), now)
        case Err(e) => Err(e)
        case Ok(row) => if row.userId in env.users then Ok(row) else Err(ForeignKeyViolation)
  {
    InsertPrepares(t, d);
    var cols := InsertColumns(t);
    assert cols[1] == ColumnName(t, Name) && cols[2] == ColumnName(t, Email);
  }

  /** The item of field `f` is refused when its text is too long for the
      column, or when the column is NOT NULL and no string is given. */
  lemma FieldRejected(t: ContactTable, env: Env, d: ContactData, f: ContactField)
    requires (BoundFor(d, f).Text? && !FitsVarchar(f.Width(), BoundFor(d, f).s)) || (!f.Nullable() && !Raw(d, f).Str?)
    ensures !StepAccepts(t, env, InsertSets(InsertColumns(t))[FieldIndex(f) + 1], InsertValues(d))
  {
    var i := FieldIndex(f);
    var sets := InsertSets(InsertColumns(t));
    assert sets[i + 1] == Assign(ColumnName(t, f), i + 2);
    assert InsertValues(d)[i + 1] == BoundFor(d, f);
    FieldOfColumnName(t, f);
    ColumnNameIsPrefixed(t, f);
  }

  /** Sends the insert for `d`, with the outcome `InsertEffect` states. */
  method RunContactInsert(t: ContactTable, env: Env, d: ContactData, now: Time) returns (res: Result<ContactRow, DbError>)
    ensures res.Ok? <==> InsertFits(d) && StoredOwner(d) in env.users && d.name.Str? && d.email.Str?
    ensures res.Ok? ==> res.value == ContactRow(StoredOwner(d), StoredContact(d), Some(now), now)
  {
    res := ExecContactInsert(t, env, InsertColumns(t), InsertValues(d), now);
    InsertEffect(t, env, d, now);
  }

  /** With fitting texts, an existing owner, a name and an email, each
      item of the insert is accepted. */
  lemma InsertStepAccepted(t: ContactTable, env: Env, d: ContactData, i: nat)
    requires InsertFits(d) && StoredOwner(d) in env.users && d.name.Str? && d.email.Str?
    requires i < |InsertColumns(t)|
    ensures StepAccepts(t, env, InsertSets(InsertColumns(t))[i], InsertValues(d))
  {
    if i > 0 {
      var f := Fields[i - 1];
      FieldOfColumnName(t, f);
      ColumnNameIsPrefixed(t, f);
      assert InsertValues(d)[i] == BoundFor(d, f);
    }
  }

  /** With fitting texts, an existing owner, a name and an email, the items
      write the expected row. */
  lemma InsertApplies(t: ContactTable, env: Env, d: ContactData, now: Time)
    requires InsertFits(d) && StoredOwner(d) in env.users && d.name.Str? && d.email.Str?
    ensures ApplyContactSets(t, env, BlankContact(now), InsertSets(InsertColumns(t)), InsertValues(d), now)
      == Ok(ContactRow(StoredOwner(d), StoredContact(d), Some(now), now))
  {
    var cols := InsertColumns(t);
    var sets := InsertSets(cols);
    var values := InsertValues(d);
    var blank := BlankContact(now);
    forall i | 0 <= i < |sets|
      ensures StepAccepts(t, env, sets[i], values)
    {
      InsertStepAccepted(t, env, d, i);
    }
    ApplyAccepts(t, env, blank, sets, values, now);
    ColumnsDistinct(t);
    assert SetColumns(sets) == cols;
    ApplyContactSetsEffect(t, env, blank, sets, values, now);
    var r := ApplyContactSets(t, env, blank, sets, values, now).value;
    forall f
      ensures Get(r.contact, f) == Get(StoredContact(d), f)
    {
      InsertFieldStored(t, d, f);
    }
    ContactsEqual(r.contact, StoredContact(d));
    LookupAt(sets, 0);
    assert Lookup(sets, "updated_at").None?;
    assert Lookup(sets, "created_at").None?;
  }

  /** The item of the insert that names field `f` writes what
      `StoredContact` holds for it. */
  lemma InsertFieldStored(t: ContactTable, d: ContactData, f: ContactField)
    requires d.name.Str? && d.email.Str?
    ensures var sets := InsertSets(InsertColumns(t));
      && Distinct(SetColumns(sets))
      && Lookup(sets, ColumnName(t, f)) == Some(sets[FieldIndex(f) + 1])
      && AssignedCell(f.Width(), sets[FieldIndex(f) + 1], InsertValues(d)) == Get(StoredContact(d), f)
  {
    var cols := InsertColumns(t);
    var sets := InsertSets(cols);
    ColumnsDistinct(t);
    assert SetColumns(sets) == cols;
    var i := FieldIndex(f);
    LookupAt(sets, i + 1);
    var v := InsertValues(d)[i + 1];
    assert v == BoundFor(d, f);
    assert AssignedValue(sets[i + 1], InsertValues(d)) == v;
    CellOfValue(f.Width(), v);
  }

  /** The cell a bound text or NULL leaves in a VARCHAR(n) column. */
  lemma CellOfValue(n: nat, v: Value)
    requires v.Text? || v.SqlNull?
    ensures (match v case Text(s) => Some(StoredVarchar(n, s)) case _ => None) == StoredCell(n, AsCell(v))
  {
  }
}
