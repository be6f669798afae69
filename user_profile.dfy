/** `UserProfileModel` (src/models/UserProfile.ts): the extended profile of a
    user, kept one per user by an upsert, and the user's approvers, which
    may only be deleted while at least two others remain. */
module UserProfileModel {
  import opened Common
  import opened Schema
  import opened Sql
  import opened Store
  import opened ContactUpdate
  import opened ContactInsert
  import opened CamelKeys

  /* ---------- upsertProfile ---------- */

  /** `Partial<UserProfile>` as the extended-profile route passes it; an age
      that is absent or `null` is `None`. */
  datatype ProfileData = ProfileData(
    age: Option<int>,
    contactNumber1: JsText,
    contactNumber2: JsText,
    instagramHandle: JsText,
    linkedinProfile: JsText,
    twitterHandle: JsText,
    facebookProfile: JsText)

  /** The seven values of the upsert, each `value || null`: a falsy value,
      including the age `0` and the empty string, is stored as NULL. */
  function ProfileValues(d: ProfileData): (p: ProfileFields)
    ensures p.age.None? <==> d.age.None? || d.age == Some(0)
    ensures p.age.Some? ==> d.age == p.age
    ensures p.contactNumber1 == OrNull(d.contactNumber1) && p.contactNumber2 == OrNull(d.contactNumber2)
    ensures p.instagramHandle == OrNull(d.instagramHandle) && p.linkedinProfile == OrNull(d.linkedinProfile)
    ensures p.twitterHandle == OrNull(d.twitterHandle) && p.facebookProfile == OrNull(d.facebookProfile)
  {
    ProfileFields(
      if d.age.Some? && d.age.value != 0 then d.age else None,
      OrNull(d.contactNumber1), OrNull(d.contactNumber2),
      OrNull(d.instagramHandle), OrNull(d.linkedinProfile),
      OrNull(d.twitterHandle), OrNull(d.facebookProfile))
  }

  /** Every value of the upsert fits its column: the age is an INTEGER and
      each text is no wider than its VARCHAR. */
  predicate ProfileFits(p: ProfileFields) {
    && (p.age.Some? ==> IsInt4(p.age.value))
    && CellFits(ProfileNumberWidth, p.contactNumber1) && CellFits(ProfileNumberWidth, p.contactNumber2)
    && CellFits(ProfileHandleWidth, p.instagramHandle) && CellFits(ProfileLinkWidth, p.linkedinProfile)
    && CellFits(ProfileHandleWidth, p.twitterHandle) && CellFits(ProfileLinkWidth, p.facebookProfile)
  }

  /** The error converting the upsert's parameters: the INTEGER age is read
      when the parameters are bound, before any text is cast to its
      VARCHAR, and the texts are cast in column order. */
  function UpsertValueError(userId: string, p: ProfileFields): (e: Option<DbError>)
    ensures e.None? <==> FitsVarchar(UserIdWidth, userId) && ProfileFits(p)
    ensures p.age.Some? && !IsInt4(p.age.value) ==> e == Some(NumericOutOfRange)
  {
    if p.age.Some? && !IsInt4(p.age.value) then Some(NumericOutOfRange)
    else if !FitsVarchar(UserIdWidth, userId) then Some(StringTooLong("user_id"))
    else if !CellFits(ProfileNumberWidth, p.contactNumber1) then Some(StringTooLong("contact_number_1"))
    else if !CellFits(ProfileNumberWidth, p.contactNumber2) then Some(StringTooLong("contact_number_2"))
    else if !CellFits(ProfileHandleWidth, p.instagramHandle) then Some(StringTooLong("instagram_handle"))
    else if !CellFits(ProfileLinkWidth, p.linkedinProfile) then Some(StringTooLong("linkedin_profile"))
    else if !CellFits(ProfileHandleWidth, p.twitterHandle) then Some(StringTooLong("twitter_handle"))
    else if !CellFits(ProfileLinkWidth, p.facebookProfile) then Some(StringTooLong("facebook_profile"))
    else None
  }

  /** What the row stores of the seven values: the age as given, each text
      cut to its column's width. */
  function StoredProfile(p: ProfileFields): (q: ProfileFields)
    ensures q.age == p.age
    ensures q.contactNumber1 == StoredCell(ProfileNumberWidth, p.contactNumber1)
    ensures q.contactNumber2 == StoredCell(ProfileNumberWidth, p.contactNumber2)
    ensures q.instagramHandle == StoredCell(ProfileHandleWidth, p.instagramHandle)
    ensures q.linkedinProfile == StoredCell(ProfileLinkWidth, p.linkedinProfile)
    ensures q.twitterHandle == StoredCell(ProfileHandleWidth, p.twitterHandle)
    ensures q.facebookProfile == StoredCell(ProfileLinkWidth, p.facebookProfile)
  {
    ProfileFields(p.age,
      StoredCell(ProfileNumberWidth, p.contactNumber1), StoredCell(ProfileNumberWidth, p.contactNumber2),
      StoredCell(ProfileHandleWidth, p.instagramHandle), StoredCell(ProfileLinkWidth, p.linkedinProfile),
      StoredCell(ProfileHandleWidth, p.twitterHandle), StoredCell(ProfileLinkWidth, p.facebookProfile))
  }

  /** `INSERT … ON CONFLICT (user_id) DO UPDATE`: a user's existing profile
      keeps its id and `created_at` and gets all seven fields and a new
      `updated_at`; otherwise a profile with key `newId` is added. No other
      user's profile changes. */
  function Upserted(profiles: map<string, ProfileRow>, userId: string, fields: ProfileFields, newId: int, now: Time): (r: map<string, ProfileRow>)
    ensures userId in r && r[userId].fields == fields && r[userId].updatedAt == now
    ensures userId in profiles ==> r[userId].id == profiles[userId].id && r[userId].createdAt == profiles[userId].createdAt
    ensures userId !in profiles ==> r[userId] == ProfileRow(newId, fields, now, now)
    ensures r.Keys == profiles.Keys + {userId}
    ensures forall u :: u in profiles && u != userId ==> r[u] == profiles[u]
  {
    if userId in profiles then
      profiles[userId := profiles[userId].(fields := fields, updatedAt := now)]
    else
      profiles[userId := ProfileRow(newId, fields, now, now)]
  }

  /** The upsert overwrites rather than merges: a second upsert leaves the
      profile as though only the second had run, apart from the key and
      `created_at` the first one set. This follows from the definition of
      `Upserted` directly and is stated for the reader. */
  lemma UpsertOverwrites(profiles: map<string, ProfileRow>, userId: string, f1: ProfileFields, f2: ProfileFields, id1: int, id2: int, t1: Time, t2: Time)
    ensures var once := Upserted(profiles, userId, f1, id1, t1);
      var twice := Upserted(once, userId, f2, id2, t2);
      && twice[userId] == once[userId].(fields := f2, updatedAt := t2)
      && twice.Keys == once.Keys
  {
  }

  /** An upsert for a user, with a key drawn from the counter, keeps the
      profiles owned and their keys distinct. */
  lemma UpsertKeepsOwned(profiles: map<string, ProfileRow>, users: map<string, UserRow>, next: int, userId: string, fields: ProfileFields, now: Time)
    requires ProfilesOwned(profiles, users, next) && next >= 1 && userId in users
    ensures ProfilesOwned(Upserted(profiles, userId, fields, next, now), users, next + 1)
  {
  }

  /** `upsertProfile`: a value its column cannot take fails before the row
      is formed, leaving the SERIAL counter alone; every other attempt draws
      from it. Then an unknown user violates the foreign key, and otherwise
      the user's profile holds exactly the seven supplied values as the
      columns store them. */
  method UpsertProfile(db: Database, userId: string, d: ProfileData) returns (r: Result<Profile, Failure>)
    requires db.Valid()
    modifies db`profiles, db`nextProfileId
    ensures db.Valid()
    ensures var e := UpsertValueError(userId, ProfileValues(d));
      e.Some? ==> r == Err(Db(e.value)) && db.profiles == old(db.profiles) && db.nextProfileId == old(db.nextProfileId)
    ensures var key := StoredVarchar(UserIdWidth, userId);
      UpsertValueError(userId, ProfileValues(d)).None? ==>
      && db.nextProfileId == old(db.nextProfileId) + 1
      && (key !in db.users ==> r == Err(Db(ForeignKeyViolation)) && db.profiles == old(db.profiles))
      && (key in db.users ==>
        && db.profiles == Upserted(old(db.profiles), key, StoredProfile(ProfileValues(d)), old(db.nextProfileId), db.clock)
        && r == Ok(ToProfile(key, db.profiles[key])))
  {
    var fields := ProfileValues(d);
    var e := UpsertValueError(userId, fields);
    if e.Some? {
      return Err(Db(e.value));
    }
    var key := StoredVarchar(UserIdWidth, userId);
    var newId := db.nextProfileId;
    db.nextProfileId := db.nextProfileId + 1;
    if key !in db.profiles && key !in db.users {
      return Err(Db(ForeignKeyViolation));
    }
    UpsertKeepsOwned(db.profiles, db.users, newId, key, StoredProfile(fields), db.clock);
    db.profiles := Upserted(db.profiles, key, StoredProfile(fields), newId, db.clock);
    r := Ok(ToProfile(key, db.profiles[key]));
  }

  /* ---------- addApprover ---------- */

  /** The column list `addApprover` sends; `approver_phone` is not a column
      of `user_approvers`, and `approver_contact_number_1`,
      `approver_contact_number_2` and `approver_facebook` are missing. */
  const AddApproverColumns: seq<string> :=
    ["user_id", "approver_name", "approver_email", "approver_phone",
     "approver_relationship", "approver_instagram", "approver_linkedin", "approver_twitter"]

  /** No contact field of `user_approvers` is called `approver_phone`. */
  lemma NoPhoneColumn()
    ensures "approver_phone" !in ContactColumns(Approvers)
  {
    var phone := "approver_phone";
    assert phone[9..] == "phone";
    forall f
      ensures ColumnName(Approvers, f) != phone
    {
      assert ColumnName(Approvers, f)[9..] == Suffix(f);
    }
  }

  /** The insert `addApprover` sends fails before any row is built. */
  lemma AddApproverRejected(env: Env, d: ContactData, now: Time)
    ensures ExecContactInsert(Approvers, env, AddApproverColumns, InsertValues(d), now) == Err(UndefinedColumn("approver_phone"))
  {
    AddApproverUnprepared(InsertValues(d));
  }

  /** Its fourth column is the first one the table lacks. */
  lemma AddApproverUnprepared(values: seq<Value>)
    requires |values| >= 3
    ensures PrepareError(ContactColumns(Approvers), ContactWritable(Approvers), InsertSets(AddApproverColumns), values)
      == Some(UndefinedColumn("approver_phone"))
  {
    var sets := InsertSets(AddApproverColumns);
    AddApproverHead(values);
    NoPhoneColumn();
    FirstErrorAt(ContactColumns(Approvers), ContactWritable(Approvers), sets, values, [], 3);
  }

  /** Its first three items are acceptable and distinct. */
  lemma AddApproverHead(values: seq<Value>)
    requires |values| >= 3
    ensures var sets := InsertSets(AddApproverColumns);
      && (forall i :: 0 <= i < 3 ==> ItemError(ContactColumns(Approvers), ContactWritable(Approvers), sets[i], values).None?)
      && Distinct([] + SetColumns(sets[..3]))
  {
    var sets := InsertSets(AddApproverColumns);
    assert sets[0] == Assign("user_id", 1);
    assert sets[1] == Assign(ColumnName(Approvers, Name), 2);
    assert sets[2] == Assign(ColumnName(Approvers, Email), 3);
    FieldItemAccepted(Approvers, Name, 2, values);
    FieldItemAccepted(Approvers, Email, 3, values);
    assert SetColumns(sets[..3]) == AddApproverColumns[..3];
    AddApproverHeadDistinct();
    assert [] + AddApproverColumns[..3] == AddApproverColumns[..3];
  }

  lemma AddApproverHeadDistinct()
    ensures Distinct(AddApproverColumns[..3])
  {
    var head := AddApproverColumns[..3];
    assert |head| == 3 && |head[0]| == 7 && |head[1]| == 13 && |head[2]| == 14;
    DistinctByLength(head);
  }

  /** `column = $p` for a contact column and a bound `$p` is acceptable. */
  lemma FieldItemAccepted(t: ContactTable, f: ContactField, p: nat, values: seq<Value>)
    requires 1 <= p <= |values|
    ensures ItemError(ContactColumns(t), ContactWritable(t), Assign(ColumnName(t, f), p), values).None?
  {
    ColumnWritable(t, f);
  }

  /** `addApprover`: the statement is rejected, so the call always throws and
      nothing is stored. */
  method AddApprover(db: Database, d: ContactData) returns (r: Result<ContactRecord, Failure>)
    requires db.Valid()
    ensures r == Err(Db(UndefinedColumn("approver_phone")))
  {
    var env := Env(db.users.Keys, db.readTime);
    var res := ExecContactInsert(Approvers, env, AddApproverColumns, InsertValues(d), db.clock);
    AddApproverRejected(env, d, db.clock);
    r := Err(Db(res.error));
  }

  /* ---------- updateApprover ---------- */

  /** `updateApprover`: the result is an error, null or the updated record
      exactly as `ContactUpdateOutcome` says; the row with that id, whoever
      owns it, is then replaced as `ContactPatched` says, and otherwise
      nothing changes. */
  method UpdateApprover(db: Database, approverId: int, entries: seq<Entry>) returns (r: Result<Option<ContactRecord>, Failure>)
    requires db.Valid()
    modifies db`approvers
    ensures db.Valid()
    ensures var o := ContactUpdateOutcome(Approvers, Env(db.users.Keys, db.readTime), old(db.approvers), entries, approverId);
      && (r.Err? <==> o == Rejected)
      && (r == Ok(None) <==> o == NothingSent || o == NoMatch)
    ensures r.Err? || r == Ok(None) ==> db.approvers == old(db.approvers)
    ensures r.Ok? && r.value.Some? ==>
      && approverId in old(db.approvers) && approverId in db.approvers
      && db.approvers == old(db.approvers)[approverId := db.approvers[approverId]]
      && r.value.value == ToContactRecord(approverId, db.approvers[approverId])
      && ContactPatched(Approvers, db.readTime, KeptEntries(entries), old(db.approvers)[approverId], db.approvers[approverId], db.clock)
  {
    var env := Env(db.users.Keys, db.readTime);
    var res := RunContactUpdate(Approvers, env, db.approvers, entries, approverId, db.clock);
    match res {
      case Err(e) => r := Err(Db(e));
      case Ok(None) => r := Ok(None);
      case Ok(Some((_, row))) =>
        db.SetApprover(approverId, row);
        r := Ok(Some(ToContactRecord(approverId, row)));
    }
  }

  /* ---------- deleteApprover, validateMinimumApprovers ---------- */

  /** `validateMinimumApprovers`: `COUNT(*) >= 2` over the user's approvers,
      that is, the user has two different approvers. */
  function ValidateMinimumApprovers(db: Database, userId: string): (ok: bool)
    reads db
    ensures ok <==> exists a, b :: a in OwnedIds(db.approvers, userId) && b in OwnedIds(db.approvers, userId) && a != b
  {
    TwoOrMore(OwnedIds(db.approvers, userId));
    |OwnedIds(db.approvers, userId)| >= 2
  }

  /** A finite set has two or more elements exactly when it has two
      different ones. */
  lemma TwoOrMore(s: set<int>)
    ensures |s| >= 2 <==> exists a, b :: a in s && b in s && a != b
  {
    if |s| >= 2 {
      var a := Pick(s);
      assert |s - {a}| == |s| - 1;
      var b := Pick(s - {a});
      assert a in s && b in s && a != b;
    }
    if exists a, b :: a in s && b in s && a != b {
      var a, b :| a in s && b in s && a != b;
      assert {a, b} <= s;
      assert |{a, b}| == 2;
      SubsetCard({a, b}, s);
    }
  }

  /** Some element of a non-empty set. */
  lemma Pick<T>(s: set<T>) returns (x: T)
    requires s != {}
    ensures x in s
  {
    x :| x in s;
  }

  lemma {:induction false} SubsetCard(a: set<int>, b: set<int>)
    requires a <= b
    ensures |a| <= |b|
    decreases |a|
  {
    if a != {} {
      var x := Pick(a);
      SubsetCard(a - {x}, b - {x});
    }
  }

  /** `deleteApprover`: an id outside the INTEGER range of the key column
      fails the count query; then the deletion is refused while fewer than
      two of the user's other approvers exist; otherwise the row is removed
      exactly when it has that id and belongs to the user. */
  method DeleteApprover(db: Database, userId: string, approverId: int) returns (r: Result<bool, Failure>)
    requires db.Valid()
    modifies db`approvers
    ensures db.Valid()
    ensures !IsInt4(approverId) ==> r == Err(Db(NumericOutOfRange)) && db.approvers == old(db.approvers)
    ensures IsInt4(approverId) && |Others(old(db.approvers), userId, approverId)| < 2 ==>
      r == Err(TooFewApprovers) && db.approvers == old(db.approvers)
    ensures IsInt4(approverId) && |Others(old(db.approvers), userId, approverId)| >= 2 ==>
      && r.Ok?
      && (r.value <==> approverId in old(db.approvers) && old(db.approvers)[approverId].userId == userId)
      && db.approvers == if r.value then old(db.approvers) - {approverId} else old(db.approvers)
  {
    if !IsInt4(approverId) {
      return Err(Db(NumericOutOfRange));
    }
    var count := |Others(db.approvers, userId, approverId)|;
    if count < 2 {
      return Err(TooFewApprovers);
    }
    var deleted := approverId in db.approvers && db.approvers[approverId].userId == userId;
    if deleted {
      db.approvers := db.approvers - {approverId};
    }
    r := Ok(deleted);
  }

  /** The guard's promise: after a permitted deletion the user still has two
      approvers, and every other user's approvers are untouched. */
  lemma DeleteKeepsMinimum(rows: map<int, ContactRow>, userId: string, approverId: int)
    requires |Others(rows, userId, approverId)| >= 2
    requires approverId in rows && rows[approverId].userId == userId
    ensures |OwnedIds(rows - {approverId}, userId)| >= 2
    ensures forall u :: u != userId ==> OwnedIds(rows - {approverId}, u) == OwnedIds(rows, u)
  {
    assert OwnedIds(rows - {approverId}, userId) == Others(rows, userId, approverId);
  }

  /* ---------- getCompleteProfile ---------- */

  datatype CompleteProfile = CompleteProfile(user: User, profile: Option<Profile>, approvers: seq<ContactRecord>)

  /** `rs` holds every approver of `userId` exactly once, oldest first. */
  predicate ApproversOfUser(rows: map<int, ContactRow>, userId: string, rs: seq<ContactRecord>) {
    && (forall i :: 0 <= i < |rs| ==> rs[i].id in rows && rows[rs[i].id].userId == userId && rs[i] == ToContactRecord(rs[i].id, rows[rs[i].id]))
    && (forall id :: id in rows && rows[id].userId == userId ==> exists i :: 0 <= i < |rs| && rs[i].id == id)
    && (forall i, j :: 0 <= i < j < |rs| ==> rs[i].id != rs[j].id && AtMost(rs[i].createdAt, rs[j].createdAt))
  }

  /** `getCompleteProfile`: null exactly when the user row is missing;
      otherwise the user, the profile when there is one, and the approvers by
      `created_at`. */
  method GetCompleteProfile(db: Database, userId: string) returns (r: Option<CompleteProfile>)
    ensures r.None? <==> userId !in db.users
    ensures r.Some? ==>
      && r.value.user == ToUser(userId, db.users[userId])
      && r.value.profile == (if userId in db.profiles then Some(ToProfile(userId, db.profiles[userId])) else None)
      && ApproversOfUser(db.approvers, userId, r.value.approvers)
  {
    if userId !in db.users {
      return None;
    }
    var user := ToUser(userId, db.users[userId]);
    var profile := if userId in db.profiles then Some(ToProfile(userId, db.profiles[userId])) else None;
    var rows := db.approvers;
    var m := map id | id in rows && rows[id].userId == userId :: rows[id].createdAt;
    var ks := OrderByTime(m, false);
    forall i | 0 <= i < |ks|
      ensures ks[i] in m && ks[i] in rows
    {
      assert ks[i] in ks;
    }
    var rs := seq(|ks|, i requires 0 <= i < |ks| => ToContactRecord(ks[i], rows[ks[i]]));
    forall id | id in rows && rows[id].userId == userId
      ensures exists i :: 0 <= i < |rs| && rs[i].id == id
    {
      assert id in m;
      var i :| 0 <= i < |ks| && ks[i] == id;
      assert rs[i].id == id;
    }
    forall i, j | 0 <= i < j < |rs|
      ensures rs[i].id != rs[j].id && AtMost(rs[i].createdAt, rs[j].createdAt)
    {
      assert ks[i] in m && ks[j] in m;
      assert Precedes(false, m[ks[i]], m[ks[j]]);
    }
    r := Some(CompleteProfile(user, profile, rs));
  }
}
