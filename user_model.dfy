/** `UserModel` (src/models/User.ts): lookups, creation and updates of the
    `users` table, whose key is the external (Google) id. */
module UserModel {
  import opened Common
  import opened Schema
  import opened Sql
  import opened Store

  /* ---------- lookups ---------- */

  /** `findByGoogleId`: `SELECT * FROM users WHERE id = $1`. */
  function FindByGoogleId(db: Database, googleId: string): (u: Option<User>)
    reads db
    ensures u.Some? <==> googleId in db.users
    ensures u.Some? ==> u.value.id == googleId && u.value.email == db.users[googleId].email
  {
    if googleId in db.users then Some(ToUser(googleId, db.users[googleId])) else None
  }

  /** The ids of the users whose email is `email`. */
  function WithEmail(users: map<string, UserRow>, email: string): set<string> {
    set id | id in users && users[id].email == email
  }

  /** `findByEmail`: `SELECT * FROM users WHERE email = $1`, first row. Under
      `email … UNIQUE` there is at most one. */
  method FindByEmail(db: Database, email: string) returns (u: Option<User>)
    requires db.Valid()
    ensures u.None? <==> WithEmail(db.users, email) == {}
    ensures u.Some? ==> WithEmail(db.users, email) == {u.value.id}
    ensures u.Some? ==> u.value == ToUser(u.value.id, db.users[u.value.id])
  {
    var ids := WithEmail(db.users, email);
    if ids == {} {
      return None;
    }
    var id :| id in ids;
    forall other | other in ids
      ensures other == id
    {
      assert db.users[other].email == db.users[id].email;
    }
    u := Some(ToUser(id, db.users[id]));
  }

  /* ---------- create ---------- */

  /** The error casting `create`'s texts to their VARCHAR columns, in
      column order; `picture` is TEXT and takes any string. */
  function CreateValueError(id: string, email: string, name: string, provider: string): (e: Option<DbError>)
    ensures e.None? <==>
      FitsVarchar(UserIdWidth, id) && FitsVarchar(EmailWidth, email) && FitsVarchar(UserNameWidth, name) && FitsVarchar(ProviderWidth, provider)
  {
    if !FitsVarchar(UserIdWidth, id) then Some(StringTooLong("id"))
    else if !FitsVarchar(EmailWidth, email) then Some(StringTooLong("email"))
    else if !FitsVarchar(UserNameWidth, name) then Some(StringTooLong("name"))
    else if !FitsVarchar(ProviderWidth, provider) then Some(StringTooLong("provider"))
    else None
  }

  /** `create`: a text too long for its column fails; otherwise the user is
      inserted with each text cut to its column's width, a falsy picture as
      NULL, and `created_at`, `updated_at` and `last_login` all at the
      statement's time; an id or an email already present violates a
      unique constraint. */
  method Create(db: Database, id: string, email: string, name: string, picture: JsText, provider: string)
    returns (r: Result<User, Failure>)
    requires db.Valid()
    modifies db`users
    ensures db.Valid()
    ensures var e := CreateValueError(id, email, name, provider);
      e.Some? ==> r == Err(Db(e.value)) && db.users == old(db.users)
    ensures var key := StoredVarchar(UserIdWidth, id);
      var mail := StoredVarchar(EmailWidth, email);
      CreateValueError(id, email, name, provider).None? ==>
      && (key in old(db.users) || WithEmail(old(db.users), mail) != {} ==>
        r == Err(Db(UniqueViolation)) && db.users == old(db.users))
      && (key !in old(db.users) && WithEmail(old(db.users), mail) == {} ==>
        var row := UserRow(mail, StoredVarchar(UserNameWidth, name), OrNull(picture), StoredVarchar(ProviderWidth, provider), db.clock, db.clock, db.clock);
        && db.users == old(db.users)[key := row]
        && r == Ok(ToUser(key, row))
        && FindByGoogleId(db, key) == Some(r.value)
        && WithEmail(db.users, mail) == {key})
  {
    var e := CreateValueError(id, email, name, provider);
    if e.Some? {
      return Err(Db(e.value));
    }
    var key := StoredVarchar(UserIdWidth, id);
    var mail := StoredVarchar(EmailWidth, email);
    if key in db.users || WithEmail(db.users, mail) != {} {
      return Err(Db(UniqueViolation));
    }
    var row := UserRow(mail, StoredVarchar(UserNameWidth, name), OrNull(picture), StoredVarchar(ProviderWidth, provider), db.clock, db.clock, db.clock);
    var before := db.users;
    db.users := db.users[key := row];
    assert forall u :: u in db.users && u != key ==> u in before && db.users[u] == before[u];
    forall a, b | a in db.users && b in db.users && a != b
      ensures db.users[a].email != db.users[b].email
    {
      if a == key || b == key {
        var other := if a == key then b else a;
        assert other in before && other !in WithEmail(before, mail);
      }
    }
    assert WithEmail(db.users, mail) == {key};
    r := Ok(ToUser(key, row));
  }

  /* ---------- updateLastLogin ---------- */

  /** `SET last_login = CURRENT_TIMESTAMP, updated_at = CURRENT_TIMESTAMP
      WHERE id = $1`. */
  function LastLoginStatement(userId: string): Statement {
    Statement([StampNow("last_login"), StampNow("updated_at")], [Text(userId)], 1, None)
  }

  /** The statement changes exactly `last_login` and `updated_at` of the
      user's row, and matches nothing for an unknown id. */
  lemma LastLoginEffect(rows: map<string, UserRow>, userId: string, now: Time)
    ensures ExecUserUpdate(rows, LastLoginStatement(userId), now) ==
      if userId in rows then Ok(Some((userId, rows[userId].(lastLogin := now, updatedAt := now)))) else Ok(None)
  {
    var s := LastLoginStatement(userId);
    assert Distinct(SetColumns(s.sets)) by {
      assert SetColumns(s.sets) == ["last_login", "updated_at"];
      assert "last_login"[0] != "updated_at"[0];
    }
    PrepareErrorNone(UserColumns, UserWritable, s.sets, s.values);
    if userId in rows {
      var row := rows[userId];
      assert s.sets[1..] == [StampNow("updated_at")];
      assert ApplyUserSets(row, s.sets, s.values, now)
        == ApplyUserSets(row.(lastLogin := now), [StampNow("updated_at")], s.values, now);
    }
  }

  /** `updateLastLogin`: only `last_login` and `updated_at` of the matching
      row change; no row, no change and a null result. */
  method UpdateLastLogin(db: Database, userId: string) returns (r: Result<Option<User>, Failure>)
    requires db.Valid()
    modifies db`users
    ensures db.Valid()
    ensures userId !in old(db.users) ==> r == Ok(None) && db.users == old(db.users)
    ensures userId in old(db.users) ==>
      && db.users == old(db.users)[userId := old(db.users)[userId].(lastLogin := db.clock, updatedAt := db.clock)]
      && r == Ok(FindByGoogleId(db, userId))
  {
    LastLoginEffect(db.users, userId, db.clock);
    match ExecUserUpdate(db.users, LastLoginStatement(userId), db.clock)
    case Err(e) =>
      r := Err(Db(e));
    case Ok(None) =>
      r := Ok(None);
    case Ok(Some((id, row))) =>
      db.SetUser(id, row);
      r := Ok(Some(ToUser(id, row)));
  }

  /* ---------- findAll ---------- */

  /** `us` holds every user exactly once, newest `created_at` first. */
  predicate AllUsersNewestFirst(users: map<string, UserRow>, us: seq<User>) {
    && (forall i :: 0 <= i < |us| ==> us[i].id in users && us[i] == ToUser(us[i].id, users[us[i].id]))
    && (forall id :: id in users ==> exists i :: 0 <= i < |us| && us[i].id == id)
    && (forall i, j :: 0 <= i < j < |us| ==> us[i].id != us[j].id && us[i].createdAt >= us[j].createdAt)
  }

  /** `findAll`: `SELECT * FROM users ORDER BY created_at DESC`. */
  method FindAll(db: Database) returns (us: seq<User>)
    ensures AllUsersNewestFirst(db.users, us)
  {
    var rows := db.users;
    var m := map id | id in rows :: Some(rows[id].createdAt);
    var ks := OrderByTime(m, true);
    forall i | 0 <= i < |ks|
      ensures ks[i] in m && ks[i] in rows
    {
      assert ks[i] in ks;
    }
    us := seq(|ks|, i requires 0 <= i < |ks| => ToUser(ks[i], rows[ks[i]]));
    forall id | id in rows
      ensures exists i :: 0 <= i < |us| && us[i].id == id
    {
      assert id in m;
      var i :| 0 <= i < |ks| && ks[i] == id;
      assert us[i].id == id;
    }
    forall i, j | 0 <= i < j < |us|
      ensures us[i].id != us[j].id && us[i].createdAt >= us[j].createdAt
    {
      assert ks[i] in m && ks[j] in m;
      assert Precedes(true, m[ks[i]], m[ks[j]]);
    }
  }

  /* ---------- updateProfile ---------- */

  /** The columns `updateProfile` assigns: each of `name` and `picture` only
      when truthy, in that order. */
  function SuppliedUserColumns(name: JsText, picture: JsText): seq<string> {
    (if Truthy(name) then ["name"] else []) + (if Truthy(picture) then ["picture"] else [])
  }

  /** The value bound for a supplied column. */
  function UserValue(name: JsText, picture: JsText, col: string): Value {
    var v := if col == "name" then name else picture;
    if v.Str? then Text(v.s) else SqlNull
  }

  /** The statement `updateProfile` sends: `$1 … $k` are the supplied
      columns, then `updated_at = CURRENT_TIMESTAMP`, and the WHERE
      placeholder is the last one, holding the id. */
  predicate ProfileUpdateShape(userId: string, name: JsText, picture: JsText, s: Statement) {
    var cols := SuppliedUserColumns(name, picture);
    var k := |cols|;
    && |s.sets| == k + 1 && |s.values| == k + 1
    && (forall i :: 0 <= i < k ==> s.sets[i] == Assign(cols[i], i + 1) && s.values[i] == UserValue(name, picture, cols[i]))
    && s.sets[k] == StampNow("updated_at")
    && s.values[k] == Text(userId)
    && s.whereId == |s.values| && s.whereOwner.None?
  }

  /** The SET builder of `updateProfile`. */
  method BuildProfileUpdate(userId: string, name: JsText, picture: JsText) returns (stmt: Option<Statement>)
    ensures stmt.None? <==> !Truthy(name) && !Truthy(picture)
    ensures stmt.Some? ==> ProfileUpdateShape(userId, name, picture, stmt.value)
  {
    var setClause: seq<SetItem> := [];
    var values: seq<Value> := [];
    var paramCount: nat := 1;
    if Truthy(name) {
      setClause := setClause + [Assign("name", paramCount)];
      values := values + [Text(name.s)];
      paramCount := paramCount + 1;
    }
    if Truthy(picture) {
      setClause := setClause + [Assign("picture", paramCount)];
      values := values + [Text(picture.s)];
      paramCount := paramCount + 1;
    }
    if setClause == [] {
      return None;
    }
    setClause := setClause + [StampNow("updated_at")];
    values := values + [Text(userId)];
    stmt := Some(Statement(setClause, values, paramCount, None));
  }

  /** A truthy name fits the `name` column; a falsy one is not sent. */
  predicate NameFits(name: JsText) {
    Truthy(name) ==> FitsVarchar(UserNameWidth, name.s)
  }

  /** The intended effect: the truthy fields replaced, the name as its
      column stores it, and `updated_at` set. */
  function PatchUser(row: UserRow, name: JsText, picture: JsText, now: Time): UserRow {
    row.(name := if Truthy(name) then StoredVarchar(UserNameWidth, name.s) else row.name,
         picture := if Truthy(picture) then Some(picture.s) else row.picture,
         updatedAt := now)
  }

  /** The built statement passes every prepare-time check. */
  lemma ProfileUpdatePrepares(userId: string, name: JsText, picture: JsText, s: Statement)
    requires ProfileUpdateShape(userId, name, picture, s)
    ensures PrepareError(UserColumns, UserWritable, s.sets, s.values).None?
  {
    var cols := SuppliedUserColumns(name, picture);
    assert SetColumns(s.sets) == cols + ["updated_at"];
    assert |cols + ["updated_at"]| <= 3;
    DistinctByLength(cols + ["updated_at"]);
    PrepareErrorNone(UserColumns, UserWritable, s.sets, s.values);
  }

  /** The only value the built statement casts is the name. */
  lemma ProfileUpdateConverts(userId: string, name: JsText, picture: JsText, s: Statement)
    requires ProfileUpdateShape(userId, name, picture, s)
    ensures FirstValueError(UserValueError, s.sets, s.values) == if NameFits(name) then None else Some(StringTooLong("name"))
  {
    if Truthy(name) {
      assert s.sets[0] == Assign("name", 1) && s.values[0] == Text(name.s);
      if NameFits(name) {
        forall i | 0 <= i < |s.sets| && s.sets[i].Assign? && 1 <= s.sets[i].param <= |s.values|
          ensures UserValueError(s.sets[i].column, s.values[s.sets[i].param - 1]).None?
        {
          if i > 0 {
            assert s.sets[i].column != "name";
          }
        }
      }
    } else {
      forall i | 0 <= i < |s.sets| && s.sets[i].Assign? && 1 <= s.sets[i].param <= |s.values|
        ensures UserValueError(s.sets[i].column, s.values[s.sets[i].param - 1]).None?
      {
        assert s.sets[i].column == "picture";
      }
    }
  }

  /** Applied to a row, the built SET list with a name that fits yields
      `PatchUser`. */
  lemma ProfileUpdateApplies(row: UserRow, userId: string, name: JsText, picture: JsText, s: Statement, now: Time)
    requires ProfileUpdateShape(userId, name, picture, s) && NameFits(name)
    ensures ApplyUserSets(row, s.sets, s.values, now) == Ok(PatchUser(row, name, picture, now))
  {
    var k := |SuppliedUserColumns(name, picture)|;
    var r0 := if Truthy(name) then row.(name := StoredVarchar(UserNameWidth, name.s)) else row;
    var r1 := if Truthy(picture) then r0.(picture := Some(picture.s)) else r0;
    var n0 := if Truthy(name) then 1 else 0;
    assert ApplyUserSets(row, s.sets, s.values, now) == ApplyUserSets(r0, s.sets[n0..], s.values, now) by {
      if Truthy(name) {
        assert s.sets[0] == Assign("name", 1);
      }
    }
    assert ApplyUserSets(r0, s.sets[n0..], s.values, now) == ApplyUserSets(r1, s.sets[k..], s.values, now) by {
      if Truthy(picture) {
        assert s.sets[n0] == Assign("picture", n0 + 1);
        assert s.sets[n0..][1..] == s.sets[k..];
      }
    }
    assert s.sets[k..] == [StampNow("updated_at")];
    assert ApplyUserSets(r1, s.sets[k..], s.values, now) == Ok(r1.(updatedAt := now));
  }

  /** The built statement fails when the name is too long for its column,
      whether or not the id matches; otherwise it changes exactly the truthy
      fields and `updated_at` of the row with that id, or matches nothing. */
  lemma ProfileUpdateEffect(rows: map<string, UserRow>, userId: string, name: JsText, picture: JsText, s: Statement, now: Time)
    requires ProfileUpdateShape(userId, name, picture, s)
    ensures ExecUserUpdate(rows, s, now) ==
      if !NameFits(name) then Err(StringTooLong("name"))
      else if userId in rows then Ok(Some((userId, PatchUser(rows[userId], name, picture, now)))) else Ok(None)
  {
    ProfileUpdatePrepares(userId, name, picture, s);
    ProfileUpdateConverts(userId, name, picture, s);
    if !NameFits(name) {
      return;
    }
    assert Bound(s.values, s.whereId) == Some(Text(userId));
    if userId in rows {
      ProfileUpdateApplies(rows[userId], userId, name, picture, s, now);
    }
  }

  /** `updateProfile`: with no truthy field it writes nothing and returns what
      `findByGoogleId` reads; a name too long for its column fails, whether
      or not the user exists; otherwise the user's row (if any) gets the
      truthy fields and a new `updated_at`, and the result is the row read
      back. */
  method UpdateProfile(db: Database, userId: string, name: JsText, picture: JsText) returns (r: Result<Option<User>, Failure>)
    requires db.Valid()
    modifies db`users
    ensures db.Valid()
    ensures !Truthy(name) && !Truthy(picture) ==>
      db.users == old(db.users) && r == Ok(FindByGoogleId(db, userId))
    ensures !NameFits(name) ==> db.users == old(db.users) && r == Err(Db(StringTooLong("name")))
    ensures (Truthy(name) || Truthy(picture)) && NameFits(name) && userId !in old(db.users) ==>
      db.users == old(db.users) && r == Ok(None)
    ensures (Truthy(name) || Truthy(picture)) && NameFits(name) && userId in old(db.users) ==>
      && db.users == old(db.users)[userId := PatchUser(old(db.users)[userId], name, picture, db.clock)]
      && r == Ok(FindByGoogleId(db, userId))
  {
    var stmt := BuildProfileUpdate(userId, name, picture);
    if stmt.None? {
      return Ok(FindByGoogleId(db, userId));
    }
    ProfileUpdateEffect(db.users, userId, name, picture, stmt.value, db.clock);
    match ExecUserUpdate(db.users, stmt.value, db.clock)
    case Err(e) =>
      r := Err(Db(e));
    case Ok(None) =>
      r := Ok(None);
    case Ok(Some((id, row))) =>
      db.SetUser(id, row);
      r := Ok(Some(ToUser(id, row)));
  }

  /* ---------- delete ---------- */

  /** The rows of a contact table whose owner is not `u`: what
      `ON DELETE CASCADE` leaves when `u` goes. */
  function WithoutOwner(rows: map<int, ContactRow>, u: string): (r: map<int, ContactRow>)
    ensures forall id :: id in r <==> id in rows && rows[id].userId != u
    ensures forall id :: id in r ==> r[id] == rows[id]
  {
    map id | id in rows && rows[id].userId != u :: rows[id]
  }

  /** `delete`: removes the user and, by cascade, the user's profile,
      approvers and recipients; notes are untouched. True iff the user
      existed. */
  method Delete(db: Database, userId: string) returns (deleted: bool)
    requires db.Valid()
    modifies db`users, db`profiles, db`approvers, db`recipients
    ensures db.Valid()
    ensures deleted <==> userId in old(db.users)
    ensures db.users == old(db.users) - {userId}
    ensures db.profiles == old(db.profiles) - {userId}
    ensures db.approvers == WithoutOwner(old(db.approvers), userId)
    ensures db.recipients == WithoutOwner(old(db.recipients), userId)
  {
    deleted := userId in db.users;
    db.users := db.users - {userId};
    db.profiles := db.profiles - {userId};
    db.approvers := WithoutOwner(db.approvers, userId);
    db.recipients := WithoutOwner(db.recipients, userId);
  }
}
