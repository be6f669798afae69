/** `RecipientProfileModel` (src/models/RecipientProfile.ts): the people a
    user's notes may name. Unlike approvers they are created by a working
    ten-column INSERT and deleted without a minimum count. */
module RecipientProfileModel {
  import opened Common
  import opened Schema
  import opened Sql
  import opened Store
  import opened ContactUpdate
  import opened ContactInsert

  /** `addRecipient`: the row is stored exactly when every text fits its
      column, the owner exists and a name and an email are given; it holds
      them, every optional field as `value || null`, each text cut to its
      column's width, and the current time in both timestamps. A text too
      long for its column fails before the row is formed, so that attempt
      leaves the SERIAL counter alone; every other attempt draws from it. */
  method AddRecipient(db: Database, d: ContactData) returns (r: Result<ContactRecord, Failure>)
    requires db.Valid()
    modifies db`recipients, db`nextRecipientId
    ensures db.Valid()
    ensures db.nextRecipientId == old(db.nextRecipientId) + (if InsertFits(d) then 1 else 0)
    ensures InsertFits(d) && StoredOwner(d) in db.users && d.name.Str? && d.email.Str? ==>
      var id := old(db.nextRecipientId);
      var row := ContactRow(StoredOwner(d), StoredContact(d), Some(db.clock), db.clock);
      && id !in old(db.recipients)
      && db.recipients == old(db.recipients)[id := row]
      && r == Ok(ToContactRecord(id, row))
    ensures !(InsertFits(d) && StoredOwner(d) in db.users && d.name.Str? && d.email.Str?) ==>
      r.Err? && db.recipients == old(db.recipients)
  {
    var id := db.nextRecipientId;
    if InsertFits(d) {
      db.nextRecipientId := id + 1;
    }
    var res := RunContactInsert(Recipients, Env(db.users.Keys, db.readTime), d, db.clock);
    if res.Err? {
      r := Err(Db(res.error));
    } else {
      db.recipients := db.recipients[id := res.value];
      r := Ok(ToContactRecord(id, res.value));
    }
  }

  /** `updateRecipient`: the same builder as `updateApprover`. The result is
      an error, null or the updated record exactly as
      `ContactUpdateOutcome` says; the row with that id, whoever owns it, is
      then replaced as `ContactPatched` says, and otherwise nothing
      changes. */
  method UpdateRecipient(db: Database, recipientId: int, entries: seq<Entry>) returns (r: Result<Option<ContactRecord>, Failure>)
    requires db.Valid()
    modifies db`recipients
    ensures db.Valid()
    ensures var o := ContactUpdateOutcome(Recipients, Env(db.users.Keys, db.readTime), old(db.recipients), entries, recipientId);
      && (r.Err? <==> o == Rejected)
      && (r == Ok(None) <==> o == NothingSent || o == NoMatch)
    ensures r.Err? || r == Ok(None) ==> db.recipients == old(db.recipients)
    ensures r.Ok? && r.value.Some? ==>
      && recipientId in old(db.recipients) && recipientId in db.recipients
      && db.recipients == old(db.recipients)[recipientId := db.recipients[recipientId]]
      && r.value.value == ToContactRecord(recipientId, db.recipients[recipientId])
      && ContactPatched(Recipients, db.readTime, KeptEntries(entries), old(db.recipients)[recipientId], db.recipients[recipientId], db.clock)
  {
    var env := Env(db.users.Keys, db.readTime);
    var res := RunContactUpdate(Recipients, env, db.recipients, entries, recipientId, db.clock);
    match res {
      case Err(e) => r := Err(Db(e));
      case Ok(None) => r := Ok(None);
      case Ok(Some((_, row))) =>
        db.SetRecipient(recipientId, row);
        r := Ok(Some(ToContactRecord(recipientId, row)));
    }
  }

  /** `deleteRecipient`: `DELETE … WHERE id = $1 AND user_id = $2` removes
      the row exactly when it has that id and belongs to the user; there is
      no minimum count. An id outside the INTEGER range of the key column
      is an error. */
  method DeleteRecipient(db: Database, userId: string, recipientId: int) returns (r: Result<bool, Failure>)
    requires db.Valid()
    modifies db`recipients
    ensures db.Valid()
    ensures !IsInt4(recipientId) ==> r == Err(Db(NumericOutOfRange)) && db.recipients == old(db.recipients)
    ensures IsInt4(recipientId) ==>
      && r.Ok?
      && (r.value <==> recipientId in old(db.recipients) && old(db.recipients)[recipientId].userId == userId)
      && db.recipients == if r.value then old(db.recipients) - {recipientId} else old(db.recipients)
  {
    if !IsInt4(recipientId) {
      return Err(Db(NumericOutOfRange));
    }
    var deleted := recipientId in db.recipients && db.recipients[recipientId].userId == userId;
    if deleted {
      db.recipients := db.recipients - {recipientId};
    }
    r := Ok(deleted);
  }
}
