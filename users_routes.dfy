/** The request handling of src/routes/users.ts: the checks each handler
    makes on the request before calling a model, the values it passes on,
    and the HTTP status it answers with (400 for a rejected request, 404
    for a null or false model result, 500 for a thrown error, 200 or 201
    otherwise). The signed-in user's id is a parameter. */
module UsersRoutes {
  import opened Common
  import opened Schema
  import opened JsStrings
  import opened Store
  import opened Sql
  import opened ContactInsert
  import opened ContactUpdate
  import NotesModel
  import UserProfileModel
  import RecipientProfileModel
  import UserModel

  /* ---------- e-mail addresses ---------- */

  /** One `[^\s@]+` run of the address pattern. */
  predicate EmailPart(x: string) {
    x != [] && forall k :: 0 <= k < |x| ==> x[k] != '@' && !IsSpace(x[k])
  }

  /** `/^[^\s@]+@[^\s@]+\.[^\s@]+$/` read as a pattern: the address is three
      such runs joined by `@` and `.`. */
  ghost predicate EmailPattern(s: string) {
    exists a, b, c :: s == a + "@" + b + "." + c && EmailPart(a) && EmailPart(b) && EmailPart(c)
  }

  /** The check the handlers make: no white space, exactly one `@` with
      something before it, and a `.` after it that is neither right after
      the `@` nor the last character. */
  predicate IsValidEmail(s: string) {
    && (forall k :: 0 <= k < |s| ==> !IsSpace(s[k]))
    && exists i :: 0 < i < |s| && s[i] == '@'
         && (forall k :: 0 <= k < |s| && s[k] == '@' ==> k == i)
         && (exists j :: i + 1 < j < |s| - 1 && s[j] == '.')
  }

  /** The check accepts exactly the strings the pattern matches. */
  lemma IsValidEmailMatchesPattern(s: string)
    ensures IsValidEmail(s) <==> EmailPattern(s)
  {
    if IsValidEmail(s) {
      ValidEmailMatches(s);
    }
    if EmailPattern(s) {
      var a, b, c :| s == a + "@" + b + "." + c && EmailPart(a) && EmailPart(b) && EmailPart(c);
      MatchedEmailValid(a, b, c);
    }
  }

  lemma ValidEmailMatches(s: string)
    requires IsValidEmail(s)
    ensures EmailPattern(s)
  {
    var i :| 0 < i < |s| && s[i] == '@'
      && (forall k :: 0 <= k < |s| && s[k] == '@' ==> k == i)
      && (exists j :: i + 1 < j < |s| - 1 && s[j] == '.');
    var j :| i + 1 < j < |s| - 1 && s[j] == '.';
    var a, b, c := s[..i], s[i + 1..j], s[j + 1..];
    assert s == a + "@" + b + "." + c;
    assert EmailPart(a) by {
      assert forall k :: 0 <= k < |a| ==> a[k] == s[k];
    }
    assert EmailPart(b) by {
      assert forall k :: 0 <= k < |b| ==> b[k] == s[i + 1 + k];
    }
    assert EmailPart(c) by {
      assert forall k :: 0 <= k < |c| ==> c[k] == s[j + 1 + k];
    }
  }

  lemma MatchedEmailValid(a: string, b: string, c: string)
    requires EmailPart(a) && EmailPart(b) && EmailPart(c)
    ensures IsValidEmail(a + "@" + b + "." + c)
  {
    var s := a + "@" + b + "." + c;
    var i, j := |a|, |a| + 1 + |b|;
    assert s[i] == '@' && s[j] == '.';
    forall k | 0 <= k < |s|
      ensures !IsSpace(s[k]) && (s[k] == '@' ==> k == i)
    {
      if k < i {
        assert s[k] == a[k];
      } else if i < k < j {
        assert s[k] == b[k - i - 1];
      } else if j < k {
        assert s[k] == c[k - j - 1];
      }
    }
    assert i + 1 < j < |s| - 1;
  }

  /* ---------- note bodies ---------- */

  /** The `note` of POST /notes as stored: rejected when missing, blank after
      trimming, or longer than 10000 UTF-16 code units before trimming. */
  function NewNoteText(note: JsText): (r: Option<string>)
    ensures r.Some? <==> note.Str? && Trim(note.s) != [] && Utf16Length(note.s) <= 10000
    ensures r.Some? ==> r.value == Trim(note.s)
  {
    if !Truthy(note) || Trim(note.s) == [] then None
    else if Utf16Length(note.s) > 10000 then None
    else Some(Trim(note.s))
  }

  /** An accepted note is non-empty, at most 10000 UTF-16 code units long
      and has no surrounding white space. */
  lemma NewNoteTextTrimmed(note: JsText)
    requires NewNoteText(note).Some?
    ensures var t := NewNoteText(note).value;
      && t != [] && Utf16Length(t) <= 10000 && !IsSpace(t[0]) && !IsSpace(t[|t| - 1]) && Trim(t) == t
  {
    TrimIdempotent(note.s);
    Utf16LengthTrim(note.s);
  }

  /** A JSON body field that should hold a list of ids. */
  datatype JsList = Absent | NullList | List(ids: seq<int>) | NotList(truthy: bool)

  /** `recipientIds` as `addNote` receives it: a falsy value acts as no list. */
  function CreateRecipientIds(v: JsList): Option<seq<int>> {
    if v.List? then Some(v.ids) else None
  }

  /** Why PUT /notes/:noteId refuses a body, or the `updateData` it builds. */
  function NoteUpdateData(note: JsText, attachment: JsText, recipientIds: JsList): (r: Option<NotesModel.UpdateNoteParams>)
    ensures r.None? <==>
      || (!note.Undefined? && (!note.Str? || Trim(note.s) == [] || Utf16Length(note.s) > 10000))
      || (!recipientIds.Absent? && !recipientIds.List?)
    ensures r.Some? ==>
      && r.value.note == (if note.Str? then Some(Trim(note.s)) else None)
      && r.value.attachment == attachment
      && r.value.recipientIds == (if recipientIds.List? then Some(recipientIds.ids) else None)
  {
    if !note.Undefined? && (!Truthy(note) || Trim(note.s) == []) then None
    else if !note.Undefined? && Utf16Length(note.s) > 10000 then None
    else if !recipientIds.Absent? && !recipientIds.List? then None
    else
      Some(NotesModel.UpdateNoteParams(
        if note.Str? then Some(Trim(note.s)) else None,
        attachment,
        if recipientIds.List? then Some(recipientIds.ids) else None))
  }

  /** A body with no known field gets as far as the model, which refuses it;
      the handler answers 500. This follows from the definitions directly
      and is stated for the reader. */
  lemma EmptyNoteUpdateReachesModel()
    ensures NoteUpdateData(Undefined, Undefined, Absent) == Some(NotesModel.UpdateNoteParams(None, Undefined, None))
    ensures NotesModel.NothingToUpdate(NoteUpdateData(Undefined, Undefined, Absent).value)
  {
  }

  /* ---------- the extended profile ---------- */

  /** `age && (age < 13 || age > 120)`: an absent or zero age passes. */
  predicate AgeRejected(age: Option<int>) {
    age.Some? && age.value != 0 && (age.value < 13 || age.value > 120)
  }

  /** Why PUT /profile/extended refuses a body. */
  predicate ExtendedProfileRejected(d: UserProfileModel.ProfileData) {
    !Truthy(d.contactNumber1) || AgeRejected(d.age)
  }

  /** Exactly the ages 13 to 120, and no age at all, are accepted with a
      contact number; so every stored age is in that range. This follows
      from the definitions directly and is stated for the reader. */
  lemma AcceptedAge(d: UserProfileModel.ProfileData)
    requires !ExtendedProfileRejected(d)
    ensures Truthy(d.contactNumber1)
    ensures UserProfileModel.ProfileValues(d).age.Some? ==> 13 <= UserProfileModel.ProfileValues(d).age.value <= 120
  {
  }

  /* ---------- approvers and recipients ---------- */

  /** Why POST /profile/approvers and POST /profile/recipients refuse a body. */
  predicate ContactRejected(d: ContactData) {
    !Truthy(d.name) || !Truthy(d.email) || !IsValidEmail(d.email.s)
  }

  /* ---------- handlers ---------- */

  /** The status for a model result that may be null. */
  function StatusOf<T>(r: Result<Option<T>, Failure>): (status: int)
    ensures status == 500 <==> r.Err?
    ensures status == 404 <==> r == Ok(None)
    ensures status == 200 <==> r.Ok? && r.value.Some?
  {
    match r
    case Err(_) => 500
    case Ok(None) => 404
    case Ok(Some(_)) => 200
  }

  /** POST /profile/approvers: a valid body reaches `addApprover`, whose
      statement the store rejects, so the handler never answers 201. */
  method PostApprover(db: Database, d: ContactData) returns (status: int)
    requires db.Valid()
    ensures status == 400 <==> ContactRejected(d)
    ensures status != 400 ==> status == 500
  {
    if !Truthy(d.name) || !Truthy(d.email) {
      return 400;
    }
    if !IsValidEmail(d.email.s) {
      return 400;
    }
    var r := UserProfileModel.AddApprover(db, d);
    status := if r.Ok? then 201 else 500;
  }

  /** POST /profile/recipients: a valid body whose texts fit their columns
      and whose owner exists is stored and answered with 201. */
  method PostRecipient(db: Database, d: ContactData) returns (status: int)
    requires db.Valid()
    modifies db`recipients, db`nextRecipientId
    ensures db.Valid()
    ensures ContactRejected(d) ==> status == 400 && unchanged(db)
    ensures !ContactRejected(d) ==>
      && (status == 201 <==> InsertFits(d) && StoredOwner(d) in db.users)
      && (status != 201 ==> status == 500)
    ensures status != 201 ==> db.recipients == old(db.recipients)
    ensures status == 201 ==>
      db.recipients == old(db.recipients)[old(db.nextRecipientId) := ContactRow(StoredOwner(d), StoredContact(d), Some(db.clock), db.clock)]
  {
    if !Truthy(d.name) || !Truthy(d.email) {
      return 400;
    }
    if !IsValidEmail(d.email.s) {
      return 400;
    }
    var r := RecipientProfileModel.AddRecipient(db, d);
    status := if r.Ok? then 201 else 500;
  }

  /** PUT /profile/approvers/:approverId. A body with nothing to write is
      answered 404, like a missing approver; a rejected statement 500; a
      patched row 200. */
  method PutApprover(db: Database, approverId: string, entries: seq<Entry>) returns (status: int)
    requires db.Valid()
    modifies db`approvers
    ensures db.Valid()
    ensures ParseInt(approverId).None? ==> status == 400 && db.approvers == old(db.approvers)
    ensures ParseInt(approverId).Some? ==>
      var o := ContactUpdateOutcome(Approvers, Env(db.users.Keys, db.readTime), old(db.approvers), entries, ParseInt(approverId).value);
      && (status == 404 <==> o == NothingSent || o == NoMatch)
      && (status == 500 <==> o == Rejected)
      && (status == 200 <==> o == Matched)
    ensures status != 200 ==> db.approvers == old(db.approvers)
    ensures status == 200 ==> var id := ParseInt(approverId).value;
      && id in old(db.approvers) && id in db.approvers
      && db.approvers == old(db.approvers)[id := db.approvers[id]]
      && ContactPatched(Approvers, db.readTime, KeptEntries(entries), old(db.approvers)[id], db.approvers[id], db.clock)
  {
    var id := ParseInt(approverId);
    if id.None? {
      return 400;
    }
    var r := UserProfileModel.UpdateApprover(db, id.value, entries);
    status := StatusOf(r);
  }

  /** PUT /profile/recipients/:recipientId, the same as for approvers. */
  method PutRecipient(db: Database, recipientId: string, entries: seq<Entry>) returns (status: int)
    requires db.Valid()
    modifies db`recipients
    ensures db.Valid()
    ensures ParseInt(recipientId).None? ==> status == 400 && db.recipients == old(db.recipients)
    ensures ParseInt(recipientId).Some? ==>
      var o := ContactUpdateOutcome(Recipients, Env(db.users.Keys, db.readTime), old(db.recipients), entries, ParseInt(recipientId).value);
      && (status == 404 <==> o == NothingSent || o == NoMatch)
      && (status == 500 <==> o == Rejected)
      && (status == 200 <==> o == Matched)
    ensures status != 200 ==> db.recipients == old(db.recipients)
    ensures status == 200 ==> var id := ParseInt(recipientId).value;
      && id in old(db.recipients) && id in db.recipients
      && db.recipients == old(db.recipients)[id := db.recipients[id]]
      && ContactPatched(Recipients, db.readTime, KeptEntries(entries), old(db.recipients)[id], db.recipients[id], db.clock)
  {
    var id := ParseInt(recipientId);
    if id.None? {
      return 400;
    }
    var r := RecipientProfileModel.UpdateRecipient(db, id.value, entries);
    status := StatusOf(r);
  }

  /** DELETE /profile/approvers/:approverId: an id the key column cannot
      hold and the minimum-count refusal are thrown errors, hence 500. */
  method DeleteApprover(db: Database, userId: string, approverId: string) returns (status: int)
    requires db.Valid()
    modifies db`approvers
    ensures db.Valid()
    ensures ParseInt(approverId).None? ==> status == 400
    ensures ParseInt(approverId).Some? ==> var id := ParseInt(approverId).value;
      && (!IsInt4(id) || |Others(old(db.approvers), userId, id)| < 2 ==> status == 500)
      && (IsInt4(id) && |Others(old(db.approvers), userId, id)| >= 2 ==>
            (status == 200 <==> id in old(db.approvers) && old(db.approvers)[id].userId == userId)
            && (status != 200 ==> status == 404))
    ensures status != 200 ==> db.approvers == old(db.approvers)
    ensures status == 200 ==> db.approvers == old(db.approvers) - {ParseInt(approverId).value}
  {
    var id := ParseInt(approverId);
    if id.None? {
      return 400;
    }
    var r := UserProfileModel.DeleteApprover(db, userId, id.value);
    status := match r case Err(_) => 500 case Ok(deleted) => if deleted then 200 else 404;
  }

  /** DELETE /profile/recipients/:recipientId: an id the key column cannot
      hold is a thrown error, hence 500. */
  method DeleteRecipient(db: Database, userId: string, recipientId: string) returns (status: int)
    requires db.Valid()
    modifies db`recipients
    ensures db.Valid()
    ensures ParseInt(recipientId).None? ==> status == 400
    ensures ParseInt(recipientId).Some? ==> var id := ParseInt(recipientId).value;
      && (!IsInt4(id) ==> status == 500)
      && (IsInt4(id) ==>
            (status == 200 <==> id in old(db.recipients) && old(db.recipients)[id].userId == userId)
            && (status != 200 ==> status == 404))
    ensures status != 200 ==> db.recipients == old(db.recipients)
    ensures status == 200 ==> db.recipients == old(db.recipients) - {ParseInt(recipientId).value}
  {
    var id := ParseInt(recipientId);
    if id.None? {
      return 400;
    }
    var r := RecipientProfileModel.DeleteRecipient(db, userId, id.value);
    status := match r case Err(_) => 500 case Ok(deleted) => if deleted then 200 else 404;
  }

  /** PUT /profile/extended: the checks, then `upsertProfile`; 200 exactly
      when the values fit their columns and the user exists. */
  method PutExtendedProfile(db: Database, userId: string, d: UserProfileModel.ProfileData) returns (status: int)
    requires db.Valid()
    modifies db`profiles, db`nextProfileId
    ensures db.Valid()
    ensures ExtendedProfileRejected(d) ==> status == 400 && unchanged(db)
    ensures !ExtendedProfileRejected(d) ==> var key := StoredVarchar(UserIdWidth, userId);
      && (status == 200 <==> UserProfileModel.UpsertValueError(userId, UserProfileModel.ProfileValues(d)).None? && key in db.users)
      && (status != 200 ==> status == 500 && db.profiles == old(db.profiles))
      && (status == 200 ==>
            db.profiles == UserProfileModel.Upserted(old(db.profiles), key, UserProfileModel.StoredProfile(UserProfileModel.ProfileValues(d)), old(db.nextProfileId), db.clock))
  {
    if !Truthy(d.contactNumber1) {
      return 400;
    }
    if AgeRejected(d.age) {
      return 400;
    }
    var r := UserProfileModel.UpsertProfile(db, userId, d);
    status := if r.Ok? then 200 else 500;
  }

  /** GET /profile/complete. */
  method GetCompleteProfile(db: Database, userId: string) returns (status: int)
    requires db.Valid()
    ensures status == 200 <==> userId in db.users
    ensures status != 200 ==> status == 404
  {
    var r := UserProfileModel.GetCompleteProfile(db, userId);
    status := if r.Some? then 200 else 404;
  }

  /** GET /: the answer is 200 with every user, newest first. */
  method GetUsers(db: Database) returns (status: int, us: seq<User>)
    ensures status == 200 && UserModel.AllUsersNewestFirst(db.users, us)
  {
    us := UserModel.FindAll(db);
    status := 200;
  }

  /** GET /notes: the answer is 200 with the signed-in user's notes, newest
      first, each with the recipients of that user its ids name. */
  method GetNotes(db: Database, userId: string) returns (status: int, ns: seq<NoteWithRecipients>)
    ensures status == 200 && NotesModel.NotesOfUser(db.notes, userId, NotesModel.NotesOf(ns))
    ensures forall i :: 0 <= i < |ns| ==>
      multiset(ns[i].recipients) == multiset(NotesModel.ResolveRecipients(ns[i].note.recipientIds, db.recipients, userId))
  {
    ns := NotesModel.GetNotesWithRecipients(db, userId);
    status := 200;
  }

  /** PUT /me: `updateProfile` with the body's `name` and `picture`; a name
      too long for its column is a thrown error, hence 500. */
  method PutMe(db: Database, userId: string, name: JsText, picture: JsText) returns (status: int)
    requires db.Valid()
    modifies db`users
    ensures db.Valid()
    ensures !UserModel.NameFits(name) ==> status == 500
    ensures UserModel.NameFits(name) ==> (status == 200 <==> userId in old(db.users)) && (status != 200 ==> status == 404)
    ensures status != 200 ==> db.users == old(db.users)
    ensures status == 200 ==>
      db.users == if Truthy(name) || Truthy(picture) then old(db.users)[userId := UserModel.PatchUser(old(db.users)[userId], name, picture, db.clock)]
      else old(db.users)
  {
    var r := UserModel.UpdateProfile(db, userId, name, picture);
    status := StatusOf(r);
  }

  /** POST /notes: the note checks, then `addNote` with the trimmed note; a
      recipient id that is not the user's is a thrown error. */
  method PostNote(db: Database, userId: string, note: JsText, attachment: JsText, recipientIds: JsList) returns (status: int)
    requires db.Valid()
    modifies db`notes, db`nextNoteId
    ensures db.Valid()
    ensures NewNoteText(note).None? || recipientIds == NotList(true) ==> status == 400 && unchanged(db)
    ensures NewNoteText(note).Some? && recipientIds != NotList(true) ==>
      var bad := NotesModel.RecipientCheckFails(old(db.recipients), userId, CreateRecipientIds(recipientIds));
      && (status == 201 <==> !bad)
      && (status != 201 ==> status == 500 && db.notes == old(db.notes))
      && (status == 201 ==> var id := old(db.nextNoteId);
            && id !in old(db.notes) && db.nextNoteId == id + 1
            && db.notes == old(db.notes)[id := NoteRow(userId, NewNoteText(note).value, OrNull(attachment),
                 CreateRecipientIds(recipientIds), db.clock, db.clock)])
  {
    var text := NewNoteText(note);
    if text.None? {
      return 400;
    }
    if recipientIds == NotList(true) {
      return 400;
    }
    var r := NotesModel.AddNote(db, NotesModel.CreateNoteParams(userId, text.value, attachment, CreateRecipientIds(recipientIds)));
    status := if r.Ok? then 201 else 500;
  }

  /** PUT /notes/:noteId: the note checks, the `updateData` construction,
      then `updateNote`. */
  method PutNote(db: Database, noteId: string, userId: string, note: JsText, attachment: JsText, recipientIds: JsList) returns (status: int)
    requires db.Valid()
    modifies db`notes
    ensures db.Valid()
    ensures ParseInt(noteId).None? || NoteUpdateData(note, attachment, recipientIds).None? ==>
      status == 400 && db.notes == old(db.notes)
    ensures ParseInt(noteId).Some? && NoteUpdateData(note, attachment, recipientIds).Some? ==>
      var id := ParseInt(noteId).value;
      var p := NoteUpdateData(note, attachment, recipientIds).value;
      if NotesModel.RecipientCheckFails(old(db.recipients), userId, p.recipientIds) || NotesModel.NothingToUpdate(p) then
        status == 500 && db.notes == old(db.notes)
      else if id in old(db.notes) && old(db.notes)[id].userId == userId then
        status == 200 && db.notes == old(db.notes)[id := NotesModel.PatchNote(old(db.notes)[id], p)]
      else
        status == 404 && db.notes == old(db.notes)
  {
    var id := ParseInt(noteId);
    if id.None? {
      return 400;
    }
    var p := NoteUpdateData(note, attachment, recipientIds);
    if p.None? {
      return 400;
    }
    var r := NotesModel.UpdateNote(db, id.value, userId, p.value);
    status := StatusOf(r);
  }

  /** DELETE /notes/:noteId. */
  method DeleteNote(db: Database, noteId: string, userId: string) returns (status: int)
    requires db.Valid()
    modifies db`notes
    ensures db.Valid()
    ensures ParseInt(noteId).None? ==> status == 400 && db.notes == old(db.notes)
    ensures ParseInt(noteId).Some? ==> var id := ParseInt(noteId).value;
      && (status == 200 <==> id in old(db.notes) && old(db.notes)[id].userId == userId)
      && (status == 200 ==> db.notes == old(db.notes) - {id})
      && (status != 200 ==> status == 404 && db.notes == old(db.notes))
  {
    var id := ParseInt(noteId);
    if id.None? {
      return 400;
    }
    var deleted := NotesModel.DeleteNote(db, id.value, userId);
    status := if deleted then 200 else 404;
  }

  /** GET /notes/:noteId: another user's note is answered 404. */
  method GetNote(db: Database, noteId: string, userId: string) returns (status: int)
    ensures ParseInt(noteId).None? ==> status == 400
    ensures ParseInt(noteId).Some? ==> var id := ParseInt(noteId).value;
      (status == 200 <==> id in db.notes && db.notes[id].userId == userId) && (status != 200 ==> status == 404)
  {
    var id := ParseInt(noteId);
    if id.None? {
      return 400;
    }
    var n := NotesModel.GetNoteById(db, id.value, userId);
    status := if n.Some? then 200 else 404;
  }
}
