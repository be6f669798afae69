/** `NotesModel` (src/models/NotesModel.ts): notes owned by a user, each of
    which may name some of that user's recipients. Every operation that
    targets one note matches it by id and owner together. */
module NotesModel {
  import opened Common
  import opened Schema
  import opened Sql
  import opened Store

  /** `CreateNoteParams`; a falsy attachment or recipient list is `Undefined`,
      `Null`, `""` or `None`. */
  datatype CreateNoteParams = CreateNoteParams(userId: string, note: string, attachment: JsText, recipientIds: Option<seq<int>>)

  /** `UpdateNoteParams`: `None` and `Undefined` stand for a key that is absent. */
  datatype UpdateNoteParams = UpdateNoteParams(note: Option<string>, attachment: JsText, recipientIds: Option<seq<int>>)

  /** What `validate_recipient_ids(userId, ids)` is relied on to decide: every
      id names a recipient that belongs to `userId`. */
  predicate RecipientIdsValid(recipients: map<int, ContactRow>, userId: string, ids: seq<int>) {
    forall i :: 0 <= i < |ids| ==> ids[i] in recipients && recipients[ids[i]].userId == userId
  }

  /** The validation step: only a present, non-empty list is checked. */
  predicate RecipientCheckFails(recipients: map<int, ContactRow>, userId: string, ids: Option<seq<int>>) {
    ids.Some? && ids.value != [] && !RecipientIdsValid(recipients, userId, ids.value)
  }

  /** `addNote`: rejected when the recipient check fails; otherwise one row is
      inserted with a falsy attachment or recipient list stored as NULL. */
  method AddNote(db: Database, p: CreateNoteParams) returns (r: Result<Note, Failure>)
    requires db.Valid()
    modifies db`notes, db`nextNoteId
    ensures db.Valid()
    ensures RecipientCheckFails(db.recipients, p.userId, p.recipientIds) ==>
      r == Err(InvalidRecipientIds) && db.notes == old(db.notes) && db.nextNoteId == old(db.nextNoteId)
    ensures !RecipientCheckFails(db.recipients, p.userId, p.recipientIds) ==>
      var id := old(db.nextNoteId);
      var row := NoteRow(p.userId, p.note, OrNull(p.attachment), p.recipientIds, db.clock, db.clock);
      && id !in old(db.notes)
      && db.notes == old(db.notes)[id := row]
      && db.nextNoteId == id + 1
      && r == Ok(MapRowToNote(id, row))
  {
    if RecipientCheckFails(db.recipients, p.userId, p.recipientIds) {
      return Err(InvalidRecipientIds);
    }
    var id := db.nextNoteId;
    db.nextNoteId := db.nextNoteId + 1;
    var row := NoteRow(p.userId, p.note, OrNull(p.attachment), p.recipientIds, db.clock, db.clock);
    db.notes := db.notes[id := row];
    r := Ok(MapRowToNote(id, row));
  }

  /** A note added without a truthy attachment and without a recipient list
      reads back with no attachment and an empty list. This follows from the
      definitions directly and is stated for the reader. */
  lemma AddNoteFalsyDefaults(id: int, p: CreateNoteParams, now: Time)
    requires !Truthy(p.attachment) && p.recipientIds.None?
    ensures var n := MapRowToNote(id, NoteRow(p.userId, p.note, OrNull(p.attachment), p.recipientIds, now, now));
      n.attachment.None? && n.recipientIds == [] && n.note == p.note && n.userId == p.userId
  {
  }

  /* ---------- updateNote ---------- */

  predicate NothingToUpdate(p: UpdateNoteParams) {
    p.note.None? && p.attachment.Undefined? && p.recipientIds.None?
  }

  /** The columns `updateNote` assigns, in the order its code pushes them. */
  function SuppliedNoteColumns(p: UpdateNoteParams): seq<string> {
    (if p.note.Some? then ["note"] else [])
    + (if !p.attachment.Undefined? then ["attachment"] else [])
    + (if p.recipientIds.Some? then ["recipient_ids"] else [])
  }

  /** No column is supplied exactly when there is nothing to update. */
  lemma NothingSupplied(p: UpdateNoteParams)
    ensures SuppliedNoteColumns(p) == [] <==> NothingToUpdate(p)
  {
  }

  /** The value `updateNote` binds for a supplied column. */
  function NoteValue(p: UpdateNoteParams, col: string): Value {
    if col == "note" then (if p.note.Some? then Text(p.note.value) else SqlNull)
    else if col == "attachment" then (if p.attachment.Str? then Text(p.attachment.s) else SqlNull)
    else if col == "recipient_ids" then (if p.recipientIds.Some? then IntArray(p.recipientIds.value) else SqlNull)
    else SqlNull
  }

  /** The statement `updateNote` sends: `$1 … $k` are the supplied columns in
      order, `$k+1` is the note id and `$k+2` the owner. */
  predicate NoteUpdateShape(noteId: int, userId: string, p: UpdateNoteParams, s: Statement) {
    var k := |s.sets|;
    && SetColumns(s.sets) == SuppliedNoteColumns(p)
    && |s.values| == k + 2
    && (forall i :: 0 <= i < k ==> s.sets[i].Assign? && s.sets[i].param == i + 1)
    && (forall i :: 0 <= i < k ==> s.values[i] == NoteValue(p, s.sets[i].column))
    && s.values[k] == Int(noteId) && s.values[k + 1] == Text(userId)
    && s.whereId == k + 1 && s.whereOwner == Some(k + 2)
  }

  /** What the builder has pushed so far: one `column = $n` item per column
      of `cols`, numbered from 1, each with its value. */
  predicate PushedSoFar(p: UpdateNoteParams, updates: seq<SetItem>, values: seq<Value>, cols: seq<string>) {
    && SetColumns(updates) == cols && |values| == |updates|
    && (forall i :: 0 <= i < |updates| ==> updates[i].Assign? && updates[i].param == i + 1)
    && (forall i :: 0 <= i < |updates| ==> values[i] == NoteValue(p, updates[i].column))
  }

  lemma PushOne(p: UpdateNoteParams, updates: seq<SetItem>, values: seq<Value>, cols: seq<string>, col: string)
    requires PushedSoFar(p, updates, values, cols)
    ensures PushedSoFar(p, updates + [Assign(col, |updates| + 1)], values + [NoteValue(p, col)], cols + [col])
  {
    var u := updates + [Assign(col, |updates| + 1)];
    assert SetColumns(u) == cols + [col] by {
      assert forall i :: 0 <= i < |updates| ==> u[i] == updates[i];
    }
  }

  /** Appending the id and the owner to what was pushed gives the shape. */
  lemma PushedShape(noteId: int, userId: string, p: UpdateNoteParams, updates: seq<SetItem>, values: seq<Value>)
    requires PushedSoFar(p, updates, values, SuppliedNoteColumns(p))
    ensures NoteUpdateShape(noteId, userId, p, Statement(updates, values + [Int(noteId), Text(userId)], |updates| + 1, Some(|updates| + 2)))
  {
    var vs := values + [Int(noteId), Text(userId)];
    assert forall i :: 0 <= i < |values| ==> vs[i] == values[i];
  }

  /** The dynamic SET builder of `updateNote`. */
  method BuildNoteUpdate(noteId: int, userId: string, p: UpdateNoteParams) returns (stmt: Option<Statement>)
    ensures stmt.None? <==> NothingToUpdate(p)
    ensures stmt.Some? ==> NoteUpdateShape(noteId, userId, p, stmt.value)
  {
    var updates: seq<SetItem> := [];
    var values: seq<Value> := [];
    var paramIndex: nat := 1;
    ghost var cols: seq<string> := [];
    if p.note.Some? {
      PushOne(p, updates, values, cols, "note");
      updates := updates + [Assign("note", paramIndex)];
      paramIndex := paramIndex + 1;
      values := values + [Text(p.note.value)];
      cols := cols + ["note"];
    }
    assert PushedSoFar(p, updates, values, cols) && paramIndex == |updates| + 1;
    assert cols == if p.note.Some? then ["note"] else [];
    if !p.attachment.Undefined? {
      PushOne(p, updates, values, cols, "attachment");
      updates := updates + [Assign("attachment", paramIndex)];
      paramIndex := paramIndex + 1;
      values := values + [if p.attachment.Str? then Text(p.attachment.s) else SqlNull];
      cols := cols + ["attachment"];
    }
    assert PushedSoFar(p, updates, values, cols) && paramIndex == |updates| + 1;
    assert cols == (if p.note.Some? then ["note"] else []) + (if !p.attachment.Undefined? then ["attachment"] else []);
    if p.recipientIds.Some? {
      PushOne(p, updates, values, cols, "recipient_ids");
      updates := updates + [Assign("recipient_ids", paramIndex)];
      paramIndex := paramIndex + 1;
      values := values + [IntArray(p.recipientIds.value)];
      cols := cols + ["recipient_ids"];
    }
    assert PushedSoFar(p, updates, values, cols) && paramIndex == |updates| + 1;
    assert cols == SuppliedNoteColumns(p);
    NothingSupplied(p);
    if updates == [] {
      return None;
    }
    PushedShape(noteId, userId, p, updates, values);
    values := values + [Int(noteId), Text(userId)];
    var whereId := paramIndex;
    paramIndex := paramIndex + 1;
    var whereOwner := paramIndex;
    paramIndex := paramIndex + 1;
    stmt := Some(Statement(updates, values, whereId, Some(whereOwner)));
  }

  /** The intended effect of an update: exactly the supplied fields are
      replaced; `updated_at` is not among them. */
  function PatchNote(row: NoteRow, p: UpdateNoteParams): NoteRow {
    row.(note := if p.note.Some? then p.note.value else row.note,
         attachment := match p.attachment case Undefined => row.attachment case Null => None case Str(s) => Some(s),
         recipientIds := if p.recipientIds.Some? then p.recipientIds else row.recipientIds)
  }

  lemma ApplyOneNoteSet(row: NoteRow, p: UpdateNoteParams, col: string, param: nat, rest: seq<SetItem>, values: seq<Value>, now: Time)
    requires col in NoteWritable && 1 <= param <= |values| && values[param - 1] == NoteValue(p, col)
    requires col == "note" ==> p.note.Some?
    requires col == "recipient_ids" ==> p.recipientIds.Some?
    ensures ApplyNoteSets(row, [Assign(col, param)] + rest, values, now)
      == ApplyNoteSets(
           if col == "note" then row.(note := p.note.value)
           else if col == "attachment" then row.(attachment := if p.attachment.Str? then Some(p.attachment.s) else None)
           else row.(recipientIds := p.recipientIds),
           rest, values, now)
  {
    assert ([Assign(col, param)] + rest)[1..] == rest;
  }

  /** The built statement passes every prepare-time check. */
  lemma NoteUpdatePrepares(noteId: int, userId: string, p: UpdateNoteParams, s: Statement)
    requires NoteUpdateShape(noteId, userId, p, s)
    ensures PrepareError(NoteColumns, NoteWritable, s.sets, s.values).None?
  {
    var cols := SuppliedNoteColumns(p);
    forall i | 0 <= i < |s.sets|
      ensures ItemError(NoteColumns, NoteWritable, s.sets[i], s.values).None?
    {
      assert s.sets[i].column == cols[i];
    }
    SuppliedNoteColumnsDistinct(p);
    PrepareErrorNone(NoteColumns, NoteWritable, s.sets, s.values);
  }

  /** No column is supplied twice. */
  lemma SuppliedNoteColumnsDistinct(p: UpdateNoteParams)
    ensures Distinct(SuppliedNoteColumns(p))
  {
    var cols := SuppliedNoteColumns(p);
    forall i, j | 0 <= i < j < |cols|
      ensures |cols[i]| < |cols[j]|
    {
    }
    DistinctByLength(cols);
  }

  /** Applied to a row, the built SET list yields `PatchNote`. */
  lemma NoteUpdateApplies(row: NoteRow, noteId: int, userId: string, p: UpdateNoteParams, s: Statement, now: Time)
    requires NoteUpdateShape(noteId, userId, p, s)
    ensures ApplyNoteSets(row, s.sets, s.values, now) == Ok(PatchNote(row, p))
  {
    var sets := s.sets;
    var k := |sets|;
    var cols := SuppliedNoteColumns(p);
    var r0 := if p.note.Some? then row.(note := p.note.value) else row;
    var r1 := match p.attachment case Undefined => r0 case Null => r0.(attachment := None) case Str(a) => r0.(attachment := Some(a));
    var r2 := if p.recipientIds.Some? then r1.(recipientIds := p.recipientIds) else r1;
    var n0 := if p.note.Some? then 1 else 0;
    var n1 := n0 + if !p.attachment.Undefined? then 1 else 0;
    assert k == n1 + if p.recipientIds.Some? then 1 else 0;
    assert ApplyNoteSets(row, sets, s.values, now) == ApplyNoteSets(r0, sets[n0..], s.values, now) by {
      if p.note.Some? {
        assert sets[0].column == cols[0];
        assert sets == [Assign("note", 1)] + sets[1..];
        ApplyOneNoteSet(row, p, "note", 1, sets[1..], s.values, now);
      }
    }
    assert ApplyNoteSets(r0, sets[n0..], s.values, now) == ApplyNoteSets(r1, sets[n1..], s.values, now) by {
      if !p.attachment.Undefined? {
        assert sets[n0].column == cols[n0];
        assert sets[n0..] == [Assign("attachment", n0 + 1)] + sets[n1..];
        ApplyOneNoteSet(r0, p, "attachment", n0 + 1, sets[n1..], s.values, now);
      }
    }
    assert ApplyNoteSets(r1, sets[n1..], s.values, now) == Ok(r2) by {
      assert sets[k..] == [];
      if p.recipientIds.Some? {
        assert sets[n1].column == cols[n1];
        assert sets[n1..] == [Assign("recipient_ids", n1 + 1)] + sets[k..];
        ApplyOneNoteSet(r1, p, "recipient_ids", n1 + 1, sets[k..], s.values, now);
      }
    }
    assert r2 == PatchNote(row, p);
  }

  /** Executing the built statement updates the note exactly when the id and
      the owner both match, and then it changes only the supplied fields. */
  lemma NoteUpdateEffect(rows: map<int, NoteRow>, noteId: int, userId: string, p: UpdateNoteParams, s: Statement, now: Time)
    requires NoteUpdateShape(noteId, userId, p, s)
    ensures ExecNoteUpdate(rows, s, now) ==
      if noteId in rows && rows[noteId].userId == userId then Ok(Some((noteId, PatchNote(rows[noteId], p)))) else Ok(None)
  {
    NoteUpdatePrepares(noteId, userId, p, s);
    var k := |s.sets|;
    assert Bound(s.values, s.whereId) == Some(Int(noteId));
    assert Bound(s.values, k + 2) == Some(Text(userId));
    if noteId in rows && rows[noteId].userId == userId {
      NoteUpdateApplies(rows[noteId], noteId, userId, p, s, now);
    }
  }

  /** `updateNote`: the recipient check comes first, then "No fields to
      update", and only then the statement, which changes the matching note
      of `userId` or nothing. */
  method UpdateNote(db: Database, noteId: int, userId: string, p: UpdateNoteParams) returns (r: Result<Option<Note>, Failure>)
    requires db.Valid()
    modifies db`notes
    ensures db.Valid()
    ensures RecipientCheckFails(db.recipients, userId, p.recipientIds) ==>
      r == Err(InvalidRecipientIds) && db.notes == old(db.notes)
    ensures !RecipientCheckFails(db.recipients, userId, p.recipientIds) && NothingToUpdate(p) ==>
      r == Err(NoFieldsToUpdate) && db.notes == old(db.notes)
    ensures !RecipientCheckFails(db.recipients, userId, p.recipientIds) && !NothingToUpdate(p) ==>
      if noteId in old(db.notes) && old(db.notes)[noteId].userId == userId then
        var row := PatchNote(old(db.notes)[noteId], p);
        db.notes == old(db.notes)[noteId := row] && r == Ok(Some(MapRowToNote(noteId, row)))
      else
        db.notes == old(db.notes) && r == Ok(None)
  {
    if RecipientCheckFails(db.recipients, userId, p.recipientIds) {
      return Err(InvalidRecipientIds);
    }
    var stmt := BuildNoteUpdate(noteId, userId, p);
    if stmt.None? {
      return Err(NoFieldsToUpdate);
    }
    NoteUpdateEffect(db.notes, noteId, userId, p, stmt.value, db.clock);
    match ExecNoteUpdate(db.notes, stmt.value, db.clock)
    case Err(e) =>
      r := Err(Db(e));
    case Ok(None) =>
      r := Ok(None);
    case Ok(Some((id, row))) =>
      db.notes := db.notes[id := row];
      r := Ok(Some(MapRowToNote(id, row)));
  }

  /* ---------- deleteNote, getNoteById, listings ---------- */

  /** `deleteNote`: removes the note only when it belongs to `userId`. */
  method DeleteNote(db: Database, noteId: int, userId: string) returns (deleted: bool)
    requires db.Valid()
    modifies db`notes
    ensures db.Valid()
    ensures deleted <==> noteId in old(db.notes) && old(db.notes)[noteId].userId == userId
    ensures db.notes == if deleted then old(db.notes) - {noteId} else old(db.notes)
  {
    deleted := noteId in db.notes && db.notes[noteId].userId == userId;
    if deleted {
      db.notes := db.notes - {noteId};
    }
  }

  /** `getNoteById`: another user's note reads exactly like a missing one. */
  function GetNoteById(db: Database, noteId: int, userId: string): (n: Option<Note>)
    reads db
    ensures n.Some? <==> noteId in db.notes && db.notes[noteId].userId == userId
    ensures n.Some? ==> n.value.id == noteId && n.value.userId == userId
  {
    if noteId in db.notes && db.notes[noteId].userId == userId then Some(MapRowToNote(noteId, db.notes[noteId])) else None
  }

  /** An added note is found again by its owner and by nobody else. */
  lemma AddedNoteFound(db: Database, id: int, row: NoteRow, other: string)
    requires id in db.notes && db.notes[id] == row && other != row.userId
    ensures GetNoteById(db, id, row.userId) == Some(MapRowToNote(id, row))
    ensures GetNoteById(db, id, other) == None
  {
  }

  /** `ns` holds every note of `userId` exactly once, newest first. */
  predicate NotesOfUser(rows: map<int, NoteRow>, userId: string, ns: seq<Note>) {
    && (forall i :: 0 <= i < |ns| ==> ns[i].id in rows && rows[ns[i].id].userId == userId && ns[i] == MapRowToNote(ns[i].id, rows[ns[i].id]))
    && (forall id :: id in rows && rows[id].userId == userId ==> exists i :: 0 <= i < |ns| && ns[i].id == id)
    && (forall i, j :: 0 <= i < j < |ns| ==> ns[i].id != ns[j].id && ns[i].createdAt >= ns[j].createdAt)
  }

  /** `getNotesByUserId`: `SELECT … WHERE user_id = $1 ORDER BY created_at DESC`. */
  method GetNotesByUserId(db: Database, userId: string) returns (ns: seq<Note>)
    ensures NotesOfUser(db.notes, userId, ns)
  {
    var rows := db.notes;
    var m := map id | id in rows && rows[id].userId == userId :: Some(rows[id].createdAt);
    var ks := OrderByTime(m, true);
    forall i | 0 <= i < |ks|
      ensures ks[i] in m && ks[i] in rows
    {
      assert ks[i] in ks;
    }
    ns := seq(|ks|, i requires 0 <= i < |ks| => MapRowToNote(ks[i], rows[ks[i]]));
    forall id | id in rows && rows[id].userId == userId
      ensures exists i :: 0 <= i < |ns| && ns[i].id == id
    {
      assert id in m;
      var i :| 0 <= i < |ks| && ks[i] == id;
      assert ns[i].id == id;
    }
    forall i, j | 0 <= i < j < |ns|
      ensures ns[i].id != ns[j].id && ns[i].createdAt >= ns[j].createdAt
    {
      assert ks[i] in m && ks[j] in m;
      assert Precedes(true, m[ks[i]], m[ks[j]]);
    }
  }

  /** The join of the listing: for each listed id, the recipient with that
      id when it belongs to `owner`; ids of other users' recipients and ids
      with no row contribute nothing, and an id listed twice yields its
      recipient twice. */
  function ResolveRecipients(ids: seq<int>, recipients: map<int, ContactRow>, owner: string): (rs: seq<ContactRecord>)
    ensures |rs| <= |ids|
    ensures forall j :: 0 <= j < |rs| ==>
      rs[j].id in ids && rs[j].id in recipients && recipients[rs[j].id].userId == owner
      && rs[j] == ToContactRecord(rs[j].id, recipients[rs[j].id])
    ensures forall id :: id in ids && id in recipients && recipients[id].userId == owner ==> Lists(rs, id)
  {
    if ids == [] then []
    else
      var rest := ResolveRecipients(ids[1..], recipients, owner);
      assert forall x :: x in ids <==> x == ids[0] || x in ids[1..];
      if ids[0] in recipients && recipients[ids[0]].userId == owner then
        var head := ToContactRecord(ids[0], recipients[ids[0]]);
        ConsKeepsIds(head, rest);
        [head] + rest
      else
        rest
  }

  /** Each id owned by `owner` comes out as often as it is listed, and no
      other id comes out at all. */
  lemma {:induction false} ResolveMultiplicity(ids: seq<int>, recipients: map<int, ContactRow>, owner: string, id: int)
    ensures var owned := id in recipients && recipients[id].userId == owner;
      multiset(IdsOf(ResolveRecipients(ids, recipients, owner)))[id] == if owned then multiset(ids)[id] else 0
  {
    if ids != [] {
      ResolveMultiplicity(ids[1..], recipients, owner, id);
      assert ids == [ids[0]] + ids[1..];
      var rest := ResolveRecipients(ids[1..], recipients, owner);
      if ids[0] in recipients && recipients[ids[0]].userId == owner {
        var head := ToContactRecord(ids[0], recipients[ids[0]]);
        assert ResolveRecipients(ids, recipients, owner) == [head] + rest;
        assert IdsOf([head] + rest) == [head.id] + IdsOf(rest);
      }
    }
  }

  /** The ids of a list of records, in order. */
  function IdsOf(rs: seq<ContactRecord>): (ids: seq<int>)
    ensures |ids| == |rs| && forall j :: 0 <= j < |rs| ==> ids[j] == rs[j].id
  {
    if rs == [] then [] else [rs[0].id] + IdsOf(rs[1..])
  }

  /** Some record of `rs` has id `id`. */
  predicate Lists(rs: seq<ContactRecord>, id: int) {
    exists j :: 0 <= j < |rs| && rs[j].id == id
  }

  /** Putting a record in front keeps every id listed after it. */
  lemma ConsKeepsIds(head: ContactRecord, rest: seq<ContactRecord>)
    ensures forall j :: 1 <= j < |rest| + 1 ==> ([head] + rest)[j] == rest[j - 1]
    ensures Lists([head] + rest, head.id)
    ensures forall id :: Lists(rest, id) ==> Lists([head] + rest, id)
  {
    var rs := [head] + rest;
    assert rs[0].id == head.id;
    forall id | Lists(rest, id)
      ensures Lists(rs, id)
    {
      var j :| 0 <= j < |rest| && rest[j].id == id;
      assert rs[j + 1] == rest[j];
    }
  }

  function NotesOf(ns: seq<NoteWithRecipients>): (r: seq<Note>)
    ensures |r| == |ns| && forall i :: 0 <= i < |ns| ==> r[i] == ns[i].note
  {
    seq(|ns|, i requires 0 <= i < |ns| => ns[i].note)
  }

  /** `getNotesWithRecipients`: the notes of `userId`, newest first, each with
      the multiset of recipients its ids resolve to (their order is left open). */
  method GetNotesWithRecipients(db: Database, userId: string) returns (ns: seq<NoteWithRecipients>)
    ensures NotesOfUser(db.notes, userId, NotesOf(ns))
    ensures forall i :: 0 <= i < |ns| ==>
      multiset(ns[i].recipients) == multiset(ResolveRecipients(ns[i].note.recipientIds, db.recipients, userId))
  {
    var notes := GetNotesByUserId(db, userId);
    var recipients := db.recipients;
    ns := seq(|notes|, i requires 0 <= i < |notes| =>
      NoteWithRecipients(notes[i], ResolveRecipients(notes[i].recipientIds, recipients, notes[i].userId)));
    assert NotesOf(ns) == notes;
    assert forall i :: 0 <= i < |ns| ==> ns[i].note == notes[i] && notes[i].userId == userId;
  }
}
