/** Rows of the tables created in src/config/database.ts, the records the
    models return, and the row-to-record mappings. */
module Schema {
  import opened Common

  /* ---------- users ---------- */

  /** A row of `users`; the table is keyed by the external (Google) id. */
  datatype UserRow = UserRow(
    email: string,
    name: string,
    picture: Option<string>,
    provider: string,
    createdAt: Time,
    updatedAt: Time,
    lastLogin: Time)

  /** The VARCHAR widths of `users`: `id`, `email` and `name` take 255
      characters, `provider` 50; `picture` is TEXT. */
  const UserIdWidth: nat := 255
  const EmailWidth: nat := 255
  const UserNameWidth: nat := 255
  const ProviderWidth: nat := 50

  /** The `User` record: every column but `updated_at`. */
  datatype User = User(
    id: string,
    email: string,
    name: string,
    picture: Option<string>,
    provider: string,
    createdAt: Time,
    lastLogin: Time)

  function ToUser(id: string, row: UserRow): (u: User)
    ensures u.id == id && u.email == row.email && u.name == row.name && u.picture == row.picture
    ensures u.provider == row.provider && u.createdAt == row.createdAt && u.lastLogin == row.lastLogin
  {
    User(id, row.email, row.name, row.picture, row.provider, row.createdAt, row.lastLogin)
  }

  /* ---------- user_profiles ---------- */

  /** The seven columns an upsert writes. */
  datatype ProfileFields = ProfileFields(
    age: Option<int>,
    contactNumber1: Option<string>,
    contactNumber2: Option<string>,
    instagramHandle: Option<string>,
    linkedinProfile: Option<string>,
    twitterHandle: Option<string>,
    facebookProfile: Option<string>)

  /** The VARCHAR widths of the text columns of `user_profiles`: the
      contact numbers take 20 characters, the Instagram and Twitter handles
      100, the LinkedIn and Facebook profiles 255; `age` is an INTEGER. */
  const ProfileNumberWidth: nat := 20
  const ProfileHandleWidth: nat := 100
  const ProfileLinkWidth: nat := 255

  /** A row of `user_profiles`; the table is keyed by its UNIQUE `user_id`. */
  datatype ProfileRow = ProfileRow(id: int, fields: ProfileFields, createdAt: Time, updatedAt: Time)

  datatype Profile = Profile(id: int, userId: string, fields: ProfileFields, createdAt: Time, updatedAt: Time)

  function ToProfile(userId: string, row: ProfileRow): Profile {
    Profile(row.id, userId, row.fields, row.createdAt, row.updatedAt)
  }

  /* ---------- user_approvers and user_recipients ---------- */

  /** The person-describing columns `user_approvers` and `user_recipients`
      share; name and email are NOT NULL. */
  datatype Contact = Contact(
    name: string,
    email: string,
    contactNumber1: Option<string>,
    contactNumber2: Option<string>,
    relationship: Option<string>,
    instagram: Option<string>,
    linkedin: Option<string>,
    twitter: Option<string>,
    facebook: Option<string>)

  /** A row of `user_approvers` or `user_recipients`. `created_at` is a
      nullable column a statement may assign; `updated_at` is only ever
      stamped with the current time. */
  datatype ContactRow = ContactRow(userId: string, contact: Contact, createdAt: Option<Time>, updatedAt: Time)

  /** `UserApprover` or `UserRecipient`: the row together with its id. */
  datatype ContactRecord = ContactRecord(id: int, userId: string, contact: Contact, createdAt: Option<Time>, updatedAt: Time)

  function ToContactRecord(id: int, row: ContactRow): ContactRecord {
    ContactRecord(id, row.userId, row.contact, row.createdAt, row.updatedAt)
  }

  /** The two tables of this shape; their columns differ only in the prefix. */
  datatype ContactTable = Approvers | Recipients {
    function Prefix(): string {
      if Approvers? then "approver_" else "recipient_"
    }
  }

  datatype ContactField =
    Name | Email | ContactNumber1 | ContactNumber2 | Relationship | Instagram | Linkedin | Twitter | Facebook
  {
    predicate Nullable() {
      !Name? && !Email?
    }

    /** The VARCHAR width of the field's column, the same in both tables. */
    function Width(): nat {
      match this
      case ContactNumber1 | ContactNumber2 => 20
      case Relationship | Instagram | Twitter => 100
      case _ => 255
    }
  }

  function Suffix(f: ContactField): string {
    match f
    case Name => "name"
    case Email => "email"
    case ContactNumber1 => "contact_number_1"
    case ContactNumber2 => "contact_number_2"
    case Relationship => "relationship"
    case Instagram => "instagram"
    case Linkedin => "linkedin"
    case Twitter => "twitter"
    case Facebook => "facebook"
  }

  /** The column of field `f` in table `t`, as the DDL names it. */
  function ColumnName(t: ContactTable, f: ContactField): string {
    t.Prefix() + Suffix(f)
  }

  /** The field a column name of table `t` stands for, if any. */
  function FieldOfColumn(t: ContactTable, col: string): (r: Option<ContactField>)
    ensures r.Some? ==> ColumnName(t, r.value) == col
  {
    if col == ColumnName(t, Name) then Some(Name)
    else if col == ColumnName(t, Email) then Some(Email)
    else if col == ColumnName(t, ContactNumber1) then Some(ContactNumber1)
    else if col == ColumnName(t, ContactNumber2) then Some(ContactNumber2)
    else if col == ColumnName(t, Relationship) then Some(Relationship)
    else if col == ColumnName(t, Instagram) then Some(Instagram)
    else if col == ColumnName(t, Linkedin) then Some(Linkedin)
    else if col == ColumnName(t, Twitter) then Some(Twitter)
    else if col == ColumnName(t, Facebook) then Some(Facebook)
    else None
  }

  /** Column names determine fields: every field's column is found again. */
  lemma FieldOfColumnName(t: ContactTable, f: ContactField)
    ensures FieldOfColumn(t, ColumnName(t, f)) == Some(f)
  {
    forall g | ColumnName(t, g) == ColumnName(t, f)
      ensures g == f
    {
      assert Suffix(g) == ColumnName(t, g)[|t.Prefix()|..];
      assert Suffix(f) == ColumnName(t, f)[|t.Prefix()|..];
      SuffixInjective(f, g);
    }
  }

  /** No two fields share a suffix. */
  lemma SuffixInjective(f: ContactField, g: ContactField)
    requires Suffix(f) == Suffix(g)
    ensures f == g
  {
  }

  /** A contact column starts with the table's prefix, so it is none of the
      key, owner and timestamp columns. */
  lemma ColumnNameIsPrefixed(t: ContactTable, f: ContactField)
    ensures ColumnName(t, f)[..|t.Prefix()|] == t.Prefix()
    ensures ColumnName(t, f) !in {"id", "user_id", "created_at", "updated_at"}
  {
    assert ColumnName(t, f)[0] == t.Prefix()[0];
  }

  /** The value of field `f`; name and email are never NULL. */
  function Get(c: Contact, f: ContactField): (v: Option<string>)
    ensures !f.Nullable() ==> v.Some?
  {
    match f
    case Name => Some(c.name)
    case Email => Some(c.email)
    case ContactNumber1 => c.contactNumber1
    case ContactNumber2 => c.contactNumber2
    case Relationship => c.relationship
    case Instagram => c.instagram
    case Linkedin => c.linkedin
    case Twitter => c.twitter
    case Facebook => c.facebook
  }

  /** `c` with field `f` set to `v`; a NOT NULL field only takes a string. */
  function Put(c: Contact, f: ContactField, v: Option<string>): (d: Contact)
    requires !f.Nullable() ==> v.Some?
    ensures Get(d, f) == v
    ensures forall g :: g != f ==> Get(d, g) == Get(c, g)
  {
    match f
    case Name => c.(name := v.value)
    case Email => c.(email := v.value)
    case ContactNumber1 => c.(contactNumber1 := v)
    case ContactNumber2 => c.(contactNumber2 := v)
    case Relationship => c.(relationship := v)
    case Instagram => c.(instagram := v)
    case Linkedin => c.(linkedin := v)
    case Twitter => c.(twitter := v)
    case Facebook => c.(facebook := v)
  }

  /** The contact fields in the order of the DDL. */
  const Fields: seq<ContactField> :=
    [Name, Email, ContactNumber1, ContactNumber2, Relationship, Instagram, Linkedin, Twitter, Facebook]

  /** Where field `f` stands in `Fields`. */
  function FieldIndex(f: ContactField): (i: nat)
    ensures i < |Fields| && Fields[i] == f
  {
    match f
    case Name => 0
    case Email => 1
    case ContactNumber1 => 2
    case ContactNumber2 => 3
    case Relationship => 4
    case Instagram => 5
    case Linkedin => 6
    case Twitter => 7
    case Facebook => 8
  }

  /** No field is listed twice. */
  lemma FieldsDistinct()
    ensures Distinct(Fields)
  {
    forall k | 0 <= k < |Fields|
      ensures FieldIndex(Fields[k]) == k
    {
    }
  }

  /** A contact is determined by its fields. */
  lemma ContactsEqual(c: Contact, d: Contact)
    requires forall f :: Get(c, f) == Get(d, f)
    ensures c == d
  {
    assert Get(c, Name) == Get(d, Name) && Get(c, Email) == Get(d, Email);
    assert Get(c, ContactNumber1) == Get(d, ContactNumber1) && Get(c, ContactNumber2) == Get(d, ContactNumber2);
    assert Get(c, Relationship) == Get(d, Relationship) && Get(c, Instagram) == Get(d, Instagram);
    assert Get(c, Linkedin) == Get(d, Linkedin) && Get(c, Twitter) == Get(d, Twitter);
    assert Get(c, Facebook) == Get(d, Facebook);
  }

  /* ---------- user_notes ---------- */

  /** A row of `user_notes`; `recipient_ids` is an integer array or NULL. */
  datatype NoteRow = NoteRow(
    userId: string,
    note: string,
    attachment: Option<string>,
    recipientIds: Option<seq<int>>,
    createdAt: Time,
    updatedAt: Time)

  datatype Note = Note(
    id: int,
    userId: string,
    note: string,
    attachment: Option<string>,
    recipientIds: seq<int>,
    createdAt: Time,
    updatedAt: Time)

  /** `mapRowToNote`: a NULL `recipient_ids` reads as the empty list, every
      other column is copied. */
  function MapRowToNote(id: int, row: NoteRow): (n: Note)
    ensures row.recipientIds.None? ==> n.recipientIds == []
    ensures row.recipientIds.Some? ==> n.recipientIds == row.recipientIds.value
    ensures n.id == id && n.userId == row.userId && n.note == row.note && n.attachment == row.attachment
    ensures n.createdAt == row.createdAt && n.updatedAt == row.updatedAt
  {
    Note(id, row.userId, row.note, row.attachment,
         match row.recipientIds case None => [] case Some(ids) => ids,
         row.createdAt, row.updatedAt)
  }

  /** A note together with the recipient records its ids resolve to. */
  datatype NoteWithRecipients = NoteWithRecipients(note: Note, recipients: seq<ContactRecord>)
}
