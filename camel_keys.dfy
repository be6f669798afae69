/** The keys request bodies use for approver and recipient fields, and
    what the camelCase to snake_case rewrite makes of them. The record types
    `UserApprover` and `UserRecipient` are not part of this model; the keys
    are the ones the create routes destructure (src/routes/users.ts:134-144
    and 257-267). */
module CamelKeys {
  import opened JsStrings
  import opened Schema

  /** The capitalised field word of a body key. */
  function CamelWord(f: ContactField): string {
    match f
    case Name => "Name"
    case Email => "Email"
    case ContactNumber1 => "ContactNumber1"
    case ContactNumber2 => "ContactNumber2"
    case Relationship => "Relationship"
    case Instagram => "Instagram"
    case Linkedin => "Linkedin"
    case Twitter => "Twitter"
    case Facebook => "Facebook"
  }

  /** The key a request body uses for field `f`, as the record type and the
      create routes spell it (`approverName`, `recipientContactNumber1`, …). */
  function CamelKey(t: ContactTable, f: ContactField): string {
    Entity(t) + CamelWord(f)
  }

  /** The lower-case entity word every key of table `t` starts with. */
  function Entity(t: ContactTable): string {
    if t.Approvers? then "approver" else "recipient"
  }

  /** The entity word survives the rewrite and is the column prefix
      without its `_`. */
  lemma EntitySnake(t: ContactTable)
    ensures SnakeCase(Entity(t)) == Entity(t)
    ensures Entity(t) + "_" == t.Prefix()
  {
    SnakeCasePlain(Entity(t));
  }

  /** What the rewrite makes of the field word, after its leading `_`:
      the DDL suffix, except that the contact numbers keep their digit
      attached. */
  function DerivedSuffix(f: ContactField): string {
    match f
    case ContactNumber1 => "contact_number1"
    case ContactNumber2 => "contact_number2"
    case _ => Suffix(f)
  }

  lemma NameWordSnake(f: ContactField)
    requires f == Name
    ensures SnakeCase(CamelWord(f)) == "_" + DerivedSuffix(f)
  {
    SnakeCaseOfWord(CamelWord(f), 'N', "ame", "_" + DerivedSuffix(f));
  }

  lemma EmailWordSnake(f: ContactField)
    requires f == Email
    ensures SnakeCase(CamelWord(f)) == "_" + DerivedSuffix(f)
  {
    SnakeCaseOfWord(CamelWord(f), 'E', "mail", "_" + DerivedSuffix(f));
  }

  lemma ContactNumber1WordSnake(f: ContactField)
    requires f == ContactNumber1
    ensures SnakeCase(CamelWord(f)) == "_" + DerivedSuffix(f)
  {
    SnakeCaseOfTwoWords(CamelWord(f), 'C', "ontact", 'N', "umber1", "_" + DerivedSuffix(f));
  }

  lemma ContactNumber2WordSnake(f: ContactField)
    requires f == ContactNumber2
    ensures SnakeCase(CamelWord(f)) == "_" + DerivedSuffix(f)
  {
    SnakeCaseOfTwoWords(CamelWord(f), 'C', "ontact", 'N', "umber2", "_" + DerivedSuffix(f));
  }

  lemma RelationshipWordSnake(f: ContactField)
    requires f == Relationship
    ensures SnakeCase(CamelWord(f)) == "_" + DerivedSuffix(f)
  {
    SnakeCaseOfWord(CamelWord(f), 'R', "elationship", "_" + DerivedSuffix(f));
  }

  lemma InstagramWordSnake(f: ContactField)
    requires f == Instagram
    ensures SnakeCase(CamelWord(f)) == "_" + DerivedSuffix(f)
  {
    SnakeCaseOfWord(CamelWord(f), 'I', "nstagram", "_" + DerivedSuffix(f));
  }

  lemma LinkedinWordSnake(f: ContactField)
    requires f == Linkedin
    ensures SnakeCase(CamelWord(f)) == "_" + DerivedSuffix(f)
  {
    SnakeCaseOfWord(CamelWord(f), 'L', "inkedin", "_" + DerivedSuffix(f));
  }

  lemma TwitterWordSnake(f: ContactField)
    requires f == Twitter
    ensures SnakeCase(CamelWord(f)) == "_" + DerivedSuffix(f)
  {
    SnakeCaseOfWord(CamelWord(f), 'T', "witter", "_" + DerivedSuffix(f));
  }

  lemma FacebookWordSnake(f: ContactField)
    requires f == Facebook
    ensures SnakeCase(CamelWord(f)) == "_" + DerivedSuffix(f)
  {
    SnakeCaseOfWord(CamelWord(f), 'F', "acebook", "_" + DerivedSuffix(f));
  }

  /** The field word of every key, rewritten. */
  lemma CamelWordSnake(f: ContactField)
    ensures SnakeCase(CamelWord(f)) == "_" + DerivedSuffix(f)
  {
    match f {
      case Name => NameWordSnake(f);
      case Email => EmailWordSnake(f);
      case ContactNumber1 => ContactNumber1WordSnake(f);
      case ContactNumber2 => ContactNumber2WordSnake(f);
      case Relationship => RelationshipWordSnake(f);
      case Instagram => InstagramWordSnake(f);
      case Linkedin => LinkedinWordSnake(f);
      case Twitter => TwitterWordSnake(f);
      case Facebook => FacebookWordSnake(f);
    }
  }

  /** The rewrite of a body key: the table prefix and the derived suffix. */
  lemma CamelKeyColumn(t: ContactTable, f: ContactField)
    ensures SnakeCase(CamelKey(t, f)) == t.Prefix() + DerivedSuffix(f)
  {
    EntitySnake(t);
    CamelWordSnake(f);
    SnakeCaseOfPrefixed(Entity(t), CamelWord(f), DerivedSuffix(f));
  }

  /** So every key but the two contact numbers rewrites to its DDL column. */
  lemma CamelKeyIsColumn(t: ContactTable, f: ContactField)
    requires f != ContactNumber1 && f != ContactNumber2
    ensures SnakeCase(CamelKey(t, f)) == ColumnName(t, f)
  {
    CamelKeyColumn(t, f);
  }

  /** `toLowerCase` also maps the Kelvin sign to `k`, after the regular
      expression has passed it by: a key spelling `Linkedin` with that sign
      in place of the `k` still names the LinkedIn column. */
  lemma KelvinKeyIsColumn(t: ContactTable)
    ensures SnakeCase(Entity(t) + ("Lin" + ([Kelvin] + "edin"))) == ColumnName(t, Linkedin)
  {
    KelvinWordSnake();
    EntitySnake(t);
    SnakeCaseOfPrefixed(Entity(t), "Lin" + ([Kelvin] + "edin"), "linkedin");
  }

  lemma KelvinWordSnake()
    ensures SnakeCase("Lin" + ([Kelvin] + "edin")) == "_" + "linkedin"
  {
    SnakeCaseWordThenKelvin('L', "in", "edin");
    assert "Lin" == ['L'] + "in";
    assert (['_'] + ToLower('L') + "in") + ("k" + "edin") == "_" + "linkedin";
  }

}
