/** The SET clause of `updateApprover` and `updateRecipient` as the text the
    code sends (src/models/UserProfile.ts:184-203,
    src/models/RecipientProfile.ts:61-80): each rewritten body key is pasted,
    unquoted, before ` = $n`, and the items are joined with `, `. The rest of
    the model reads each item's column as one name, as if it were quoted;
    this module shows that this reading and the text agree for keys that
    rewrite to identifiers, and that for other keys the text says more. */
module SqlText {
  import opened Common
  import opened Schema
  import opened JsStrings
  import opened Sql
  import opened ContactUpdate

  /** A character of an unquoted PostgreSQL identifier: an ASCII letter or
      digit, `_`, `$`, or any character outside ASCII. White space,
      punctuation and quotes are not. */
  predicate IdentChar(c: char) {
    'a' <= c <= 'z' || 'A' <= c <= 'Z' || '0' <= c <= '9' || c == '_' || c == '$' || c as int >= 0x80
  }

  /** A text the server reads as one name, or not at all. */
  predicate IsIdentifier(s: string) {
    s != [] && forall i :: 0 <= i < |s| ==> IdentChar(s[i])
  }

  /** One SET item as text: `column = rhs`. */
  function ItemText(item: (string, string)): string {
    item.0 + " = " + item.1
  }

  /** `setClause.join(', ')`. */
  function JoinItems(items: seq<(string, string)>): string
    decreases |items|
  {
    if items == [] then ""
    else if |items| == 1 then ItemText(items[0])
    else ItemText(items[0]) + ", " + JoinItems(items[1..])
  }

  /** The text the builder pushes for one structured item:
      `${dbColumn} = $${paramCount}` or `updated_at = CURRENT_TIMESTAMP`. */
  function Rendered(item: SetItem): (string, string) {
    match item
    case Assign(c, p) => (c, "$" + Digits(p))
    case StampNow(c) => (c, "CURRENT_TIMESTAMP")
  }

  function RenderedAll(sets: seq<SetItem>): (r: seq<(string, string)>)
    ensures |r| == |sets| && forall j :: 0 <= j < |sets| ==> r[j] == Rendered(sets[j])
  {
    seq(|sets|, j requires 0 <= j < |sets| => Rendered(sets[j]))
  }

  /** The SET clause text the server receives for a statement. */
  function SetText(sets: seq<SetItem>): string {
    JoinItems(RenderedAll(sets))
  }

  /** A reading of a SET clause as plain items: a column name, then a
      right-hand side without a comma. */
  predicate Readable(items: seq<(string, string)>) {
    forall j :: 0 <= j < |items| ==> IsIdentifier(items[j].0) && ',' !in items[j].1
  }

  /** The position of the first `c` in `s`, or `|s|`. */
  function FirstIndex(s: string, c: char): nat
    decreases |s|
  {
    if s == [] || s[0] == c then 0 else 1 + FirstIndex(s[1..], c)
  }

  lemma {:induction false} FirstIndexAfter(u: string, c: char, v: string)
    requires c !in u
    ensures FirstIndex(u + [c] + v, c) == |u|
    decreases |u|
  {
    if u != [] {
      assert (u + [c] + v)[1..] == u[1..] + [c] + v;
      FirstIndexAfter(u[1..], c, v);
    }
  }

  /** Two strings split at the first occurrence of `c` split alike. */
  lemma SplitAtFirst(u: string, v: string, u': string, v': string, c: char)
    requires c !in u && c !in u'
    requires u + [c] + v == u' + [c] + v'
    ensures u == u' && v == v'
  {
    var w := u + [c] + v;
    FirstIndexAfter(u, c, v);
    FirstIndexAfter(u', c, v');
    assert u == w[..|u|] && u' == (u' + [c] + v')[..|u'|];
    assert v == w[|u| + 1..] && v' == (u' + [c] + v')[|u'| + 1..];
  }

  /** An item is read back from its text. */
  lemma ItemTextInjective(x: (string, string), y: (string, string))
    requires IsIdentifier(x.0) && IsIdentifier(y.0)
    requires ItemText(x) == ItemText(y)
    ensures x == y
  {
    assert ' ' !in x.0 && ' ' !in y.0;
    assert ItemText(x) == x.0 + [' '] + ("= " + x.1);
    assert ItemText(y) == y.0 + [' '] + ("= " + y.1);
    SplitAtFirst(x.0, "= " + x.1, y.0, "= " + y.1, ' ');
    assert x.1 == ("= " + x.1)[2..] && y.1 == ("= " + y.1)[2..];
  }

  lemma ItemTextNoComma(x: (string, string))
    requires IsIdentifier(x.0) && ',' !in x.1
    ensures ',' !in ItemText(x)
  {
    assert ',' !in x.0;
  }

  /** A readable clause has exactly one readable reading. */
  lemma {:induction false} JoinItemsInjective(a: seq<(string, string)>, b: seq<(string, string)>)
    requires Readable(a) && Readable(b)
    requires JoinItems(a) == JoinItems(b)
    ensures a == b
    decreases |a|
  {
    if a == [] || b == [] {
    } else if |a| == 1 && |b| == 1 {
      ItemTextInjective(a[0], b[0]);
    } else if |a| == 1 {
      ItemTextNoComma(a[0]);
    } else if |b| == 1 {
      ItemTextNoComma(b[0]);
    } else {
      ItemTextNoComma(a[0]);
      ItemTextNoComma(b[0]);
      var ra, rb := JoinItems(a[1..]), JoinItems(b[1..]);
      assert JoinItems(a) == ItemText(a[0]) + [','] + (" " + ra);
      assert JoinItems(b) == ItemText(b[0]) + [','] + (" " + rb);
      SplitAtFirst(ItemText(a[0]), " " + ra, ItemText(b[0]), " " + rb, ',');
      assert ra == (" " + ra)[1..] && rb == (" " + rb)[1..];
      assert Readable(a[1..]) && Readable(b[1..]);
      JoinItemsInjective(a[1..], b[1..]);
      ItemTextInjective(a[0], b[0]);
      assert a == [a[0]] + a[1..] && b == [b[0]] + b[1..];
    }
  }

  lemma DigitsNoComma(m: nat)
    ensures ',' !in "$" + Digits(m)
  {
    var d := Digits(m);
    assert forall i :: 0 <= i < |d| ==> IsDigit(d[i]);
    assert ("$" + d)[0] == '$';
    assert forall i :: 1 <= i < |"$" + d| ==> ("$" + d)[i] == d[i - 1];
  }

  lemma UpdatedAtIdentifier()
    ensures IsIdentifier("updated_at")
  {
  }

  /** When every kept key rewrites to an identifier, the built statement's
      text is readable. */
  lemma BuiltReadable(kept: seq<Entry>, id: int, s: Statement)
    requires SetsFor(kept, id, s)
    requires forall e :: e in kept ==> IsIdentifier(SnakeCase(e.0))
    ensures Readable(RenderedAll(s.sets))
  {
    var r := RenderedAll(s.sets);
    forall j | 0 <= j < |r|
      ensures IsIdentifier(r[j].0) && ',' !in r[j].1
    {
      if j < |kept| {
        assert kept[j] in kept;
        DigitsNoComma(j + 1);
      } else {
        UpdatedAtIdentifier();
      }
    }
  }

  /** For keys that rewrite to identifiers, the text the code sends has one
      reading as a list of `column = value` items, and it is the statement
      the model executes: each kept key names exactly one column. */
  lemma IdentifierKeysReadOnce(kept: seq<Entry>, id: int, s: Statement, items: seq<(string, string)>)
    requires SetsFor(kept, id, s)
    requires forall e :: e in kept ==> IsIdentifier(SnakeCase(e.0))
    requires Readable(items) && JoinItems(items) == SetText(s.sets)
    ensures items == RenderedAll(s.sets)
    ensures |items| == |kept| + 1
  {
    BuiltReadable(kept, id, s);
    JoinItemsInjective(items, RenderedAll(s.sets));
  }

  lemma PrefixIdentifier(t: ContactTable)
    ensures IsIdentifier(t.Prefix())
  {
  }

  lemma SuffixIdentifier(f: ContactField)
    ensures IsIdentifier(Suffix(f))
  {
  }

  lemma AppendIdentifier(a: string, b: string)
    requires IsIdentifier(a) && IsIdentifier(b)
    ensures IsIdentifier(a + b)
  {
    forall i | 0 <= i < |a + b|
      ensures IdentChar((a + b)[i])
    {
      if i < |a| {
        assert (a + b)[i] == a[i];
      } else {
        assert (a + b)[i] == b[i - |a|];
      }
    }
  }

  lemma ColumnIdentifier(t: ContactTable, f: ContactField)
    ensures IsIdentifier(ColumnName(t, f))
  {
    PrefixIdentifier(t);
    SuffixIdentifier(f);
    AppendIdentifier(t.Prefix(), Suffix(f));
  }

  lemma OwnerAndCreatedIdentifiers()
    ensures IsIdentifier("user_id") && IsIdentifier("created_at")
  {
  }

  /** Every column a key may name is an identifier. */
  lemma WritableIdentifiers(t: ContactTable, c: string)
    requires c in ContactWritable(t)
    ensures IsIdentifier(c)
  {
    OwnerAndCreatedIdentifiers();
    forall f: ContactField
      ensures IsIdentifier(ColumnName(t, f))
    {
      ColumnIdentifier(t, f);
    }
  }

  /** A kept key that does not rewrite to an identifier makes the model
      refuse the update: no body key can name more than one column. */
  lemma NonIdentifierKeyRejected(t: ContactTable, env: Env, rows: map<int, ContactRow>, entries: seq<Entry>, id: int, e: Entry)
    requires e in KeptEntries(entries) && !IsIdentifier(SnakeCase(e.0))
    ensures ContactUpdateOutcome(t, env, rows, entries, id) == Rejected
  {
    if SnakeCase(e.0) in ContactWritable(t) {
      WritableIdentifiers(t, SnakeCase(e.0));
    }
  }

  /** A body key that carries SQL. */
  const InjectedKey: string := "approver_relationship" + " = " + "approver_email" + ", " + "approver_twitter"

  /** The three items the server reads in the text sent for that key. */
  const InjectedItems: seq<(string, string)> :=
    [("approver_relationship", "approver_email"), ("approver_twitter", "$1"), ("updated_at", "CURRENT_TIMESTAMP")]

  lemma AppendPlain(a: string, b: string)
    requires AllPlain(a) && AllPlain(b)
    ensures AllPlain(a + b)
  {
    assert forall i :: 0 <= i < |a| ==> (a + b)[i] == a[i];
    assert forall i :: |a| <= i < |a + b| ==> (a + b)[i] == b[i - |a|];
  }

  /** The key has no capital letter, so the rewrite leaves it as it is. */
  lemma InjectedKeyUnchanged()
    ensures SnakeCase(InjectedKey) == InjectedKey
  {
    assert AllPlain("approver_relationship") && AllPlain(" = ") && AllPlain("approver_email");
    assert AllPlain(", ") && AllPlain("approver_twitter");
    AppendPlain("approver_relationship", " = ");
    AppendPlain("approver_relationship" + " = ", "approver_email");
    AppendPlain("approver_relationship" + " = " + "approver_email", ", ");
    AppendPlain("approver_relationship" + " = " + "approver_email" + ", ", "approver_twitter");
    SnakeCasePlain(InjectedKey);
  }

  lemma InjectedKeyNotIdentifier()
    ensures !IsIdentifier(InjectedKey)
  {
    assert InjectedKey[21] == ' ';
  }

  lemma InjectedItemsReadable()
    ensures Readable(InjectedItems)
  {
    assert IsIdentifier("approver_relationship") && IsIdentifier("approver_twitter");
    assert ',' !in "approver_email" && ',' !in "$1" && ',' !in "CURRENT_TIMESTAMP";
    UpdatedAtIdentifier();
  }

  /** The text sent for the key is the text of the three items. */
  lemma InjectedTextSplits()
    ensures JoinItems([(InjectedKey, "$1"), ("updated_at", "CURRENT_TIMESTAMP")]) == JoinItems(InjectedItems)
  {
    assert JoinItems(InjectedItems[2..]) == "updated_at = CURRENT_TIMESTAMP";
    assert JoinItems(InjectedItems[1..]) == "approver_twitter = $1" + ", " + "updated_at = CURRENT_TIMESTAMP";
  }

  /** The code as written: the one-entry body `{InjectedKey: v}` is sent as
      the text of a three-item SET clause that copies the approver's email
      into its relationship column and writes `v` to its Twitter column,
      which the server runs on the row. The model, which reads the key as
      one column name, refuses it. */
  lemma InjectedKeyText(env: Env, rows: map<int, ContactRow>, v: JsText, id: int, s: Statement)
    requires !v.Undefined?
    requires ContactUpdateShape([(InjectedKey, v)], id, s)
    ensures Readable(InjectedItems)
    ensures SetText(s.sets) == JoinItems(InjectedItems) && RenderedAll(s.sets) != InjectedItems
    ensures ContactUpdateOutcome(Approvers, env, rows, [(InjectedKey, v)], id) == Rejected
  {
    var entries := [(InjectedKey, v)];
    assert entries[..0] == [];
    assert KeptEntries(entries) == entries;
    InjectedKeyUnchanged();
    assert s.sets[0] == Assign(InjectedKey, 1) && s.sets[1] == StampNow("updated_at");
    assert Digits(1) == "1" && "$" + "1" == "$1";
    var r := RenderedAll(s.sets);
    assert |r| == 2 && r[0] == (InjectedKey, "$1") && r[1] == ("updated_at", "CURRENT_TIMESTAMP");
    assert r == [(InjectedKey, "$1"), ("updated_at", "CURRENT_TIMESTAMP")];
    InjectedTextSplits();
    InjectedItemsReadable();
    InjectedKeyNotIdentifier();
    NonIdentifierKeyRejected(Approvers, env, rows, entries, id, (InjectedKey, v));
  }
}
