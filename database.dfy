/** The relational store behind every model: one map per table created in
    src/config/database.ts, the SERIAL counters, and the value
    CURRENT_TIMESTAMP has while a statement runs. */
module Store {
  import opened Common
  import opened Schema

  /** No two users share an email (`email … UNIQUE`). */
  predicate EmailsUnique(users: map<string, UserRow>) {
    forall a, b :: a in users && b in users && a != b ==> users[a].email != users[b].email
  }

  /** Every profile belongs to a user, and profiles have distinct SERIAL keys
      below the counter. */
  predicate ProfilesOwned(profiles: map<string, ProfileRow>, users: map<string, UserRow>, next: int) {
    && (forall u :: u in profiles ==> u in users && 0 < profiles[u].id < next)
    && (forall u, v :: u in profiles && v in profiles && u != v ==> profiles[u].id != profiles[v].id)
  }

  /** Every row's `user_id` names a user (`REFERENCES users(id)`). */
  predicate ContactsOwned(rows: map<int, ContactRow>, users: map<string, UserRow>) {
    forall id :: id in rows ==> rows[id].userId in users
  }

  /** Every SERIAL key was handed out by a counter now at `next`. */
  predicate KeysBelow<V>(rows: map<int, V>, next: int) {
    forall id :: id in rows ==> 0 < id < next
  }

  /** Replacing an existing row by one whose owner is a user keeps both. */
  lemma ContactReplaced(rows: map<int, ContactRow>, users: map<string, UserRow>, next: int, id: int, row: ContactRow)
    requires ContactsOwned(rows, users) && KeysBelow(rows, next)
    requires id in rows && row.userId in users
    ensures ContactsOwned(rows[id := row], users) && KeysBelow(rows[id := row], next)
  {
  }

  class Database {
    /** `users`, keyed by the external id. */
    var users: map<string, UserRow>
    /** `user_profiles`, keyed by its UNIQUE `user_id`. */
    var profiles: map<string, ProfileRow>
    var approvers: map<int, ContactRow>
    var recipients: map<int, ContactRow>
    var notes: map<int, NoteRow>
    var nextProfileId: int
    var nextApproverId: int
    var nextRecipientId: int
    var nextNoteId: int
    /** What CURRENT_TIMESTAMP and `new Date()` yield now. */
    var clock: Time
    /** How the server reads a timestamp given as text, under its DateStyle
        and TimeZone settings; None for text it rejects. */
    var readTime: string -> Option<Time>

    /** The constraints the DDL declares, plus the counters being ahead of
        every key they produced. */
    ghost predicate Valid()
      reads this
    {
      && nextProfileId >= 1 && nextApproverId >= 1 && nextRecipientId >= 1 && nextNoteId >= 1
      && EmailsUnique(users)
      && ProfilesOwned(profiles, users, nextProfileId)
      && ContactsOwned(approvers, users) && KeysBelow(approvers, nextApproverId)
      && ContactsOwned(recipients, users) && KeysBelow(recipients, nextRecipientId)
      && KeysBelow(notes, nextNoteId)
    }

    constructor (readTime: string -> Option<Time>)
      ensures Valid()
      ensures users == map[] && profiles == map[] && approvers == map[] && recipients == map[] && notes == map[]
      ensures clock == 0 && this.readTime == readTime
    {
      users, profiles, approvers, recipients, notes := map[], map[], map[], map[], map[];
      nextProfileId, nextApproverId, nextRecipientId, nextNoteId := 1, 1, 1, 1;
      clock := 0;
      this.readTime := readTime;
    }

    /** An UPDATE writes one approver row, whose owner is a user. */
    method SetApprover(id: int, row: ContactRow)
      requires Valid() && id in approvers && row.userId in users
      modifies this`approvers
      ensures Valid() && approvers == old(approvers)[id := row]
    {
      ContactReplaced(approvers, users, nextApproverId, id, row);
      approvers := approvers[id := row];
    }

    /** An UPDATE writes one recipient row, whose owner is a user. */
    method SetRecipient(id: int, row: ContactRow)
      requires Valid() && id in recipients && row.userId in users
      modifies this`recipients
      ensures Valid() && recipients == old(recipients)[id := row]
    {
      ContactReplaced(recipients, users, nextRecipientId, id, row);
      recipients := recipients[id := row];
    }

    /** An UPDATE writes one user row and leaves its email. */
    method SetUser(id: string, row: UserRow)
      requires Valid() && id in users && row.email == users[id].email
      modifies this`users
      ensures Valid() && users == old(users)[id := row]
    {
      users := users[id := row];
    }

    /** Time passes between statements. */
    method SetClock(t: Time)
      modifies this`clock
      ensures clock == t
    {
      clock := t;
    }
  }

  /** The SERIAL keys of the rows owned by `u`. */
  function OwnedIds(rows: map<int, ContactRow>, u: string): set<int> {
    set id | id in rows && rows[id].userId == u
  }

  /** `WHERE user_id = u AND id != target`. */
  function Others(rows: map<int, ContactRow>, u: string, target: int): (s: set<int>)
    ensures s == OwnedIds(rows, u) - {target}
  {
    set id | id in rows && rows[id].userId == u && id != target
  }

  /** The order PostgreSQL sorts a nullable timestamp in: NULL above every
      time. */
  predicate AtMost(a: Option<Time>, b: Option<Time>) {
    b.None? || (a.Some? && a.value <= b.value)
  }

  /** Whether `a` may come before `b` under `ORDER BY … DESC` (when `desc`)
      or `ASC`; so NULL comes first in descending and last in ascending
      order. */
  predicate Precedes(desc: bool, a: Option<Time>, b: Option<Time>) {
    if desc then AtMost(b, a) else AtMost(a, b)
  }

  /** `ks` lists keys of `m` in the order of their times. */
  predicate SortedBy<K>(m: map<K, Option<Time>>, ks: seq<K>, desc: bool) {
    forall i, j :: 0 <= i < j < |ks| && ks[i] in m && ks[j] in m ==> Precedes(desc, m[ks[i]], m[ks[j]])
  }

  /** `ORDER BY time`: every key of `m` exactly once, ordered by its time;
      keys with equal times come in an unspecified order, as in SQL. */
  method OrderByTime<K(==)>(m: map<K, Option<Time>>, desc: bool) returns (ks: seq<K>)
    ensures Distinct(ks)
    ensures forall k :: k in m <==> k in ks
    ensures SortedBy(m, ks, desc)
  {
    ks := [];
    var rest := m.Keys;
    while rest != {}
      invariant rest <= m.Keys
      invariant forall i :: 0 <= i < |ks| ==> ks[i] in m && ks[i] !in rest
      invariant forall k :: k in m ==> k in ks || k in rest
      invariant Distinct(ks)
      invariant SortedBy(m, ks, desc)
      invariant forall i, k :: 0 <= i < |ks| && k in rest ==> Precedes(desc, m[ks[i]], m[k])
      decreases |rest|
    {
      var best := FirstByTime(m, rest, desc);
      ks := ks + [best];
      rest := rest - {best};
    }
  }

  /** A key of `keys` whose time may come before every other one's. */
  method FirstByTime<K(==)>(m: map<K, Option<Time>>, keys: set<K>, desc: bool) returns (best: K)
    requires keys != {} && keys <= m.Keys
    ensures best in keys
    ensures forall k :: k in keys ==> Precedes(desc, m[best], m[k])
  {
    best :| best in keys;
    var scan := keys - {best};
    while scan != {}
      invariant scan <= keys && best in keys
      invariant forall k :: k in keys && k !in scan ==> Precedes(desc, m[best], m[k])
      decreases |scan|
    {
      var k :| k in scan;
      if !Precedes(desc, m[best], m[k]) {
        best := k;
      }
      scan := scan - {k};
    }
  }
}
