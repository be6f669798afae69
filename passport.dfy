/** The in-memory user list of src/config/passport.ts: the Google verify
    callback finds or creates the signed-in user, and the session stores
    only the user's id. */
module Passport {
  import opened Common
  import opened Schema

  /** The fields of the Google profile the callback reads; `emails` and
      `photos` are the `value`s of the profile's lists, in order. */
  datatype GoogleProfile = GoogleProfile(id: string, displayName: string, emails: seq<string>, photos: seq<string>, provider: string)

  /** The user the callback creates for a profile seen for the first time. */
  function NewUser(p: GoogleProfile, now: Time): (u: User)
    ensures u.id == p.id && u.name == p.displayName && u.provider == p.provider
    ensures u.email == (if |p.emails| > 0 then p.emails[0] else "")
    ensures u.picture == (if |p.photos| > 0 then Some(p.photos[0]) else None)
    ensures u.createdAt == now && u.lastLogin == now
  {
    User(p.id, if |p.emails| > 0 then p.emails[0] else "", p.displayName,
         if |p.photos| > 0 then Some(p.photos[0]) else None, p.provider, now, now)
  }

  /** `users.find(user => user.id === id)`: the first user with that id. */
  function Find(users: seq<User>, id: string): (r: Option<User>)
    ensures r.None? <==> forall i :: 0 <= i < |users| ==> users[i].id != id
    ensures r.Some? ==> r.value in users && r.value.id == id
  {
    if users == [] then None
    else if users[0].id == id then Some(users[0])
    else
      var r := Find(users[1..], id);
      assert forall i :: 1 <= i < |users| ==> users[i] == users[1..][i - 1];
      r
  }

  /** The first match is the user at the first index holding that id. */
  lemma {:induction false} FindAt(users: seq<User>, id: string, k: nat)
    requires k < |users| && users[k].id == id
    requires forall j :: 0 <= j < k ==> users[j].id != id
    ensures Find(users, id) == Some(users[k])
    decreases k
  {
    if k > 0 {
      FindAt(users[1..], id, k - 1);
    }
  }

  predicate UniqueIds(users: seq<User>) {
    forall i, j :: 0 <= i < j < |users| ==> users[i].id != users[j].id
  }

  /** Appending a user whose id is absent keeps ids unique. */
  lemma AppendedUnique(users: seq<User>, u: User)
    requires UniqueIds(users) && Find(users, u.id).None?
    ensures UniqueIds(users + [u])
  {
    var s := users + [u];
    forall i, j | 0 <= i < j < |s|
      ensures s[i].id != s[j].id
    {
      assert s[i] == users[i];
    }
  }

  /** Replacing the user at `k` by one with the same id keeps ids unique
      and leaves every other position holding a different id. */
  lemma ReplacedUnique(users: seq<User>, k: nat, u: User)
    requires UniqueIds(users) && k < |users| && u.id == users[k].id
    ensures UniqueIds(users[k := u])
    ensures forall i :: 0 <= i < |users| && i != k ==> users[i].id != u.id
  {
    forall i | 0 <= i < |users| && i != k
      ensures users[i].id != u.id
    {
      if i < k {
        assert users[i].id != users[k].id;
      } else {
        assert users[k].id != users[i].id;
      }
    }
  }

  /** What `serializeUser` puts in the session: the user's id and nothing
      else, so two users with one id are one session key. */
  function Serialize(u: User): (key: string)
    ensures key == u.id
  {
    u.id
  }

  /** `deserializeUser(serializeUser(u))` finds `u` again for every stored
      user while ids are unique. */
  lemma {:induction false} SerializeRoundTrip(users: seq<User>, u: User)
    requires UniqueIds(users) && u in users
    ensures Find(users, Serialize(u)) == Some(u)
  {
    var k :| 0 <= k < |users| && users[k] == u;
    FindAt(users, u.id, k);
  }

  class MemoryUserStore {
    /** The module-level `users` array. */
    var users: seq<User>

    predicate Valid()
      reads this
    {
      UniqueIds(users)
    }

    constructor ()
      ensures Valid() && users == []
    {
      users := [];
    }

    /** The linear search behind `users.find`: the index of the first user
      with that id, or -1. */
    method FindIndex(id: string) returns (k: int)
      ensures -1 <= k < |users|
      ensures k == -1 <==> Find(users, id).None?
      ensures k >= 0 ==> users[k].id == id && Find(users, id) == Some(users[k])
    {
      k := 0;
      while k < |users|
        invariant 0 <= k <= |users|
        invariant forall j :: 0 <= j < k ==> users[j].id != id
      {
        if users[k].id == id {
          FindAt(users, id, k);
          return;
        }
        k := k + 1;
      }
      k := -1;
    }

    /** The verify callback: a known id only gets a new `lastLogin`; an
      unknown one is appended as a new user. Either way the result is what
      `deserializeUser` then finds for that id. */
    method Verify(p: GoogleProfile, now: Time) returns (u: User)
      requires Valid()
      modifies this
      ensures Valid()
      ensures Find(old(users), p.id).None? ==> users == old(users) + [NewUser(p, now)] && u == NewUser(p, now)
      ensures Find(old(users), p.id).Some? ==>
        && |users| == |old(users)|
        && (forall i :: 0 <= i < |users| ==>
              users[i] == if old(users)[i].id == p.id then old(users)[i].(lastLogin := now) else old(users)[i])
        && u == Find(old(users), p.id).value.(lastLogin := now)
      ensures Find(users, p.id) == Some(u)
    {
      var k := FindIndex(p.id);
      if k >= 0 {
        u := users[k].(lastLogin := now);
        ReplacedUnique(users, k, u);
        users := users[k := u];
        FindAt(users, p.id, k);
        return;
      }
      u := NewUser(p, now);
      AppendedUnique(users, u);
      users := users + [u];
      FindAt(users, p.id, |users| - 1);
    }

    /** `deserializeUser`: the stored user with that id, or null. */
    method Deserialize(id: string) returns (u: Option<User>)
      ensures u == Find(users, id)
    {
      var k := FindIndex(id);
      u := if k >= 0 then Some(users[k]) else None;
    }
  }
}
