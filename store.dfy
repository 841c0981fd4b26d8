/** lib/db.js: the three tables `users`, `user_api_keys` and `prompts`, their constraints
    (`UNIQUE COLLATE NOCASE` on usernames and e-mail addresses, `UNIQUE(user_id, key_name)`,
    foreign keys with `ON DELETE CASCADE`, `AUTOINCREMENT` ids, column defaults) and the
    `is_public` migration run at load time. The SQL engine is not modelled: each statement the
    routes run is a function on the tables, and a class holds the tables and runs them. */
module Store {
  import opened Wrappers
  import opened Text
  import opened Seqs
  import opened Crypto
  import opened PromptXml

  datatype User = User(id: nat, username: string, email: string, displayName: string,
                       passwordHash: string, createdAt: string, updatedAt: string)

  /** A row of `user_api_keys`; `sealed` holds the columns `encrypted_key`, `iv`, `auth_tag`. */
  datatype KeyRow = KeyRow(id: nat, userId: nat, keyName: string, sealed: Sealed, createdAt: string, updatedAt: string)

  /** A row of `prompts`; `formData` is the parsed `form_data` text. */
  datatype PromptRow = PromptRow(id: nat, userId: nat, description: string, formData: FormData,
                                 createdAt: string, isPublic: bool)

  /** The default of `key_name`. */
  const DefaultKeyName := "anthropic"

  /** The tables in row-id order, the last id each `AUTOINCREMENT` has issued, and whether the
      `is_public` column exists yet. */
  datatype Tables = Tables(users: seq<User>, apiKeys: seq<KeyRow>, prompts: seq<PromptRow>,
                           lastUserId: nat, lastKeyId: nat, lastPromptId: nat, hasIsPublic: bool)

  const EmptyTables := Tables([], [], [], 0, 0, 0, false)

  // ---------------------------------------------------------------------------------
  // Constraints

  predicate HasUser(us: seq<User>, id: nat) {
    exists i :: 0 <= i < |us| && us[i].id == id
  }

  /** Ids increase along the table and never exceed the last issued; usernames and e-mail
      addresses are unique ignoring case. */
  predicate UsersValid(us: seq<User>, last: nat) {
    (forall i, j :: 0 <= i < j < |us| ==> us[i].id < us[j].id) &&
    (forall i :: 0 <= i < |us| ==> 0 < us[i].id <= last) &&
    (forall i, j :: 0 <= i < j < |us| ==> !SameNoCase(us[i].username, us[j].username)) &&
    (forall i, j :: 0 <= i < j < |us| ==> !SameNoCase(us[i].email, us[j].email))
  }

  /** Ids as for users; every row belongs to an existing user; one row per (user, key name). */
  predicate KeysValid(ks: seq<KeyRow>, us: seq<User>, last: nat) {
    (forall i, j :: 0 <= i < j < |ks| ==> ks[i].id < ks[j].id) &&
    (forall i :: 0 <= i < |ks| ==> 0 < ks[i].id <= last && HasUser(us, ks[i].userId)) &&
    (forall i, j :: 0 <= i < j < |ks| ==> ks[i].userId != ks[j].userId || ks[i].keyName != ks[j].keyName)
  }

  /** Ids as for users; every row belongs to an existing user; before the `is_public` column
      exists every row reads as private, which is the column's default. */
  predicate PromptsValid(ps: seq<PromptRow>, us: seq<User>, last: nat, hasIsPublic: bool) {
    (forall i, j :: 0 <= i < j < |ps| ==> ps[i].id < ps[j].id) &&
    (forall i :: 0 <= i < |ps| ==> 0 < ps[i].id <= last && HasUser(us, ps[i].userId)) &&
    (!hasIsPublic ==> forall i :: 0 <= i < |ps| ==> !ps[i].isPublic)
  }

  predicate Consistent(t: Tables) {
    UsersValid(t.users, t.lastUserId) &&
    KeysValid(t.apiKeys, t.users, t.lastKeyId) &&
    PromptsValid(t.prompts, t.users, t.lastPromptId, t.hasIsPublic)
  }

  // ---------------------------------------------------------------------------------
  // Queries

  /** Lookup of a user by id: the index of the row. */
  function UserIndex(us: seq<User>, id: nat): (r: Option<nat>)
    ensures r.Some? ==> r.value < |us| && us[r.value].id == id
    ensures r.None? <==> !HasUser(us, id)
  {
    if us == [] then None
    else if us[0].id == id then Some(0)
    else match UserIndex(us[1..], id)
      case None => assert forall i :: 1 <= i < |us| ==> us[i] == us[1..][i - 1]; None
      case Some(k) => Some(k + 1)
  }

  /** With increasing ids the row with an id is the only one. */
  lemma UserIndexUnique(us: seq<User>, last: nat, id: nat, i: nat)
    requires UsersValid(us, last) && i < |us| && us[i].id == id
    ensures UserIndex(us, id) == Some(i)
  {
  }

  /** Some user has the username or the e-mail address, both compared ignoring case. */
  predicate Taken(us: seq<User>, username: string, email: string) {
    exists i :: 0 <= i < |us| && (SameNoCase(us[i].username, username) || SameNoCase(us[i].email, email))
  }

  /** Some user other than `id` has the e-mail address, compared ignoring case. */
  predicate EmailTakenByOther(us: seq<User>, email: string, id: nat) {
    exists i :: 0 <= i < |us| && SameNoCase(us[i].email, email) && us[i].id != id
  }

  /** The row of (user, key name), when there is one. */
  function KeyIndex(ks: seq<KeyRow>, userId: nat, keyName: string): (r: Option<nat>)
    ensures r.Some? ==> r.value < |ks| && ks[r.value].userId == userId && ks[r.value].keyName == keyName
    ensures r.None? ==> forall i :: 0 <= i < |ks| ==> ks[i].userId != userId || ks[i].keyName != keyName
  {
    if ks == [] then None
    else if ks[0].userId == userId && ks[0].keyName == keyName then Some(0)
    else match KeyIndex(ks[1..], userId, keyName)
      case None => assert forall i :: 1 <= i < |ks| ==> ks[i] == ks[1..][i - 1]; None
      case Some(k) => Some(k + 1)
  }

  // ---------------------------------------------------------------------------------
  // Statements

  /** A new user row: the next id, both timestamps `now`. */
  function AddUser(t: Tables, username: string, email: string, displayName: string, hash: string, now: string): (r: Tables)
    ensures r.users == t.users + [User(t.lastUserId + 1, username, email, displayName, hash, now, now)]
    ensures r.lastUserId == t.lastUserId + 1
    ensures r.apiKeys == t.apiKeys && r.prompts == t.prompts
  {
    t.(users := t.users + [User(t.lastUserId + 1, username, email, displayName, hash, now, now)],
       lastUserId := t.lastUserId + 1)
  }

  /** The user `id` takes the display name and e-mail address, and `updated_at` becomes `now`. */
  function SetProfile(t: Tables, id: nat, displayName: string, email: string, now: string): (r: Tables)
  {
    match UserIndex(t.users, id)
    case None => t
    case Some(i) => t.(users := t.users[i := t.users[i].(displayName := displayName, email := email, updatedAt := now)])
  }

  /** The user `id` takes the password hash, and `updated_at` becomes `now`. */
  function SetPasswordHash(t: Tables, id: nat, hash: string, now: string): (r: Tables)
  {
    match UserIndex(t.users, id)
    case None => t
    case Some(i) => t.(users := t.users[i := t.users[i].(passwordHash := hash, updatedAt := now)])
  }

  /** The key upsert: the row for (user, key name), if any, takes the new sealed columns and
      `updated_at`; otherwise a new row with the next id. */
  function UpsertKey(t: Tables, userId: nat, keyName: string, sealed: Sealed, now: string): (r: Tables)
  {
    match KeyIndex(t.apiKeys, userId, keyName)
    case Some(i) => t.(apiKeys := t.apiKeys[i := t.apiKeys[i].(sealed := sealed, updatedAt := now)])
    case None => t.(apiKeys := t.apiKeys + [KeyRow(t.lastKeyId + 1, userId, keyName, sealed, now, now)],
                    lastKeyId := t.lastKeyId + 1)
  }

  /** Removes the row for (user, key name). */
  function RemoveKey(t: Tables, userId: nat, keyName: string): (r: Tables) {
    t.(apiKeys := Filter(t.apiKeys, (k: KeyRow) => !(k.userId == userId && k.keyName == keyName)))
  }

  /** A new prompt row with the next id. */
  function AddPrompt(t: Tables, userId: nat, description: string, formData: FormData, createdAt: string, isPublic: bool): (r: Tables)
    ensures r.prompts == t.prompts + [PromptRow(t.lastPromptId + 1, userId, description, formData, createdAt, isPublic)]
    ensures r.lastPromptId == t.lastPromptId + 1
    ensures r.users == t.users && r.apiKeys == t.apiKeys
  {
    t.(prompts := t.prompts + [PromptRow(t.lastPromptId + 1, userId, description, formData, createdAt, isPublic)],
       lastPromptId := t.lastPromptId + 1)
  }

  /** The row with this id, owned by this user. */
  predicate Owned(p: PromptRow, id: nat, userId: nat) {
    p.id == id && p.userId == userId
  }

  /** The owned rows with the id take the flag; every other row stays. */
  function Publish(ps: seq<PromptRow>, id: nat, userId: nat, v: bool): (r: seq<PromptRow>)
    ensures |r| == |ps|
    ensures forall i :: 0 <= i < |ps| ==> r[i] == if Owned(ps[i], id, userId) then ps[i].(isPublic := v) else ps[i]
  {
    if ps == [] then []
    else [if Owned(ps[0], id, userId) then ps[0].(isPublic := v) else ps[0]] + Publish(ps[1..], id, userId, v)
  }

  /** The number of owned rows with the id: what the visibility update reports as changed. */
  function CountOwned(ps: seq<PromptRow>, id: nat, userId: nat): (n: nat)
    ensures n == 0 <==> forall i :: 0 <= i < |ps| ==> !Owned(ps[i], id, userId)
  {
    if ps == [] then 0
    else (if Owned(ps[0], id, userId) then 1 else 0) + CountOwned(ps[1..], id, userId)
  }

  function SetVisibility(t: Tables, id: nat, userId: nat, v: bool): (r: Tables) {
    t.(prompts := Publish(t.prompts, id, userId, v))
  }

  /** Removes the owned rows with the id. */
  function RemovePrompt(t: Tables, id: nat, userId: nat): (r: Tables) {
    t.(prompts := Filter(t.prompts, (p: PromptRow) => !Owned(p, id, userId)))
  }

  /** Removes the user, with the cascade to both child tables. */
  function RemoveUser(t: Tables, id: nat): (r: Tables) {
    t.(users := Filter(t.users, (u: User) => u.id != id),
       apiKeys := Filter(t.apiKeys, (k: KeyRow) => k.userId != id),
       prompts := Filter(t.prompts, (p: PromptRow) => p.userId != id))
  }

  // ---------------------------------------------------------------------------------
  // The statements keep the constraints

  lemma AddUserConsistent(t: Tables, username: string, email: string, displayName: string, hash: string, now: string)
    requires Consistent(t) && !Taken(t.users, username, email)
    ensures Consistent(AddUser(t, username, email, displayName, hash, now))
  {
    var r := AddUser(t, username, email, displayName, hash, now);
    var us := r.users;
    var n := |t.users|;
    forall i, j | 0 <= i < j < |us|
      ensures us[i].id < us[j].id && !SameNoCase(us[i].username, us[j].username) && !SameNoCase(us[i].email, us[j].email)
    {
      if j == n {
        assert us[i] == t.users[i];
        SameNoCaseIsEquivalence(us[i].username, username, username);
        SameNoCaseIsEquivalence(us[i].email, email, email);
      } else {
        assert us[i] == t.users[i] && us[j] == t.users[j];
      }
    }
    assert forall i :: 0 <= i < n ==> us[i] == t.users[i];
    forall i | 0 <= i < |r.apiKeys| ensures HasUser(us, r.apiKeys[i].userId) {
      var k :| 0 <= k < n && t.users[k].id == t.apiKeys[i].userId;
      assert us[k] == t.users[k];
    }
    forall i | 0 <= i < |r.prompts| ensures HasUser(us, r.prompts[i].userId) {
      var k :| 0 <= k < n && t.users[k].id == t.prompts[i].userId;
      assert us[k] == t.users[k];
    }
  }

  /** Ids are never reused: the new user's id exceeds every id issued before. */
  lemma AddUserFreshId(t: Tables, username: string, email: string, displayName: string, hash: string, now: string)
    requires Consistent(t)
    ensures var id := AddUser(t, username, email, displayName, hash, now).lastUserId;
      id > t.lastUserId && forall i :: 0 <= i < |t.users| ==> t.users[i].id < id
  {
  }

  /** Updating a user's own fields keeps the ids and the usernames, so only e-mail uniqueness
      needs an argument. */
  lemma SetProfileConsistent(t: Tables, id: nat, displayName: string, email: string, now: string)
    requires Consistent(t) && !EmailTakenByOther(t.users, email, id)
    ensures Consistent(SetProfile(t, id, displayName, email, now))
  {
    match UserIndex(t.users, id)
    case None =>
    case Some(k) =>
      var us := t.users[k := t.users[k].(displayName := displayName, email := email, updatedAt := now)];
      forall i, j | 0 <= i < j < |us| ensures !SameNoCase(us[i].email, us[j].email) {
        if i == k {
          assert t.users[j].id != id by { assert t.users[k].id < t.users[j].id; }
          SameNoCaseIsEquivalence(us[j].email, email, email);
        } else if j == k {
          assert t.users[i].id != id by { assert t.users[i].id < t.users[k].id; }
          SameNoCaseIsEquivalence(us[i].email, email, email);
        }
      }
      KeepIds(t, us);
  }

  lemma SetPasswordHashConsistent(t: Tables, id: nat, hash: string, now: string)
    requires Consistent(t)
    ensures Consistent(SetPasswordHash(t, id, hash, now))
  {
    match UserIndex(t.users, id)
    case None =>
    case Some(k) =>
      var us := t.users[k := t.users[k].(passwordHash := hash, updatedAt := now)];
      KeepIds(t, us);
  }

  /** Replacing the users by rows with the same ids keeps the foreign keys. */
  lemma KeepIds(t: Tables, us: seq<User>)
    requires Consistent(t) && |us| == |t.users|
    requires forall i :: 0 <= i < |us| ==> us[i].id == t.users[i].id
    requires forall i, j :: 0 <= i < j < |us| ==> !SameNoCase(us[i].username, us[j].username)
    requires forall i, j :: 0 <= i < j < |us| ==> !SameNoCase(us[i].email, us[j].email)
    ensures Consistent(t.(users := us))
  {
    forall id | HasUser(t.users, id) ensures HasUser(us, id) {
      var k :| 0 <= k < |t.users| && t.users[k].id == id;
      assert us[k].id == id;
    }
  }

  lemma UpsertKeyConsistent(t: Tables, userId: nat, keyName: string, sealed: Sealed, now: string)
    requires Consistent(t) && HasUser(t.users, userId)
    ensures Consistent(UpsertKey(t, userId, keyName, sealed, now))
  {
    match KeyIndex(t.apiKeys, userId, keyName)
    case Some(k) =>
    case None =>
      var ks := t.apiKeys + [KeyRow(t.lastKeyId + 1, userId, keyName, sealed, now, now)];
      forall i, j | 0 <= i < j < |ks| ensures ks[i].id < ks[j].id && (ks[i].userId != ks[j].userId || ks[i].keyName != ks[j].keyName) {
        assert ks[i] == t.apiKeys[i];
        if j < |t.apiKeys| { assert ks[j] == t.apiKeys[j]; }
      }
      assert forall i :: 0 <= i < |t.apiKeys| ==> ks[i] == t.apiKeys[i];
  }

  /** After an upsert exactly one row exists for (user, key name), and it holds the new columns. */
  lemma UpsertKeyOneRow(t: Tables, userId: nat, keyName: string, sealed: Sealed, now: string)
    requires Consistent(t) && HasUser(t.users, userId)
    ensures var ks := UpsertKey(t, userId, keyName, sealed, now).apiKeys;
      exists i :: 0 <= i < |ks| && ks[i].userId == userId && ks[i].keyName == keyName && ks[i].sealed == sealed &&
        forall j :: 0 <= j < |ks| && j != i ==> ks[j].userId != userId || ks[j].keyName != keyName
  {
    var ks := UpsertKey(t, userId, keyName, sealed, now).apiKeys;
    match KeyIndex(t.apiKeys, userId, keyName)
    case Some(k) =>
      forall j | 0 <= j < |ks| && j != k ensures ks[j].userId != userId || ks[j].keyName != keyName {
        assert ks[j] == t.apiKeys[j];
        if j < k {
          assert t.apiKeys[j].userId != t.apiKeys[k].userId || t.apiKeys[j].keyName != t.apiKeys[k].keyName;
        } else {
          assert t.apiKeys[k].userId != t.apiKeys[j].userId || t.apiKeys[k].keyName != t.apiKeys[j].keyName;
        }
      }
      assert ks[k].sealed == sealed;
    case None =>
      var n := |t.apiKeys|;
      forall j | 0 <= j < |ks| && j != n ensures ks[j].userId != userId || ks[j].keyName != keyName {
        assert ks[j] == t.apiKeys[j];
      }
      assert ks[n].userId == userId && ks[n].keyName == keyName && ks[n].sealed == sealed;
  }

  /** Deleting a key removes the rows of (user, key name) and keeps every other row in order. */
  lemma RemoveKeyOnly(t: Tables, userId: nat, keyName: string, k: KeyRow)
    ensures k in RemoveKey(t, userId, keyName).apiKeys <==> k in t.apiKeys && (k.userId != userId || k.keyName != keyName)
  {
  }

  /** Removing rows of a child table keeps every constraint. */
  lemma RemoveKeyConsistent(t: Tables, userId: nat, keyName: string)
    requires Consistent(t)
    ensures Consistent(RemoveKey(t, userId, keyName))
  {
    var keep := (k: KeyRow) => !(k.userId == userId && k.keyName == keyName);
    var ks := Filter(t.apiKeys, keep);
    FilterKeysValid(t.apiKeys, t.users, t.lastKeyId, keep);
  }

  lemma {:induction false} FilterKeysValid(ks: seq<KeyRow>, us: seq<User>, last: nat, keep: KeyRow -> bool)
    requires KeysValid(ks, us, last)
    ensures KeysValid(Filter(ks, keep), us, last)
  {
    var r := Filter(ks, keep);
    FilterPairwise(ks, keep, (a: KeyRow, b: KeyRow) => a.id < b.id && (a.userId != b.userId || a.keyName != b.keyName));
    forall i | 0 <= i < |r| ensures 0 < r[i].id <= last && HasUser(us, r[i].userId) {
      assert r[i] in ks;
    }
  }

  lemma {:induction false} FilterPromptsValid(ps: seq<PromptRow>, us: seq<User>, last: nat, h: bool, keep: PromptRow -> bool)
    requires PromptsValid(ps, us, last, h)
    ensures PromptsValid(Filter(ps, keep), us, last, h)
  {
    var r := Filter(ps, keep);
    FilterPairwise(ps, keep, (a: PromptRow, b: PromptRow) => a.id < b.id);
    forall i | 0 <= i < |r| ensures 0 < r[i].id <= last && HasUser(us, r[i].userId) && (!h ==> !r[i].isPublic) {
      assert r[i] in ps;
    }
  }

  lemma AddPromptConsistent(t: Tables, userId: nat, description: string, formData: FormData, createdAt: string, isPublic: bool)
    requires Consistent(t) && HasUser(t.users, userId) && (isPublic ==> t.hasIsPublic)
    ensures Consistent(AddPrompt(t, userId, description, formData, createdAt, isPublic))
  {
    var ps := AddPrompt(t, userId, description, formData, createdAt, isPublic).prompts;
    forall i, j | 0 <= i < j < |ps| ensures ps[i].id < ps[j].id {
      assert ps[i] == t.prompts[i];
      if j < |t.prompts| { assert ps[j] == t.prompts[j]; }
    }
    assert forall i :: 0 <= i < |t.prompts| ==> ps[i] == t.prompts[i];
  }

  lemma SetVisibilityConsistent(t: Tables, id: nat, userId: nat, v: bool)
    requires Consistent(t) && (v ==> t.hasIsPublic)
    ensures Consistent(SetVisibility(t, id, userId, v))
  {
  }

  lemma RemovePromptConsistent(t: Tables, id: nat, userId: nat)
    requires Consistent(t)
    ensures Consistent(RemovePrompt(t, id, userId))
  {
    FilterPromptsValid(t.prompts, t.users, t.lastPromptId, t.hasIsPublic, (p: PromptRow) => !Owned(p, id, userId));
  }

  /** The visibility update touches only the rows with the id owned by the user. */
  lemma SetVisibilityOnlyOwned(t: Tables, id: nat, userId: nat, v: bool, i: nat)
    requires i < |t.prompts|
    ensures var p := SetVisibility(t, id, userId, v).prompts[i];
      p.isPublic == (if Owned(t.prompts[i], id, userId) then v else t.prompts[i].isPublic) &&
      p.(isPublic := t.prompts[i].isPublic) == t.prompts[i]
  {
  }

  /** The cascade: after deleting a user neither child table holds a row of that user, and
      every other row is kept. */
  lemma RemoveUserCascade(t: Tables, id: nat)
    ensures var r := RemoveUser(t, id);
      !HasUser(r.users, id) &&
      (forall k :: k in r.apiKeys <==> k in t.apiKeys && k.userId != id) &&
      (forall p :: p in r.prompts <==> p in t.prompts && p.userId != id) &&
      (forall u :: u in r.users <==> u in t.users && u.id != id)
  {
    var r := RemoveUser(t, id);
    forall i | 0 <= i < |r.users| ensures r.users[i].id != id {
      assert r.users[i] in r.users;
    }
  }

  lemma RemoveUserConsistent(t: Tables, id: nat)
    requires Consistent(t)
    ensures Consistent(RemoveUser(t, id))
  {
    var r := RemoveUser(t, id);
    RemoveUserUsers(t.users, t.lastUserId, id);
    RemoveUserKeys(t.apiKeys, t.users, t.lastKeyId, id);
    RemoveUserPrompts(t.prompts, t.users, t.lastPromptId, t.hasIsPublic, id);
  }

  lemma RemoveUserUsers(us: seq<User>, last: nat, id: nat)
    requires UsersValid(us, last)
    ensures UsersValid(Filter(us, (u: User) => u.id != id), last)
  {
    var r := Filter(us, (u: User) => u.id != id);
    FilterPairwise(us, (u: User) => u.id != id, (a: User, b: User) =>
      a.id < b.id && !SameNoCase(a.username, b.username) && !SameNoCase(a.email, b.email));
    forall i | 0 <= i < |r| ensures 0 < r[i].id <= last {
      assert r[i] in us;
    }
  }

  lemma RemoveUserKeys(ks: seq<KeyRow>, us: seq<User>, last: nat, id: nat)
    requires KeysValid(ks, us, last)
    ensures KeysValid(Filter(ks, (k: KeyRow) => k.userId != id), Filter(us, (u: User) => u.id != id), last)
  {
    var r := Filter(ks, (k: KeyRow) => k.userId != id);
    var rs := Filter(us, (u: User) => u.id != id);
    FilterPairwise(ks, (k: KeyRow) => k.userId != id,
      (a: KeyRow, b: KeyRow) => a.id < b.id && (a.userId != b.userId || a.keyName != b.keyName));
    forall i | 0 <= i < |r| ensures 0 < r[i].id <= last && HasUser(rs, r[i].userId) {
      assert r[i] in ks;
      KeptOwner(us, r[i].userId, id);
    }
  }

  lemma RemoveUserPrompts(ps: seq<PromptRow>, us: seq<User>, last: nat, h: bool, id: nat)
    requires PromptsValid(ps, us, last, h)
    ensures PromptsValid(Filter(ps, (p: PromptRow) => p.userId != id), Filter(us, (u: User) => u.id != id), last, h)
  {
    var r := Filter(ps, (p: PromptRow) => p.userId != id);
    var rs := Filter(us, (u: User) => u.id != id);
    FilterPairwise(ps, (p: PromptRow) => p.userId != id, (a: PromptRow, b: PromptRow) => a.id < b.id);
    forall i | 0 <= i < |r| ensures 0 < r[i].id <= last && HasUser(rs, r[i].userId) && (!h ==> !r[i].isPublic) {
      assert r[i] in ps;
      KeptOwner(us, r[i].userId, id);
    }
  }

  /** An owner other than the deleted user is still there. */
  lemma KeptOwner(us: seq<User>, owner: nat, id: nat)
    requires HasUser(us, owner) && owner != id
    ensures HasUser(Filter(us, (u: User) => u.id != id), owner)
  {
    var j :| 0 <= j < |us| && us[j].id == owner;
    var rs := Filter(us, (u: User) => u.id != id);
    assert us[j] in rs;
    var k :| 0 <= k < |rs| && rs[k] == us[j];
  }

  // ---------------------------------------------------------------------------------
  // The database

  /** The database handle of lib/db.js. */
  class Db {
    var users: seq<User>
    var apiKeys: seq<KeyRow>
    var prompts: seq<PromptRow>
    var lastUserId: nat
    var lastKeyId: nat
    var lastPromptId: nat
    var hasIsPublic: bool

    function State(): Tables
      reads this
    {
      Tables(users, apiKeys, prompts, lastUserId, lastKeyId, lastPromptId, hasIsPublic)
    }

    ghost predicate Valid()
      reads this
    {
      Consistent(State())
    }

    /** Replaces the tables by the result of a statement. */
    method Commit(t: Tables)
      modifies this
      ensures State() == t
    {
      users, apiKeys, prompts := t.users, t.apiKeys, t.prompts;
      lastUserId, lastKeyId, lastPromptId := t.lastUserId, t.lastKeyId, t.lastPromptId;
      hasIsPublic := t.hasIsPublic;
    }

    /** A new database file: the three tables created empty. */
    constructor ()
      ensures Valid() && State() == EmptyTables
    {
      users, apiKeys, prompts := [], [], [];
      lastUserId, lastKeyId, lastPromptId := 0, 0, 0;
      hasIsPublic := false;
    }

    /** The start-up migration that adds the `is_public` column: the column is
        added with every row private, or the statement fails because it exists and the failure
        is ignored. */
    method AddIsPublicColumn() returns (failed: bool)
      requires Valid()
      modifies this
      ensures Valid() && failed == old(hasIsPublic)
      ensures State() == old(State()).(hasIsPublic := true)
    {
      failed := hasIsPublic;
      hasIsPublic := true;
    }

    /** The user insert; `None` where a `UNIQUE` constraint fails and the statement throws. */
    method InsertUser(username: string, email: string, displayName: string, hash: string, now: string)
      returns (id: Option<nat>)
      requires Valid()
      modifies this
      ensures Valid()
      ensures id.None? <==> Taken(old(users), username, email)
      ensures id.None? ==> State() == old(State())
      ensures id.Some? ==> id.value == old(lastUserId) + 1 &&
                           State() == AddUser(old(State()), username, email, displayName, hash, now)
    {
      if exists i :: 0 <= i < |users| && (SameNoCase(users[i].username, username) || SameNoCase(users[i].email, email)) {
        return None;
      }
      AddUserConsistent(State(), username, email, displayName, hash, now);
      lastUserId := lastUserId + 1;
      users := users + [User(lastUserId, username, email, displayName, hash, now, now)];
      id := Some(lastUserId);
    }

    /** The profile update; `false` where the new e-mail address is another user's and the
        `UNIQUE` constraint fails. */
    method UpdateProfile(id: nat, displayName: string, email: string, now: string) returns (ok: bool)
      requires Valid()
      modifies this
      ensures Valid()
      ensures ok <==> !EmailTakenByOther(old(users), email, id)
      ensures State() == if ok then SetProfile(old(State()), id, displayName, email, now) else old(State())
    {
      if exists i :: 0 <= i < |users| && SameNoCase(users[i].email, email) && users[i].id != id {
        return false;
      }
      SetProfileConsistent(State(), id, displayName, email, now);
      var i := UserIndex(users, id);
      if i.Some? {
        users := users[i.value := users[i.value].(displayName := displayName, email := email, updatedAt := now)];
      }
      ok := true;
    }

    method UpdatePasswordHash(id: nat, hash: string, now: string)
      requires Valid()
      modifies this
      ensures Valid() && State() == SetPasswordHash(old(State()), id, hash, now)
    {
      SetPasswordHashConsistent(State(), id, hash, now);
      var i := UserIndex(users, id);
      if i.Some? {
        users := users[i.value := users[i.value].(passwordHash := hash, updatedAt := now)];
      }
    }

    /** The key upsert; `false` where the user does not exist and the foreign key fails. */
    method UpsertApiKey(userId: nat, keyName: string, sealed: Sealed, now: string) returns (ok: bool)
      requires Valid()
      modifies this
      ensures Valid()
      ensures ok <==> HasUser(old(users), userId)
      ensures State() == if ok then UpsertKey(old(State()), userId, keyName, sealed, now) else old(State())
    {
      if UserIndex(users, userId).None? {
        return false;
      }
      UpsertKeyConsistent(State(), userId, keyName, sealed, now);
      Commit(UpsertKey(State(), userId, keyName, sealed, now));
      ok := true;
    }

    method DeleteApiKey(userId: nat, keyName: string)
      requires Valid()
      modifies this
      ensures Valid() && State() == RemoveKey(old(State()), userId, keyName)
    {
      RemoveKeyConsistent(State(), userId, keyName);
      apiKeys := Filter(apiKeys, (k: KeyRow) => !(k.userId == userId && k.keyName == keyName));
    }

    /** The prompt insert. `isPublic` is `None` when the statement does not name the
        column, which then takes its default. `None` where the user does not exist (the foreign
        key fails) or the statement names a column the table does not have yet. */
    method InsertPrompt(userId: nat, description: string, formData: FormData, createdAt: string, isPublic: Option<bool>)
      returns (id: Option<nat>)
      requires Valid()
      modifies this
      ensures Valid()
      ensures id.None? <==> !HasUser(old(users), userId) || (isPublic.Some? && !old(hasIsPublic))
      ensures id.None? ==> State() == old(State())
      ensures id.Some? ==> (id.value == old(lastPromptId) + 1 &&
        State() == AddPrompt(old(State()), userId, description, formData, createdAt, isPublic.GetOr(false)))
    {
      if UserIndex(users, userId).None? || (isPublic.Some? && !hasIsPublic) {
        return None;
      }
      AddPromptConsistent(State(), userId, description, formData, createdAt, isPublic.GetOr(false));
      id := Some(lastPromptId + 1);
      Commit(AddPrompt(State(), userId, description, formData, createdAt, isPublic.GetOr(false)));
    }

    /** The visibility update; returns `result.changes`. */
    method SetPromptVisibility(id: nat, userId: nat, v: bool) returns (changes: nat)
      requires Valid() && hasIsPublic
      modifies this
      ensures Valid()
      ensures changes == CountOwned(old(prompts), id, userId)
      ensures State() == SetVisibility(old(State()), id, userId, v)
    {
      SetVisibilityConsistent(State(), id, userId, v);
      changes := CountOwned(prompts, id, userId);
      prompts := Publish(prompts, id, userId, v);
    }

    method DeletePrompt(id: nat, userId: nat)
      requires Valid()
      modifies this
      ensures Valid() && State() == RemovePrompt(old(State()), id, userId)
    {
      RemovePromptConsistent(State(), id, userId);
      prompts := Filter(prompts, (p: PromptRow) => !Owned(p, id, userId));
    }

    /** Deleting a user, which no route does; the schema's cascades run with it. */
    method DeleteUser(id: nat)
      requires Valid()
      modifies this
      ensures Valid() && State() == RemoveUser(old(State()), id)
    {
      RemoveUserConsistent(State(), id);
      Commit(RemoveUser(State(), id));
    }
  }
}
