/** server.js: the routes behind `requireAuth` (profile, password, API keys, saved prompts, the
    Claude proxy) and the public prompt list. Routes that run an `UPDATE`, `INSERT` or `DELETE`
    are methods on the database; routes that only `SELECT` are functions of the tables. */
module ServerRoutes {
  import opened Wrappers
  import opened Text
  import opened Seqs
  import opened Validation
  import opened Crypto
  import opened PromptXml
  import opened Store
  import opened SavedPrompts
  import opened Http
  import opened AuthRoutes

  // ---------------------------------------------------------------------------------
  // PUT /api/profile

  /** The checks of the profile route in their order; `None` when the update goes ahead. */
  function ProfileError(us: seq<User>, id: nat, displayName: Option<string>, email: Option<string>): (r: Option<Response>)
    ensures r.None? <==> Given(displayName) && Given(email) && EmailShape(email.value) && !EmailTakenByOther(us, email.value, id)
    ensures r.Some? ==> r.value.status == 400 || r.value.status == 409
    ensures r.Some? && r.value.status == 409 <==>
      Given(displayName) && Given(email) && EmailShape(email.value) && EmailTakenByOther(us, email.value, id)
  {
    if !Given(displayName) || !Given(email) then Some(Response(400, Error("displayName and email are required")))
    else if !EmailShape(email.value) then Some(Response(400, Error("Invalid email format")))
    else if EmailTakenByOther(us, email.value, id) then Some(Response(409, Error("Email already in use")))
    else None
  }

  /** PUT /api/profile: refused requests change nothing; an accepted one is the `UPDATE` of the
      session user's row. */
  method PutProfile(db: Db, session: Session, displayName: Option<string>, email: Option<string>, now: string)
    returns (resp: Response)
    requires db.Valid()
    modifies db
    ensures db.Valid()
    ensures session.userId.None? ==> resp == NotAuthenticated && db.State() == old(db.State())
    ensures session.userId.Some? && ProfileError(old(db.users), session.userId.value, displayName, email).Some? ==>
      resp == ProfileError(old(db.users), session.userId.value, displayName, email).value && db.State() == old(db.State())
    ensures session.userId.Some? && ProfileError(old(db.users), session.userId.value, displayName, email).None? ==>
      resp == Response(200, Message("Profile updated")) &&
      db.State() == SetProfile(old(db.State()), session.userId.value, displayName.value, email.value, now)
  {
    if session.userId.None? {
      return NotAuthenticated;
    }
    var refused := ProfileError(db.users, session.userId.value, displayName, email);
    if refused.Some? {
      return refused.value;
    }
    var ok := db.UpdateProfile(session.userId.value, displayName.value, email.value, now);
    assert ok;
    resp := Response(200, Message("Profile updated"));
  }

  /** The profile update changes the display name, the address and `updated_at` of the row with
      the id, and no other row or column. */
  lemma SetProfileOnlyOwnRow(t: Tables, id: nat, displayName: string, email: string, now: string)
    requires UsersValid(t.users, t.lastUserId)
    ensures var r := SetProfile(t, id, displayName, email, now);
      |r.users| == |t.users| && r.apiKeys == t.apiKeys && r.prompts == t.prompts &&
      forall j :: 0 <= j < |t.users| ==>
        r.users[j] == if t.users[j].id == id then t.users[j].(displayName := displayName, email := email, updatedAt := now)
                      else t.users[j]
  {
    if HasUser(t.users, id) {
      var i := UserIndex(t.users, id).value;
      forall j | 0 <= j < |t.users| && t.users[j].id == id ensures j == i {
        UserIndexUnique(t.users, t.lastUserId, id, j);
      }
    }
  }

  /** An accepted profile update keeps the route invariant on users. */
  lemma ProfileWellFormed(t: Tables, id: nat, displayName: string, email: string, now: string)
    requires WellFormedUsers(t.users) && EmailShape(email)
    ensures WellFormedUsers(SetProfile(t, id, displayName, email, now).users)
  {
  }

  // ---------------------------------------------------------------------------------
  // PUT /api/profile/password

  /** PUT /api/profile/password. `h` is bcrypt and `salt` its random salt. Every refusal leaves
      the tables as they were; a session whose user row is gone reaches `user.password_hash` on
      `undefined`, which throws. */
  method PutPassword(db: Db, session: Session, currentPassword: Option<string>, newPassword: Option<string>,
                     h: Hasher, salt: string, now: string)
    returns (resp: Response)
    requires db.Valid()
    modifies db
    ensures db.Valid()
    ensures resp.status != 200 ==> db.State() == old(db.State())
    ensures session.userId.None? ==> resp == NotAuthenticated
    ensures session.userId.Some? && (!Given(currentPassword) || !Given(newPassword)) ==>
      resp == Response(400, Error("Current and new password are required"))
    ensures session.userId.Some? && Given(currentPassword) && Given(newPassword) && |newPassword.value| < 8 ==>
      resp == Response(400, Error("New password must be at least 8 characters"))
    ensures session.userId.Some? && Given(currentPassword) && Given(newPassword) && |newPassword.value| >= 8 ==>
      match UserIndex(old(db.users), session.userId.value)
      case None => resp == Crashed
      case Some(i) =>
        if h.compare(currentPassword.value, old(db.users)[i].passwordHash) then
          resp == Response(200, Message("Password updated")) &&
          db.State() == SetPasswordHash(old(db.State()), session.userId.value, h.hash(newPassword.value, BcryptCost, salt), now)
        else resp == Response(401, Error("Current password is incorrect"))
  {
    if session.userId.None? {
      return NotAuthenticated;
    }
    if !Given(currentPassword) || !Given(newPassword) {
      return Response(400, Error("Current and new password are required"));
    }
    if |newPassword.value| < 8 {
      return Response(400, Error("New password must be at least 8 characters"));
    }
    var i := UserIndex(db.users, session.userId.value);
    if i.None? {
      return Crashed;
    }
    if !h.compare(currentPassword.value, db.users[i.value].passwordHash) {
      return Response(401, Error("Current password is incorrect"));
    }
    var newHash := h.hash(newPassword.value, BcryptCost, salt);
    db.UpdatePasswordHash(session.userId.value, newHash, now);
    resp := Response(200, Message("Password updated"));
  }

  /** After a password change the user's row verifies the new password, and every other row is
      as it was. */
  lemma NewPasswordVerifies(t: Tables, id: nat, h: Hasher, newPassword: string, salt: string, now: string, j: nat)
    requires UsersValid(t.users, t.lastUserId) && Verifies(h) && j < |t.users|
    ensures var r := SetPasswordHash(t, id, h.hash(newPassword, BcryptCost, salt), now);
      |r.users| == |t.users| &&
      (t.users[j].id == id ==> h.compare(newPassword, r.users[j].passwordHash)) &&
      (t.users[j].id != id ==> r.users[j] == t.users[j])
  {
    if t.users[j].id == id {
      UserIndexUnique(t.users, t.lastUserId, id, j);
    }
  }

  // ---------------------------------------------------------------------------------
  // API keys

  /** The masked preview: `'****'` unless the key decrypts to more than 11 characters, then its
      first 7, `'...'` and its last 4. */
  function Preview(plain: Option<string>): (r: string)
    ensures plain.None? || |plain.value| <= 11 ==> r == "****"
    ensures plain.Some? && |plain.value| > 11 ==> |r| == 14 && r[7..10] == "..."
  {
    if plain.Some? && |plain.value| > 11 then
      plain.value[..7] + "..." + plain.value[|plain.value| - 4..]
    else "****"
  }

  /** A preview shows no more of a key than its first 7 and last 4 characters: two keys that
      agree there have the same preview. */
  lemma PreviewShowsOnlyEnds(a: string, b: string)
    requires |a| > 11 && |b| > 11 && a[..7] == b[..7] && a[|a| - 4..] == b[|b| - 4..]
    ensures Preview(Some(a)) == Preview(Some(b))
  {
  }

  /** The preview of a long key starts with the key's first 7 characters and ends with its last 4. */
  lemma PreviewOfLongKey(k: string)
    requires |k| > 11
    ensures Preview(Some(k))[..7] == k[..7] && Preview(Some(k))[10..] == k[|k| - 4..]
  {
  }

  /** A key of another length than 4 and 14 is never shown in full. */
  lemma PreviewHidesKey(k: string, plain: Option<string>)
    requires |k| != 4 && |k| != 14
    ensures Preview(plain) != k
  {
  }

  /** The list entry of a row: the row is fetched again by (user, key name) and decrypted; a
      failure on the way keeps the preview masked. */
  function KeyEntry(c: Aead, master: string, ks: seq<KeyRow>, userId: nat, k: KeyRow): KeyInfo {
    var plain := match KeyIndex(ks, userId, k.keyName)
                 case None => None
                 case Some(j) => Decrypt(c, master, ks[j].sealed);
    KeyInfo(k.keyName, Preview(plain), k.updatedAt)
  }

  function KeyEntries(c: Aead, master: string, ks: seq<KeyRow>, userId: nat, rows: seq<KeyRow>): (r: seq<KeyInfo>)
    ensures |r| == |rows|
    ensures forall i :: 0 <= i < |rows| ==> r[i] == KeyEntry(c, master, ks, userId, rows[i])
  {
    if rows == [] then [] else [KeyEntry(c, master, ks, userId, rows[0])] + KeyEntries(c, master, ks, userId, rows[1..])
  }

  /** GET /api/api-keys: an entry per key row of the session user, in table order. */
  function KeysResponse(c: Aead, master: string, t: Tables, userId: Option<nat>): (r: Response)
    ensures userId.None? ==> r == NotAuthenticated
    ensures userId.Some? ==> (r.status == 200 && r.body.Keys? &&
      |r.body.keys| == |Filter(t.apiKeys, (k: KeyRow) => k.userId == userId.value)|)
  {
    if userId.None? then NotAuthenticated
    else Response(200, Keys(KeyEntries(c, master, t.apiKeys, userId.value,
                                       Filter(t.apiKeys, (k: KeyRow) => k.userId == userId.value))))
  }

  /** With one row per (user, key name) the row found again is the row itself. */
  lemma KeyIndexUnique(ks: seq<KeyRow>, us: seq<User>, last: nat, i: nat)
    requires KeysValid(ks, us, last) && i < |ks|
    ensures KeyIndex(ks, ks[i].userId, ks[i].keyName) == Some(i)
  {
    var r := KeyIndex(ks, ks[i].userId, ks[i].keyName);
    assert r.Some?;
  }

  /** So each entry's preview is that of its own row's decrypted key. */
  lemma KeyEntryOwnRow(c: Aead, master: string, t: Tables, i: nat)
    requires Consistent(t) && i < |t.apiKeys|
    ensures var k := t.apiKeys[i];
      KeyEntry(c, master, t.apiKeys, k.userId, k) == KeyInfo(k.keyName, Preview(Decrypt(c, master, k.sealed)), k.updatedAt)
  {
    KeyIndexUnique(t.apiKeys, t.users, t.lastKeyId, i);
  }

  /** The checks of the key upsert in their order. */
  function KeyError(keyName: string, apiKey: Option<string>): (r: Option<Response>)
    ensures r.None? <==> Given(apiKey) && ValidName(keyName)
    ensures r.Some? ==> r.value.status == 400
  {
    if !Given(apiKey) then Some(Response(400, Error("apiKey is required")))
    else if !ValidName(keyName) then Some(Response(400, Error("Invalid key name")))
    else None
  }

  /** PUT /api/api-keys/:keyName. `c` and `master` are the cipher and the master key, `iv` the
      fresh random IV. An accepted key is sealed and upserted. A master key that is not 32 bytes
      makes the sealing throw, and a session whose user row is gone fails the foreign key, which
      throws too; neither is caught, so both answer 500. */
  method PutApiKey(db: Db, session: Session, keyName: string, apiKey: Option<string>,
                   c: Aead, master: string, iv: Iv, now: string)
    returns (resp: Response)
    requires db.Valid()
    modifies db
    ensures db.Valid()
    ensures resp.status != 200 ==> db.State() == old(db.State())
    ensures session.userId.None? ==> resp == NotAuthenticated
    ensures session.userId.Some? && KeyError(keyName, apiKey).Some? ==> resp == KeyError(keyName, apiKey).value
    ensures session.userId.Some? && KeyError(keyName, apiKey).None? && !ValidMasterKey(master) ==> resp == Crashed
    ensures session.userId.Some? && KeyError(keyName, apiKey).None? && !HasUser(old(db.users), session.userId.value) ==>
      resp == Crashed
    ensures session.userId.Some? && KeyError(keyName, apiKey).None? && ValidMasterKey(master) &&
            HasUser(old(db.users), session.userId.value) ==>
      resp == Response(200, Message("API key saved")) &&
      db.State() == UpsertKey(old(db.State()), session.userId.value, keyName, Encrypt(c, master, iv, apiKey.value).value, now)
  {
    if session.userId.None? {
      return NotAuthenticated;
    }
    var refused := KeyError(keyName, apiKey);
    if refused.Some? {
      return refused.value;
    }
    var sealed := Encrypt(c, master, iv, apiKey.value);
    if sealed.None? {
      return Crashed;
    }
    var ok := db.UpsertApiKey(session.userId.value, keyName, sealed.value, now);
    if !ok {
      return Crashed;
    }
    resp := Response(200, Message("API key saved"));
  }

  /** Every key row of a user is listed, with the preview of its own decrypted key. */
  lemma KeyRowListed(c: Aead, master: string, t: Tables, i: nat)
    requires Consistent(t) && i < |t.apiKeys|
    ensures var k := t.apiKeys[i];
      KeyInfo(k.keyName, Preview(Decrypt(c, master, k.sealed)), k.updatedAt) in KeysResponse(c, master, t, Some(k.userId)).body.keys
  {
    var k := t.apiKeys[i];
    KeyEntryOwnRow(c, master, t, i);
    var rows := Filter(t.apiKeys, (r: KeyRow) => r.userId == k.userId);
    assert k in rows;
    var j :| 0 <= j < |rows| && rows[j] == k;
    assert KeysResponse(c, master, t, Some(k.userId)).body.keys[j] == KeyEntry(c, master, t.apiKeys, k.userId, rows[j]);
  }

  /** A saved key is listed under its name with the preview of the key itself. */
  lemma SavedKeyListed(t: Tables, userId: nat, keyName: string, c: Aead, master: string, iv: Iv, key: string, now: string)
    requires Consistent(t) && HasUser(t.users, userId) && Sound(c) && ValidMasterKey(master)
    ensures var t1 := UpsertKey(t, userId, keyName, Encrypt(c, master, iv, key).value, now);
      exists e :: e in KeysResponse(c, master, t1, Some(userId)).body.keys && e.keyName == keyName && e.preview == Preview(Some(key))
  {
    var sealed := Encrypt(c, master, iv, key).value;
    var t1 := UpsertKey(t, userId, keyName, sealed, now);
    UpsertKeyConsistent(t, userId, keyName, sealed, now);
    UpsertKeyOneRow(t, userId, keyName, sealed, now);
    var i :| 0 <= i < |t1.apiKeys| && t1.apiKeys[i].userId == userId && t1.apiKeys[i].keyName == keyName && t1.apiKeys[i].sealed == sealed;
    KeyRowListed(c, master, t1, i);
  }

  /** DELETE /api/api-keys/:keyName: the session user's row of that name goes; the answer is
      `{ ok: true }` whether or not there was one. */
  method DeleteApiKeyRoute(db: Db, session: Session, keyName: string) returns (resp: Response)
    requires db.Valid()
    modifies db
    ensures db.Valid()
    ensures session.userId.None? ==> resp == NotAuthenticated && db.State() == old(db.State())
    ensures session.userId.Some? ==>
      resp == Response(200, Ok) && db.State() == RemoveKey(old(db.State()), session.userId.value, keyName)
  {
    if session.userId.None? {
      return NotAuthenticated;
    }
    db.DeleteApiKey(session.userId.value, keyName);
    resp := Response(200, Ok);
  }

  // ---------------------------------------------------------------------------------
  // Saved prompts

  /** `ORDER BY created_at DESC`, by the binary order of the text. */
  predicate NewestFirst(ps: seq<PromptRow>) {
    forall i, j :: 0 <= i < j < |ps| ==> StrLe(ps[j].createdAt, ps[i].createdAt)
  }

  /** Inserts a row before the first row that is not newer. */
  function InsertNewest(p: PromptRow, ps: seq<PromptRow>): (r: seq<PromptRow>)
    ensures multiset(r) == multiset(ps) + multiset{p}
  {
    if ps == [] || StrLe(ps[0].createdAt, p.createdAt) then [p] + ps
    else
      assert ps == [ps[0]] + ps[1..];
      [ps[0]] + InsertNewest(p, ps[1..])
  }

  /** No row is newer than `c`. */
  predicate NotNewerThan(ps: seq<PromptRow>, c: string) {
    forall i :: 0 <= i < |ps| ==> StrLe(ps[i].createdAt, c)
  }

  lemma ConsNewest(x: PromptRow, ps: seq<PromptRow>)
    requires NewestFirst(ps) && NotNewerThan(ps, x.createdAt)
    ensures NewestFirst([x] + ps)
  {
    var r := [x] + ps;
    forall i, j | 0 <= i < j < |r| ensures StrLe(r[j].createdAt, r[i].createdAt) {
      assert r[j] == ps[j - 1];
      if i > 0 {
        assert r[i] == ps[i - 1];
      }
    }
  }

  lemma {:induction false} InsertNotNewer(p: PromptRow, ps: seq<PromptRow>, c: string)
    requires NotNewerThan(ps, c) && StrLe(p.createdAt, c)
    ensures NotNewerThan(InsertNewest(p, ps), c)
  {
    if ps != [] && !StrLe(ps[0].createdAt, p.createdAt) {
      assert NotNewerThan(ps[1..], c) by {
        forall i | 0 <= i < |ps[1..]| ensures StrLe(ps[1..][i].createdAt, c) {
          assert ps[1..][i] == ps[i + 1];
        }
      }
      InsertNotNewer(p, ps[1..], c);
      var r := InsertNewest(p, ps);
      forall i | 0 <= i < |r| ensures StrLe(r[i].createdAt, c) {
        if i > 0 {
          assert r[i] == InsertNewest(p, ps[1..])[i - 1];
        }
      }
    }
  }

  lemma {:induction false} InsertNewestSorted(p: PromptRow, ps: seq<PromptRow>)
    requires NewestFirst(ps)
    ensures NewestFirst(InsertNewest(p, ps))
  {
    if ps == [] {
    } else if StrLe(ps[0].createdAt, p.createdAt) {
      forall i | 0 <= i < |ps| ensures StrLe(ps[i].createdAt, p.createdAt) {
        if i > 0 {
          StrLeTransitive(ps[i].createdAt, ps[0].createdAt, p.createdAt);
        }
      }
      ConsNewest(p, ps);
    } else {
      StrLeTotal(p.createdAt, ps[0].createdAt);
      var rest := ps[1..];
      assert NewestFirst(rest) && NotNewerThan(rest, ps[0].createdAt) by {
        forall i | 0 <= i < |rest| ensures rest[i] == ps[i + 1] {
        }
      }
      InsertNewestSorted(p, rest);
      InsertNotNewer(p, rest, ps[0].createdAt);
      ConsNewest(ps[0], InsertNewest(p, rest));
    }
  }

  /** The rows newest first; rows with the same `created_at` keep their table order. */
  function SortNewest(ps: seq<PromptRow>): (r: seq<PromptRow>)
    ensures multiset(r) == multiset(ps)
    ensures NewestFirst(r)
  {
    if ps == [] then []
    else
      var rest := SortNewest(ps[1..]);
      InsertNewestSorted(ps[0], rest);
      assert ps == [ps[0]] + ps[1..];
      InsertNewest(ps[0], rest)
  }

  function AsSaved(p: PromptRow): SavedPrompt {
    SavedPrompt(p.id, p.description, p.formData, p.createdAt, p.isPublic)
  }

  function AllAsSaved(ps: seq<PromptRow>): (r: seq<SavedPrompt>)
    ensures |r| == |ps|
    ensures forall i :: 0 <= i < |ps| ==> r[i] == AsSaved(ps[i])
  {
    if ps == [] then [] else [AsSaved(ps[0])] + AllAsSaved(ps[1..])
  }

  /** The session user's rows, newest first. */
  function OwnPrompts(t: Tables, userId: nat): seq<PromptRow> {
    SortNewest(Filter(t.prompts, (p: PromptRow) => p.userId == userId))
  }

  /** GET /api/prompts. */
  function PromptsResponse(t: Tables, userId: Option<nat>): (r: Response)
    ensures userId.None? ==> r == NotAuthenticated
    ensures userId.Some? ==> r == Response(200, Prompts(AllAsSaved(OwnPrompts(t, userId.value))))
  {
    if userId.None? then NotAuthenticated else Response(200, Prompts(AllAsSaved(OwnPrompts(t, userId.value))))
  }

  /** The list holds exactly the session user's rows, each once, newest first. */
  lemma OwnPromptsExact(t: Tables, userId: nat)
    ensures var l := OwnPrompts(t, userId);
      NewestFirst(l) &&
      (forall p :: p in l <==> p in t.prompts && p.userId == userId) &&
      multiset(l) == multiset(Filter(t.prompts, (p: PromptRow) => p.userId == userId))
  {
    var l := OwnPrompts(t, userId);
    forall p ensures p in l <==> p in t.prompts && p.userId == userId {
      assert p in l <==> p in multiset(l);
    }
  }

  /** The rows of the inner join with `users`, each with its author. */
  function Entry(p: PromptRow, u: User): PublicEntry {
    PublicEntry(p.id, p.description, p.formData, p.createdAt, u.displayName, u.username)
  }

  function Author(us: seq<User>, id: nat): User
    requires HasUser(us, id)
  {
    us[UserIndex(us, id).value]
  }

  /** `JOIN users u ON p.user_id = u.id`: a row without its user would drop out. */
  function Join(ps: seq<PromptRow>, us: seq<User>): (r: seq<PublicEntry>)
    ensures |r| <= |ps|
    ensures (forall i :: 0 <= i < |ps| ==> HasUser(us, ps[i].userId)) ==>
      |r| == |ps| && forall i :: 0 <= i < |ps| ==> r[i] == Entry(ps[i], Author(us, ps[i].userId))
  {
    if ps == [] then []
    else
      var rest := Join(ps[1..], us);
      assert forall i :: 1 <= i < |ps| ==> ps[1..][i - 1] == ps[i];
      match UserIndex(us, ps[0].userId)
      case None => rest
      case Some(k) => [Entry(ps[0], us[k])] + rest
  }

  /** GET /api/prompts/public, which needs no session. */
  function PublicEntries(t: Tables): seq<PublicEntry> {
    Join(SortNewest(Filter(t.prompts, (p: PromptRow) => p.isPublic)), t.users)
  }

  /** The rows the public list is made of: the public rows, newest first. */
  lemma PublicRows(t: Tables)
    ensures var rows := SortNewest(Filter(t.prompts, (p: PromptRow) => p.isPublic));
      forall p :: p in rows <==> p in t.prompts && p.isPublic
  {
    var f := Filter(t.prompts, (p: PromptRow) => p.isPublic);
    var rows := SortNewest(f);
    forall p ensures p in rows <==> p in f {
      assert p in rows <==> p in multiset(rows);
      assert p in f <==> p in multiset(f);
    }
  }

  /** Every row of a consistent prompts table has its user. */
  lemma RowsHaveUsers(t: Tables, rows: seq<PromptRow>)
    requires Consistent(t) && forall p :: p in rows ==> p in t.prompts
    ensures forall i :: 0 <= i < |rows| ==> HasUser(t.users, rows[i].userId)
  {
    forall i | 0 <= i < |rows| ensures HasUser(t.users, rows[i].userId) {
      assert rows[i] in rows;
      var k :| 0 <= k < |t.prompts| && t.prompts[k] == rows[i];
    }
  }

  /** The public list holds one entry per public row, newest first, with the row's author; no
      private row is listed. */
  lemma PublicEntriesExact(t: Tables)
    requires Consistent(t)
    ensures var es := PublicEntries(t);
      (forall i, j :: 0 <= i < j < |es| ==> StrLe(es[j].createdAt, es[i].createdAt)) &&
      (forall p :: p in t.prompts && p.isPublic ==> exists i :: 0 <= i < |es| && es[i] == Entry(p, Author(t.users, p.userId))) &&
      (forall i :: 0 <= i < |es| ==> exists p :: p in t.prompts && p.isPublic && es[i] == Entry(p, Author(t.users, p.userId)))
  {
    var rows := SortNewest(Filter(t.prompts, (p: PromptRow) => p.isPublic));
    PublicRows(t);
    RowsHaveUsers(t, rows);
    var es := PublicEntries(t);
    assert |es| == |rows| && forall i :: 0 <= i < |rows| ==> es[i] == Entry(rows[i], Author(t.users, rows[i].userId));
    forall p | p in t.prompts && p.isPublic ensures exists i :: 0 <= i < |es| && es[i] == Entry(p, Author(t.users, p.userId)) {
      var i :| 0 <= i < |rows| && rows[i] == p;
      assert es[i] == Entry(p, Author(t.users, p.userId));
    }
    forall i | 0 <= i < |es| ensures exists p :: p in t.prompts && p.isPublic && es[i] == Entry(p, Author(t.users, p.userId)) {
      assert rows[i] in rows;
    }
  }

  /** POST /api/prompts. `now` is the database clock that fills `created_at`, `clock` the
      server's own clock that the answer reports. A stored description is cut to 40 characters
      and `is_public` is the truth of the flag. */
  method PostPrompt(db: Db, session: Session, description: Option<string>, formData: Option<FormData>,
                    isPublic: bool, now: string, clock: string)
    returns (resp: Response)
    requires db.Valid() && db.hasIsPublic
    modifies db
    ensures db.Valid()
    ensures resp.status != 200 ==> db.State() == old(db.State())
    ensures session.userId.None? ==> resp == NotAuthenticated
    ensures session.userId.Some? && (!Given(description) || formData.None?) ==>
      resp == Response(400, Error("description and formData are required"))
    ensures session.userId.Some? && Given(description) && formData.Some? && !HasUser(old(db.users), session.userId.value) ==>
      resp == Crashed
    ensures session.userId.Some? && Given(description) && formData.Some? && HasUser(old(db.users), session.userId.value) ==>
      var d := Take(description.value, DescriptionLimit);
      var id := old(db.lastPromptId) + 1;
      db.State() == AddPrompt(old(db.State()), session.userId.value, d, formData.value, now, isPublic) &&
      resp == Response(200, Created(SavedPrompt(id, d, formData.value, clock, isPublic)))
  {
    if session.userId.None? {
      return NotAuthenticated;
    }
    if !Given(description) || formData.None? {
      return Response(400, Error("description and formData are required"));
    }
    var d := Take(description.value, DescriptionLimit);
    var id := db.InsertPrompt(session.userId.value, d, formData.value, now, Some(isPublic));
    if id.None? {
      return Crashed;
    }
    resp := Response(200, Created(SavedPrompt(id.value, d, formData.value, clock, isPublic)));
  }

  /** The created row: owned by the session user, not newer than itself in the list, with at
      most 40 characters of description that begin the request's description. */
  lemma CreatedRow(t: Tables, userId: nat, description: string, f: FormData, now: string, isPublic: bool)
    requires Consistent(t) && HasUser(t.users, userId) && t.hasIsPublic
    ensures var t1 := AddPrompt(t, userId, Take(description, DescriptionLimit), f, now, isPublic);
      var p := t1.prompts[|t1.prompts| - 1];
      Consistent(t1) && p in OwnPrompts(t1, userId) &&
      |p.description| <= DescriptionLimit && p.description <= description && p.isPublic == isPublic
  {
    var d := Take(description, DescriptionLimit);
    AddPromptConsistent(t, userId, d, f, now, isPublic);
    var t1 := AddPrompt(t, userId, d, f, now, isPublic);
    OwnPromptsExact(t1, userId);
  }

  /** An update that matches no row leaves the rows as they were. */
  lemma {:induction false} PublishNothing(ps: seq<PromptRow>, id: nat, userId: nat, v: bool)
    requires CountOwned(ps, id, userId) == 0
    ensures Publish(ps, id, userId, v) == ps
  {
    if ps != [] {
      assert !Owned(ps[0], id, userId);
      assert CountOwned(ps[1..], id, userId) == 0;
      PublishNothing(ps[1..], id, userId, v);
    }
  }

  /** PUT /api/prompts/:id/visibility. `id` is `Number` of the path segment when that is a
      natural number; any other value (`NaN`, a fraction, a negative) matches no row. */
  method PutVisibility(db: Db, session: Session, id: Option<nat>, isPublic: bool) returns (resp: Response)
    requires db.Valid() && db.hasIsPublic
    modifies db
    ensures db.Valid()
    ensures session.userId.None? ==> resp == NotAuthenticated && db.State() == old(db.State())
    ensures session.userId.Some? && (id.None? || CountOwned(old(db.prompts), id.value, session.userId.value) == 0) ==>
      resp == Response(404, Error("Prompt not found or not owned by you")) && db.State() == old(db.State())
    ensures session.userId.Some? && id.Some? && CountOwned(old(db.prompts), id.value, session.userId.value) > 0 ==>
      resp == Response(200, Visibility(isPublic)) &&
      db.State() == SetVisibility(old(db.State()), id.value, session.userId.value, isPublic)
  {
    if session.userId.None? {
      return NotAuthenticated;
    }
    if id.None? {
      return Response(404, Error("Prompt not found or not owned by you"));
    }
    ghost var before := db.prompts;
    var changes := db.SetPromptVisibility(id.value, session.userId.value, isPublic);
    if changes == 0 {
      PublishNothing(before, id.value, session.userId.value, isPublic);
      return Response(404, Error("Prompt not found or not owned by you"));
    }
    resp := Response(200, Visibility(isPublic));
  }

  /** DELETE /api/prompts/:id: the session user's row with the id goes; other users' rows stay. */
  method DeletePromptRoute(db: Db, session: Session, id: Option<nat>) returns (resp: Response)
    requires db.Valid()
    modifies db
    ensures db.Valid()
    ensures session.userId.None? ==> resp == NotAuthenticated && db.State() == old(db.State())
    ensures session.userId.Some? ==> (resp == Response(200, Ok) &&
      db.State() == if id.None? then old(db.State()) else RemovePrompt(old(db.State()), id.value, session.userId.value))
  {
    if session.userId.None? {
      return NotAuthenticated;
    }
    if id.Some? {
      db.DeletePrompt(id.value, session.userId.value);
    }
    resp := Response(200, Ok);
  }

  /** Deleting keeps every row that is not the user's row with the id. */
  lemma RemovePromptOnly(t: Tables, id: nat, userId: nat, p: PromptRow)
    ensures p in RemovePrompt(t, id, userId).prompts <==> p in t.prompts && !Owned(p, id, userId)
  {
  }

  // ---------------------------------------------------------------------------------
  // POST /api/claude

  /** How far the proxy gets before the network call: a refusal, or the request it would send. */
  datatype ProxyStep =
    | Refuse(resp: Response)
    | Forward(apiKey: string, model: string, maxTokens: nat, prompt: string)

  const DefaultModel := "claude-sonnet-4-5-20250929"
  const MaxTokens: nat := 4096
  const NoKey := Response(400, Error("No Anthropic API key configured. Add one in Account Settings."))
  const UndecryptableKey := Response(500, Error("Failed to decrypt API key. It may need to be re-saved."))

  /** The key row the proxy reads is the session user's row named `anthropic`, the column's
      default name. */
  function ClaudeStep(c: Aead, master: string, ks: seq<KeyRow>, userId: Option<nat>,
                      prompt: Option<string>, model: Option<string>): (r: ProxyStep)
    ensures userId.None? ==> r == Refuse(NotAuthenticated)
    ensures userId.Some? && !Given(prompt) ==> r == Refuse(Response(400, Error("prompt is required")))
    ensures userId.Some? && Given(prompt) && KeyIndex(ks, userId.value, DefaultKeyName).None? ==> r == Refuse(NoKey)
    ensures r.Forward? <==> userId.Some? && Given(prompt) && KeyIndex(ks, userId.value, DefaultKeyName).Some? &&
                            Decrypt(c, master, ks[KeyIndex(ks, userId.value, DefaultKeyName).value].sealed).Some?
    ensures r.Refuse? && r.resp.status == 500 ==> r.resp == UndecryptableKey
    ensures userId.Some? && Given(prompt) && KeyIndex(ks, userId.value, DefaultKeyName).Some? &&
            Decrypt(c, master, ks[KeyIndex(ks, userId.value, DefaultKeyName).value].sealed).None? ==>
      r == Refuse(UndecryptableKey)
    ensures r.Forward? ==>
      Some(r.apiKey) == Decrypt(c, master, ks[KeyIndex(ks, userId.value, DefaultKeyName).value].sealed) &&
      r.prompt == prompt.value && r.maxTokens == MaxTokens &&
      r.model == (if Given(model) then model.value else DefaultModel)
  {
    if userId.None? then Refuse(NotAuthenticated)
    else if !Given(prompt) then Refuse(Response(400, Error("prompt is required")))
    else match KeyIndex(ks, userId.value, DefaultKeyName)
      case None => Refuse(NoKey)
      case Some(i) =>
        match Decrypt(c, master, ks[i].sealed)
        case None => Refuse(UndecryptableKey)
        case Some(key) => Forward(key, if Given(model) then model.value else DefaultModel, MaxTokens, prompt.value)
  }

  /** After the user saves an `anthropic` key, the proxy sends that key. */
  lemma SavedKeyForwarded(t: Tables, userId: nat, c: Aead, master: string, iv: Iv, key: string, now: string,
                          prompt: Option<string>, model: Option<string>)
    requires Consistent(t) && HasUser(t.users, userId) && Sound(c) && ValidMasterKey(master) && Given(prompt)
    ensures var t1 := UpsertKey(t, userId, DefaultKeyName, Encrypt(c, master, iv, key).value, now);
      var step := ClaudeStep(c, master, t1.apiKeys, Some(userId), prompt, model);
      step.Forward? && step.apiKey == key
  {
    var sealed := Encrypt(c, master, iv, key).value;
    var t1 := UpsertKey(t, userId, DefaultKeyName, sealed, now);
    UpsertKeyConsistent(t, userId, DefaultKeyName, sealed, now);
    UpsertKeyOneRow(t, userId, DefaultKeyName, sealed, now);
    var i :| 0 <= i < |t1.apiKeys| && t1.apiKeys[i].userId == userId && t1.apiKeys[i].keyName == DefaultKeyName &&
             t1.apiKeys[i].sealed == sealed;
    KeyIndexUnique(t1.apiKeys, t1.users, t1.lastKeyId, i);
  }

  /** After the user deletes the `anthropic` key, the proxy refuses for want of a key. */
  lemma DeletedKeyRefused(t: Tables, userId: nat, c: Aead, master: string, prompt: Option<string>, model: Option<string>)
    requires Given(prompt)
    ensures ClaudeStep(c, master, RemoveKey(t, userId, DefaultKeyName).apiKeys, Some(userId), prompt, model) == Refuse(NoKey)
  {
    var ks := RemoveKey(t, userId, DefaultKeyName).apiKeys;
    var r := KeyIndex(ks, userId, DefaultKeyName);
    if r.Some? {
      RemoveKeyOnly(t, userId, DefaultKeyName, ks[r.value]);
    }
  }

  /** With a master key that is not 32 bytes every stored key stays masked in the list, and
      the proxy refuses: for want of a key row, or with the decryption error. */
  lemma BadMasterKeyRefused(c: Aead, master: string, t: Tables, userId: nat, prompt: Option<string>, model: Option<string>)
    requires !ValidMasterKey(master)
    ensures forall e :: e in KeysResponse(c, master, t, Some(userId)).body.keys ==> e.preview == "****"
    ensures Given(prompt) ==>
      ClaudeStep(c, master, t.apiKeys, Some(userId), prompt, model) in {Refuse(NoKey), Refuse(UndecryptableKey)}
  {
    var keys := KeysResponse(c, master, t, Some(userId)).body.keys;
    forall e | e in keys ensures e.preview == "****" {
      var i :| 0 <= i < |keys| && keys[i] == e;
    }
  }
}
