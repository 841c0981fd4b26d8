# prompt-builder-app in Dafny

A model of the server and serialiser core of prompt-builder-app. It is a web app in which a
user fills in a form that becomes an XML prompt. Signed-in users save their prompts, publish
some of them to a community page, and store an Anthropic API key that the server uses to call
Claude for them. An MCP server serves the same saved prompts to other tools.

The model has three parts.

- **The credential and prompt store**
  - `Store` models the three SQLite tables of `lib/db.js`:
    - `users`;
    - `user_api_keys`, keyed by (user, key name);
    - `prompts`, with an owner and an `is_public` flag.
  - `Store.Db` is a class holding those tables and the last id each `AUTOINCREMENT` counter
    has issued.
  - Its invariant `Valid()` holds the schema's constraints:
    - usernames and e-mail addresses are unique ignoring case;
    - at most one key row exists per (user, key name);
    - every key row and prompt row belongs to an existing user;
    - ids are strictly increasing and never reused.
  - Each statement the routes run is a method of `Db`. Its contract says the new state is a
    function of the old one (`AddUser`, `UpsertKey`, `SetVisibility`, `RemoveUser`, …). A
    constraint failure leaves the tables unchanged.
  - `AuthRoutes` has the four handlers of `lib/auth-routes.js`. `ServerRoutes` has the handlers
    of `server.js`. A handler is a method over the database and the session (`Http.Session`)
    and returns an `Http.Response`. A read-only route is a function of the tables.
- **Configuration and legacy import**
  - `KeyProvisioner` resolves the master key and the session secret of `lib/crypto.js`, in
    order: the environment, then the `.env` text, then fresh random values. The file text is
    scanned for lines with the same line semantics as the source's regular-expression search.
  - `Crypto` treats AES-256-GCM and bcrypt as functions the caller supplies. What the model
    relies on is a predicate about them (`Sound`, `Verifies`), required where it is used.
    The master key must decode to 32 bytes (`ValidMasterKey`). An environment key is accepted
    on its length alone, so a non-hex one makes every seal and open fail. Saving a key then
    answers 500, and the list masks every key. The proxy answers 400 when no key row is stored
    and 500 for a row saved earlier.
  - `Migrate` is the one-time import of `prompts.json` in `lib/migrate.js`. It is a method
    whose loop is proved equal to a specification of its guard chain (`MigrateSpec`). An
    element whose insert throws rolls the transaction back, and the exception ends start-up.
- **The prompt serialiser and the list helpers**
  - `PromptXml` models the `generateXML` of `src/App.jsx` and the one of `mcp-server.js`. A
    form determines a list of sections (`Document`). The two programs render that list with
    different fixed texts (`WebText`, `McpText`). `GenerateXml` is the step-by-step builder,
    proved equal to the rendering.
  - `Community` models the search filter and the quick-copy XML of `CommunityPage.jsx`.
  - `Mcp` models the MCP server's `readPrompts`, `get_prompt` and `build_prompt`. The query
    reads the prompt tables directly (`QueryRows`), so every stored prompt is listed, private
    ones included.
  - `SavedPrompts` models the client's updates to its saved-prompt list.

Other modelling choices:

- Clocks, random bytes, file contents and environment variables are parameters.
- A string is a sequence of Unicode characters.
- Comparisons under `COLLATE NOCASE` lower-case ASCII letters only, as SQLite does.

## Model

| member | source | states |
|---|---|---|
| KeyProvisioner.LoadEncryptionKey | prompt-builder-app/lib/crypto.js:9-45 | An environment key of length 64 is used as is, whatever its characters, and nothing is written. Otherwise the first valid key line of `.env` is used and nothing is written. Otherwise the fresh key is returned and the generated file text is written. |
| KeyProvisioner.FileKey | prompt-builder-app/lib/crypto.js:16-22 | A key is found iff some line, from its start to its end, is `ENCRYPTION_KEY=` followed by 64 lower-case hex characters. The key found is that hex text on the first such line. |
| KeyProvisioner.FindMatch | prompt-builder-app/lib/crypto.js:18 | The leftmost position at or after `i` where the line pattern matches. None iff it matches nowhere from `i` on. |
| KeyProvisioner.LineEndFrom | prompt-builder-app/lib/crypto.js:75 | The end of the line that holds `j`: a line terminator or the end of the text, with no terminator in between. |
| KeyProvisioner.FileSecret | prompt-builder-app/lib/crypto.js:73-79 | A secret is found iff some line starts with `SESSION_SECRET=` followed by at least one character. The secret found is the trimmed rest of the first such line, up to its end. |
| KeyProvisioner.LoadSessionSecret | prompt-builder-app/lib/crypto.js:68-82 | First match wins: a non-empty environment value, else the trimmed rest of the first secret line of `.env`, else the development default. |
| KeyProvisioner.WithKeyLine | prompt-builder-app/lib/crypto.js:33-35 | The existing text is kept as a prefix. The text is unchanged iff `ENCRYPTION_KEY=` occurs in it; otherwise a newline, the key line and a newline are appended. |
| KeyProvisioner.WithSecretLine | prompt-builder-app/lib/crypto.js:36-38 | The text so far is kept as a prefix. The text is unchanged iff `SESSION_SECRET=` occurs in it; otherwise the secret line and a newline are appended. |
| KeyProvisioner.Startup | prompt-builder-app/lib/crypto.js:47 | Loading the module resolves the key first, and the file may be written. The session secret is then read from the file as it is after that write. |
| KeyProvisioner.ResolutionWrite | prompt-builder-app/lib/crypto.js:24-40 | The file is written iff neither a usable environment key nor a valid key line exists. |
| KeyProvisioner.GeneratedFileEnding | prompt-builder-app/lib/crypto.js:40 | The written text ends with exactly one newline, with no other whitespace before it. |
| KeyProvisioner.GeneratedFileKeepsExisting | prompt-builder-app/lib/crypto.js:29-40 | The trimmed existing content is a prefix of what is written. |
| KeyProvisioner.GeneratedFileNoDuplicates | prompt-builder-app/lib/crypto.js:33-38 | When both names already occur, nothing is appended: the file becomes its trimmed self plus a newline. |
| KeyProvisioner.NoEarlierMatch | prompt-builder-app/lib/crypto.js:18 | No match of a line pattern starts inside a prefix that ends a line and does not contain the name. |
| KeyProvisioner.FirstMatchAt | prompt-builder-app/lib/crypto.js:18 | The search returns `i` when nothing matches before `i` and the pattern matches at `i`. |
| KeyProvisioner.KeyLineMatches | prompt-builder-app/lib/crypto.js:34 | An appended `ENCRYPTION_KEY=` line holding a hex key, between line ends, matches the key pattern and captures the key. |
| KeyProvisioner.ContainsAcrossNewline | prompt-builder-app/lib/crypto.js:33 | Adding a newline creates no occurrence of `ENCRYPTION_KEY=`. |
| KeyProvisioner.TrimAroundLine | prompt-builder-app/lib/crypto.js:40 | Trimming the text around an appended line keeps the line and removes only the whitespace at both ends. |
| KeyProvisioner.TrimAroundLineBlank | prompt-builder-app/lib/crypto.js:40 | For blank existing content, the generated text starts with the appended line. |
| KeyProvisioner.TrimAroundLineText | prompt-builder-app/lib/crypto.js:40 | For other content, the trimmed-start content, a newline and the appended line come first. |
| KeyProvisioner.GeneratedFileSplit | prompt-builder-app/lib/crypto.js:33-40 | When the key name is absent, the written text is a prefix that ends a line and lacks the name, then the key line, then a rest that starts with a newline. |
| KeyProvisioner.KeyAppended | prompt-builder-app/lib/crypto.js:33-40 | When the key name is absent, the written text is the trim of the existing content, a newline, the key line and the rest. |
| KeyProvisioner.KeyLineEnds | prompt-builder-app/lib/crypto.js:34 | The key line starts and ends with a non-whitespace character, so trimming leaves it whole. |
| KeyProvisioner.PrefixWithoutKey | prompt-builder-app/lib/crypto.js:33 | The part kept before the appended key line holds no `ENCRYPTION_KEY=`. |
| KeyProvisioner.GeneratedKeyIsFound | prompt-builder-app/lib/crypto.js:18-21 | After generation into a file without the key name, reading the file finds exactly the new key. |
| KeyProvisioner.KeyFoundAfter | prompt-builder-app/lib/crypto.js:18 | A key line after a line-ending prefix without the name is the first match, and its capture is the key. |
| KeyProvisioner.ResolutionIdempotent | prompt-builder-app/lib/crypto.js:18-21 | After a generating start-up, the next start-up finds the written key and writes nothing. |
| KeyProvisioner.LineEndFromIs | prompt-builder-app/lib/crypto.js:75 | The line end is the first terminator or the end of the text. |
| KeyProvisioner.SecretLineMatches | prompt-builder-app/lib/crypto.js:37 | An appended secret line matches the secret pattern, and its rest of line is the secret. |
| KeyProvisioner.SecretLineEnd | prompt-builder-app/lib/crypto.js:37 | The appended secret line ends right after its 64 hex characters. |
| KeyProvisioner.HexRunEnds | prompt-builder-app/lib/crypto.js:75 | A hex run followed by a newline ends its line there. |
| KeyProvisioner.HexIsTrimmed | prompt-builder-app/lib/crypto.js:77 | Trimming a hex secret leaves it unchanged. |
| KeyProvisioner.SecretFoundAfter | prompt-builder-app/lib/crypto.js:73-78 | A secret line after a line-ending prefix without the name is found, and its value is the secret. |
| KeyProvisioner.FreshDeployment | prompt-builder-app/lib/crypto.js:24-44 | With no environment values and no `.env`, exactly the two lines are written. The key read back is the new key, and the secret read back is the new secret. |
| KeyProvisioner.FreshFileFound | prompt-builder-app/lib/crypto.js:68-78 | The two-line file yields its key and its secret. |
| KeyProvisioner.KeyLineHasNoSecretName | prompt-builder-app/lib/crypto.js:36 | The key line does not contain `SESSION_SECRET=`, so the secret line is still appended after it. |
| KeyProvisioner.FreshFile | prompt-builder-app/lib/crypto.js:27-40 | The text generated from an absent `.env` is the key line, a newline and the secret line, plus the final newline. |
| KeyProvisioner.MalformedKeyNotPersisted | prompt-builder-app/lib/crypto.js:33-44 | A `.env` whose only line is a malformed key line gets only the secret appended, glued onto that same line. The new key is returned but never persisted. The next start-up generates again. Because of the glued line, the secret falls back to the development default. |
| KeyProvisioner.GeneratedKeyNotPersisted | prompt-builder-app/lib/crypto.js:24-44 | When `.env` names `ENCRYPTION_KEY=` but has no valid key line, the text written is the same whatever key is generated. So the returned key is never persisted. |
| KeyProvisioner.IndentedKeyAdopted | prompt-builder-app/lib/crypto.js:18-40 | A `.env` whose only line is a valid key line indented by two spaces has no match, so a fresh key is returned. The written text is trimmed, which moves the old key line to the start, so the next start-up reads the old key. |
| KeyProvisioner.IndentedKeyNames | prompt-builder-app/lib/crypto.js:18-36 | The indented text has no key match, names `ENCRYPTION_KEY=`, and does not name `SESSION_SECRET=`. |
| KeyProvisioner.IndentedKeyWritten | prompt-builder-app/lib/crypto.js:36-40 | For the indented text, only the secret line is appended, and trimming drops the indentation. |
| KeyProvisioner.IndentedKeyFound | prompt-builder-app/lib/crypto.js:18-20 | A text that starts with a valid key line yields that key. |
| KeyProvisioner.NoKeyLineIn | prompt-builder-app/lib/crypto.js:18 | A text shorter than a key line has no key line. |
| KeyProvisioner.GluedFileTrim | prompt-builder-app/lib/crypto.js:40 | The generated text for the malformed file is the glued line followed by a newline. |
| KeyProvisioner.GluedFileNoLines | prompt-builder-app/lib/crypto.js:18 | The glued line is neither a key line nor a secret line. |
| KeyProvisioner.GluedFileOneLine | prompt-builder-app/lib/crypto.js:40 | The glued text is 98 characters long and is one line. |
| KeyProvisioner.OnlyFirstLineMatches | prompt-builder-app/lib/crypto.js:18 | In a one-line text a line pattern can only match at position 0. |
| KeyProvisioner.NameHasNoTerminator | prompt-builder-app/lib/crypto.js:18 | Neither pattern name contains a line terminator. |
| KeyProvisioner.NoMatchNearEnd | prompt-builder-app/lib/crypto.js:18 | A line pattern cannot match closer to the end than the length of its name. |
| Crypto.HexDigit | prompt-builder-app/lib/crypto.js:55 | A value below 16 becomes one lower-case hex digit. |
| Crypto.HexDigitInjective | prompt-builder-app/lib/crypto.js:55 | Different values give different digits. |
| Crypto.ToHex | prompt-builder-app/lib/crypto.js:55 | Two lower-case hex digits per byte. |
| Crypto.ToHexInjective | prompt-builder-app/lib/crypto.js:55 | Different byte strings give different hex strings, so the stored `iv` text determines the IV. |
| Crypto.Encrypt | prompt-builder-app/lib/crypto.js:49-56 | Sealing fails iff the master key text is not 64 hex digits, because `createCipheriv` then throws. When it succeeds, the `iv` column is the 12-byte IV as 24 hex characters; for a sound cipher, decrypting the triple gives the plaintext back, and the tag is 32 hex characters. |
| Crypto.EncryptIvDistinct | prompt-builder-app/lib/crypto.js:50 | Successful encryptions under distinct IVs store distinct `iv` columns. |
| Crypto.HexKeyIsMaster | prompt-builder-app/lib/crypto.js:18-25 | A key read from `.env` or generated (64 lower-case hex characters) is a valid 32-byte master key. |
| Crypto.NonHexEnvKey | prompt-builder-app/lib/crypto.js:11-12 | A 64-character environment key that is not hex passes the length test. With it, nothing can be sealed and nothing opened. |
| Store.UserIndex | prompt-builder-app/lib/db.js:21 | The index of a row with the id. None iff no user has that id. |
| Store.UserIndexUnique | prompt-builder-app/lib/db.js:21 | Ids are unique, so the index found is the only row with that id. |
| Store.KeyIndex | prompt-builder-app/lib/db.js:39 | A row for (user, key name). None only when no row has both. |
| Store.AddUser | prompt-builder-app/lib/db.js:20-28 | Exactly one user is appended, with the next id and both timestamps `now`. The other tables are unchanged. |
| Store.AddPrompt | prompt-builder-app/lib/db.js:42-48 | Exactly one row is appended, with the next id. Users and keys are unchanged. |
| Store.Publish | prompt-builder-app/server.js:234-236 | Same length. Each row owned by the user with the id takes the flag; every other row stays the same. |
| Store.CountOwned | prompt-builder-app/server.js:238 | The change count is zero iff no row has that id and that owner. |
| Store.AddUserConsistent | prompt-builder-app/lib/db.js:20-28 | Adding a user whose username and e-mail address are not taken, ignoring case, keeps every table invariant. |
| Store.AddUserFreshId | prompt-builder-app/lib/db.js:21 | The new id exceeds every id issued before. |
| Store.SetProfileConsistent | prompt-builder-app/lib/db.js:23 | A profile update to an address no other user has keeps every invariant. |
| Store.SetPasswordHashConsistent | prompt-builder-app/lib/db.js:25 | A new password hash keeps every invariant. |
| Store.KeepIds | prompt-builder-app/lib/db.js:20-28 | Replacing the user rows, keeping their ids and the case-insensitive uniqueness, keeps every invariant. |
| Store.UpsertKeyConsistent | prompt-builder-app/lib/db.js:30-40 | The upsert for an existing user keeps one row per (user, key name) and every other invariant. |
| Store.UpsertKeyOneRow | prompt-builder-app/server.js:157-165 | After the upsert, exactly one row exists for (user, key name), and it holds the new sealed triple. |
| Store.RemoveKeyOnly | prompt-builder-app/server.js:171-173 | A row survives the delete iff it belongs to another user or has another key name. |
| Store.RemoveKeyConsistent | prompt-builder-app/lib/db.js:30-40 | Deleting a key keeps every invariant. |
| Store.FilterKeysValid | prompt-builder-app/lib/db.js:30-40 | Removing any key rows keeps the key-table invariant. |
| Store.FilterPromptsValid | prompt-builder-app/lib/db.js:42-48 | Removing any prompt rows keeps the prompt-table invariant. |
| Store.AddPromptConsistent | prompt-builder-app/lib/db.js:42-48 | The insert for an existing owner keeps every invariant. A public row is possible only once the column exists. |
| Store.SetVisibilityConsistent | prompt-builder-app/lib/db.js:55-59 | The visibility update keeps every invariant once the column exists. |
| Store.RemovePromptConsistent | prompt-builder-app/lib/db.js:42-48 | Deleting prompts keeps every invariant. |
| Store.SetVisibilityOnlyOwned | prompt-builder-app/server.js:234-236 | Only the flag of the owned row with the id changes; every other column and every other row stays. |
| Store.RemoveUserCascade | prompt-builder-app/lib/db.js:30-48 | Deleting a user removes that user, all of that user's key rows and all of that user's prompts, and nothing else. |
| Store.RemoveUserConsistent | prompt-builder-app/lib/db.js:30-48 | The cascade keeps every invariant, foreign keys included. |
| Store.RemoveUserUsers | prompt-builder-app/lib/db.js:20-28 | The remaining users keep the user invariant. |
| Store.RemoveUserKeys | prompt-builder-app/lib/db.js:32 | The remaining key rows belong to remaining users. |
| Store.RemoveUserPrompts | prompt-builder-app/lib/db.js:44 | The remaining prompts belong to remaining users. |
| Store.KeptOwner | prompt-builder-app/lib/db.js:32 | Deleting one user keeps every other user. |
| Store.Db.constructor | prompt-builder-app/lib/db.js:19-52 | A new database file has the three tables, empty, and no `is_public` column yet. |
| Store.Db.AddIsPublicColumn | prompt-builder-app/lib/db.js:55-59 | The statement fails iff the column already exists, and the failure is ignored. Afterwards the column exists and nothing else has changed. Rows already stored are private. |
| Store.Db.InsertUser | prompt-builder-app/lib/db.js:22-23 | The insert fails iff the username or the e-mail address is taken, ignoring case. It then changes nothing. Otherwise it adds the user with id last+1. |
| Store.Db.UpdateProfile | prompt-builder-app/lib/db.js:23 | Succeeds iff no other user has the address. Then only that update happens; otherwise nothing changes. |
| Store.Db.UpdatePasswordHash | prompt-builder-app/server.js:107-109 | The state becomes the password-hash update. |
| Store.Db.UpsertApiKey | prompt-builder-app/server.js:157-165 | Succeeds iff the user exists (foreign key); then the state is the upsert, otherwise it is unchanged. |
| Store.Db.DeleteApiKey | prompt-builder-app/server.js:171-173 | The state becomes the key delete. |
| Store.Db.InsertPrompt | prompt-builder-app/lib/db.js:42-48 | Fails iff the owner is missing, or the statement names `is_public` before that column exists; then nothing changes. Otherwise the row is added with the next id, and `is_public` defaults to 0. |
| Store.Db.SetPromptVisibility | prompt-builder-app/server.js:234-238 | Returns the number of owned rows with the id. The state becomes the visibility update. |
| Store.Db.DeletePrompt | prompt-builder-app/server.js:246-248 | The state becomes the owned-row delete. |
| Store.Db.DeleteUser | prompt-builder-app/lib/db.js:30-48 | The state becomes the cascade delete. |
| AuthRoutes.RegisterError | prompt-builder-app/lib/auth-routes.js:13-36 | No error iff all four fields are present, the username is 3-30 name characters, the e-mail has the simplified shape, the password has at least 8 characters, and neither the username nor the e-mail is taken (ignoring case). A 409 comes exactly from a taken name or address after all the 400 checks pass. |
| AuthRoutes.MissingFieldFirst | prompt-builder-app/lib/auth-routes.js:13-15 | A missing username or password gets the first message, whatever else is wrong. |
| AuthRoutes.Register | prompt-builder-app/lib/auth-routes.js:8-57 | A refused request answers with its error, leaving the tables and the session unchanged. An accepted one adds exactly one user that stores the bcrypt hash at cost 12, not the password. It sets the session to the new id and answers 201 with the public fields only. |
| AuthRoutes.RegisterWellFormed | prompt-builder-app/lib/auth-routes.js:16-24 | Every stored user has a valid username and e-mail address. |
| AuthRoutes.LoginMatch | prompt-builder-app/lib/auth-routes.js:69-71 | A found row has the login string as its username or e-mail, ignoring case. None iff no row has it. |
| AuthRoutes.LoginMatchUnique | prompt-builder-app/lib/db.js:22-23 | In a consistent table at most one user matches a login string. A username can never equal an e-mail address. |
| AuthRoutes.LoginTarget | prompt-builder-app/lib/auth-routes.js:69-75 | A logged-in user is a stored user whose username or e-mail matches and whose hash accepts the password. |
| AuthRoutes.LoginTargetComplete | prompt-builder-app/lib/auth-routes.js:69-75 | In a consistent user table, a user whose username or e-mail matches, and whose hash accepts the password, is the user logged in. |
| AuthRoutes.Login | prompt-builder-app/lib/auth-routes.js:60-90 | A missing field gives 400. An unknown login and a wrong password both give the same 401 and leave the session as it was. A success sets the session to the user's id and returns the public fields. |
| AuthRoutes.RegisteredCanLogin | prompt-builder-app/lib/auth-routes.js:39-85 | Right after registering, logging in with the same username and password selects the new user. |
| AuthRoutes.LoginMatchLast | prompt-builder-app/lib/auth-routes.js:69-71 | When only the last row matches, the lookup finds it. |
| AuthRoutes.Logout | prompt-builder-app/lib/auth-routes.js:93-101 | The session is destroyed and "Logged out" is answered. When the session store fails, the answer is 500. |
| AuthRoutes.MeResponse | prompt-builder-app/lib/auth-routes.js:104-122 | No session gives 401 "Not authenticated". A session whose user is gone gives 401 "User not found". Otherwise the answer is that user's public fields. |
| AuthRoutes.Me | prompt-builder-app/lib/auth-routes.js:104-122 | The answer is the `/me` response for the session and the current users. |
| AuthRoutes.LogoutThenMe | prompt-builder-app/lib/auth-routes.js:93-106 | POST /logout on a session, then GET /me on the same session: the logout answers "Logged out" and `/me` answers 401. |
| AuthRoutes.RegisterThenMe | prompt-builder-app/lib/auth-routes.js:44-52 | After registering, `/me` answers with the new user's public fields. |
| ServerRoutes.ProfileError | prompt-builder-app/server.js:69-83 | No error iff both fields are present, the e-mail has the simplified shape, and no other user has it; the 409 is exactly the taken-address case. |
| ServerRoutes.PutProfile | prompt-builder-app/server.js:68-90 | No session gives 401 and no change. A refused request changes nothing. Otherwise only the session user's display name, e-mail and `updated_at` change. |
| ServerRoutes.SetProfileOnlyOwnRow | prompt-builder-app/server.js:85-87 | Only the row with the session id changes. The other users, the keys and the prompts stay the same. |
| ServerRoutes.ProfileWellFormed | prompt-builder-app/server.js:73-75 | The updated address keeps every stored address well-shaped. |
| ServerRoutes.PutPassword | prompt-builder-app/server.js:92-112 | The answers, in order: 401 without a session; 400 for a missing field; 400 for a new password under 8 characters; 500 when the user row is gone; 401 when the current password does not match. None of these changes anything. Otherwise only the user's hash is replaced by the bcrypt hash of the new password. |
| ServerRoutes.NewPasswordVerifies | prompt-builder-app/server.js:106-109 | After the change the new password matches the stored hash. Every other user row is unchanged. |
| ServerRoutes.Preview | prompt-builder-app/server.js:122-132 | The preview is `****` unless the key decrypts to more than 11 characters. It is then 14 characters with `...` in the middle. |
| ServerRoutes.PreviewShowsOnlyEnds | prompt-builder-app/server.js:129-131 | Two long keys with the same first 7 and last 4 characters have the same preview. |
| ServerRoutes.PreviewOfLongKey | prompt-builder-app/server.js:129-131 | The preview is the key's first 7 characters, then `...`, then its last 4. |
| ServerRoutes.PreviewHidesKey | prompt-builder-app/server.js:122-132 | A key whose length is neither 4 nor 14 is never shown whole. |
| ServerRoutes.KeyEntries | prompt-builder-app/server.js:122-139 | One entry per listed row, in order. Each entry re-reads its row by (user, key name). |
| ServerRoutes.KeysResponse | prompt-builder-app/server.js:116-142 | 401 without a session. Otherwise 200 with exactly one entry per key row of the session user. |
| ServerRoutes.KeyIndexUnique | prompt-builder-app/lib/db.js:39 | The lookup by (user, key name) of a stored row finds that row. |
| ServerRoutes.KeyEntryOwnRow | prompt-builder-app/server.js:125-137 | Each entry shows its row's name, the preview of that row's decrypted key, and `updated_at`. |
| ServerRoutes.KeyError | prompt-builder-app/server.js:148-153 | No error iff the key is present and the name is a non-empty run of name characters. Otherwise 400. |
| ServerRoutes.PutApiKey | prompt-builder-app/server.js:144-168 | 401 without a session. 400 for a missing key or a bad name. 500 when the master key is not 32 bytes, since sealing throws, and 500 when the user row is gone. None of these changes anything. Otherwise the upsert stores the key encrypted under a fresh IV and answers "API key saved". |
| ServerRoutes.KeyRowListed | prompt-builder-app/server.js:116-142 | Every key row of a user appears in that user's list with its preview. |
| ServerRoutes.SavedKeyListed | prompt-builder-app/server.js:144-168 | After saving a key, the list shows its name with the preview of the key itself. |
| ServerRoutes.DeleteApiKeyRoute | prompt-builder-app/server.js:170-175 | 401 without a session and no change. Otherwise only the session user's row of that name goes, and `{ ok: true }` is answered either way. |
| ServerRoutes.InsertNewest | prompt-builder-app/server.js:181 | Insertion into the newest-first order keeps every row, as a multiset. |
| ServerRoutes.ConsNewest | prompt-builder-app/server.js:181 | A row at least as new as all the others can head the newest-first list. |
| ServerRoutes.InsertNotNewer | prompt-builder-app/server.js:181 | Insertion adds no row newer than the bound. |
| ServerRoutes.InsertNewestSorted | prompt-builder-app/server.js:181 | Insertion keeps a list newest first. |
| ServerRoutes.SortNewest | prompt-builder-app/server.js:181 | The result is newest first by `created_at` and is a permutation of the input. |
| ServerRoutes.AllAsSaved | prompt-builder-app/server.js:184-190 | One entry per row, in order, with the row's columns and the flag as a boolean. |
| ServerRoutes.PromptsResponse | prompt-builder-app/server.js:179-191 | 401 without a session. Otherwise 200 with the user's own rows, newest first. |
| ServerRoutes.OwnPromptsExact | prompt-builder-app/server.js:180-182 | The list is newest first and holds exactly the user's rows, each as many times as it is stored. |
| ServerRoutes.Join | prompt-builder-app/server.js:195-200 | When every row has its user, there is one entry per row, in order, carrying the author's display name and username. |
| ServerRoutes.PublicRows | prompt-builder-app/server.js:198-199 | The sorted rows are exactly the public rows. |
| ServerRoutes.RowsHaveUsers | prompt-builder-app/server.js:197 | In a consistent database every selected row has its author, so the join drops none. |
| ServerRoutes.PublicEntriesExact | prompt-builder-app/server.js:194-209 | The public list is newest first. Every public prompt appears with its author, and every entry is a public prompt with its author. |
| ServerRoutes.PostPrompt | prompt-builder-app/server.js:211-228 | 401 without a session. 400 for a missing description or form. 500 when the user row is gone. None of these changes anything. Otherwise one row is stored, with the description cut to 40 characters and `is_public` equal to the truth of the flag. The answer carries the new id and the process clock's time. |
| ServerRoutes.CreatedRow | prompt-builder-app/server.js:217-219 | The created row is in its owner's list. Its description is a prefix of at most 40 characters, and its flag is the request's. |
| ServerRoutes.PublishNothing | prompt-builder-app/server.js:234-236 | When no row is owned with the id, the update changes nothing. |
| ServerRoutes.PutVisibility | prompt-builder-app/server.js:230-242 | 401 without a session. 404 with no change when no row with the id is the user's. Otherwise only those rows take the flag, and the answer echoes it. |
| ServerRoutes.DeletePromptRoute | prompt-builder-app/server.js:244-250 | 401 without a session. Otherwise only the user's row with the id goes, and `{ ok: true }` is answered either way. |
| ServerRoutes.RemovePromptOnly | prompt-builder-app/server.js:246-248 | A row survives iff it is not the user's row with the id. |
| ServerRoutes.ClaudeStep | prompt-builder-app/server.js:254-288 | 401 without a session. 400 for a missing prompt. 400 when the user has no `anthropic` key row. 500 exactly when that row does not decrypt. Otherwise the request goes out with the decrypted key, the prompt, 4096 tokens, and the given model or the default. |
| ServerRoutes.SavedKeyForwarded | prompt-builder-app/server.js:261-281 | After saving an `anthropic` key, the proxy sends exactly that key. |
| ServerRoutes.BadMasterKeyRefused | prompt-builder-app/server.js:261-274 | With a master key that is not 32 bytes, every listed key stays `****`. The proxy refuses either for want of a key row or with the decryption error. |
| ServerRoutes.DeletedKeyRefused | prompt-builder-app/server.js:261-267 | After deleting the `anthropic` key, the proxy refuses with the no-key message. |
| Migrate.MigrateJsonPrompts | prompt-builder-app/lib/migrate.js:5-47 | The tables, the disk and whether the call throws are those of the specification of the guard chain. An unbindable element rolls back every insert already made. |
| Migrate.ImportAll | prompt-builder-app/lib/migrate.js:33-43 | The loop succeeds iff every element can be bound. On success, the result is the inserts applied one after the other, in record order. |
| Migrate.ImportedRows | prompt-builder-app/lib/migrate.js:29-43 | Inserting into the empty table gives exactly the records' rows, with consecutive ids after the last id issued. |
| Migrate.ImportRows | prompt-builder-app/lib/migrate.js:34-41 | There is one row per record. |
| Migrate.ImportRowsAt | prompt-builder-app/lib/migrate.js:35-40 | The `i`-th row is the `i`-th record's, with the `i`-th id and the defaults. |
| Migrate.NoopCases | prompt-builder-app/lib/migrate.js:7-27 | Each of these leaves the tables and the file as they were: no file, a non-empty table, an unreadable file, a non-array, an empty array, or no user. |
| Migrate.UnbindableRollsBack | prompt-builder-app/lib/migrate.js:33-45 | When the guards pass but one element cannot be bound, the call throws. The tables and the file stay as they were, and no rename happens. |
| Migrate.ImportedStep | prompt-builder-app/lib/migrate.js:34-41 | One more bindable record is one more insert. |
| Migrate.ImportResult | prompt-builder-app/lib/migrate.js:23-45 | The file is renamed. Users and keys are unchanged. There is one row per record, in order, owned by the user with the lowest id, with the defaults and with ids above every id issued before. |
| Migrate.SecondCallNoop | prompt-builder-app/lib/migrate.js:7-45 | After a call that returns, a second call changes nothing. After a call that throws, a second call on what it left throws the same way. |
| Migrate.RetryAfterFirstUser | prompt-builder-app/lib/migrate.js:23-27 | Without users the file stays. Once a user registers, the next start-up imports every record, when every element can be bound. |
| PromptXml.Stored | prompt-builder-app/src/App.jsx:210 | A web form stored as form data (every field present) reads back as the same form. |
| PromptXml.Child | prompt-builder-app/src/App.jsx:133 | A child element is present iff its trimmed field is non-empty, and it holds the trimmed text. |
| PromptXml.IfSet | prompt-builder-app/src/App.jsx:114 | At most one section. |
| PromptXml.GuidePart | prompt-builder-app/src/App.jsx:94-102 | `<instructions>` is there iff the guide switch is on. |
| PromptXml.ThinkingPart | prompt-builder-app/src/App.jsx:104-112 | `<thinking>` is there iff the thinking switch is on. |
| PromptXml.TaskPart | prompt-builder-app/src/App.jsx:114-116 | `<task>` is there iff the trimmed task is non-empty, and it holds that text. |
| PromptXml.ContextPart | prompt-builder-app/src/App.jsx:118-120 | The same for `<context>`. |
| PromptXml.AudiencePart | prompt-builder-app/src/App.jsx:122-124 | The same for `<audience>`. |
| PromptXml.TonePart | prompt-builder-app/src/App.jsx:126-128 | The same for `<tone>`. |
| PromptXml.FormatPart | prompt-builder-app/src/App.jsx:130-137 | `<format>` is there iff one of its three children is non-blank, with exactly the non-blank children. |
| PromptXml.ExamplesPart | prompt-builder-app/src/App.jsx:139-149 | The same for `<examples>` and its two children. |
| PromptXml.ConstraintsPart | prompt-builder-app/src/App.jsx:151-158 | The same for `<constraints>` and its three children. |
| PromptXml.InputPart | prompt-builder-app/src/App.jsx:160-162 | `<input_data>` is there iff the trimmed input is non-empty. |
| PromptXml.VerificationPart | prompt-builder-app/src/App.jsx:164-181 | `<verification>` is there iff either check switch is on, with the switched-on checks. |
| PromptXml.AppendChild | prompt-builder-app/src/App.jsx:133 | Accumulating only extends the text. |
| PromptXml.AppendIf | prompt-builder-app/src/App.jsx:166 | Accumulating only extends the text. |
| PromptXml.AppendSection | prompt-builder-app/src/App.jsx:114-181 | Accumulating only extends the text. |
| PromptXml.OpenedExtend | prompt-builder-app/src/App.jsx:92-181 | Rendering a list plus one section extends the rendering of the list. |
| PromptXml.DocumentOpened | prompt-builder-app/src/App.jsx:92-181 | The document is rendered one section group after another, in the fixed order. |
| PromptXml.GenerateXml | prompt-builder-app/src/App.jsx:91-185 | The accumulated text equals the rendering of the form's section list. |
| PromptXml.EmitGuide | prompt-builder-app/src/App.jsx:94-102 | This step adds exactly the rendering of its section, if present. |
| PromptXml.EmitThinking | prompt-builder-app/src/App.jsx:104-112 | As above. |
| PromptXml.EmitTask | prompt-builder-app/src/App.jsx:114-116 | As above. |
| PromptXml.EmitContext | prompt-builder-app/src/App.jsx:118-120 | As above. |
| PromptXml.EmitAudience | prompt-builder-app/src/App.jsx:122-124 | As above. |
| PromptXml.EmitTone | prompt-builder-app/src/App.jsx:126-128 | As above. |
| PromptXml.EmitFormat | prompt-builder-app/src/App.jsx:130-137 | As above, with each child line only for its non-blank field. |
| PromptXml.EmitExamples | prompt-builder-app/src/App.jsx:139-149 | As above. |
| PromptXml.EmitConstraints | prompt-builder-app/src/App.jsx:151-158 | As above. |
| PromptXml.EmitInput | prompt-builder-app/src/App.jsx:160-162 | As above. |
| PromptXml.EmitVerification | prompt-builder-app/src/App.jsx:164-181 | As above. |
| PromptXml.DocumentContents | prompt-builder-app/src/App.jsx:94-181 | A section is in the document iff its switch is on or its trimmed fields are non-empty, and it then holds those trimmed texts. |
| PromptXml.RankedAppend | prompt-builder-app/src/App.jsx:94-181 | Appending a section of the next rank keeps the order. |
| PromptXml.RankedFields | prompt-builder-app/src/App.jsx:94-120 | The first four groups are in order. |
| PromptXml.RankedMiddle | prompt-builder-app/src/App.jsx:94-137 | The first seven groups are in order. |
| PromptXml.RankedLate | prompt-builder-app/src/App.jsx:94-158 | The first nine groups are in order. |
| PromptXml.DocumentRanked | prompt-builder-app/src/App.jsx:94-181 | The order is instructions, thinking, task, context, audience, tone, format, examples, constraints, input_data, verification. |
| PromptXml.OpenedStarts | prompt-builder-app/src/App.jsx:92 | Every rendering starts with `<prompt>` and a newline. |
| PromptXml.RenderFramed | prompt-builder-app/src/App.jsx:92-183 | Every output starts with `<prompt>` and a newline and ends with `</prompt>`. |
| PromptXml.EmptyFormRender | prompt-builder-app/src/App.jsx:92-183 | The empty form gives exactly `<prompt>`, a newline and `</prompt>`. |
| PromptXml.HasContentIff | prompt-builder-app/src/App.jsx:293 | `hasContent` holds iff the document has a task or context section. |
| PromptXml.OpenedAgree | prompt-builder-app/mcp-server.js:25-79 | Without a checked verification section, the two wordings render the same text. |
| PromptXml.SectionLonger | prompt-builder-app/mcp-server.js:81-96 | The web wording of a section is never shorter than the MCP wording, and strictly longer for a checked verification section. |
| PromptXml.OpenedLonger | prompt-builder-app/mcp-server.js:81-96 | The web rendering is at least as long, and longer whenever a check is present. |
| PromptXml.RenderAgreeIff | prompt-builder-app/mcp-server.js:81-96 | The two renderings of a section list are equal iff no section is a checked verification. |
| PromptXml.WebAndMcpAgreeIff | prompt-builder-app/mcp-server.js:25-100 | The web builder and the MCP server produce the same XML for a form iff both check switches are off. |
| Community.Filtered | prompt-builder-app/src/components/CommunityPage.jsx:19-25 | A blank search returns the list unchanged. Otherwise a prompt is kept iff its description, its task or its author name contains the search, ignoring case. |
| Community.FilteredConcat | prompt-builder-app/src/components/CommunityPage.jsx:20-24 | Filtering keeps the order: filtering a concatenation concatenates the filtered parts. |
| Community.FilteredAllMatch | prompt-builder-app/src/components/CommunityPage.jsx:20-24 | When every prompt matches, the whole list is returned. |
| Community.SearchNotTrimmed | prompt-builder-app/src/components/CommunityPage.jsx:21 | The search itself is not trimmed, so a trailing space can exclude a prompt. |
| Community.QuickForm | prompt-builder-app/src/components/CommunityPage.jsx:34-40 | The quick-copy form keeps task, context, audience and tone. |
| Community.QuickIsDocument | prompt-builder-app/src/components/CommunityPage.jsx:35-40 | The quick-copy sections are the builder document of a form with only those four fields. |
| Community.QuickContents | prompt-builder-app/src/components/CommunityPage.jsx:36-39 | Only task, context, audience and tone appear, each iff it is non-blank. |
| Community.QuickRanked | prompt-builder-app/src/components/CommunityPage.jsx:36-39 | They appear in that order. |
| Community.QuickCopyXml | prompt-builder-app/src/components/CommunityPage.jsx:32-44 | The copied text is the rendering of those sections inside the prompt frame. |
| Community.QuickOpened | prompt-builder-app/src/components/CommunityPage.jsx:35-39 | The text is accumulated one element after another. |
| Mcp.Convert | prompt-builder-app/mcp-server.js:13-19 | One prompt per row, in order. |
| Mcp.ReadPrompts | prompt-builder-app/mcp-server.js:8-23 | A failed query, or any row whose form does not parse, gives the empty list. Otherwise every row is converted, in order. |
| Mcp.ReadPromptsNewestFirst | prompt-builder-app/mcp-server.js:10-12 | Reading the query over the tables lists the prompts newest first. |
| Mcp.ReadPromptsListsAll | prompt-builder-app/mcp-server.js:10-19 | Reading the query over the tables lists every stored prompt whose owner exists, private or public, with its owner's display name. Nothing else is listed. |
| Mcp.Queried | prompt-builder-app/mcp-server.js:11 | The query keeps exactly the prompt rows whose owner exists. |
| Mcp.QueryRows | prompt-builder-app/mcp-server.js:11-18 | Every form stored by the routes parses. |
| Mcp.OwnedRows | prompt-builder-app/mcp-server.js:13-19 | One row per prompt row, in order, with the owner's display name. |
| Mcp.OneBadRowHidesAll | prompt-builder-app/mcp-server.js:16-21 | One unparsable row empties the whole list. |
| Mcp.FindId | prompt-builder-app/mcp-server.js:127 | The first prompt whose decimal id equals the query. None iff there is none. |
| Mcp.FindDescription | prompt-builder-app/mcp-server.js:129-130 | The first prompt whose lower-cased description contains the lower-cased query. None iff there is none. |
| Mcp.FindPrompt | prompt-builder-app/mcp-server.js:126-131 | A found prompt is one of the list's. |
| Mcp.IdMatchWins | prompt-builder-app/mcp-server.js:127-128 | If some id matches, the lookup returns an id match. |
| Mcp.DescriptionFallback | prompt-builder-app/mcp-server.js:128-131 | With no id match, the first description match in list order is returned. |
| Mcp.NoMatchNotFound | prompt-builder-app/mcp-server.js:132-134 | Nothing is found iff no prompt matches by id or by description. |
| Mcp.RepliesDiffer | prompt-builder-app/mcp-server.js:132-136 | The not-found reply differs from every found reply. |
| Mcp.GetPrompt | prompt-builder-app/mcp-server.js:121-138 | With no match, the reply is the not-found text and no XML is built. Otherwise the reply is the description, then the MCP rendering of the form. |
| Mcp.ArgsData | prompt-builder-app/mcp-server.js:143-158 | The arguments become form data with the task given and no examples or input data. |
| Mcp.BuildPrompt | prompt-builder-app/mcp-server.js:159-161 | The output is the MCP `generateXML` of the arguments. |
| Mcp.BuiltHasNoExamplesOrInput | prompt-builder-app/mcp-server.js:143-158 | A built prompt never holds `<examples>` or `<input_data>`: the tool accepts no such arguments. |
| SavedPrompts.SaveDescription | prompt-builder-app/src/App.jsx:205-210 | No save for a blank description. Otherwise the description is a prefix of the trimmed text, is at most 40 characters long, and is the whole trimmed text when that fits. |
| SavedPrompts.SaveDescriptionStartsWithText | prompt-builder-app/src/App.jsx:210 | The saved description never starts with whitespace. |
| SavedPrompts.ServerCutIsIdentity | prompt-builder-app/server.js:219 | The server's own 40-character cut leaves the client's description unchanged. |
| SavedPrompts.AfterSave | prompt-builder-app/src/App.jsx:213-215 | A successful save puts the new prompt at the head of the list. A failed save leaves the list as it was. |
| SavedPrompts.Toggled | prompt-builder-app/src/App.jsx:231 | Same length. The entries with the id take the flag, and the others are unchanged. |
| SavedPrompts.ToggledOnlyFlag | prompt-builder-app/src/App.jsx:231 | Only the `isPublic` field changes. |
| SavedPrompts.ToggledIdempotent | prompt-builder-app/src/App.jsx:231 | Setting the same flag twice is the same as setting it once. |
| SavedPrompts.ToggledBack | prompt-builder-app/src/App.jsx:222-231 | Toggling on and then back restores the list. |
| SavedPrompts.Deleted | prompt-builder-app/src/App.jsx:242 | An entry remains iff it was there and has another id. |
| SavedPrompts.DeletedConcat | prompt-builder-app/src/App.jsx:242 | Deleting keeps the order of the remaining entries. |
| SavedPrompts.DeletedAbsent | prompt-builder-app/src/App.jsx:242 | Deleting an absent id changes nothing. |
| SavedPrompts.DeleteUndoesSave | prompt-builder-app/src/App.jsx:214-242 | Deleting a just-saved prompt restores the list. |
| Validation.EmailHasOneAt | prompt-builder-app/lib/auth-routes.js:22 | An address of the accepted shape has exactly one `@`. |
| Validation.NameIsNotEmail | prompt-builder-app/lib/auth-routes.js:19-24 | A valid username never equals a valid address, ignoring case. |
| Validation.NameHasNoAt | prompt-builder-app/lib/auth-routes.js:19 | A valid name has no `@`. |
| Text.TrimEmptyIff | prompt-builder-app/src/App.jsx:114 | A trimmed field is empty iff the field is all whitespace. |
| Text.TrimIdempotent | prompt-builder-app/src/App.jsx:115 | Trimming twice is trimming once. |
| Text.TrimEnds | prompt-builder-app/src/App.jsx:115 | A trimmed text neither starts nor ends with whitespace. |
| Text.Lower | prompt-builder-app/src/components/CommunityPage.jsx:21 | Same length. Each ASCII capital becomes lower case, and every other character stays. |
| Text.SameNoCaseIsEquivalence | prompt-builder-app/lib/db.js:22 | Equality ignoring case is an equivalence. |
| Text.Take | prompt-builder-app/server.js:219 | The first `n` characters, or the whole text when it is shorter. |
| Text.NatToString | prompt-builder-app/mcp-server.js:127 | Decimal digits without leading zeros. |
| Text.NatToStringRoundTrip | prompt-builder-app/mcp-server.js:127 | Reading back the digits gives the number. |
| Text.NatToStringInjective | prompt-builder-app/mcp-server.js:127 | Distinct ids print differently, so at most one id matches a query. |
| Text.StrLeTotal | prompt-builder-app/server.js:181 | The text order used for `created_at` is total. |
| Text.StrLeTransitive | prompt-builder-app/server.js:181 | That order is transitive. |
| Seqs.Filter | prompt-builder-app/server.js:180-182 | The kept elements are exactly those satisfying the condition. |
| Seqs.FilterConcat | prompt-builder-app/server.js:180-182 | Filtering keeps order. |

## Left out

- Strings are sequences of Unicode scalar values, not UTF-16 code units. Lengths (username 3-30, password 8, the 40-character cut, the 11-character preview threshold and the 7 + 4 slice) count characters. They differ from the source only for text outside the Basic Multilingual Plane.
- `COLLATE NOCASE` and `toLowerCase` are modelled as ASCII lower-casing. SQLite's NOCASE is exactly that; JavaScript's `toLowerCase` also folds non-ASCII letters, which the community filter and the MCP lookup then do not.
- `JSON.stringify`/`JSON.parse` of `form_data` are an identity on a `FormData` value. An unparsable stored text is an absent value (`Mcp.Row.formData`), and a legacy file is given by what reading and parsing it yields (`Migrate.Parsed`).
- The SQL engine is not modelled. Each statement is a function of the tables. A query's row order is table (row id) order, and `ORDER BY created_at DESC` is a stable sort of it. SQLite leaves the order of equal `created_at` values unspecified.
- ServerRoutes.KeysResponse: states the list length, and the per-entry contents through KeyEntries, KeyEntryOwnRow and KeyRowListed. It assumes no concurrent write between the list query and the per-row re-read.
- AES-256-GCM, bcrypt and the random source are foreign. The cipher and the hasher are pairs of functions supplied by the caller. The facts used are the predicates `Crypto.Sound` (decrypting a sealed triple gives the plaintext) and `Crypto.Verifies` (a hash accepts its password), required where used. IVs and salts are parameters, so IV freshness is the caller's choice of distinct values (`Crypto.EncryptIvDistinct`).
- The clocks (`datetime('now')` and `new Date()`) are parameters. POST /api/prompts answers with the process clock, while the row stores the database clock. The model keeps the two apart (`now`, `clock`). The legacy import uses one instant for the whole import (`Migrate.MigrateSpec`'s `now`). The source reads the clock once per record without a `createdAt`, so those stamps, and their newest-first order, may differ.
- The Anthropic HTTP call in `/api/claude` is left out, and so is the upstream error relay: the model stops at the request it would send (`ServerRoutes.ClaudeStep`). `/api/cli` (a child process), `list_prompts`' date formatting, static files, CORS, the body parser and the session store's cookie handling are I/O and are left out.
- KeyProvisioner.LoadEncryptionKey, KeyProvisioner.Startup, Migrate.MigrateJsonPrompts: read, write and rename errors of the file system are not modelled. `.env` is read as given and written without failure. In the source, an unreadable `.env` or a read-only directory throws at module load and stops start-up. The legacy file's rename is also taken to succeed. In the source, a failing `renameSync` throws after the transaction has committed, so the rows stay, the file stays in place, and later start-ups return at the row-count guard.
- Concurrency is left out. Two registrations of the same name racing between the uniqueness check and the insert would be caught by the UNIQUE constraint and answered 500. The sequential model cannot reach the 500 `catch` paths of register and login.
- ServerRoutes.PostPrompt, ServerRoutes.PutVisibility: require the `is_public` column. `lib/db.js` adds that column at load time, before any route runs (`Store.Db.AddIsPublicColumn`).
- ServerRoutes.PutVisibility, ServerRoutes.DeletePromptRoute: take the path id as a natural number, or None when `Number` gives anything else. A non-natural value matches no row, so it is modelled by None.
- A description that is not a string (the source applies `String(...)`) is not modelled: request fields are optional strings. In the legacy import, a number description or creation time is not modelled either. An element that cannot be bound is `Migrate.Unbindable`.
- The web `generateXML` throws on a form with an absent text field, and loading a saved prompt with one into the builder would do so. The model renders complete forms (`PromptXml.Form`) only; the MCP version, which skips absent fields, is modelled on `FormData`.
- Crypto.Sound: holds for valid master keys only, and takes the key text as given. Two hex texts that differ only in letter case decode to the same bytes; the model does not identify them.
- KeyProvisioner.IndentedKeyAdopted: the `.env` text is one fixed example (one indented key line). The general fact is GeneratedKeyNotPersisted.
- No route deletes a user. `Store.Db.DeleteUser` models the schema's cascade only.
- The React state updates besides the saved list (dialogs, flags, drafts in `localStorage`), the fetch-only components and `src/analytics.js` are UI and are left out.
