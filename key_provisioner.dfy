/** lib/crypto.js: resolution of the master encryption key and the session secret from the
    environment, the `.env` file or fresh random values, and the AES-256-GCM sealing of API keys.
    The file system and the random source are parameters: a file is its contents (`None` when it
    does not exist), a write is returned to the caller. */
module KeyProvisioner {
  import opened Wrappers
  import opened Text

  const KeyAssign := "ENCRYPTION_KEY="
  const SecretAssign := "SESSION_SECRET="
  const DevSecret := "dev-secret-change-in-production"

  predicate IsLowerHexChar(c: char) { '0' <= c <= '9' || 'a' <= c <= 'f' }

  predicate IsLowerHex(s: string) { forall i :: 0 <= i < |s| ==> IsLowerHexChar(s[i]) }

  /** A 32-byte key written as `[a-f0-9]{64}`. */
  predicate IsHexKey(s: string) { |s| == 64 && IsLowerHex(s) }

  // ---------------------------------------------------------------------------------
  // Line patterns of the `.env` file, read with the `m` flag: `^` matches at the start of
  // the text or after a line terminator, `$` at the end or before one, `.` matches anything
  // but a line terminator.

  predicate LineStartAt(s: string, i: int) {
    i == 0 || (0 < i <= |s| && IsLineTerminator(s[i - 1]))
  }

  predicate LineEndAt(s: string, j: int) {
    j == |s| || (0 <= j < |s| && IsLineTerminator(s[j]))
  }

  datatype Pattern =
    | KeyLine     // /^ENCRYPTION_KEY=([a-f0-9]{64})$/m
    | SecretLine  // /^SESSION_SECRET=(.+)$/m

  function Name(p: Pattern): string {
    match p
    case KeyLine => KeyAssign
    case SecretLine => SecretAssign
  }

  /** Does the pattern match at position `i` of `s`? */
  predicate MatchAt(p: Pattern, s: string, i: int) {
    0 <= i && i + 15 <= |s| && LineStartAt(s, i) && s[i..i + 15] == Name(p) && TailAt(p, s, i)
  }

  /** What follows the name in a match at `i`. */
  predicate TailAt(p: Pattern, s: string, i: int)
    requires 0 <= i && i + 15 <= |s|
  {
    match p
    case KeyLine => i + 79 <= |s| && IsLowerHex(s[i + 15..i + 79]) && LineEndAt(s, i + 79)
    case SecretLine => i + 15 < |s| && !IsLineTerminator(s[i + 15])
  }

  /** `i` is the first position at which the pattern matches. */
  predicate FirstMatch(p: Pattern, s: string, i: int) {
    MatchAt(p, s, i) && forall j :: 0 <= j < i ==> !MatchAt(p, s, j)
  }

  /** Leftmost match at or after `i`, as the regular-expression search finds it. */
  function FindMatch(p: Pattern, s: string, i: nat): (r: Option<nat>)
    ensures r.Some? ==> i <= r.value && MatchAt(p, s, r.value)
    ensures r.Some? ==> forall j :: i <= j < r.value ==> !MatchAt(p, s, j)
    ensures r.None? ==> forall j :: i <= j ==> !MatchAt(p, s, j)
    decreases |s| - i
  {
    if i + 15 > |s| then NoMatchNearEnd(p, s, i); None
    else if MatchAt(p, s, i) then Some(i)
    else FindMatch(p, s, i + 1)
  }

  lemma NoMatchNearEnd(p: Pattern, s: string, i: nat)
    requires i + 15 > |s|
    ensures forall j :: i <= j ==> !MatchAt(p, s, j)
  {
  }

  /** End of the line that contains position `j`. */
  function LineEndFrom(s: string, j: nat): (e: nat)
    requires j <= |s|
    ensures j <= e <= |s| && LineEndAt(s, e)
    ensures forall k :: j <= k < e ==> !IsLineTerminator(s[k])
    decreases |s| - j
  {
    if j == |s| || IsLineTerminator(s[j]) then j else LineEndFrom(s, j + 1)
  }

  /** `match[1]` of the key pattern: the 64 hex characters of the first valid key line. */
  function FileKey(content: string): (r: Option<string>)
    ensures r.Some? ==> IsHexKey(r.value)
    ensures r.Some? <==> exists i :: 0 <= i <= |content| && MatchAt(KeyLine, content, i)
    ensures r.Some? ==> exists i :: FirstMatch(KeyLine, content, i) && r.value == content[i + 15..i + 79]
  {
    match FindMatch(KeyLine, content, 0)
    case Some(i) => assert FirstMatch(KeyLine, content, i); Some(content[i + 15..i + 79])
    case None => None
  }

  /** `match[1].trim()` of the secret pattern: the trimmed rest of the first line that starts
      with `SESSION_SECRET=` followed by at least one character. */
  function FileSecret(content: string): (r: Option<string>)
    ensures r.Some? <==> exists i :: 0 <= i <= |content| && MatchAt(SecretLine, content, i)
    ensures r.Some? ==> exists i, e ::
                          && FirstMatch(SecretLine, content, i)
                          && i + 15 < e <= |content| && LineEndAt(content, e)
                          && (forall k :: i + 15 <= k < e ==> !IsLineTerminator(content[k]))
                          && r.value == Trim(content[i + 15..e])
  {
    match FindMatch(SecretLine, content, 0)
    case Some(i) =>
      assert FirstMatch(SecretLine, content, i);
      Some(Trim(content[i + 15..LineEndFrom(content, i + 15)]))
    case None => None
  }

  // ---------------------------------------------------------------------------------
  // loadEncryptionKey and loadSessionSecret

  /** What a resolution of the encryption key returns: the key (as its hex text) and the
      contents written to `.env`, if anything was written. */
  datatype KeyResolution = KeyResolution(key: string, written: Option<string>)

  /** The `.env` text written on generation: the existing text, a key line if no
      `ENCRYPTION_KEY=` occurs in it, a secret line if no `SESSION_SECRET=` occurs in the
      result, trimmed and ended by one newline. */
  function GeneratedFile(existing: string, newKey: string, newSecret: string): string {
    Trim(WithSecretLine(WithKeyLine(existing, newKey), newSecret)) + "\n"
  }

  function WithKeyLine(existing: string, newKey: string): (r: string)
    ensures existing <= r
    ensures Contains(existing, KeyAssign) <==> r == existing
    ensures !Contains(existing, KeyAssign) ==> r[|existing|..] == "\n" + KeyAssign + newKey + "\n"
  {
    if Contains(existing, KeyAssign) then existing else existing + "\n" + KeyAssign + newKey + "\n"
  }

  function WithSecretLine(content: string, newSecret: string): (r: string)
    ensures content <= r
    ensures Contains(content, SecretAssign) <==> r == content
    ensures !Contains(content, SecretAssign) ==> r[|content|..] == SecretAssign + newSecret + "\n"
  {
    if Contains(content, SecretAssign) then content else content + SecretAssign + newSecret + "\n"
  }

  /** loadEncryptionKey. `envKey` is `process.env.ENCRYPTION_KEY`, `file` the contents of
      `.env`, `newKey` and `newSecret` the two `randomBytes(32)` values in hex. */
  method LoadEncryptionKey(envKey: Option<string>, file: Option<string>, newKey: string, newSecret: string)
    returns (res: KeyResolution)
    ensures envKey.Some? && |envKey.value| == 64 ==> res == KeyResolution(envKey.value, None)
    ensures !(envKey.Some? && |envKey.value| == 64) && file.Some? && FileKey(file.value).Some? ==>
              res == KeyResolution(FileKey(file.value).value, None)
    ensures !(envKey.Some? && |envKey.value| == 64) && !(file.Some? && FileKey(file.value).Some?) ==>
              res == KeyResolution(newKey, Some(GeneratedFile(file.GetOr(""), newKey, newSecret)))
  {
    if envKey.Some? && |envKey.value| == 64 {
      return KeyResolution(envKey.value, None);
    }
    if file.Some? {
      var m := FileKey(file.value);
      if m.Some? {
        return KeyResolution(m.value, None);
      }
    }
    var envContent := "";
    if file.Some? {
      envContent := file.value;
    }
    if !Contains(envContent, KeyAssign) {
      envContent := envContent + "\n" + KeyAssign + newKey + "\n";
    }
    if !Contains(envContent, SecretAssign) {
      envContent := envContent + SecretAssign + newSecret + "\n";
    }
    res := KeyResolution(newKey, Some(Trim(envContent) + "\n"));
  }

  /** loadSessionSecret: a non-empty environment value, else the first `SESSION_SECRET=` line of
      the file, trimmed, else the development default. */
  function LoadSessionSecret(envSecret: Option<string>, file: Option<string>): (r: string)
    ensures envSecret.Some? && envSecret.value != "" ==> r == envSecret.value
    ensures !(envSecret.Some? && envSecret.value != "") && file.Some? && FileSecret(file.value).Some? ==>
              r == FileSecret(file.value).value
    ensures !(envSecret.Some? && envSecret.value != "") && !(file.Some? && FileSecret(file.value).Some?) ==>
              r == DevSecret
  {
    if envSecret.Some? && envSecret.value != "" then envSecret.value
    else if file.Some? && FileSecret(file.value).Some? then FileSecret(file.value).value
    else DevSecret
  }

  datatype Env = Env(encryptionKey: Option<string>, sessionSecret: Option<string>)

  /** The process-wide configuration, built once at start-up and passed explicitly. */
  datatype Config = Config(masterKey: string, sessionSecret: string)

  /** Start-up: importing lib/crypto.js resolves the key (and may write `.env`); the session
      middleware then reads the secret from the file as it is after that write. */
  method Startup(env: Env, file: Option<string>, newKey: string, newSecret: string)
    returns (config: Config, fileAfter: Option<string>)
    ensures fileAfter == (var w := ResolutionWrite(env, file, newKey, newSecret); if w.Some? then w else file)
    ensures config.sessionSecret == LoadSessionSecret(env.sessionSecret, fileAfter)
  {
    var res := LoadEncryptionKey(env.encryptionKey, file, newKey, newSecret);
    fileAfter := if res.written.Some? then res.written else file;
    config := Config(res.key, LoadSessionSecret(env.sessionSecret, fileAfter));
  }

  /** The write a resolution performs, if any. */
  function ResolutionWrite(env: Env, file: Option<string>, newKey: string, newSecret: string): (w: Option<string>)
    ensures w.Some? <==> !(env.encryptionKey.Some? && |env.encryptionKey.value| == 64) &&
                         !(file.Some? && FileKey(file.value).Some?)
  {
    if env.encryptionKey.Some? && |env.encryptionKey.value| == 64 then None
    else if file.Some? && FileKey(file.value).Some? then None
    else Some(GeneratedFile(file.GetOr(""), newKey, newSecret))
  }

  // ---------------------------------------------------------------------------------
  // Properties of the generated file

  /** The written file ends with exactly one newline and has no other trailing whitespace. */
  lemma GeneratedFileEnding(existing: string, newKey: string, newSecret: string)
    ensures var w := GeneratedFile(existing, newKey, newSecret);
      |w| >= 1 && w[|w| - 1] == '\n' && (|w| == 1 || !IsWhitespace(w[|w| - 2]))
  {
    TrimEnds(WithSecretLine(WithKeyLine(existing, newKey), newSecret));
  }

  /** The existing text survives as a prefix of the written file, up to trimming. */
  lemma GeneratedFileKeepsExisting(existing: string, newKey: string, newSecret: string)
    ensures Trim(existing) <= GeneratedFile(existing, newKey, newSecret)
  {
    var all := WithSecretLine(WithKeyLine(existing, newKey), newSecret);
    assert all == existing + all[|existing|..];
    TrimKeepsPrefix(existing, all[|existing|..]);
  }

  /** When both names already occur, nothing is appended: the file is only re-trimmed. */
  lemma GeneratedFileNoDuplicates(existing: string, newKey: string, newSecret: string)
    requires Contains(existing, KeyAssign) && Contains(existing, SecretAssign)
    ensures GeneratedFile(existing, newKey, newSecret) == Trim(existing) + "\n"
  {
  }

  /** The name of a pattern contains no line terminator. */
  lemma NameHasNoTerminator(p: Pattern, k: int)
    requires 0 <= k < 15
    ensures !IsLineTerminator(Name(p)[k])
  {
  }

  /** No match can start inside a prefix `v` that ends a line and does not contain the name. */
  lemma NoEarlierMatch(p: Pattern, w: string, v: string)
    requires |v| <= |w| && w[..|v|] == v
    requires v != [] ==> IsLineTerminator(v[|v| - 1])
    requires !Contains(v, Name(p))
    ensures forall j :: 0 <= j < |v| ==> !MatchAt(p, w, j)
  {
    forall j | 0 <= j < |v| ensures !MatchAt(p, w, j) {
      if j + 15 <= |v| {
        assert v[j..j + 15] == w[..|v|][j..j + 15] == w[j..j + 15];
        assert !OccursAt(v, Name(p), j);
      } else if j + 15 <= |w| {
        assert w[j..j + 15][|v| - 1 - j] == w[|v| - 1] == w[..|v|][|v| - 1] == v[|v| - 1];
        NameHasNoTerminator(p, |v| - 1 - j);
      }
    }
  }

  /** The first match is at `i` when nothing earlier matches and `i` does. */
  lemma FirstMatchAt(p: Pattern, w: string, i: nat)
    requires forall j :: 0 <= j < i ==> !MatchAt(p, w, j)
    requires MatchAt(p, w, i)
    ensures FindMatch(p, w, 0) == Some(i)
  {
  }

  /** `"ENCRYPTION_KEY=" + k` for a hex key, followed by a line end, is a key line. */
  lemma KeyLineMatches(v: string, k: string, t: string)
    requires IsHexKey(k)
    requires v != [] ==> IsLineTerminator(v[|v| - 1])
    requires t != [] ==> IsLineTerminator(t[0])
    ensures MatchAt(KeyLine, v + (KeyAssign + k) + t + "\n", |v|)
    ensures (v + (KeyAssign + k) + t + "\n")[|v| + 15..|v| + 79] == k
  {
    var line := KeyAssign + k;
    var w := v + line + t + "\n";
    assert w[|v|..|v| + 79] == line;
    assert w[|v|..|v| + 15] == line[..15] == KeyAssign;
    assert w[|v| + 15..|v| + 79] == line[15..] == k;
    assert IsLineTerminator(w[|v| + 79]);
  }

  lemma ContainsAcrossNewline(u: string)
    requires Contains(u + "\n", KeyAssign)
    ensures Contains(u, KeyAssign)
  {
    var i :| 0 <= i <= |u| + 1 - 15 && OccursAt(u + "\n", KeyAssign, i);
    assert (u + "\n")[i + 14] == (u + "\n")[i..i + 15][14] == KeyAssign[14] == '=';
    assert i + 15 <= |u|;
    assert u[i..i + 15] == (u + "\n")[i..i + 15];
    assert OccursAt(u, KeyAssign, i);
  }

  /** Trimming text that has a line ending in a non-blank character after a newline: what is
      before the line is the trimmed-start prefix and a newline, or nothing when it is blank. */
  lemma TrimAroundLine(existing: string, line: string, tail: string) returns (v: string)
    requires line != [] && !IsWhitespace(line[0]) && !IsWhitespace(line[|line| - 1])
    ensures Trim(existing + ("\n" + line + tail)) == v + line + TrimEnd(tail)
    ensures v == if AllWhitespace(existing) then "" else TrimStart(existing) + "\n"
  {
    if AllWhitespace(existing) {
      TrimAroundLineBlank(existing, line, tail);
      v := "";
    } else {
      TrimAroundLineText(existing, line, tail);
      v := TrimStart(existing) + "\n";
    }
  }

  lemma TrimAroundLineBlank(existing: string, line: string, tail: string)
    requires line != [] && !IsWhitespace(line[0]) && !IsWhitespace(line[|line| - 1])
    requires AllWhitespace(existing)
    ensures Trim(existing + ("\n" + line + tail)) == line + TrimEnd(tail)
  {
    var x := "\n" + line + tail;
    TrimStartSkip(existing, x);
    assert x[1..] == line + tail;
    assert TrimStart(x) == TrimStart(line + tail);
    assert (line + tail)[0] == line[0];
    TrimEndConcat(line, tail);
  }

  lemma TrimAroundLineText(existing: string, line: string, tail: string)
    requires line != [] && !IsWhitespace(line[|line| - 1])
    requires !AllWhitespace(existing)
    ensures Trim(existing + ("\n" + line + tail)) == TrimStart(existing) + "\n" + line + TrimEnd(tail)
  {
    var u := TrimStart(existing);
    var x := "\n" + line + tail;
    TrimStartConcat(existing, x);
    assert u + x == (u + "\n" + line) + tail;
    var p := u + "\n" + line;
    assert p[|p| - 1] == line[|line| - 1];
    TrimEndConcat(p, tail);
  }

  /** When the key line is appended, the written file is that line between a prefix that ends a
      line and holds no `ENCRYPTION_KEY=`, and a rest that starts with a newline. */
  lemma GeneratedFileSplit(existing: string, newKey: string, newSecret: string)
    returns (v: string, t: string)
    requires IsHexKey(newKey) && !Contains(existing, KeyAssign)
    ensures GeneratedFile(existing, newKey, newSecret) == v + (KeyAssign + newKey) + t + "\n"
    ensures v != [] ==> v[|v| - 1] == '\n'
    ensures !Contains(v, KeyAssign)
    ensures t != [] ==> t[0] == '\n'
  {
    var tail := KeyAppended(existing, newKey, newSecret);
    KeyLineEnds(newKey);
    v := TrimAroundLine(existing, KeyAssign + newKey, tail);
    t := TrimEnd(tail);
    TrimEndSpec(tail);
    if t != [] { assert t[0] == tail[..|t|][0] == tail[0]; }
    PrefixWithoutKey(existing, v);
  }

  /** Without `ENCRYPTION_KEY=` in the existing text, the text to be trimmed is the existing text,
      a newline, the key line and a tail that starts with a newline. */
  lemma KeyAppended(existing: string, newKey: string, newSecret: string) returns (tail: string)
    requires !Contains(existing, KeyAssign)
    ensures GeneratedFile(existing, newKey, newSecret) == Trim(existing + ("\n" + (KeyAssign + newKey) + tail)) + "\n"
    ensures tail != [] && tail[0] == '\n'
  {
    var line := KeyAssign + newKey;
    var withKey := existing + "\n" + line + "\n";
    assert WithKeyLine(existing, newKey) == withKey;
    tail := if Contains(withKey, SecretAssign) then "\n" else "\n" + SecretAssign + newSecret + "\n";
    assert WithSecretLine(withKey, newSecret) == existing + ("\n" + line + tail);
  }

  lemma KeyLineEnds(newKey: string)
    requires IsHexKey(newKey)
    ensures var line := KeyAssign + newKey;
      line != [] && !IsWhitespace(line[0]) && !IsWhitespace(line[|line| - 1])
  {
    var line := KeyAssign + newKey;
    assert line[0] == 'E';
    assert line[|line| - 1] == newKey[63];
    assert IsLowerHexChar(newKey[63]);
  }

  lemma PrefixWithoutKey(existing: string, v: string)
    requires !Contains(existing, KeyAssign)
    requires v == if AllWhitespace(existing) then "" else TrimStart(existing) + "\n"
    ensures !Contains(v, KeyAssign)
  {
    if v == [] {
      ContainsEmpty("");
    } else {
      var u := TrimStart(existing);
      if Contains(v, KeyAssign) {
        ContainsAcrossNewline(u);
        TrimStartSpec(existing);
        assert existing == existing[..|existing| - |u|] + u;
        ContainsInSuffix(existing[..|existing| - |u|], u, KeyAssign);
      }
    }
  }

  /** Idempotence: when generation appends the key line, the written file holds that key as its
      first valid key line, so the next resolution returns the same key and writes nothing. */
  lemma GeneratedKeyIsFound(existing: string, newKey: string, newSecret: string)
    requires IsHexKey(newKey) && !Contains(existing, KeyAssign)
    ensures FileKey(GeneratedFile(existing, newKey, newSecret)) == Some(newKey)
  {
    var v, t := GeneratedFileSplit(existing, newKey, newSecret);
    KeyFoundAfter(v, newKey, t);
  }

  /** A key line after a prefix that ends a line and holds no `ENCRYPTION_KEY=` is the first. */
  lemma KeyFoundAfter(v: string, k: string, t: string)
    requires IsHexKey(k)
    requires v != [] ==> v[|v| - 1] == '\n'
    requires !Contains(v, KeyAssign)
    requires t != [] ==> t[0] == '\n'
    ensures FileKey(v + (KeyAssign + k) + t + "\n") == Some(k)
  {
    var w := v + (KeyAssign + k) + t + "\n";
    KeyLineMatches(v, k, t);
    assert w[..|v|] == v;
    NoEarlierMatch(KeyLine, w, v);
    FirstMatchAt(KeyLine, w, |v|);
  }

  /** Once generation has appended a key line, a later start with the same environment finds it:
      the key does not change and the file is not written again. */
  lemma ResolutionIdempotent(env: Env, file: Option<string>, newKey: string, newSecret: string,
                             laterKey: string, laterSecret: string)
    requires IsHexKey(newKey) && !Contains(file.GetOr(""), KeyAssign)
    requires !(env.encryptionKey.Some? && |env.encryptionKey.value| == 64)
    ensures var w := ResolutionWrite(env, file, newKey, newSecret);
      w == Some(GeneratedFile(file.GetOr(""), newKey, newSecret)) &&
      FileKey(w.value) == Some(newKey) &&
      ResolutionWrite(env, w, laterKey, laterSecret) == None
  {
    GeneratedKeyIsFound(file.GetOr(""), newKey, newSecret);
    if file.Some? {
      if FileKey(file.value).Some? {
        var i :| 0 <= i <= |file.value| && MatchAt(KeyLine, file.value, i);
        assert OccursAt(file.value, KeyAssign, i);
      }
    }
  }

  lemma LineEndFromIs(w: string, j: nat, e: nat)
    requires j <= e <= |w| && LineEndAt(w, e)
    requires forall k :: j <= k < e ==> !IsLineTerminator(w[k])
    ensures LineEndFrom(w, j) == e
  {
  }

  /** `"SESSION_SECRET=" + sec` for a hex secret, followed by a newline, is a secret line whose
      rest of line is `sec`. */
  lemma SecretLineMatches(v: string, sec: string)
    requires IsHexKey(sec)
    requires v != [] ==> IsLineTerminator(v[|v| - 1])
    ensures MatchAt(SecretLine, v + (SecretAssign + sec) + "\n", |v|)
    ensures (v + (SecretAssign + sec) + "\n")[|v| + 15..|v| + 79] == sec
  {
    var line := SecretAssign + sec;
    var w := v + line + "\n";
    var i := |v|;
    assert w[i..i + 79] == line;
    assert w[i..i + 15] == line[..15] == SecretAssign;
    assert w[i + 15..i + 79] == line[15..] == sec;
    assert w[i + 15] == w[i + 15..i + 79][0] == sec[0] && IsLowerHexChar(sec[0]);
  }

  lemma SecretLineEnd(v: string, sec: string)
    requires IsHexKey(sec)
    ensures LineEndFrom(v + (SecretAssign + sec) + "\n", |v| + 15) == |v| + 79
  {
    var w := v + (SecretAssign + sec) + "\n";
    var i := |v|;
    assert w[i + 15..i + 79] == sec;
    assert w[i + 79] == '\n';
    HexRunEnds(w, i + 15, sec);
  }

  /** A run of hex characters followed by a newline ends its line at the newline. */
  lemma HexRunEnds(w: string, j: nat, sec: string)
    requires IsHexKey(sec) && j + 64 < |w| && w[j..j + 64] == sec && w[j + 64] == '\n'
    ensures LineEndFrom(w, j) == j + 64
  {
    forall k | j <= k < j + 64 ensures !IsLineTerminator(w[k]) {
      assert w[k] == sec[k - j] && IsLowerHexChar(sec[k - j]);
    }
    LineEndFromIs(w, j, j + 64);
  }

  lemma HexIsTrimmed(sec: string)
    requires IsHexKey(sec)
    ensures Trim(sec) == sec
  {
    assert IsLowerHexChar(sec[0]) && IsLowerHexChar(sec[63]);
  }

  /** A `SESSION_SECRET=` line holding a hex secret, after a prefix that ends a line and holds no
      `SESSION_SECRET=`, is the first secret line, and its value is the secret. */
  lemma SecretFoundAfter(v: string, sec: string)
    requires IsHexKey(sec)
    requires v != [] ==> v[|v| - 1] == '\n'
    requires !Contains(v, SecretAssign)
    ensures FileSecret(v + (SecretAssign + sec) + "\n") == Some(sec)
  {
    var w := v + (SecretAssign + sec) + "\n";
    SecretLineMatches(v, sec);
    SecretLineEnd(v, sec);
    assert w[..|v|] == v;
    NoEarlierMatch(SecretLine, w, v);
    FirstMatchAt(SecretLine, w, |v|);
    HexIsTrimmed(sec);
  }

  /** A fresh deployment (no environment values, no `.env`) writes exactly the two lines, and both
      values are found in it afterwards; the secret the server then uses is the generated one. */
  lemma FreshDeployment(newKey: string, newSecret: string)
    requires IsHexKey(newKey) && IsHexKey(newSecret)
    ensures GeneratedFile("", newKey, newSecret) == KeyAssign + newKey + ("\n" + (SecretAssign + newSecret)) + "\n"
    ensures FileKey(GeneratedFile("", newKey, newSecret)) == Some(newKey)
    ensures LoadSessionSecret(None, ResolutionWrite(Env(None, None), None, newKey, newSecret)) == newSecret
  {
    FreshFile(newKey, newSecret);
    FreshFileFound(newKey, newSecret);
  }

  /** Both values are read back from the two-line file. */
  lemma FreshFileFound(newKey: string, newSecret: string)
    requires IsHexKey(newKey) && IsHexKey(newSecret)
    ensures var w := KeyAssign + newKey + ("\n" + (SecretAssign + newSecret)) + "\n";
      FileKey(w) == Some(newKey) && FileSecret(w) == Some(newSecret)
  {
    var w := KeyAssign + newKey + ("\n" + (SecretAssign + newSecret)) + "\n";
    var sl := SecretAssign + newSecret;
    assert w == "" + (KeyAssign + newKey) + ("\n" + sl) + "\n";
    KeyFoundAfter("", newKey, "\n" + sl);
    var v := KeyAssign + newKey + "\n";
    KeyLineHasNoSecretName(newKey);
    assert w == v + sl + "\n";
    SecretFoundAfter(v, newSecret);
  }

  lemma KeyLineHasNoSecretName(newKey: string)
    requires IsHexKey(newKey)
    ensures !Contains(KeyAssign + newKey + "\n", SecretAssign)
    ensures !Contains("\n" + KeyAssign + newKey + "\n", SecretAssign)
  {
    var v := KeyAssign + newKey + "\n";
    forall i | 0 <= i < |v| ensures v[i] != SecretAssign[0] {
      if i < 15 { assert v[i] == KeyAssign[i]; }
      else if i < 79 { assert v[i] == newKey[i - 15] && IsLowerHexChar(newKey[i - 15]); }
    }
    NotContainsWithoutChar(v, SecretAssign);
    var u := "\n" + v;
    assert u == "\n" + KeyAssign + newKey + "\n";
    forall i | 0 <= i < |u| ensures u[i] != SecretAssign[0] {
      if 0 < i { assert u[i] == v[i - 1]; }
    }
    NotContainsWithoutChar(u, SecretAssign);
  }

  /** The text generated from an absent `.env`. */
  lemma FreshFile(newKey: string, newSecret: string)
    requires IsHexKey(newKey) && IsHexKey(newSecret)
    ensures GeneratedFile("", newKey, newSecret) == KeyAssign + newKey + ("\n" + (SecretAssign + newSecret)) + "\n"
  {
    var line := KeyAssign + newKey;
    var sl := SecretAssign + newSecret;
    var head := "\n" + sl;
    var tail := head + "\n";
    var w := WithSecretLine(WithKeyLine("", newKey), newSecret);
    assert !Contains("", KeyAssign);
    assert WithKeyLine("", newKey) == "\n" + KeyAssign + newKey + "\n";
    KeyLineHasNoSecretName(newKey);
    assert w == "" + ("\n" + line + tail);
    KeyLineEnds(newKey);
    assert AllWhitespace("");
    TrimAroundLineBlank("", line, tail);
    assert head[|head| - 1] == newSecret[63] && IsLowerHexChar(newSecret[63]);
    TrimEndConcat(head, "\n");
    assert TrimEnd("\n") == TrimEnd("");
    assert head + "" == head;
  }

  // ---------------------------------------------------------------------------------
  // A malformed key line

  const MalformedKeyFile := "ENCRYPTION_KEY=bad"

  /** What generation writes for a `.env` whose only line is a malformed key: the name occurs, so
      no key line is added, and the secret line is glued onto the same line because the existing
      text does not end with a newline. */
  function GluedFile(newSecret: string): string {
    MalformedKeyFile + SecretAssign + newSecret + "\n"
  }

  /** The glued line is neither a key line nor a secret line: after a start from that `.env` the
      generated key is not persisted, the session secret falls back to the development default,
      and every later start generates a new key and writes the same text again. */
  lemma MalformedKeyNotPersisted(newKey: string, newSecret: string, laterKey: string, laterSecret: string)
    requires IsHexKey(newSecret)
    ensures var env := Env(None, None);
      var w := ResolutionWrite(env, Some(MalformedKeyFile), newKey, newSecret);
      w == Some(GluedFile(newSecret)) &&
      FileKey(w.value).None? &&
      LoadSessionSecret(None, w) == DevSecret &&
      ResolutionWrite(env, w, laterKey, laterSecret) == w
  {
    var e := MalformedKeyFile;
    assert OccursAt(e, KeyAssign, 0);
    forall i | 0 <= i < |e| ensures e[i] != SecretAssign[0] { }
    NotContainsWithoutChar(e, SecretAssign);
    NoKeyLineIn(e);
    GluedFileTrim(newSecret);
    GluedFileNoLines(newSecret);
    var g := GluedFile(newSecret);
    assert OccursAt(g, KeyAssign, 0);
    assert g[18..33] == SecretAssign;
    assert OccursAt(g, SecretAssign, 18);
  }

  /** Whenever the existing text names `ENCRYPTION_KEY=` but holds no valid key line, generation
      writes the same text whatever key it generates: the key it returns is never persisted, and
      the next start generates another. */
  lemma GeneratedKeyNotPersisted(env: Env, e: string, k1: string, k2: string, newSecret: string)
    requires !(env.encryptionKey.Some? && |env.encryptionKey.value| == 64)
    requires Contains(e, KeyAssign) && FileKey(e).None?
    ensures ResolutionWrite(env, Some(e), k1, newSecret) == Some(GeneratedFile(e, k1, newSecret))
    ensures GeneratedFile(e, k1, newSecret) == GeneratedFile(e, k2, newSecret)
  {
  }

  /** A valid key line indented by two spaces. */
  function IndentedKeyFile(h: string): string {
    "  " + KeyAssign + h + "\n"
  }

  /** An indented key line does not match, so a start generates and returns a fresh key; but the
      written text is trimmed, which moves the line to the start, and the next start takes the
      old key from it instead. */
  lemma IndentedKeyAdopted(h: string, newKey: string, newSecret: string)
    requires IsHexKey(h) && IsHexKey(newSecret)
    ensures var e := IndentedKeyFile(h);
      var w := ResolutionWrite(Env(None, None), Some(e), newKey, newSecret);
      FileKey(e).None? && w == Some(KeyAssign + h + ("\n" + (SecretAssign + newSecret)) + "\n") &&
      FileKey(w.value) == Some(h)
  {
    IndentedKeyNames(h);
    IndentedKeyWritten(h, newKey, newSecret);
    IndentedKeyFound(h, newSecret);
  }

  lemma IndentedKeyFound(h: string, newSecret: string)
    requires IsHexKey(h)
    ensures FileKey(KeyAssign + h + ("\n" + (SecretAssign + newSecret)) + "\n") == Some(h)
  {
    var t := "\n" + (SecretAssign + newSecret);
    var v: string := [];
    assert !Contains(v, KeyAssign);
    KeyFoundAfter(v, h, t);
    assert v + (KeyAssign + h) + t + "\n" == KeyAssign + h + t + "\n";
  }

  /** The indented text names the key but holds no key line, and does not name the secret. */
  lemma IndentedKeyNames(h: string)
    requires IsHexKey(h)
    ensures var e := IndentedKeyFile(h);
      FileKey(e).None? && Contains(e, KeyAssign) && !Contains(e, SecretAssign)
  {
    var e := IndentedKeyFile(h);
    forall j | 0 <= j < |e| - 1 ensures !IsLineTerminator(e[j]) {
      if 17 <= j {
        assert e[j] == h[j - 17] && IsLowerHexChar(h[j - 17]);
      }
    }
    OnlyFirstLineMatches(KeyLine, e);
    assert e[0..15][0] == ' ';
    assert e[2..17] == KeyAssign;
    assert OccursAt(e, KeyAssign, 2);
    forall i | 0 <= i < |e| ensures e[i] != SecretAssign[0] {
      if 2 <= i < 17 {
        assert e[i] == KeyAssign[i - 2];
      } else if 17 <= i < 81 {
        assert e[i] == h[i - 17] && IsLowerHexChar(h[i - 17]);
      }
    }
    NotContainsWithoutChar(e, SecretAssign);
  }

  /** Generation appends the secret line only, and trimming drops the indentation. */
  lemma IndentedKeyWritten(h: string, newKey: string, newSecret: string)
    requires IsHexKey(h) && IsHexKey(newSecret)
    requires Contains(IndentedKeyFile(h), KeyAssign) && !Contains(IndentedKeyFile(h), SecretAssign)
    ensures GeneratedFile(IndentedKeyFile(h), newKey, newSecret) == KeyAssign + h + ("\n" + (SecretAssign + newSecret)) + "\n"
  {
    var e := IndentedKeyFile(h);
    var x := KeyAssign + h + ("\n" + (SecretAssign + newSecret));
    assert WithSecretLine(WithKeyLine(e, newKey), newSecret) == "  " + (x + "\n");
    assert AllWhitespace("  ");
    TrimStartSkip("  ", x + "\n");
    assert x[0] == 'E';
    TrimStartConcat(x, "\n");
    assert x[|x| - 1] == newSecret[63] && IsLowerHexChar(newSecret[63]);
    TrimEndConcat(x, "\n");
    assert TrimEnd("\n") == TrimEnd("");
    assert x + "" == x;
  }

  lemma NoKeyLineIn(e: string)
    requires |e| < 79
    ensures FileKey(e).None?
  {
  }

  lemma GluedFileTrim(newSecret: string)
    requires IsHexKey(newSecret)
    ensures Trim(MalformedKeyFile + SecretAssign + newSecret + "\n") + "\n" == GluedFile(newSecret)
  {
    var x := MalformedKeyFile + SecretAssign + newSecret;
    assert x[|x| - 1] == newSecret[63] && IsLowerHexChar(newSecret[63]);
    TrimStartConcat(x, "\n");
    assert x[0] == 'E';
    assert TrimStart(x) == x;
    TrimEndConcat(x, "\n");
    assert TrimEnd("\n") == "";
  }

  /** The glued text has a single line start, where `ENCRYPTION_KEY=bad` begins. */
  lemma GluedFileNoLines(newSecret: string)
    requires IsHexKey(newSecret)
    ensures FileKey(GluedFile(newSecret)).None?
    ensures FileSecret(GluedFile(newSecret)).None?
  {
    var g := GluedFile(newSecret);
    GluedFileOneLine(newSecret);
    OnlyFirstLineMatches(KeyLine, g);
    OnlyFirstLineMatches(SecretLine, g);
    assert g[0..15] != SecretAssign by { assert g[0..15][0] == 'E'; }
    assert !IsLowerHexChar(g[18]);
    assert g[15..79][3] == g[18];
  }

  lemma GluedFileOneLine(newSecret: string)
    requires IsHexKey(newSecret)
    ensures var g := GluedFile(newSecret);
      |g| == 98 && forall j :: 0 <= j < |g| - 1 ==> !IsLineTerminator(g[j])
  {
    var g := GluedFile(newSecret);
    forall j | 0 <= j < |g| - 1 ensures !IsLineTerminator(g[j]) {
      if 33 <= j {
        assert g[j] == newSecret[j - 33] && IsLowerHexChar(newSecret[j - 33]);
      }
    }
  }

  /** In a text whose only line terminator, if any, is its last character, a match can only start
      at the beginning. */
  lemma OnlyFirstLineMatches(p: Pattern, g: string)
    requires forall j :: 0 <= j < |g| - 1 ==> !IsLineTerminator(g[j])
    ensures forall i :: MatchAt(p, g, i) ==> i == 0
  {
  }
}
