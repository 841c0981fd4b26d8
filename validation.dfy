/** The request-field checks shared by lib/auth-routes.js and server.js: the name pattern
    `^[a-zA-Z0-9_-]+$` (usernames and API-key names) and the simplified e-mail shape
    `^[^\s@]+@[^\s@]+\.[^\s@]+$`. */
module Validation {
  import opened Text

  predicate IsNameChar(c: char) {
    'a' <= c <= 'z' || 'A' <= c <= 'Z' || '0' <= c <= '9' || c == '_' || c == '-'
  }

  /** A non-empty run of ASCII letters, digits, `_` and `-`. */
  predicate ValidName(s: string) {
    |s| > 0 && forall i :: 0 <= i < |s| ==> IsNameChar(s[i])
  }

  /** A character of the class `[^\s@]`; `\s` is the ECMAScript white space and line terminator set. */
  predicate IsEmailChar(c: char) {
    !IsWhitespace(c) && c != '@'
  }

  /** The regular expression matches with the `@` at `at` and the chosen `.` at `dot`. */
  predicate EmailSplit(s: string, at: int, dot: int) {
    0 < at && at + 1 < dot < |s| - 1 && s[at] == '@' && s[dot] == '.' &&
    forall i :: 0 <= i < |s| && i != at ==> IsEmailChar(s[i])
  }

  /** The simplified e-mail shape: one `@` with at least one character before it, and
      after it a `.` with at least one character on each side; no white space anywhere. */
  predicate EmailShape(s: string) {
    exists at, dot | 0 <= at < |s| && 0 <= dot < |s| :: EmailSplit(s, at, dot)
  }

  /** A well-shaped e-mail address has exactly one `@`. */
  lemma EmailHasOneAt(s: string)
    requires EmailShape(s)
    ensures exists at :: 0 < at < |s| && s[at] == '@' && forall i :: 0 <= i < |s| && s[i] == '@' ==> i == at
  {
    var at, dot :| 0 <= at < |s| && 0 <= dot < |s| && EmailSplit(s, at, dot);
    forall i | 0 <= i < |s| && i != at ensures s[i] != '@' {
      assert IsEmailChar(s[i]);
    }
  }

  /** No valid name is a well-shaped e-mail address, so a login string can match a username or an
      e-mail address but never both kinds. */
  lemma NameIsNotEmail(s: string, t: string)
    requires ValidName(s) && EmailShape(t)
    ensures !SameNoCase(s, t)
  {
    var at, dot :| 0 <= at < |t| && 0 <= dot < |t| && EmailSplit(t, at, dot);
    if |s| == |t| {
      assert Lower(t)[at] == LowerChar(t[at]) == '@';
      assert IsNameChar(s[at]);
      assert Lower(s)[at] == LowerChar(s[at]) != '@';
    }
  }

  /** A valid name contains no `@`. */
  lemma NameHasNoAt(s: string)
    requires ValidName(s)
    ensures forall i :: 0 <= i < |s| ==> s[i] != '@'
  {
  }
}
