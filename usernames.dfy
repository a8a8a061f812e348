/**
 * Username validation of the account service: a username must be present,
 * not blank, and match the regular expression `(\w)+` as a whole.
 */
module Usernames {
  import opened Wrappers

  /** Why a username was refused; both kinds are reported as a bad-login error. */
  datatype LoginProblem =
    | NoLogin      // the username is null or blank
    | BadUsername  // the username holds a character outside `\w`

  /** `\w` of java.util.regex without the UNICODE_CHARACTER_CLASS flag: `[a-zA-Z_0-9]`. */
  predicate IsWordChar(c: char)
    ensures IsWordChar(c) ==> c as int < 0x80
  {
    ('a' <= c <= 'z') || ('A' <= c <= 'Z') || ('0' <= c <= '9') || c == '_'
  }

  /**
   * Java's Character.isWhitespace: the ASCII controls TAB, LF, VT, FF, CR,
   * the separators U+001C..U+001F, and the Unicode space, line and paragraph
   * separators except the non-breaking ones (U+00A0, U+2007, U+202F).
   */
  predicate IsJavaWhitespace(c: char)
    ensures IsJavaWhitespace(c) ==> !IsWordChar(c)
    ensures c as int == 0xA0 || c as int == 0x2007 || c as int == 0x202F ==> !IsJavaWhitespace(c)
  {
    var n := c as int;
    n == 0x20 || (0x09 <= n <= 0x0D) || (0x1C <= n <= 0x1F)
    || n == 0x1680 || (0x2000 <= n <= 0x2006) || (0x2008 <= n <= 0x200A)
    || n == 0x2028 || n == 0x2029 || n == 0x205F || n == 0x3000
  }

  /** String.isBlank: the string is empty or holds only whitespace. */
  predicate IsBlank(s: string)
    ensures |s| == 0 ==> IsBlank(s)
    ensures IsBlank(s) && |s| > 0 ==> !IsWordChar(s[0])
  {
    forall i :: 0 <= i < |s| ==> IsJavaWhitespace(s[i])
  }

  /** `s.matches("(\\w)+")`: one word character, then the group repeated over the rest. */
  predicate MatchesWordPlus(s: string)
    ensures MatchesWordPlus(s) ==> ValidUsername(s) && !IsBlank(s)
  {
    |s| > 0 && IsWordChar(s[0]) && (|s| == 1 || MatchesWordPlus(s[1..]))
  }

  /** The rule `(\w)+` enforces: non-empty and only ASCII letters, digits and underscores. */
  ghost predicate ValidUsername(s: string) {
    |s| > 0 && forall i :: 0 <= i < |s| ==> IsWordChar(s[i])
  }

  /**
   * checkUserName: a null or blank name fails first ("There is no login"),
   * then one that does not match `(\w)+` ("Bad username").
   */
  function CheckUserName(username: Option<string>): (r: Outcome<LoginProblem>)
    ensures r == Pass ==> username.Some? && ValidUsername(username.value)
    ensures r == Fail(BadUsername) ==> username.Some? && !IsBlank(username.value)
  {
    if username.None? || IsBlank(username.value) then Fail(NoLogin)
    else if !MatchesWordPlus(username.value) then Fail(BadUsername)
    else Pass
  }

  /** The recursive regular-expression match agrees with the rule it enforces. */
  lemma {:induction false} MatchesWordPlusIff(s: string)
    ensures MatchesWordPlus(s) <==> ValidUsername(s)
  {
    if |s| > 1 {
      MatchesWordPlusIff(s[1..]);
      if ValidUsername(s) {
        assert forall i :: 0 <= i < |s[1..]| ==> s[1..][i] == s[i + 1];
      }
      if MatchesWordPlus(s) {
        forall i | 0 <= i < |s| ensures IsWordChar(s[i]) {
          if i > 0 { assert s[i] == s[1..][i - 1]; }
        }
      }
    }
  }

  /** A word character is never whitespace, so a valid name is never blank. */
  lemma ValidUsernameNotBlank(s: string)
    requires ValidUsername(s)
    ensures !IsBlank(s)
  {
    assert IsWordChar(s[0]);
  }

  /** checkUserName passes exactly on non-null names made only of `[A-Za-z0-9_]`, at least one. */
  lemma CheckUserNameAccepts(username: Option<string>)
    ensures CheckUserName(username) == Pass <==> username.Some? && ValidUsername(username.value)
  {
    if username.Some? {
      MatchesWordPlusIff(username.value);
      if ValidUsername(username.value) {
        ValidUsernameNotBlank(username.value);
      }
    }
  }

  /** The blank check runs first: null, empty and all-whitespace names fail with NoLogin, and only they. */
  lemma CheckUserNameNoLogin(username: Option<string>)
    ensures CheckUserName(username) == Fail(NoLogin) <==> username.None? || IsBlank(username.value)
  {
  }

  /**
   * A present, non-blank name that is refused holds a character outside `\w`:
   * spaces, '-', '@' and the like.
   */
  lemma CheckUserNameRejectsBadChar(username: Option<string>)
    requires CheckUserName(username) == Fail(BadUsername)
    ensures username.Some? && !IsBlank(username.value)
    ensures exists i :: 0 <= i < |username.value| && !IsWordChar(username.value[i])
  {
    MatchesWordPlusIff(username.value);
  }

  /** A name of word characters passes; a null, empty or all-whitespace one fails with NoLogin. */
  lemma CheckUserNameExamplesBlank()
    ensures CheckUserName(Some("alice_01")) == Pass
    ensures CheckUserName(None) == Fail(NoLogin)
    ensures CheckUserName(Some("")) == Fail(NoLogin)
    ensures CheckUserName(Some(" \t ")) == Fail(NoLogin)
  {
    var name := "alice_01";
    assert ValidUsername(name) && !IsBlank(name);
    MatchesWordPlusIff(name);
  }

  /** Names with '-', a space or '@' fail with BadUsername. */
  lemma CheckUserNameExamplesBadChar()
    ensures CheckUserName(Some("a-b")) == Fail(BadUsername)
    ensures CheckUserName(Some("a b")) == Fail(BadUsername)
    ensures CheckUserName(Some("bob@mail")) == Fail(BadUsername)
  {
    BadCharRefused("a-b", 1);
    BadCharRefused("a b", 1);
    BadCharRefused("bob@mail", 3);
  }

  /** A name that starts with a word character and holds a non-word character fails with BadUsername. */
  lemma BadCharRefused(s: string, i: nat)
    requires 0 < |s| && IsWordChar(s[0])
    requires i < |s| && !IsWordChar(s[i])
    ensures CheckUserName(Some(s)) == Fail(BadUsername)
  {
    assert !IsJavaWhitespace(s[0]);
    CheckUserNameAccepts(Some(s));
  }
}
