/** The helpers of `src/utils/auth.utils.ts`: the e-mail test that decides
    whether a login identifier is an address, and the role tests. */
module AuthUtils {
  import opened Wrappers
  import opened Strings
  import opened UserRecords

  /** One `[^\s@]+` run of the e-mail pattern. */
  ghost predicate Word(w: string) {
    |w| > 0 && forall k :: 0 <= k < |w| ==> !IsWhitespace(w[k]) && w[k] != '@'
  }

  /** `/^[^\s@]+@[^\s@]+\.[^\s@]+$/` read literally: a word, '@', a word,
      '.', a word, and nothing else. */
  ghost predicate MatchesEmailPattern(s: string) {
    exists i, j :: 0 <= i < j < |s| && s[i] == '@' && s[j] == '.' &&
      Word(s[..i]) && Word(s[i + 1..j]) && Word(s[j + 1..])
  }

  /** No whitespace, one '@' with something before it, and a '.' after the
      '@' that is neither the first nor the last character of the domain. */
  predicate WellFormedAddress(s: string) {
    (forall k | 0 <= k < |s| :: !IsWhitespace(s[k])) &&
    exists i | 0 < i < |s| ::
      s[i] == '@' &&
      (forall k | 0 <= k < |s| && k != i :: s[k] != '@') &&
      exists j | i + 1 < j < |s| - 1 :: s[j] == '.'
  }

  lemma WellFormedIsPattern(s: string)
    requires WellFormedAddress(s)
    ensures MatchesEmailPattern(s)
  {
    var i :| 0 < i < |s| && s[i] == '@' && (forall k | 0 <= k < |s| && k != i :: s[k] != '@') &&
             exists j | i + 1 < j < |s| - 1 :: s[j] == '.';
    var j :| i + 1 < j < |s| - 1 && s[j] == '.';
    assert Word(s[..i]);
    assert Word(s[i + 1..j]);
    assert Word(s[j + 1..]);
  }

  /** A character of a matching string other than the '@' is neither
      whitespace nor '@'. */
  lemma PatternCharacter(s: string, i: int, j: int, k: int)
    requires 0 <= i < j < |s| && s[i] == '@' && s[j] == '.'
    requires Word(s[..i]) && Word(s[i + 1..j]) && Word(s[j + 1..])
    requires 0 <= k < |s| && k != i
    ensures !IsWhitespace(s[k]) && s[k] != '@'
  {
    if k < i {
      assert s[..i][k] == s[k];
    } else if k < j {
      assert s[i + 1..j][k - i - 1] == s[k];
    } else if k > j {
      assert s[j + 1..][k - j - 1] == s[k];
    }
  }

  lemma PatternIsWellFormed(s: string)
    requires MatchesEmailPattern(s)
    ensures WellFormedAddress(s)
  {
    var i, j :| 0 <= i < j < |s| && s[i] == '@' && s[j] == '.' &&
                Word(s[..i]) && Word(s[i + 1..j]) && Word(s[j + 1..]);
    forall k | 0 <= k < |s| && k != i ensures !IsWhitespace(s[k]) && s[k] != '@' {
      PatternCharacter(s, i, j, k);
    }
    assert !IsWhitespace(s[i]);
    assert 0 < i && i + 1 < j < |s| - 1;
  }

  lemma PatternIffWellFormed(s: string)
    ensures MatchesEmailPattern(s) <==> WellFormedAddress(s)
  {
    if WellFormedAddress(s) {
      WellFormedIsPattern(s);
    }
    if MatchesEmailPattern(s) {
      PatternIsWellFormed(s);
    }
  }

  /** `validateEmail(input)`: false for an undefined or empty input, otherwise
      the test of the e-mail pattern. */
  function ValidateEmail(input: Option<string>): (r: bool)
    ensures !Truthy(input) ==> !r
    ensures r <==> input.Some? && MatchesEmailPattern(input.value)
  {
    if !Truthy(input) then false
    else
      PatternIffWellFormed(input.value);
      WellFormedAddress(input.value)
  }

  /** An accepted identifier is a single address: one '@', a non-empty part
      before it, no whitespace anywhere, and a dot inside the domain. */
  lemma AcceptedAddressShape(s: string)
    requires ValidateEmail(Some(s))
    ensures exists i :: 0 < i < |s| && s[i] == '@' && forall k :: 0 <= k < |s| && s[k] == '@' ==> k == i
    ensures forall k :: 0 <= k < |s| ==> !IsWhitespace(s[k])
    ensures exists i, j :: 0 < i && i + 1 < j < |s| - 1 && s[i] == '@' && s[j] == '.'
  {
    PatternIffWellFormed(s);
  }

  /** `isAdmin(role)` */
  predicate IsAdmin(role: Role) {
    role == Role.Admin
  }

  /** `isUser(role)` */
  predicate IsUser(role: Role) {
    role == Role.User
  }

  /** Every role is exactly one of the two. */
  lemma RolesPartition(role: Role)
    ensures IsAdmin(role) != IsUser(role)
  {
  }
}
