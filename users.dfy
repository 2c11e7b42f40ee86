/** How the bot addresses a Telegram user: a fixed table of nicknames keyed by
    lower-cased username, falling back to the first name, or to "друг". */
module Users {
  import opened PyStr

  /** The parts of Telegram's `effective_user` the bot reads. */
  datatype User = User(id: int, username: Option<string>, firstName: string)

  /** `USER_NAMES`: lower-case usernames and the names the bot uses for them. */
  const UserNames: map<string, string> := map[
    "bhded" := "Андрей Ильич",
    "laguzers" := "Палъюрич",
    "fekolinakk" := "Любимая жена"
  ]

  /** The name used when there is no user or the user has no username. */
  const DefaultName := "друг"

  const KelvinSign: char := '\U{212A}'

  predicate IsAsciiLower(c: char) {
    'a' <= c <= 'z'
  }

  /** Python's `str.lower` on one character, for the characters whose lower case is an
      ASCII letter: 'A'..'Z' and KELVIN SIGN (whose lower case is 'k'). Every other
      character is kept as it is. */
  function LowerChar(c: char): char {
    if 'A' <= c <= 'Z' then (c as int + 32) as char
    else if c == KelvinSign then 'k'
    else c
  }

  function Lower(s: string): (r: string)
    ensures |r| == |s|
  {
    seq(|s|, i requires 0 <= i < |s| => LowerChar(s[i]))
  }

  /** `c` is a character whose lower case is the ASCII lower-case letter `lc`. */
  predicate CaseVariant(c: char, lc: char) {
    c == lc || c as int == lc as int - 32 || (lc == 'k' && c == KelvinSign)
  }

  /** `u` spells the lower-case ASCII word `k` in any mix of letter cases. */
  predicate SameUpToCase(u: string, k: string) {
    |u| == |k| && forall i :: 0 <= i < |u| ==> CaseVariant(u[i], k[i])
  }

  predicate IsLowerWord(k: string) {
    forall i :: 0 <= i < |k| ==> IsAsciiLower(k[i])
  }

  lemma TableKeysLower()
    ensures forall k :: k in UserNames ==> IsLowerWord(k)
  {
    assert UserNames.Keys == {"bhded", "laguzers", "fekolinakk"};
    assert IsLowerWord("bhded");
    assert IsLowerWord("laguzers");
    assert IsLowerWord("fekolinakk");
  }

  /** For a lower-case key, lower-casing finds it exactly when the username spells it
      up to case. */
  lemma LowerMatches(u: string, k: string)
    requires IsLowerWord(k)
    ensures Lower(u) == k <==> SameUpToCase(u, k)
  {
    if SameUpToCase(u, k) {
      forall i | 0 <= i < |u| ensures Lower(u)[i] == k[i] {
        assert CaseVariant(u[i], k[i]) && IsAsciiLower(k[i]);
      }
    }
    if Lower(u) == k {
      forall i | 0 <= i < |u| ensures CaseVariant(u[i], k[i]) {
        assert LowerChar(u[i]) == k[i];
      }
    }
  }

  /** `get_user_name`: the table's name for a known username, whatever its letter case;
      the first name for any other username; "друг" when there is no user or no username. */
  function GetUserName(user: Option<User>): (name: string)
    ensures (user.None? || user.value.username.None? || user.value.username.value == []) ==>
              name == DefaultName
    ensures user.Some? && user.value.username.Some? && user.value.username.value != [] ==>
              var u := user.value.username.value;
              && (forall k :: k in UserNames && SameUpToCase(u, k) ==> name == UserNames[k])
              && ((forall k :: k in UserNames ==> !SameUpToCase(u, k)) ==> name == user.value.firstName)
  {
    if user.Some? && user.value.username.Some? && user.value.username.value != [] then
      var u := user.value.username.value;
      TableKeysLower();
      forall k | k in UserNames ensures Lower(u) == k <==> SameUpToCase(u, k) {
        LowerMatches(u, k);
      }
      if Lower(u) in UserNames then UserNames[Lower(u)] else user.value.firstName
    else DefaultName
  }
}
