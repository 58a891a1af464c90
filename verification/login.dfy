/**
  The decision procedure of `POST /api/login`: field presence, the e-mail
  format check, normalisation of the e-mail before lookup, a single answer
  for unknown users and wrong passwords, and the dashboard to redirect to.
  Password hashing is a parameter: `passwordMatches(password, hash)` stands
  for the bcrypt comparison. Cookies and the session id are not modelled.
*/
module Login {
  import opened Wrappers
  import opened Text
  import opened Store

  /**
    A user row as the login reads it. The `accounts` map that `Login` takes is
    the e-mail index of `Store.users`: the same users, looked up by their
    (unique) e-mail, with the fields the login needs.
  */
  datatype Account = Account(id: UserId, passwordHash: string, isDriver: bool)

  datatype LoginError = MissingFields | BadEmailFormat | InvalidCredentials

  datatype Response = Redirect(url: string) | Rejected(status: int, error: LoginError)

  /** The character class `[^\s@]`. */
  predicate InEmailClass(c: char) {
    !IsSpace(c) && c != '@'
  }

  /**
    `^[^\s@]+@[^\s@]+\.[^\s@]+$` matches `s` with the `@` at `i` and the
    literal `.` at `j`: three non-empty runs of the class around them.
  */
  ghost predicate RegexSplit(s: string, i: int, j: int) {
    && 0 < i && i + 1 < j && j + 1 < |s|
    && s[i] == '@' && s[j] == '.'
    && forall k | 0 <= k < |s| && k != i :: InEmailClass(s[k])
  }

  ghost predicate MatchesEmailRegex(s: string) {
    exists i, j :: RegexSplit(s, i, j)
  }

  /** Position of the first `c` in `s`, or `|s|` when there is none. */
  function IndexOf(s: string, c: char): (r: nat)
    ensures r <= |s|
    ensures r < |s| ==> s[r] == c
    ensures forall k | 0 <= k < r :: s[k] != c
  {
    if |s| == 0 then 0
    else if s[0] == c then 0
    else 1 + IndexOf(s[1..], c)
  }

  /**
    The e-mail format check: no white space, exactly one `@`, something
    before it, and after it a `.` that is neither its first nor its last
    character.
  */
  predicate EmailFormatOk(s: string) {
    && NoSpace(s)
    && var i := IndexOf(s, '@');
       && 0 < i < |s|
       && (forall k | i < k < |s| :: s[k] != '@')
       && exists j | i + 2 <= j < |s| - 1 :: s[j] == '.'
  }

  /** The check accepts exactly the strings the regular expression matches. */
  lemma EmailFormatIffRegex(s: string)
    ensures EmailFormatOk(s) <==> MatchesEmailRegex(s)
  {
    if EmailFormatOk(s) {
      var i := IndexOf(s, '@');
      var j :| i + 2 <= j < |s| - 1 && s[j] == '.';
      assert RegexSplit(s, i, j);
    }
    if MatchesEmailRegex(s) {
      var i, j :| RegexSplit(s, i, j);
      assert s[i] == '@';
      assert IndexOf(s, '@') == i;
      assert NoSpace(s) by {
        forall k | 0 <= k < |s| ensures !IsSpace(s[k]) {
          if k != i { assert InEmailClass(s[k]); }
        }
      }
    }
  }

  /** The lookup key: `email.toLowerCase().trim()`. */
  function LookupKey(email: string): string {
    Trim(ToLower(email))
  }

  /** For an e-mail that passed the format check, trimming changes nothing. */
  lemma LookupKeyOfValidEmail(email: string)
    requires EmailFormatOk(email)
    ensures LookupKey(email) == ToLower(email)
  {
    ToLowerNoSpace(email);
    TrimIdentity(ToLower(email));
  }

  /** The dashboard of the signed-in user. */
  function RedirectPath(isDriver: bool, id: UserId): string {
    (if isDriver then "/dashboard/driver/" else "/dashboard/passenger/") + id + "/"
  }

  /** The redirect path identifies both the role and the user. */
  lemma RedirectPathInjective(d1: bool, id1: UserId, d2: bool, id2: UserId)
    requires RedirectPath(d1, id1) == RedirectPath(d2, id2)
    ensures d1 == d2 && id1 == id2
  {
    var p1 := RedirectPath(d1, id1);
    assert p1[11] == if d1 then 'd' else 'p';
    assert RedirectPath(d2, id2)[11] == if d2 then 'd' else 'p';
    var n := if d1 then 18 else 21;
    assert p1[n..] == id1 + "/";
    assert RedirectPath(d2, id2)[n..] == id2 + "/";
    assert id1 == (id1 + "/")[..|id1|];
    assert id2 == (id2 + "/")[..|id2|];
  }

  /**
    `POST /api/login`. Missing fields are reported before the format; an
    unknown e-mail and a wrong password get the same 401 answer.
  */
  function Login(accounts: map<string, Account>, passwordMatches: (string, string) -> bool,
                 email: Option<string>, password: Option<string>): (r: Response)
    ensures !Filled(email) || !Filled(password) ==> r == Rejected(400, MissingFields)
    ensures Filled(email) && Filled(password) && !MatchesEmailRegex(email.value)
            ==> r == Rejected(400, BadEmailFormat)
    ensures Filled(email) && Filled(password) && MatchesEmailRegex(email.value)
            && (ToLower(email.value) !in accounts
                || !passwordMatches(password.value, accounts[ToLower(email.value)].passwordHash))
            ==> r == Rejected(401, InvalidCredentials)
    ensures r.Redirect? <==>
              && Filled(email) && Filled(password) && MatchesEmailRegex(email.value)
              && ToLower(email.value) in accounts
              && passwordMatches(password.value, accounts[ToLower(email.value)].passwordHash)
    ensures r.Redirect? ==>
              var a := accounts[ToLower(email.value)];
              r.url == RedirectPath(a.isDriver, a.id)
  {
    if !Filled(email) || !Filled(password) then Rejected(400, MissingFields)
    else
      EmailFormatIffRegex(email.value);
      if !EmailFormatOk(email.value) then Rejected(400, BadEmailFormat)
      else
        var key := LookupKey(email.value);
        LookupKeyOfValidEmail(email.value);
        if key !in accounts then Rejected(401, InvalidCredentials)
        else if !passwordMatches(password.value, accounts[key].passwordHash) then Rejected(401, InvalidCredentials)
        else Redirect(RedirectPath(accounts[key].isDriver, accounts[key].id))
  }

  /** An unknown e-mail and a known e-mail with the wrong password cannot be told apart. */
  lemma NoAccountEnumeration(accounts: map<string, Account>, passwordMatches: (string, string) -> bool,
                             unknown: string, p1: string, known: string, p2: string)
    requires EmailFormatOk(unknown) && EmailFormatOk(known) && p1 != "" && p2 != ""
    requires ToLower(unknown) !in accounts
    requires ToLower(known) in accounts && !passwordMatches(p2, accounts[ToLower(known)].passwordHash)
    ensures Login(accounts, passwordMatches, Some(unknown), Some(p1))
            == Login(accounts, passwordMatches, Some(known), Some(p2))
            == Rejected(401, InvalidCredentials)
  {
    EmailFormatIffRegex(unknown);
    EmailFormatIffRegex(known);
  }
}
