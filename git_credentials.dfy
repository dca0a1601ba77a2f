/**
 * The credential file `.git-credentials` of the settings screen: `updateToken` overwrites it
 * with the one line `https://<username>:<token>@github.com`, and `getToken` reads the token
 * back with one `Regex.find` of
 *
 *     https://([^:]+):([^@]+)@github.com
 *
 * returning "" when the file is missing or holds no match. The `.` before `com` is not
 * escaped, so it stands for any character other than a line terminator.
 *
 * MatchCredentialAt and FindCredential match the pattern explicitly; IsCredentialMatch is the
 * reference definition of a match as a layout of the text.
 */
module GitCredentials {
  import opened Wrappers
  import opened Scan

  /** The fixed text before and after the two values of the credential line. */
  const Scheme: string := "https://"
  const Host: string := "@github.com"

  /** The whole text `updateToken` writes over `.git-credentials`. */
  function RenderCredential(username: string, token: string): (text: string)
  {
    Scheme + username + ":" + token + Host
  }

  /** Where one match lies: `https://` at start, group 1 is s[start + 8..userEnd], the `:` is
      at userEnd, group 2 is s[userEnd + 1..tokenEnd], and `@github.com` follows. */
  datatype CredentialMatch = CredentialMatch(start: nat, userEnd: nat, tokenEnd: nat)

  /** `@github.com` as the pattern reads it matches at i: the unescaped `.` takes any
      character but a line terminator. */
  predicate HostAt(s: string, i: nat)
  {
    HasAt(s, i, "@github") && i + 7 < |s| && !IsLineTerminator(s[i + 7]) && HasAt(s, i + 8, "com")
  }

  /** The pattern matches s[m.start..m.tokenEnd + 11] with the layout m. */
  ghost predicate IsCredentialMatch(s: string, m: CredentialMatch)
  {
    HasAt(s, m.start, "https://")
    && m.start + 8 < m.userEnd && Avoids(s, m.start + 8, m.userEnd, ':') && HasAt(s, m.userEnd, ":")
    && m.userEnd + 1 < m.tokenEnd && Avoids(s, m.userEnd + 1, m.tokenEnd, '@')
    && HostAt(s, m.tokenEnd)
  }

  /** The match `find` reports: no match starts earlier. */
  ghost predicate IsFoundCredential(s: string, r: CredentialMatch)
  {
    IsCredentialMatch(s, r) && forall m :: IsCredentialMatch(s, m) ==> r.start <= m.start
  }

  /** The pattern tried at position p. Group 1's greedy `[^:]+` runs to the first `:`; giving
      characters back would leave a non-`:` where the `:` must be, so only the whole run can
      succeed. Group 2 and the `@` after it behave the same way. */
  function MatchCredentialAt(s: string, p: nat): (r: Option<CredentialMatch>)
    ensures r.Some? ==> IsCredentialMatch(s, r.value) && r.value.start == p
  {
    if !HasAt(s, p, "https://") then None
    else
      var ue := RunEnd(s, p + 8, ':');
      if ue == p + 8 || ue == |s| then None
      else
        var te := RunEnd(s, ue + 1, '@');
        if te == ue + 1 || !HostAt(s, te) then None
        else Some(CredentialMatch(p, ue, te))
  }

  /** There is at most one match at each position, and MatchCredentialAt finds it. */
  lemma MatchCredentialAtComplete(s: string, m: CredentialMatch)
    requires IsCredentialMatch(s, m)
    ensures MatchCredentialAt(s, m.start) == Some(m)
  {
    HasAtFirst(s, m.userEnd, ":");
    RunEndUnique(s, m.start + 8, m.userEnd, ':');
    HasAtFirst(s, m.tokenEnd, "@github");
    RunEndUnique(s, m.userEnd + 1, m.tokenEnd, '@');
  }

  /** Kotlin's `Regex.find(text)`: the first start position, from p on, at which the pattern
      matches. */
  function FindCredential(s: string, p: nat): (r: Option<CredentialMatch>)
    requires p <= |s|
    ensures r.Some? ==> p <= r.value.start && MatchCredentialAt(s, r.value.start) == r
    ensures forall q: nat :: p <= q < (if r.Some? then r.value.start else |s| + 1) ==> MatchCredentialAt(s, q).None?
    decreases |s| - p
  {
    match MatchCredentialAt(s, p)
    case Some(m) => Some(m)
    case None => if p == |s| then None else FindCredential(s, p + 1)
  }

  /** `find` on the whole text returns the leftmost match, and returns nothing only when there
      is no match at all. */
  lemma {:induction false} FindCredentialIsFirst(s: string, m: CredentialMatch)
    requires IsCredentialMatch(s, m)
    ensures FindCredential(s, 0).Some?
    ensures IsFoundCredential(s, FindCredential(s, 0).value)
  {
    MatchCredentialAtComplete(s, m);
    forall m' | IsCredentialMatch(s, m') ensures FindCredential(s, 0).value.start <= m'.start {
      MatchCredentialAtComplete(s, m');
    }
  }

  /** `getToken`, given the credential file if it exists: group 2 of the first match, or "".
      What it returns never holds an `@`, so a token with an `@` never reads back. */
  function GetToken(file: Option<string>): (token: string)
    ensures file.None? ==> token == ""
    ensures '@' !in token
  {
    match file
    case None => ""
    case Some(text) =>
      match FindCredential(text, 0)
      case Some(m) =>
        AvoidsSlice(text, m.userEnd + 1, m.tokenEnd, '@');
        text[m.userEnd + 1..m.tokenEnd]
      case None => ""
  }

  /** When the text holds a match, the token read is group 2 of the leftmost one. */
  lemma GetTokenReadsFoundMatch(text: string, r: CredentialMatch)
    requires IsFoundCredential(text, r)
    ensures GetToken(Some(text)) == text[r.userEnd + 1..r.tokenEnd]
  {
    FindCredentialIsFirst(text, r);
    var f := FindCredential(text, 0).value;
    assert f.start == r.start;
    MatchCredentialAtComplete(text, r);
    assert f == r;
  }

  /** When nothing in the text matches, the token read is "". */
  lemma GetTokenWithoutMatch(text: string)
    requires forall m :: !IsCredentialMatch(text, m)
    ensures GetToken(Some(text)) == ""
  {
  }

  /** Where the pieces of the credential line lie. */
  lemma RenderCredentialPieces(username: string, token: string)
    ensures var s, u, t := RenderCredential(username, token), |username|, |token|;
      |s| == 20 + u + t
      && s[..8] == Scheme && s[8..8 + u] == username && s[8 + u] == ':'
      && s[9 + u..9 + u + t] == token && s[9 + u + t..] == Host
  {
  }

  /** The line starts with `https://`, and the `:` follows the user name. */
  lemma RenderCredentialScheme(username: string, token: string)
    ensures var s := RenderCredential(username, token);
      HasAt(s, 0, "https://") && HasAt(s, 8 + |username|, ":")
  {
    var s, u := RenderCredential(username, token), |username|;
    RenderCredentialPieces(username, token);
    HasAtInSlice(s, 0, 8, Scheme, 0, "https://");
    assert s[8 + u..9 + u] == [s[8 + u]];
  }

  /** The line ends with `@github.com` right after the token. */
  lemma RenderCredentialHost(username: string, token: string)
    ensures HostAt(RenderCredential(username, token), 9 + |username| + |token|)
  {
    var s, u, t := RenderCredential(username, token), |username|, |token|;
    RenderCredentialPieces(username, token);
    HasAtInSlice(s, 9 + u + t, |s|, Host, 0, "@github");
    CharInSlice(s, 9 + u + t, |s|, Host, 16 + u + t);
    HasAtInSlice(s, 9 + u + t, |s|, Host, 8, "com");
  }

  /** For a non-empty user name without `:` and a non-empty token without `@`, the credential
      line is one match of the pattern with the user name and the token as its groups. */
  lemma RenderCredentialLayout(username: string, token: string)
    requires |username| > 0 && ':' !in username
    requires |token| > 0 && '@' !in token
    ensures var u, t := |username|, |token|;
      IsCredentialMatch(RenderCredential(username, token), CredentialMatch(0, 8 + u, 9 + u + t))
  {
    var s, u, t := RenderCredential(username, token), |username|, |token|;
    RenderCredentialPieces(username, token);
    RenderCredentialScheme(username, token);
    RenderCredentialHost(username, token);
    forall k | 8 <= k < 8 + u ensures s[k] != ':' {
      CharInSlice(s, 8, 8 + u, username, k);
    }
    forall k | 9 + u <= k < 9 + u + t ensures s[k] != '@' {
      CharInSlice(s, 9 + u, 9 + u + t, token, k);
    }
  }

  /** Reading back the line updateToken wrote gives the written token, for a non-empty user
      name without `:` and a non-empty token without `@`. */
  lemma CredentialRoundTrip(username: string, token: string)
    requires |username| > 0 && ':' !in username
    requires |token| > 0 && '@' !in token
    ensures GetToken(Some(RenderCredential(username, token))) == token
  {
    var s, u, t := RenderCredential(username, token), |username|, |token|;
    RenderCredentialLayout(username, token);
    MatchCredentialAtComplete(s, CredentialMatch(0, 8 + u, 9 + u + t));
    RenderCredentialPieces(username, token);
  }

  /** With an empty user name nothing matches at the start of the line, and any later match
      is too short to hold the whole token: a non-empty token never reads back. */
  lemma EmptyUserNameLosesToken(token: string)
    requires |token| > 0
    ensures GetToken(Some(RenderCredential("", token))) != token
  {
    var s := RenderCredential("", token);
    RenderCredentialPieces("", token);
    match FindCredential(s, 0)
    case None =>
    case Some(m) =>
      assert s[8] == ':';
      assert m.start != 0;
  }

  /** A `:` in the user name ends group 1 early, and the rest of the user name becomes part of
      the token read back. */
  lemma ColonInUserNameShiftsToken()
    ensures GetToken(Some(RenderCredential("a:b", "ghp_x"))) == "b:ghp_x"
  {
    var s := RenderCredential("a:b", "ghp_x");
    RenderCredentialPieces("a:b", "ghp_x");
    RenderCredentialScheme("a:b", "ghp_x");
    RenderCredentialHost("a:b", "ghp_x");
    CharInSlice(s, 8, 11, "a:b", 8);
    CharInSlice(s, 8, 11, "a:b", 9);
    CharInSlice(s, 8, 11, "a:b", 10);
    assert s[9..10] == [s[9]];
    forall k | 12 <= k < 17 ensures s[k] != '@' {
      CharInSlice(s, 12, 17, "ghp_x", k);
    }
    var m := CredentialMatch(0, 9, 17);
    assert IsCredentialMatch(s, m);
    MatchCredentialAtComplete(s, m);
    assert s[10..17] == [s[10], s[11]] + s[12..17];
  }
}
