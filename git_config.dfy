/**
 * The Git identity file `.gitconfig` of the settings screen: `updateConfig` writes a fixed
 * template holding a name and an email, and `loadGitConfig` reads the pair back with one
 * `Regex.find` of
 *
 *     \[user]\s*name\s*=\s*(\S+)\s*email\s*=\s*(\S+)
 *
 * falling back to ("root", "example@mail.com") when the file is missing, cannot be read, or
 * holds no match.
 *
 * The pattern is matched by explicit functions over positions (HeadAt, TailFrom, ShrinkName,
 * MatchIdentityAt, FindIdentity). IsIdentityMatch is the independent reference: every way the
 * pattern can match, written as a layout of the text. The lemmas show that the functions
 * return a real match, the leftmost one, and among the matches at that position the one that
 * Java's backtracking prefers (the longest name, then the longest email).
 */
module GitConfig {
  import opened Wrappers
  import opened Scan

  datatype Identity = Identity(name: string, email: string)

  /** What the screen shows, and what loadGitConfig returns, when there is nothing to read. */
  const DefaultIdentity := Identity("root", "example@mail.com")

  /** The outcome of reading `.gitconfig`: no such file, a read that threw, or the file's text. */
  datatype FileRead = Missing | ReadError | Contents(text: string)

  /** The fixed pieces of the template around the two values: the `[user]` section's lines,
      then the `[color]` and `[credential]` sections, which are never read back. */
  const UserHeader: string := "[user]\n name = "
  const EmailLine: string := "\n email = "
  const OtherSections: string :=
    "[color]\n ui = true\n status = true\n branch = true\n diff = true\n interactive = true\n[credential]\n helper = store\n"
  const ConfigTail: string := "\n" + OtherSections

  /** The whole text `updateConfig` writes over `.gitconfig`. */
  function RenderConfig(name: string, email: string): (text: string)
  {
    UserHeader + name + EmailLine + email + ConfigTail
  }

  /** Where each piece of one match of the pattern lies: `[user]` at start, `name` at nameKey,
      the first `=` at nameEq, group 1 is s[nameStart..nameEnd], `email` at emailKey, the
      second `=` at emailEq, group 2 is s[emailStart..emailEnd]. */
  datatype IdentityMatch = IdentityMatch(
    start: nat, nameKey: nat, nameEq: nat, nameStart: nat, nameEnd: nat,
    emailKey: nat, emailEq: nat, emailStart: nat, emailEnd: nat)

  /** The positions that the part of a match after group 1 fixes. */
  datatype Tail = Tail(emailKey: nat, emailEq: nat, emailStart: nat, emailEnd: nat)

  /** `\[user]\s*name\s*=\s*` matches s[start..nameStart]. */
  ghost predicate IsHead(s: string, start: nat, nameKey: nat, nameEq: nat, nameStart: nat)
  {
    HasAt(s, start, "[user]") && Spaces(s, start + 6, nameKey) && HasAt(s, nameKey, "name")
    && Spaces(s, nameKey + 4, nameEq) && HasAt(s, nameEq, "=") && Spaces(s, nameEq + 1, nameStart)
  }

  /** `\s*email\s*=\s*(\S+)` matches s[from..t.emailEnd]. */
  ghost predicate IsTail(s: string, from: nat, t: Tail)
  {
    Spaces(s, from, t.emailKey) && HasAt(s, t.emailKey, "email")
    && Spaces(s, t.emailKey + 5, t.emailEq) && HasAt(s, t.emailEq, "=")
    && Spaces(s, t.emailEq + 1, t.emailStart)
    && t.emailStart < t.emailEnd && NonSpaces(s, t.emailStart, t.emailEnd)
  }

  function TailOf(m: IdentityMatch): (t: Tail)
  {
    Tail(m.emailKey, m.emailEq, m.emailStart, m.emailEnd)
  }

  /** The whole pattern matches s[m.start..m.emailEnd] with the layout m: the reference
      definition of "a match", independent of any search order. */
  ghost predicate IsIdentityMatch(s: string, m: IdentityMatch)
  {
    IsHead(s, m.start, m.nameKey, m.nameEq, m.nameStart)
    && m.nameStart < m.nameEnd && NonSpaces(s, m.nameStart, m.nameEnd)
    && IsTail(s, m.nameEnd, TailOf(m))
  }

  /** The backtracking order of the greedy groups: a longer group 1 is tried first, and with
      the same group 1 a longer group 2. `a` comes no later than `b` in that order. */
  predicate Outranks(a: IdentityMatch, b: IdentityMatch)
  {
    a.nameEnd > b.nameEnd || (a.nameEnd == b.nameEnd && a.emailEnd >= b.emailEnd)
  }

  /** The match `find` reports: no match starts earlier, and none at the same start is
      preferred by the backtracking order. */
  ghost predicate IsFoundMatch(s: string, r: IdentityMatch)
  {
    IsIdentityMatch(s, r)
    && forall m :: IsIdentityMatch(s, m) ==> r.start < m.start || (r.start == m.start && Outranks(r, m))
  }

  /** The two groups of a match, as loadGitConfig reads them. */
  function Captures(s: string, m: IdentityMatch): (id: Identity)
    requires IsIdentityMatch(s, m)
    ensures IsWord(id.name) && IsWord(id.email)
  {
    Identity(s[m.nameStart..m.nameEnd], s[m.emailStart..m.emailEnd])
  }

  /** The deterministic prefix `\[user]\s*name\s*=\s*` at p: every `\s*` here is followed by a
      non-space character or by group 1, so it can only stop at the end of its run. */
  function HeadAt(s: string, p: nat): (r: Option<(nat, nat, nat)>)
    ensures r.Some? ==> IsHead(s, p, r.value.0, r.value.1, r.value.2)
  {
    if !HasAt(s, p, "[user]") then None
    else
      var key := SkipSpaces(s, p + 6);
      if !HasAt(s, key, "name") then None
      else
        var eq := SkipSpaces(s, key + 4);
        if !HasAt(s, eq, "=") then None
        else Some((key, eq, SkipSpaces(s, eq + 1)))
  }

  /** `\s*email\s*=\s*(\S+)` from q: the part after group 1. Nothing follows group 2, so its
      greedy first try, the whole run, is what is kept. */
  function TailFrom(s: string, q: nat): (r: Option<Tail>)
    requires q <= |s|
    ensures r.Some? ==> IsTail(s, q, r.value)
    ensures r.Some? ==> r.value.emailEnd == |s| || IsSpace(s[r.value.emailEnd])
  {
    var key := SkipSpaces(s, q);
    if !HasAt(s, key, "email") then None
    else
      var eq := SkipSpaces(s, key + 5);
      if !HasAt(s, eq, "=") then None
      else
        var st := SkipSpaces(s, eq + 1);
        var en := WordEnd(s, st);
        if st < en then Some(Tail(key, eq, st, en)) else None
  }

  /** Whatever way the tail can match from q, TailFrom finds it, with the same keyword
      positions and a group 2 at least as long. */
  lemma TailFromComplete(s: string, q: nat, t: Tail)
    requires q <= |s| && IsTail(s, q, t)
    ensures TailFrom(s, q).Some?
    ensures var r := TailFrom(s, q).value;
      r.emailKey == t.emailKey && r.emailEq == t.emailEq && r.emailStart == t.emailStart
      && r.emailEnd >= t.emailEnd
  {
    HasAtFirst(s, t.emailKey, "email");
    SkipSpacesUnique(s, q, t.emailKey);
    HasAtFirst(s, t.emailEq, "=");
    SkipSpacesUnique(s, t.emailKey + 5, t.emailEq);
    SkipSpacesUnique(s, t.emailEq + 1, t.emailStart);
    WordEndCovers(s, t.emailStart, t.emailEnd);
  }

  /** Backtracking of group 1: its greedy `\S+` first takes the run up to e and then gives back
      one character at a time; the first end after which the tail matches is kept. */
  function ShrinkName(s: string, ns: nat, e: nat): (r: Option<(nat, Tail)>)
    requires ns <= e <= |s|
    ensures r.Some? ==> ns < r.value.0 <= e && TailFrom(s, r.value.0) == Some(r.value.1)
    ensures forall k: nat :: (if r.Some? then r.value.0 else ns) < k <= e ==> TailFrom(s, k).None?
    decreases e
  {
    if e <= ns then None
    else
      match TailFrom(s, e)
      case Some(t) => Some((e, t))
      case None => ShrinkName(s, ns, e - 1)
  }

  /** The whole pattern tried at position p, in Java's backtracking order. */
  function MatchIdentityAt(s: string, p: nat): (r: Option<IdentityMatch>)
    ensures r.Some? ==> IsIdentityMatch(s, r.value) && r.value.start == p
  {
    match HeadAt(s, p)
    case None => None
    case Some((key, eq, ns)) =>
      var top := WordEnd(s, ns);
      match ShrinkName(s, ns, top)
      case None => None
      case Some((ne, t)) =>
        Some(IdentityMatch(p, key, eq, ns, ne, t.emailKey, t.emailEq, t.emailStart, t.emailEnd))
  }

  /** The prefix of a match is the only one HeadAt can produce: every `\s*` in it stops where
      its run ends, because a non-space character follows. */
  lemma HeadAtComplete(s: string, p: nat, key: nat, eq: nat, ns: nat)
    requires IsHead(s, p, key, eq, ns) && ns < |s| && !IsSpace(s[ns])
    ensures HeadAt(s, p) == Some((key, eq, ns))
  {
    HasAtFirst(s, key, "name");
    SkipSpacesUnique(s, p + 6, key);
    HasAtFirst(s, eq, "=");
    SkipSpacesUnique(s, key + 4, eq);
    SkipSpacesUnique(s, eq + 1, ns);
  }

  /** Any match at some position is found there, and what is found there is at least as
      preferred: MatchIdentityAt never misses a match and follows the backtracking order. */
  lemma MatchIdentityAtGreedy(s: string, m: IdentityMatch)
    requires IsIdentityMatch(s, m)
    ensures MatchIdentityAt(s, m.start).Some?
    ensures var r := MatchIdentityAt(s, m.start).value;
      Outranks(r, m) && r.nameStart == m.nameStart
      && (r.nameEnd == m.nameEnd ==> TailOf(r) == TailFrom(s, m.nameEnd).value)
  {
    HeadAtComplete(s, m.start, m.nameKey, m.nameEq, m.nameStart);
    var top := WordEnd(s, m.nameStart);
    WordEndCovers(s, m.nameStart, m.nameEnd);
    TailFromComplete(s, m.nameEnd, TailOf(m));
    var t := TailFrom(s, m.nameEnd).value;
    var r := ShrinkName(s, m.nameStart, top);
    assert r.Some? && r.value.0 >= m.nameEnd;
    assert r.value.0 == m.nameEnd ==> r.value.1 == t;
  }

  /** A match whose groups both end at the end of their runs is exactly what MatchIdentityAt
      returns at its start. */
  lemma MatchIdentityAtMaximal(s: string, m: IdentityMatch)
    requires IsIdentityMatch(s, m)
    requires m.nameEnd == |s| || IsSpace(s[m.nameEnd])
    requires m.emailEnd == |s| || IsSpace(s[m.emailEnd])
    ensures MatchIdentityAt(s, m.start) == Some(m)
  {
    MatchIdentityAtGreedy(s, m);
    var r := MatchIdentityAt(s, m.start).value;
    NonSpacesStopAt(s, r.nameStart, r.nameEnd, m.nameEnd);
    TailFromComplete(s, m.nameEnd, TailOf(m));
    NonSpacesStopAt(s, r.emailStart, r.emailEnd, m.emailEnd);
    MatchDeterminedBySpan(s, r, m);
  }

  /** Kotlin's `Regex.find(text)`: the first start position, from p on, at which the pattern
      matches. */
  function FindIdentity(s: string, p: nat): (r: Option<IdentityMatch>)
    requires p <= |s|
    ensures r.Some? ==> p <= r.value.start && MatchIdentityAt(s, r.value.start) == r
    ensures forall q: nat :: p <= q < (if r.Some? then r.value.start else |s| + 1) ==> MatchIdentityAt(s, q).None?
    decreases |s| - p
  {
    match MatchIdentityAt(s, p)
    case Some(m) => Some(m)
    case None => if p == |s| then None else FindIdentity(s, p + 1)
  }

  /** A match at the very start whose groups both end at the end of their runs is the one
      `find` reports. */
  lemma FindIdentityOfMaximal(s: string, m: IdentityMatch)
    requires IsIdentityMatch(s, m) && m.start == 0
    requires m.nameEnd == |s| || IsSpace(s[m.nameEnd])
    requires m.emailEnd == |s| || IsSpace(s[m.emailEnd])
    ensures FindIdentity(s, 0) == Some(m)
  {
    MatchIdentityAtMaximal(s, m);
  }

  /** `find` on the whole text returns the leftmost match and, at that position, the one the
      backtracking order prefers; it returns nothing only when there is no match at all. */
  lemma {:induction false} FindIdentityIsFirst(s: string, m: IdentityMatch)
    requires IsIdentityMatch(s, m)
    ensures FindIdentity(s, 0).Some?
    ensures IsFoundMatch(s, FindIdentity(s, 0).value)
  {
    MatchIdentityAtGreedy(s, m);
    var r := FindIdentity(s, 0).value;
    forall m' | IsIdentityMatch(s, m')
      ensures r.start < m'.start || (r.start == m'.start && Outranks(r, m'))
    {
      MatchIdentityAtGreedy(s, m');
    }
  }

  /** A match is determined by where it starts and where its two groups end: every other
      position in it is forced. */
  lemma MatchDeterminedBySpan(s: string, r1: IdentityMatch, r2: IdentityMatch)
    requires IsIdentityMatch(s, r1) && IsIdentityMatch(s, r2)
    requires r1.start == r2.start && r1.nameEnd == r2.nameEnd && r1.emailEnd == r2.emailEnd
    ensures r1 == r2
  {
    HeadAtComplete(s, r1.start, r1.nameKey, r1.nameEq, r1.nameStart);
    HeadAtComplete(s, r2.start, r2.nameKey, r2.nameEq, r2.nameStart);
    TailFromComplete(s, r1.nameEnd, TailOf(r1));
    TailFromComplete(s, r2.nameEnd, TailOf(r2));
  }

  /** Two matches that are both the one `find` reports are the same match. */
  lemma FoundMatchUnique(s: string, r1: IdentityMatch, r2: IdentityMatch)
    requires IsFoundMatch(s, r1) && IsFoundMatch(s, r2)
    ensures r1 == r2
  {
    assert Outranks(r1, r2) && Outranks(r2, r1);
    MatchDeterminedBySpan(s, r1, r2);
  }

  /** `loadGitConfig`, given what reading `.gitconfig` produced. Both values come from the same
      match or both are the defaults; either way each is a word, as `(\S+)` and the defaults are. */
  function LoadGitConfig(read: FileRead): (id: Identity)
    ensures IsWord(id.name) && IsWord(id.email)
    ensures !read.Contents? ==> id == DefaultIdentity
  {
    match read
    case Contents(text) =>
      (match FindIdentity(text, 0)
       case Some(m) => Captures(text, m)
       case None => DefaultIdentity)
    case _ => DefaultIdentity
  }

  /** Loading a text that starts with a match whose groups both end at the end of their
      runs gives the two groups of that match. */
  lemma LoadMaximalMatch(s: string, m: IdentityMatch)
    requires IsIdentityMatch(s, m) && m.start == 0
    requires m.nameEnd == |s| || IsSpace(s[m.nameEnd])
    requires m.emailEnd == |s| || IsSpace(s[m.emailEnd])
    ensures LoadGitConfig(Contents(s)) == Identity(s[m.nameStart..m.nameEnd], s[m.emailStart..m.emailEnd])
  {
    FindIdentityOfMaximal(s, m);
  }

  /** When the text holds a match, the identity loaded is the pair of groups of the match
      `find` reports: both values come from that one match. */
  lemma LoadGitConfigReadsFoundMatch(text: string, r: IdentityMatch)
    requires IsFoundMatch(text, r)
    ensures LoadGitConfig(Contents(text)) == Captures(text, r)
  {
    FindIdentityIsFirst(text, r);
    FoundMatchUnique(text, r, FindIdentity(text, 0).value);
  }

  /** When nothing in the text matches, both values fall back to the defaults together. */
  lemma LoadGitConfigWithoutMatch(text: string)
    requires forall m :: !IsIdentityMatch(text, m)
    ensures LoadGitConfig(Contents(text)) == DefaultIdentity
  {
  }

  /** `s` starts as the template with `name` and `email` filled in: the pieces that
      updateConfig writes up to the email, at the places it writes them, and the line break
      that ends the email's line. The sections after it play no part in reading back. */
  ghost predicate IsTemplate(s: string, name: string, email: string)
  {
    var n, e := |name|, |email|;
    25 + n + e < |s|
    && s[..15] == UserHeader && s[15..15 + n] == name && s[15 + n..25 + n] == EmailLine
    && s[25 + n..25 + n + e] == email && s[25 + n + e] == '\n'
  }

  /** The text updateConfig writes is the template filled with its two arguments, followed by
      the `[color]` and `[credential]` sections. */
  lemma RenderConfigPieces(name: string, email: string)
    ensures IsTemplate(RenderConfig(name, email), name, email)
    ensures RenderConfig(name, email)[26 + |name| + |email|..] == OtherSections
  {
  }

  /** The template puts `[user]` at 0, `name` at 8, `=` at 13 and the name from 15 on. */
  lemma TemplateHead(s: string, name: string, email: string)
    requires IsTemplate(s, name, email)
    ensures IsHead(s, 0, 8, 13, 15)
  {
    HasAtInSlice(s, 0, 15, UserHeader, 0, "[user]");
    HasAtInSlice(s, 0, 15, UserHeader, 8, "name");
    HasAtInSlice(s, 0, 15, UserHeader, 13, "=");
    CharInSlice(s, 0, 15, UserHeader, 6);
    CharInSlice(s, 0, 15, UserHeader, 7);
    CharInSlice(s, 0, 15, UserHeader, 12);
    CharInSlice(s, 0, 15, UserHeader, 14);
  }

  /** After the name the template puts a line break and a space, `email`, a space, `=` and
      a space. */
  lemma TemplateEmailLine(s: string, name: string, email: string)
    requires IsTemplate(s, name, email)
    ensures var n := |name|;
      Spaces(s, 15 + n, 17 + n) && HasAt(s, 17 + n, "email") && Spaces(s, 22 + n, 23 + n)
      && HasAt(s, 23 + n, "=") && Spaces(s, 24 + n, 25 + n)
  {
    var n := |name|;
    HasAtInSlice(s, 15 + n, 25 + n, EmailLine, 2, "email");
    HasAtInSlice(s, 15 + n, 25 + n, EmailLine, 8, "=");
    CharInSlice(s, 15 + n, 25 + n, EmailLine, 15 + n);
    CharInSlice(s, 15 + n, 25 + n, EmailLine, 16 + n);
    CharInSlice(s, 15 + n, 25 + n, EmailLine, 22 + n);
    CharInSlice(s, 15 + n, 25 + n, EmailLine, 24 + n);
  }

  /** The email, a word, fills s[25 + |name|..25 + |name| + |email|]. */
  lemma TemplateEmail(s: string, name: string, email: string)
    requires IsTemplate(s, name, email) && IsWord(email)
    ensures var n, e := |name|, |email|;
      NonSpaces(s, 25 + n, 25 + n + e)
  {
    var n, e := |name|, |email|;
    forall k | 25 + n <= k < 25 + n + e ensures !IsSpace(s[k]) {
      CharInSlice(s, 25 + n, 25 + n + e, email, k);
    }
  }

  /** So from the end of the name the tail of the pattern matches, with the email as group 2. */
  lemma TemplateTail(s: string, name: string, email: string)
    requires IsTemplate(s, name, email) && IsWord(email)
    ensures var n, e := |name|, |email|;
      IsTail(s, 15 + n, Tail(17 + n, 23 + n, 25 + n, 25 + n + e))
  {
    TemplateEmailLine(s, name, email);
    TemplateEmail(s, name, email);
  }

  /** The name, a word, fills s[15..15 + |name|], and a line break follows it. */
  lemma TemplateName(s: string, name: string, email: string)
    requires IsTemplate(s, name, email) && IsWord(name)
    ensures NonSpaces(s, 15, 15 + |name|) && s[15 + |name|] == '\n'
  {
    var n := |name|;
    forall k | 15 <= k < 15 + n ensures !IsSpace(s[k]) {
      CharInSlice(s, 15, 15 + n, name, k);
    }
    CharInSlice(s, 15 + n, 25 + n, EmailLine, 15 + n);
  }

  /** For a name and an email that are words, the template is one match of the pattern whose
      groups are the name and the email, and each group ends at a line break. */
  lemma TemplateLayout(s: string, name: string, email: string)
    requires IsTemplate(s, name, email) && IsWord(name) && IsWord(email)
    ensures var n, e := |name|, |email|;
      IsIdentityMatch(s, IdentityMatch(0, 8, 13, 15, 15 + n, 17 + n, 23 + n, 25 + n, 25 + n + e))
      && s[15 + n] == '\n' && s[25 + n + e] == '\n'
  {
    TemplateHead(s, name, email);
    TemplateTail(s, name, email);
    TemplateName(s, name, email);
  }

  /** Loading a filled template gives back its name and email. */
  lemma LoadTemplate(s: string, name: string, email: string)
    requires IsTemplate(s, name, email) && IsWord(name) && IsWord(email)
    ensures LoadGitConfig(Contents(s)) == Identity(name, email)
  {
    var n, e := |name|, |email|;
    TemplateLayout(s, name, email);
    LoadMaximalMatch(s, IdentityMatch(0, 8, 13, 15, 15 + n, 17 + n, 23 + n, 25 + n, 25 + n + e));
  }

  /** Reading back what updateConfig wrote gives the written pair, for a name and an email that
      are words. */
  lemma IdentityRoundTrip(name: string, email: string)
    requires IsWord(name) && IsWord(email)
    ensures LoadGitConfig(Contents(RenderConfig(name, email))) == Identity(name, email)
  {
    RenderConfigPieces(name, email);
    LoadTemplate(RenderConfig(name, email), name, email);
  }

  /** The round trip holds exactly for words: a name or an email that is empty or has
      whitespace in it never reads back as itself. */
  lemma IdentityRoundTripOnlyForWords(name: string, email: string)
    ensures LoadGitConfig(Contents(RenderConfig(name, email))) == Identity(name, email)
        <==> IsWord(name) && IsWord(email)
  {
    if IsWord(name) && IsWord(email) {
      IdentityRoundTrip(name, email);
    }
  }
}
