# Git settings screen of the editor, in Dafny

This project models the Git settings screen of the Android editor (`SettingsGitScreen.kt`).
The screen shows three committed values: the Git user name, the email and a GitHub token.
It edits each of them through an input dialog and writes them to two files in the app's
files directory:

- `.gitconfig`: `updateConfig` overwrites it with a fixed template that holds the name
  and the email. `loadGitConfig` reads the pair back with one `Regex.find` of
  `\[user]\s*name\s*=\s*(\S+)\s*email\s*=\s*(\S+)`. It falls back to
  ("root", "example@mail.com") when the file is missing, cannot be read, or holds no match.
- `.git-credentials`: `updateToken` overwrites it with
  `https://<username>:<token>@github.com`. `getToken` reads group 2 of the first match of
  `https://([^:]+):([^@]+)@github.com`, or "" when there is none.

The project has four modules:

- `Scan` (scan.dfy): the character classes and scanning steps that both patterns use,
  with java.util.regex semantics, and Kotlin's `String.contains`.
- `GitConfig` (git_config.dfy): the template, an explicit matcher for the identity
  pattern, a declarative reference definition of "a match" (`IsIdentityMatch`), and the
  proofs that the matcher finds the leftmost match that backtracking prefers. It also
  proves that writing a name and an email and loading them back gives the pair back
  exactly when both are words, that is, non-empty and free of whitespace.
- `GitCredentials` (git_credentials.dfy): the credential line and an explicit matcher for its
  pattern, with a declarative reference definition (`IsCredentialMatch`). It proves that
  `find` returns the leftmost match and that a token read never contains `@`. The token
  reads back when the user name is non-empty without `:` and the token is non-empty without
  `@`; this condition is sufficient, not necessary, because a match can start inside the
  user name. With an empty user name a non-empty token is lost, and one example shows a `:`
  in the user name shifting part of it into the token read back.
- `SettingsGit` (settings_git.dfy): the screen as a class. Each state variable is a field.
  The two files are fields of type `Option<string>`. Each callback (the load effect, a
  tap on an entry, an edit, and each dialog's confirm and dismiss) is a method. The methods
  state their whole new state and when the committed values stay "in sync", that is, equal
  to what reading the files back would show.

Wrappers (wrappers.dfy) holds the `Option` datatype.

Some operations can fail. Reading an existing `.gitconfig` can throw; this is the
`configReadFails` parameter of `Load`. Each write inside a confirm's `runCatching` can
throw; this is the `writeFails` parameter of the confirm methods. When a write throws,
nothing is committed and the dialog still closes.

## Model

| member | source | states |
|---|---|---|
| Scan.IsSpace | app/src/main/java/com/rk/xededitor/ui/screens/settings/git/SettingsGitScreen.kt:196 | `\s` of java.util.regex without UNICODE_CHARACTER_CLASS: space, tab, line feed, vertical tab, form feed, carriage return |
| Scan.IsLineTerminator | app/src/main/java/com/rk/xededitor/ui/screens/settings/git/SettingsGitScreen.kt:240 | the characters the unescaped `.` refuses: line feed, carriage return, U+0085, U+2028, U+2029 |
| Scan.Contains | app/src/main/java/com/rk/xededitor/ui/screens/settings/git/SettingsGitScreen.kt:165 | Kotlin's `String.contains`: the second string occurs somewhere in the first |
| Scan.SkipSpaces | app/src/main/java/com/rk/xededitor/ui/screens/settings/git/SettingsGitScreen.kt:196 | `\s*` consumes exactly the maximal run of whitespace from i |
| Scan.SkipSpacesUnique | app/src/main/java/com/rk/xededitor/ui/screens/settings/git/SettingsGitScreen.kt:196 | any whitespace run ending before a non-space is the one SkipSpaces finds |
| Scan.WordEnd | app/src/main/java/com/rk/xededitor/ui/screens/settings/git/SettingsGitScreen.kt:196 | `(\S+)` can extend exactly to the maximal run of non-whitespace |
| Scan.WordEndCovers | app/src/main/java/com/rk/xededitor/ui/screens/settings/git/SettingsGitScreen.kt:196 | every non-whitespace run from i ends within WordEnd |
| Scan.NonSpacesStopAt | app/src/main/java/com/rk/xededitor/ui/screens/settings/git/SettingsGitScreen.kt:196 | a non-whitespace run cannot cross a whitespace character |
| Scan.RunEnd | app/src/main/java/com/rk/xededitor/ui/screens/settings/git/SettingsGitScreen.kt:240 | `[^c]+` runs to the first c (or the end) and never contains c |
| Scan.RunEndUnique | app/src/main/java/com/rk/xededitor/ui/screens/settings/git/SettingsGitScreen.kt:240 | a c-free run ending at a c is the one RunEnd finds |
| Scan.ContainsSingle | app/src/main/java/com/rk/xededitor/ui/screens/settings/git/SettingsGitScreen.kt:131 | `contains(" ")` holds exactly when the character is in the string |
| GitConfig.RenderConfig | app/src/main/java/com/rk/xededitor/ui/screens/settings/git/SettingsGitScreen.kt:209-225 | the text updateConfig writes: the `[user]` lines with the name and the email, then the `[color]` and `[credential]` sections |
| GitConfig.IsIdentityMatch | app/src/main/java/com/rk/xededitor/ui/screens/settings/git/SettingsGitScreen.kt:196 | reference definition: the layout of one match of the identity pattern in the text, group 1 and group 2 non-empty runs without whitespace |
| GitConfig.Outranks | app/src/main/java/com/rk/xededitor/ui/screens/settings/git/SettingsGitScreen.kt:196 | the preference of backtracking between two matches at one position: the longer name, then the longer email |
| GitConfig.IsFoundMatch | app/src/main/java/com/rk/xededitor/ui/screens/settings/git/SettingsGitScreen.kt:196 | what `find` reports: a match no other match starts before, and that outranks every other match at its start |
| GitConfig.Captures | app/src/main/java/com/rk/xededitor/ui/screens/settings/git/SettingsGitScreen.kt:197-198 | the two groups of any match are words |
| GitConfig.HeadAt | app/src/main/java/com/rk/xededitor/ui/screens/settings/git/SettingsGitScreen.kt:196 | a result is a real match of `\[user]\s*name\s*=\s*` at p |
| GitConfig.HeadAtComplete | app/src/main/java/com/rk/xededitor/ui/screens/settings/git/SettingsGitScreen.kt:196 | every head that is followed by a non-space is the one HeadAt returns |
| GitConfig.TailFrom | app/src/main/java/com/rk/xededitor/ui/screens/settings/git/SettingsGitScreen.kt:196 | a result is a real match of `\s*email\s*=\s*(\S+)` with group 2 maximal |
| GitConfig.TailFromComplete | app/src/main/java/com/rk/xededitor/ui/screens/settings/git/SettingsGitScreen.kt:196 | whenever the tail can match from q, TailFrom finds it, with an email at least as long |
| GitConfig.ShrinkName | app/src/main/java/com/rk/xededitor/ui/screens/settings/git/SettingsGitScreen.kt:196 | backtracking group 1 returns the longest name after which the tail matches; no longer one works |
| GitConfig.MatchIdentityAt | app/src/main/java/com/rk/xededitor/ui/screens/settings/git/SettingsGitScreen.kt:196 | a result is a real match starting at p |
| GitConfig.MatchIdentityAtGreedy | app/src/main/java/com/rk/xededitor/ui/screens/settings/git/SettingsGitScreen.kt:196 | whenever some match starts at p, one is found and it outranks every other there (longest name, then longest email) |
| GitConfig.MatchIdentityAtMaximal | app/src/main/java/com/rk/xededitor/ui/screens/settings/git/SettingsGitScreen.kt:196 | a match whose groups are maximal runs is exactly the one found at its start |
| GitConfig.FindIdentity | app/src/main/java/com/rk/xededitor/ui/screens/settings/git/SettingsGitScreen.kt:196 | `find` returns the first position from p where the pattern matches, and none before it |
| GitConfig.FindIdentityIsFirst | app/src/main/java/com/rk/xededitor/ui/screens/settings/git/SettingsGitScreen.kt:196 | whenever any match exists, `find` returns the leftmost one that backtracking prefers |
| GitConfig.FindIdentityOfMaximal | app/src/main/java/com/rk/xededitor/ui/screens/settings/git/SettingsGitScreen.kt:196 | a maximal match at position 0 is the one `find` returns |
| GitConfig.MatchDeterminedBySpan | app/src/main/java/com/rk/xededitor/ui/screens/settings/git/SettingsGitScreen.kt:196 | two matches with the same start and group ends are equal |
| GitConfig.FoundMatchUnique | app/src/main/java/com/rk/xededitor/ui/screens/settings/git/SettingsGitScreen.kt:196 | the match `find` reports is unique |
| GitConfig.LoadGitConfig | app/src/main/java/com/rk/xededitor/ui/screens/settings/git/SettingsGitScreen.kt:189-207 | the loaded pair is two words; a missing or unreadable file gives the defaults |
| GitConfig.LoadGitConfigReadsFoundMatch | app/src/main/java/com/rk/xededitor/ui/screens/settings/git/SettingsGitScreen.kt:195-199 | the loaded pair is the two groups of the reported match |
| GitConfig.LoadGitConfigWithoutMatch | app/src/main/java/com/rk/xededitor/ui/screens/settings/git/SettingsGitScreen.kt:197-198 | a text without any match gives the defaults |
| GitConfig.LoadMaximalMatch | app/src/main/java/com/rk/xededitor/ui/screens/settings/git/SettingsGitScreen.kt:195-199 | a maximal match at the start of the text is what is loaded |
| GitConfig.RenderConfigPieces | app/src/main/java/com/rk/xededitor/ui/screens/settings/git/SettingsGitScreen.kt:209-225 | the written text is the template: header, name, email line, email, newline, then the `[color]` and `[credential]` sections |
| GitConfig.LoadTemplate | app/src/main/java/com/rk/xededitor/ui/screens/settings/git/SettingsGitScreen.kt:189-225 | any text laid out like the template with two words loads as those words |
| GitConfig.IdentityRoundTrip | app/src/main/java/com/rk/xededitor/ui/screens/settings/git/SettingsGitScreen.kt:189-225 | loading what updateConfig wrote gives back the name and email when both are words |
| GitConfig.IdentityRoundTripOnlyForWords | app/src/main/java/com/rk/xededitor/ui/screens/settings/git/SettingsGitScreen.kt:189-225 | the round trip holds if and only if both name and email are words |
| GitCredentials.RenderCredential | app/src/main/java/com/rk/xededitor/ui/screens/settings/git/SettingsGitScreen.kt:227-230 | the text updateToken writes: `https://`, the user name, `:`, the token, `@github.com` |
| GitCredentials.HostAt | app/src/main/java/com/rk/xededitor/ui/screens/settings/git/SettingsGitScreen.kt:240 | `@github.com` as the pattern reads it: the unescaped `.` takes any character but a line terminator |
| GitCredentials.IsCredentialMatch | app/src/main/java/com/rk/xededitor/ui/screens/settings/git/SettingsGitScreen.kt:240 | reference definition: the layout of one match of the credential pattern, group 1 free of `:`, group 2 free of `@`, both non-empty |
| GitCredentials.IsFoundCredential | app/src/main/java/com/rk/xededitor/ui/screens/settings/git/SettingsGitScreen.kt:241 | what `find` reports: a match no other match starts before |
| GitCredentials.MatchCredentialAt | app/src/main/java/com/rk/xededitor/ui/screens/settings/git/SettingsGitScreen.kt:240 | a result is a real match of the credential pattern at p |
| GitCredentials.MatchCredentialAtComplete | app/src/main/java/com/rk/xededitor/ui/screens/settings/git/SettingsGitScreen.kt:240 | every match at p is the one MatchCredentialAt returns, so the match there is unique |
| GitCredentials.FindCredential | app/src/main/java/com/rk/xededitor/ui/screens/settings/git/SettingsGitScreen.kt:241 | `find` returns the first position from p where the pattern matches, and none before it |
| GitCredentials.FindCredentialIsFirst | app/src/main/java/com/rk/xededitor/ui/screens/settings/git/SettingsGitScreen.kt:241 | whenever any match exists, `find` returns the leftmost one |
| GitCredentials.GetToken | app/src/main/java/com/rk/xededitor/ui/screens/settings/git/SettingsGitScreen.kt:236-246 | a missing file gives ""; a token read never contains `@` |
| GitCredentials.GetTokenReadsFoundMatch | app/src/main/java/com/rk/xededitor/ui/screens/settings/git/SettingsGitScreen.kt:241-242 | the token is group 2 of the leftmost match |
| GitCredentials.GetTokenWithoutMatch | app/src/main/java/com/rk/xededitor/ui/screens/settings/git/SettingsGitScreen.kt:242 | a text without any match gives "" |
| GitCredentials.CredentialRoundTrip | app/src/main/java/com/rk/xededitor/ui/screens/settings/git/SettingsGitScreen.kt:227-246 | reading back what updateToken wrote gives the token, for a non-empty user name without `:` and a non-empty token without `@` |
| GitCredentials.EmptyUserNameLosesToken | app/src/main/java/com/rk/xededitor/ui/screens/settings/git/SettingsGitScreen.kt:227-246 | with an empty user name a non-empty token never reads back, since `([^:]+)` cannot match an empty name |
| GitCredentials.ColonInUserNameShiftsToken | app/src/main/java/com/rk/xededitor/ui/screens/settings/git/SettingsGitScreen.kt:227-246 | with user name "a:b" and token "ghp_x" the token read back is "b:ghp_x" |
| SettingsGit.ConfigRead | app/src/main/java/com/rk/xededitor/ui/screens/settings/git/SettingsGitScreen.kt:191-205 | the read is Missing exactly for an absent file and Contents exactly for a present file that reads |
| SettingsGit.GitSettingsScreen.constructor | app/src/main/java/com/rk/xededitor/ui/screens/settings/git/SettingsGitScreen.kt:37-48 | the initial state: defaults, empty inputs, closed dialogs, loading |
| SettingsGit.GitSettingsScreen.UpdateConfig | app/src/main/java/com/rk/xededitor/ui/screens/settings/git/SettingsGitScreen.kt:209-225 | `.gitconfig` becomes the template with the given name and email |
| SettingsGit.GitSettingsScreen.UpdateToken | app/src/main/java/com/rk/xededitor/ui/screens/settings/git/SettingsGitScreen.kt:227-230 | `.git-credentials` becomes the credential line |
| SettingsGit.GitSettingsScreen.LoadIdentity | app/src/main/java/com/rk/xededitor/ui/screens/settings/git/SettingsGitScreen.kt:51-57 | the committed identity and its inputs are what loadGitConfig gives |
| SettingsGit.GitSettingsScreen.LoadToken | app/src/main/java/com/rk/xededitor/ui/screens/settings/git/SettingsGitScreen.kt:54-58 | the committed token and its input are what getToken gives |
| SettingsGit.GitSettingsScreen.Load | app/src/main/java/com/rk/xededitor/ui/screens/settings/git/SettingsGitScreen.kt:50-61 | after loading, the committed values are what the files read back, the inputs equal them, both identity values are words, and loading is over |
| SettingsGit.GitSettingsScreen.OpenUserNameDialog | app/src/main/java/com/rk/xededitor/ui/screens/settings/git/SettingsGitScreen.kt:73-75 | only the user name dialog flag changes, to shown |
| SettingsGit.GitSettingsScreen.OpenEmailDialog | app/src/main/java/com/rk/xededitor/ui/screens/settings/git/SettingsGitScreen.kt:80-82 | only the email dialog flag changes, to shown |
| SettingsGit.GitSettingsScreen.OpenTokenDialog | app/src/main/java/com/rk/xededitor/ui/screens/settings/git/SettingsGitScreen.kt:87-89 | only the token dialog flag changes, to shown |
| SettingsGit.GitSettingsScreen.EditEmail | app/src/main/java/com/rk/xededitor/ui/screens/settings/git/SettingsGitScreen.kt:99-101 | only the email input changes, to the text |
| SettingsGit.GitSettingsScreen.EditUserName | app/src/main/java/com/rk/xededitor/ui/screens/settings/git/SettingsGitScreen.kt:126-128 | only the user name input changes, to the text |
| SettingsGit.GitSettingsScreen.EditToken | app/src/main/java/com/rk/xededitor/ui/screens/settings/git/SettingsGitScreen.kt:160-162 | only the token input changes, to the text |
| SettingsGit.GitSettingsScreen.ConfirmEmail | app/src/main/java/com/rk/xededitor/ui/screens/settings/git/SettingsGitScreen.kt:102-113 | a valid email is written with the committed name and committed; an invalid one resets the input; a failed write commits nothing; sync is kept when valid emails are words |
| SettingsGit.GitSettingsScreen.DismissEmail | app/src/main/java/com/rk/xededitor/ui/screens/settings/git/SettingsGitScreen.kt:114-117 | the dialog closes and the input goes back to the committed email |
| SettingsGit.GitSettingsScreen.ConfirmUserName | app/src/main/java/com/rk/xededitor/ui/screens/settings/git/SettingsGitScreen.kt:129-142 | the gate looks at the committed name: with no space in it the input is written and committed whatever it is, unless the write fails, which commits nothing; with a space the input is reset; while in sync every input is committed unless the write fails |
| SettingsGit.GitSettingsScreen.DismissUserName | app/src/main/java/com/rk/xededitor/ui/screens/settings/git/SettingsGitScreen.kt:143-146 | the dialog closes and the input goes back to the committed name |
| SettingsGit.GitSettingsScreen.ConfirmToken | app/src/main/java/com/rk/xededitor/ui/screens/settings/git/SettingsGitScreen.kt:163-176 | a token containing "ghp" is written with the committed name and committed, unless the write fails, which commits nothing; any other resets the input; the token stays in sync for a non-empty name without `:` and a token without `@` |
| SettingsGit.GitSettingsScreen.DismissToken | app/src/main/java/com/rk/xededitor/ui/screens/settings/git/SettingsGitScreen.kt:177-181 | the dialog closes and the input goes back to the committed token |
| SettingsGit.UserNameCheckCounterexample | app/src/main/java/com/rk/xededitor/ui/screens/settings/git/SettingsGitScreen.kt:129-142 | a name with a space is committed although the file does not read back as it, and every later name is then refused |
| SettingsGit.GitSettingsScreen.ConfirmUserNameValidated | app/src/main/java/com/rk/xededitor/ui/screens/settings/git/SettingsGitScreen.kt:129-142 | the corrected gate: only a word is written and committed, and sync is always kept |
| SettingsGit.ValidatedRefusesSpacedName | app/src/main/java/com/rk/xededitor/ui/screens/settings/git/SettingsGitScreen.kt:129-142 | with the corrected gate a name with a space is refused and the committed name still reads back |
| SettingsGit.ValidatedCommitsWord | app/src/main/java/com/rk/xededitor/ui/screens/settings/git/SettingsGitScreen.kt:129-142 | with the corrected gate a word is committed and reads back as itself |

## Left out

- The Compose UI is not modelled: layout, the progress indicator, toasts, `FLAG_SECURE` on the window while the token dialog shows, and the coroutine dispatchers. Each callback is one atomic method. A callback's precondition is that its dialog or entry is on screen.
- File I/O is modelled as the files' whole contents. A read of `.gitconfig` that throws is the `configReadFails` parameter, and a write that throws is the `writeFails` parameter. A partial write, or `createFileIfNot` succeeding before `writeText` fails, is not modelled.
- `getToken` has no `runCatching`, so a read of `.git-credentials` that throws propagates out of the load effect. That exception is not modelled: reading that file always succeeds.
- `isValidEmail` defers to Android's `Patterns.EMAIL_ADDRESS`. That pattern is not part of this model, so the screen takes the validator as a constructor parameter.
- The patterns follow java.util.regex on the JVM: `\s` is [ \t\n\x0B\f\r], and the unescaped `.` in `github.com` takes any character except \n, \r, U+0085, U+2028 and U+2029. Differences in Android's ICU-based regex engine are not modelled.
- Kotlin strings are UTF-16 and may hold unpaired surrogates, which java.util.regex reads as single non-whitespace code points; a Dafny `string` cannot hold them, so such file contents are not modelled.
- `child` and `createFileIfNot` (file helpers outside the screen) are not part of this model; a file is the value of its contents.
- SettingsGit.GitSettingsScreen.ConfirmEmail: keeping the identity in sync is proved only for a validator whose valid emails are words, because the model does not know `Patterns.EMAIL_ADDRESS`.
- SettingsGit.GitSettingsScreen.ConfirmToken: the stated sync condition (a non-empty name without `:`, a token without `@`) is sufficient, not necessary.
- GitCredentials.ColonInUserNameShiftsToken: shows the shifted token for one concrete name and token, not for every name with a colon.

## Findings

| source | as written | input that shows it | evidently intended | confidence | as-written member | corrected member |
|---|---|---|---|---|---|---|
| app/src/main/java/com/rk/xededitor/ui/screens/settings/git/SettingsGitScreen.kt:131 | the user name confirm checks `username.contains(" ")`, the committed name, instead of the name being confirmed | committed name "root", confirm "john doe": it is committed, but `.gitconfig` then holds `name = john doe`, where `\s*email` meets "doe" after any group 1, so no match exists and a reload gives the defaults ("root", "example@mail.com"), losing a committed email too; every later name is refused because the committed name now has a space | refuse a confirmed name that `(\S+)` cannot read back: an empty name or one holding any whitespace (space, tab, line break) | high; not executed | SettingsGit.UserNameCheckCounterexample | SettingsGit.GitSettingsScreen.ConfirmUserNameValidated |
