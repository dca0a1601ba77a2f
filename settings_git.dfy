/**
 * The Git settings screen: the committed `username`, `email` and `token`, the text being
 * edited in each of the three input dialogs, the flags that show those dialogs, and the two
 * files the screen overwrites. Each method is one callback of the screen: the load effect
 * that runs when it opens, a tap on a settings entry, an edit in a dialog, and each dialog's
 * confirm and dismiss.
 *
 * IdentityInSync and TokenInSync say that the committed values are what reading the two
 * files back would show.
 * Confirming a value keeps it exactly when what is written reads back as itself; the lemmas
 * of GitConfig and GitCredentials say when that is.
 */
module SettingsGit {
  import opened Wrappers
  import opened Scan
  import opened GitConfig
  import opened GitCredentials

  /** What reading `.gitconfig` gives: the file's text, nothing when it does not exist, or a
      read error when `readFails` says that reading an existing file threw. */
  function ConfigRead(file: Option<string>, readFails: bool): (r: FileRead)
    ensures r.Missing? <==> file.None?
    ensures r.Contents? <==> file.Some? && !readFails
    ensures r.Contents? ==> r.text == file.value
  {
    match file
    case None => Missing
    case Some(text) => if readFails then ReadError else Contents(text)
  }

  /** The committed user name and email are what loading `.gitconfig` again would show. */
  ghost predicate IdentityInSync(gitConfig: Option<string>, username: string, email: string)
  {
    LoadGitConfig(ConfigRead(gitConfig, false)) == Identity(username, email)
  }

  /** The committed token is what reading `.git-credentials` again would show. */
  ghost predicate TokenInSync(gitCredentials: Option<string>, token: string)
  {
    GetToken(gitCredentials) == token
  }

  class GitSettingsScreen {
    var username: string
    var email: string
    var token: string
    var isLoading: bool

    var showEmailDialog: bool
    var showUserNameDialog: bool
    var showTokenDialog: bool

    var inputEmail: string
    var inputUserName: string
    var inputToken: string

    /** `.gitconfig` and `.git-credentials` in the app's files directory (None: absent). */
    var gitConfig: Option<string>
    var gitCredentials: Option<string>

    /** `isValidEmail`, which defers to Android's `Patterns.EMAIL_ADDRESS`; that pattern is
        not part of this model, so the screen is given the check it uses. */
    const isValidEmail: string -> bool

    /** The screen as first composed: the defaults, empty inputs, closed dialogs, loading. */
    constructor (gitConfig: Option<string>, gitCredentials: Option<string>, isValidEmail: string -> bool)
      ensures username == "root" && email == "example@mail.com" && token == ""
      ensures isLoading && !showEmailDialog && !showUserNameDialog && !showTokenDialog
      ensures inputEmail == "" && inputUserName == "" && inputToken == ""
      ensures this.gitConfig == gitConfig && this.gitCredentials == gitCredentials
      ensures this.isValidEmail == isValidEmail
    {
      username, email, token := "root", "example@mail.com", "";
      isLoading := true;
      showEmailDialog, showUserNameDialog, showTokenDialog := false, false, false;
      inputEmail, inputUserName, inputToken := "", "", "";
      this.gitConfig, this.gitCredentials := gitConfig, gitCredentials;
      this.isValidEmail := isValidEmail;
    }

    /** `updateConfig`: overwrite `.gitconfig` with the template, whatever it held before. */
    method UpdateConfig(name: string, mail: string)
      modifies this`gitConfig
      ensures gitConfig == Some(RenderConfig(name, mail))
    {
      gitConfig := Some(RenderConfig(name, mail));
    }

    /** `updateToken`: overwrite `.git-credentials` with the one credential line. */
    method UpdateToken(name: string, secret: string)
      modifies this`gitCredentials
      ensures gitCredentials == Some(RenderCredential(name, secret))
    {
      gitCredentials := Some(RenderCredential(name, secret));
    }

    /** The first half of the load effect: `loadGitConfig` read into the user name and the
        email and into their inputs. */
    method LoadIdentity(configReadFails: bool)
      modifies this`username, this`email, this`inputEmail, this`inputUserName
      ensures Identity(username, email) == LoadGitConfig(ConfigRead(gitConfig, configReadFails))
      ensures inputEmail == email && inputUserName == username
    {
      var id := LoadGitConfig(ConfigRead(gitConfig, configReadFails));
      username, email := id.name, id.email;
      inputEmail, inputUserName := id.email, id.name;
    }

    /** The second half: `getToken` read into the token and its input. */
    method LoadToken()
      modifies this`token, this`inputToken
      ensures token == GetToken(gitCredentials) && inputToken == token
    {
      token := GetToken(gitCredentials);
      inputToken := token;
    }

    /** The load effect: read both files, commit what they hold, copy it into the inputs and
        stop loading. `configReadFails` stands for reading an existing `.gitconfig` throwing. */
    method Load(configReadFails: bool)
      requires isLoading
      modifies this`username, this`email, this`token, this`isLoading
      modifies this`inputEmail, this`inputUserName, this`inputToken
      ensures Identity(username, email) == LoadGitConfig(ConfigRead(gitConfig, configReadFails))
      ensures token == GetToken(gitCredentials)
      ensures inputEmail == email && inputUserName == username && inputToken == token
      ensures !isLoading
      ensures !configReadFails ==> IdentityInSync(gitConfig, username, email)
      ensures TokenInSync(gitCredentials, token)
      ensures IsWord(username) && IsWord(email)
    {
      LoadIdentity(configReadFails);
      LoadToken();
      isLoading := false;
    }

    /** Tapping the "UserName" entry. */
    method OpenUserNameDialog()
      requires !isLoading
      modifies this`showUserNameDialog
      ensures showUserNameDialog
    {
      showUserNameDialog := true;
    }

    /** Tapping the "Email" entry. */
    method OpenEmailDialog()
      requires !isLoading
      modifies this`showEmailDialog
      ensures showEmailDialog
    {
      showEmailDialog := true;
    }

    /** Tapping the "Github Token" entry. */
    method OpenTokenDialog()
      requires !isLoading
      modifies this`showTokenDialog
      ensures showTokenDialog
    {
      showTokenDialog := true;
    }

    /** Typing in the email dialog. */
    method EditEmail(text: string)
      requires showEmailDialog
      modifies this`inputEmail
      ensures inputEmail == text
    {
      inputEmail := text;
    }

    /** Typing in the user name dialog. */
    method EditUserName(text: string)
      requires showUserNameDialog
      modifies this`inputUserName
      ensures inputUserName == text
    {
      inputUserName := text;
    }

    /** Typing in the token dialog. */
    method EditToken(text: string)
      requires showTokenDialog
      modifies this`inputToken
      ensures inputToken == text
    {
      inputToken := text;
    }

    /** Confirming the email dialog: a valid email is written with the committed user name and
        committed; an invalid one is discarded. `writeFails` stands for the write throwing, in
        which case nothing is committed and the input is kept. The dialog closes either way. */
    method ConfirmEmail(writeFails: bool)
      requires showEmailDialog
      modifies this`gitConfig, this`email, this`inputEmail, this`showEmailDialog
      ensures !showEmailDialog
      ensures isValidEmail(old(inputEmail)) && !writeFails ==>
        gitConfig == Some(RenderConfig(username, old(inputEmail)))
        && email == old(inputEmail) && inputEmail == old(inputEmail)
      ensures isValidEmail(old(inputEmail)) && writeFails ==>
        gitConfig == old(gitConfig) && email == old(email) && inputEmail == old(inputEmail)
      ensures !isValidEmail(old(inputEmail)) ==>
        gitConfig == old(gitConfig) && email == old(email) && inputEmail == old(email)
      ensures old(IdentityInSync(gitConfig, username, email))
        && (isValidEmail(old(inputEmail)) ==> IsWord(old(inputEmail)))
        ==> IdentityInSync(gitConfig, username, email)
      ensures !writeFails ==> inputEmail == email
    {
      if isValidEmail(inputEmail) {
        if !writeFails {
          if IdentityInSync(gitConfig, username, email) && IsWord(inputEmail) {
            IdentityRoundTrip(username, inputEmail);
          }
          UpdateConfig(username, inputEmail);
          email := inputEmail;
        }
      } else {
        inputEmail := email;
      }
      showEmailDialog := false;
    }

    /** Dismissing the email dialog: it closes and its input goes back to the committed email. */
    method DismissEmail()
      requires showEmailDialog
      modifies this`showEmailDialog, this`inputEmail
      ensures !showEmailDialog && inputEmail == email
    {
      showEmailDialog := false;
      inputEmail := email;
    }

    /** Confirming the user name dialog, as the screen does it: the check for a space looks at
        the committed user name, not at the one being confirmed. While the screen is in sync
        the committed name is a word, so every input is written and committed. */
    method ConfirmUserName(writeFails: bool)
      requires showUserNameDialog
      modifies this`gitConfig, this`username, this`inputUserName, this`showUserNameDialog
      ensures !showUserNameDialog
      ensures ' ' !in old(username) && !writeFails ==>
        gitConfig == Some(RenderConfig(old(inputUserName), email))
        && username == old(inputUserName) && inputUserName == old(inputUserName)
      ensures ' ' !in old(username) && writeFails ==>
        gitConfig == old(gitConfig) && username == old(username) && inputUserName == old(inputUserName)
      ensures ' ' in old(username) ==>
        gitConfig == old(gitConfig) && username == old(username) && inputUserName == old(username)
      ensures old(IdentityInSync(gitConfig, username, email)) && !writeFails ==> username == old(inputUserName)
    {
      ContainsSingle(username, ' ');
      if !Contains(username, " ") {
        if !writeFails {
          UpdateConfig(inputUserName, email);
          username := inputUserName;
        }
      } else {
        inputUserName := username;
      }
      showUserNameDialog := false;
    }

    /** Confirming the user name dialog with the check applied to the name being confirmed,
        and asking of it what `(\S+)` can read back: a non-empty name without whitespace. */
    method ConfirmUserNameValidated(writeFails: bool)
      requires showUserNameDialog
      modifies this`gitConfig, this`username, this`inputUserName, this`showUserNameDialog
      ensures !showUserNameDialog
      ensures IsWord(old(inputUserName)) && !writeFails ==>
        gitConfig == Some(RenderConfig(old(inputUserName), email))
        && username == old(inputUserName) && inputUserName == old(inputUserName)
      ensures IsWord(old(inputUserName)) && writeFails ==>
        gitConfig == old(gitConfig) && username == old(username) && inputUserName == old(inputUserName)
      ensures !IsWord(old(inputUserName)) ==>
        gitConfig == old(gitConfig) && username == old(username) && inputUserName == old(username)
      ensures old(IdentityInSync(gitConfig, username, email)) ==> IdentityInSync(gitConfig, username, email)
      ensures !writeFails ==> inputUserName == username
    {
      if IsWord(inputUserName) {
        if !writeFails {
          if IdentityInSync(gitConfig, username, email) {
            IdentityRoundTrip(inputUserName, email);
          }
          UpdateConfig(inputUserName, email);
          username := inputUserName;
        }
      } else {
        inputUserName := username;
      }
      showUserNameDialog := false;
    }

    /** Dismissing the user name dialog. */
    method DismissUserName()
      requires showUserNameDialog
      modifies this`showUserNameDialog, this`inputUserName
      ensures !showUserNameDialog && inputUserName == username
    {
      showUserNameDialog := false;
      inputUserName := username;
    }

    /** Confirming the token dialog: a token containing "ghp" is written with the committed
        user name and committed; any other is discarded. The dialog closes either way. The
        committed token still reads back when the user name has no `:` and the token no `@`. */
    method ConfirmToken(writeFails: bool)
      requires showTokenDialog
      modifies this`gitCredentials, this`token, this`inputToken, this`showTokenDialog
      ensures !showTokenDialog
      ensures Contains(old(inputToken), "ghp") && !writeFails ==>
        gitCredentials == Some(RenderCredential(username, old(inputToken)))
        && token == old(inputToken) && inputToken == old(inputToken)
      ensures Contains(old(inputToken), "ghp") && writeFails ==>
        gitCredentials == old(gitCredentials) && token == old(token) && inputToken == old(inputToken)
      ensures !Contains(old(inputToken), "ghp") ==>
        gitCredentials == old(gitCredentials) && token == old(token) && inputToken == old(token)
      ensures old(TokenInSync(gitCredentials, token)) && |username| > 0 && ':' !in username
        && '@' !in old(inputToken)
        ==> TokenInSync(gitCredentials, token)
      ensures !writeFails ==> inputToken == token
    {
      if Contains(inputToken, "ghp") {
        if !writeFails {
          if |username| > 0 && ':' !in username && '@' !in inputToken {
            assert |inputToken| > 0;
            CredentialRoundTrip(username, inputToken);
          }
          UpdateToken(username, inputToken);
          token := inputToken;
        }
      } else {
        inputToken := token;
      }
      showTokenDialog := false;
    }

    /** Dismissing the token dialog. */
    method DismissToken()
      requires showTokenDialog
      modifies this`showTokenDialog, this`inputToken
      ensures !showTokenDialog && inputToken == token
    {
      showTokenDialog := false;
      inputToken := token;
    }
  }

  /** The screen opened with no files, a user name with a space (such as "john doe")
      confirmed, then any other name confirmed. The first is committed although the file
      written does not read back as it; the second is refused, since the committed name now
      has a space, and so is every later one. */
  method UserNameCheckCounterexample(spaced: string, k: nat, retry: string)
    returns (committed: string, reloaded: string, afterRetry: string)
    requires k < |spaced| && spaced[k] == ' '
    ensures committed == spaced && reloaded != committed
    ensures afterRetry == committed
  {
    assert !IsWord(spaced);
    var screen := new GitSettingsScreen(None, None, IsWord);
    screen.Load(false);
    screen.OpenUserNameDialog();
    screen.EditUserName(spaced);
    screen.ConfirmUserName(false);
    committed := screen.username;
    screen.OpenUserNameDialog();
    screen.EditUserName(retry);
    screen.ConfirmUserName(false);
    afterRetry := screen.username;
    reloaded := LoadGitConfig(ConfigRead(screen.gitConfig, false)).name;
  }

  /** The same first step with the check on the name being confirmed: the name with a
      space is refused, and the committed name stays the one the file reads back. */
  method ValidatedRefusesSpacedName(spaced: string, k: nat)
    returns (afterSpace: string, reloaded: string)
    requires k < |spaced| && spaced[k] == ' '
    ensures afterSpace == DefaultIdentity.name && reloaded == afterSpace
  {
    assert !IsWord(spaced);
    var screen := new GitSettingsScreen(None, None, IsWord);
    screen.Load(false);
    screen.OpenUserNameDialog();
    screen.EditUserName(spaced);
    screen.ConfirmUserNameValidated(false);
    afterSpace := screen.username;
    reloaded := LoadGitConfig(ConfigRead(screen.gitConfig, false)).name;
  }

  /** With the check on the name being confirmed, a word is committed and is what the file
      written reads back. */
  method ValidatedCommitsWord(word: string) returns (committed: string, reloaded: string)
    requires IsWord(word)
    ensures committed == word && reloaded == word
  {
    var screen := new GitSettingsScreen(None, None, IsWord);
    screen.Load(false);
    screen.OpenUserNameDialog();
    screen.EditUserName(word);
    screen.ConfirmUserNameValidated(false);
    committed := screen.username;
    IdentityRoundTrip(word, screen.email);
    reloaded := LoadGitConfig(ConfigRead(screen.gitConfig, false)).name;
  }
}
