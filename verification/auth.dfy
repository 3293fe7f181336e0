/**
 * Authentication-mode selection and URL preparation (git_clone.rb:108-128).
 * Base64 decoding and URL parsing are library calls; they enter the model as
 * partial functions, `None` standing for the exception the library raises.
 */
module Auth {
  import opened Wrappers
  import opened CliOptions

  /** The mode the script records in `used_auth_type` (no mode, 'ssh' or 'login'), with its credentials. */
  datatype AuthMode =
    | NoAuth
    | Ssh(privateKey: string)
    | Login(username: string, password: string)

  /** The mode together with the URL that every later git step uses. */
  datatype Prepared = Prepared(mode: AuthMode, url: string)

  /** The userinfo the script writes into the URL: username and password joined by a colon. */
  function Userinfo(username: string, password: string): (r: string)
    ensures |r| == |username| + 1 + |password|
    ensures r[..|username|] == username && r[|username|] == ':' && r[|username| + 1..] == password
  {
    username + ":" + password
  }

  /**
   * Fixed precedence: raw key, then base64 key, then username and password
   * together, then nothing. Only a base64 key that does not decode makes the
   * selection fail.
   */
  function SelectAuth(c: Config, decodeBase64: string -> Option<string>): (r: Result<AuthMode, ScriptError>)
    ensures Present(c.authSshRaw) ==> r == Success(Ssh(c.authSshRaw.value))
    ensures !Present(c.authSshRaw) && Present(c.authSshBase64) ==>
      (r.Failure? <==> decodeBase64(c.authSshBase64.value).None?) &&
      (r.Success? ==> r == Success(Ssh(decodeBase64(c.authSshBase64.value).value)))
    ensures r.Success? && r.value.Login? <==>
      !Present(c.authSshRaw) && !Present(c.authSshBase64) && Present(c.authUsername) && Present(c.authPassword)
    ensures r.Success? && r.value.Login? ==>
      r.value == Login(c.authUsername.value, c.authPassword.value)
    ensures r == Success(NoAuth) <==>
      !Present(c.authSshRaw) && !Present(c.authSshBase64) && !(Present(c.authUsername) && Present(c.authPassword))
    ensures r.Failure? ==> r.error == InvalidBase64Key
  {
    if c.authSshRaw.Some? && |c.authSshRaw.value| > 0 then
      Success(Ssh(c.authSshRaw.value))
    else if c.authSshBase64.Some? && |c.authSshBase64.value| > 0 then
      match decodeBase64(c.authSshBase64.value)
      case None => Failure(InvalidBase64Key)
      case Some(key) => Success(Ssh(key))
    else if c.authUsername.Some? && |c.authUsername.value| > 0
         && c.authPassword.Some? && |c.authPassword.value| > 0 then
      Success(Login(c.authUsername.value, c.authPassword.value))
    else
      Success(NoAuth)
  }

  /**
   * The URL every later step uses: the given one, except in login mode, where
   * it is the given URL re-serialised with `username:password` as its userinfo.
   */
  function PrepareCredentials(c: Config, decodeBase64: string -> Option<string>,
                              withUserinfo: (string, string) -> Option<string>): (r: Result<Prepared, ScriptError>)
    ensures r.Success? ==> SelectAuth(c, decodeBase64) == Success(r.value.mode)
    ensures r.Success? && !r.value.mode.Login? ==> r.value.url == c.repoUrl
    ensures r.Success? && r.value.mode.Login? ==>
      withUserinfo(c.repoUrl, Userinfo(r.value.mode.username, r.value.mode.password)) == Some(r.value.url)
    ensures r.Failure? <==>
      SelectAuth(c, decodeBase64).Failure? ||
      (SelectAuth(c, decodeBase64).Success? && SelectAuth(c, decodeBase64).value.Login? &&
       withUserinfo(c.repoUrl, Userinfo(c.authUsername.value, c.authPassword.value)).None?)
    ensures r.Failure? ==> r.error == InvalidBase64Key || r.error == InvalidRepoUrl
  {
    match SelectAuth(c, decodeBase64)
    case Failure(e) => Failure(e)
    case Success(mode) =>
      if mode.Login? then
        match withUserinfo(c.repoUrl, Userinfo(mode.username, mode.password))
        case None => Failure(InvalidRepoUrl)
        case Some(url) => Success(Prepared(mode, url))
      else
        Success(Prepared(mode, c.repoUrl))
  }

  /**
   * Reads a userinfo string back as a URL library does: the user is
   * everything before the first colon, the password everything after it
   * (section 3.2.1 of RFC 3986), and there is no password without a colon.
   */
  function SplitUserinfo(info: string): (r: (string, Option<string>))
    ensures ':' !in r.0
    ensures r.1.None? ==> r.0 == info
    ensures r.1.Some? ==> info == r.0 + ":" + r.1.value
  {
    if |info| == 0 then ("", None)
    else if info[0] == ':' then ("", Some(info[1..]))
    else
      var rest := SplitUserinfo(info[1..]);
      ([info[0]] + rest.0, rest.1)
  }

  /**
   * The credentials written into the URL read back as the same username and
   * password exactly when the username holds no colon. The script joins the
   * two with a bare colon and escapes neither, so a username that contains a
   * colon reaches the server as a different, shorter username.
   */
  lemma {:induction false} UserinfoRoundTrip(username: string, password: string)
    ensures SplitUserinfo(Userinfo(username, password)) == (username, Some(password)) <==> ':' !in username
  {
    var r := SplitUserinfo(Userinfo(username, password));
    if ':' !in username {
      UserinfoSplitsAtJoin(username, password);
    } else {
      assert ':' !in r.0;
    }
  }

  lemma {:induction false} UserinfoSplitsAtJoin(username: string, password: string)
    requires ':' !in username
    ensures SplitUserinfo(username + ":" + password) == (username, Some(password))
  {
    if |username| == 0 {
      assert username + ":" + password == [':'] + password;
    } else {
      assert (username + ":" + password)[1..] == username[1..] + ":" + password;
      UserinfoSplitsAtJoin(username[1..], password);
      assert [username[0]] + username[1..] == username;
    }
  }
}
