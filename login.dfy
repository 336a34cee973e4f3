/**
 * Login: the same field patterns as registration, then the account
 * lookup, whose success sets the login cookies.
 */
module LoginHandler {
  import opened Wrappers
  import opened Strings
  import opened Config
  import opened ApiJson
  import opened Cookies
  import opened RegisterHandler
  import UserService

  datatype LoginForm = LoginForm(username: string, password: string)

  /** The messages of `post_login`: the username's, then the password's. */
  function LoginMessages(f: LoginForm): (r: seq<string>)
    ensures |r| <= 2
    ensures r == [] <==> UsernameOk(f.username) && PasswordOk(f.password)
    ensures f.username == "" ==> r[0] == USERNAME_EMPTY
    ensures f.password == "" ==> r[|r| - 1] == PASSWORD_EMPTY
  {
    FieldMessage(f.username, UsernameOk(f.username), USERNAME_EMPTY, USERNAME_BAD) +
    FieldMessage(f.password, PasswordOk(f.password), PASSWORD_EMPTY, PASSWORD_BAD)
  }

  /** The checks of `post_login`, pushing onto the message list. */
  method ValidateLogin(f: LoginForm) returns (errorMsg: seq<string>)
    ensures errorMsg == LoginMessages(f)
  {
    errorMsg := PushFieldMessage([], f.username, UsernameOk(f.username), USERNAME_EMPTY, USERNAME_BAD);
    errorMsg := PushFieldMessage(errorMsg, f.password, PasswordOk(f.password), PASSWORD_EMPTY, PASSWORD_BAD);
  }

  /**
   * `post_login`: a missing template is an error; any message fails the
   * form without looking the user up (the result does not depend on the
   * table); otherwise `get_user` decides: its user sets the three cookies,
   * its error is reported by its text and the jar is returned unchanged.
   */
  function PostLogin(cfg: Config, md5Hex: string -> string, templateExists: bool, jar: Jar, f: LoginForm,
                     db: UserService.Comparison, users: seq<UserService.User>, fault: Option<string>)
    : (r: Result<(Jar, ApiResponse<string>), HandlerError>)
    ensures !templateExists <==> r == Err(InvalidId)
    ensures templateExists && LoginMessages(f) != [] ==> r == Ok((jar, Fail(CHECK_FAILED, Some(LoginMessages(f)))))
    ensures r.Ok? && r.value.1.success <==>
              templateExists && LoginMessages(f) == [] &&
              UserService.GetUser(cfg, md5Hex, db, users, f.username, f.password, fault).Ok?
    ensures r.Ok? && r.value.1.success ==>
              var u := UserService.GetUser(cfg, md5Hex, db, users, f.username, f.password, fault).value;
              r.value == (LoginCookies(jar, u), Success("登录成功", Some("")))
    ensures templateExists && LoginMessages(f) == [] &&
            UserService.GetUser(cfg, md5Hex, db, users, f.username, f.password, fault).Err? ==>
              var e := UserService.GetUser(cfg, md5Hex, db, users, f.username, f.password, fault).error;
              r == Ok((jar, Fail("登录失败", Some([UserService.ErrorText(e)]))))
  {
    if !templateExists then Err(InvalidId)
    else if LoginMessages(f) != [] then Ok((jar, Fail(CHECK_FAILED, Some(LoginMessages(f)))))
    else match UserService.GetUser(cfg, md5Hex, db, users, f.username, f.password, fault)
      case Ok(user) => Ok((LoginCookies(jar, user), Success("登录成功", Some(""))))
      case Err(e) => Ok((jar, Fail("登录失败", Some([UserService.ErrorText(e)]))))
  }

  /**
   * A login with an unknown name and one with a wrong password are told
   * apart by their message; a login never fails with a registration error.
   */
  lemma LoginFailureReasons(cfg: Config, md5Hex: string -> string, jar: Jar, f: LoginForm, db: UserService.Comparison, users: seq<UserService.User>)
    requires LoginMessages(f) == []
    requires PostLogin(cfg, md5Hex, true, jar, f, db, users, None).Ok?
    requires !PostLogin(cfg, md5Hex, true, jar, f, db, users, None).value.1.success
    ensures var errs := PostLogin(cfg, md5Hex, true, jar, f, db, users, None).value.1.errors;
      errs == Some([UserService.ErrorText(UserService.UserNotExist)]) <==>
        forall u :: u in users ==> db.textKey(u.uname) != db.textKey(f.username)
    ensures var errs := PostLogin(cfg, md5Hex, true, jar, f, db, users, None).value.1.errors;
      errs == Some([UserService.ErrorText(UserService.UserNotExist)]) ||
      errs == Some([UserService.ErrorText(UserService.PasswordError)])
  {
    var e := UserService.GetUser(cfg, md5Hex, db, users, f.username, f.password, None).error;
    UserService.ErrorTextInjective(e, UserService.UserNotExist);
  }

  /**
   * The cookies a successful login sets pass the bookcase pages' login
   * check; after `get_logout` the check finds no cookies.
   */
  lemma LoginThenLogout(cfg: Config, md5Hex: string -> string, jar: Jar, f: LoginForm, db: UserService.Comparison, users: seq<UserService.User>)
    requires UserService.UidsUnique(users) && UserService.ReadsDecimals(db)
    requires PostLogin(cfg, md5Hex, true, jar, f, db, users, None).Ok?
    requires PostLogin(cfg, md5Hex, true, jar, f, db, users, None).value.1.success
    ensures var j := PostLogin(cfg, md5Hex, true, jar, f, db, users, None).value.0;
      UserService.IsUserLogin(db, users, GetCookieValue(j, "ss_userid").value, GetCookieValue(j, "ss_password").value, None) == Ok(true)
    ensures var j := PostLogin(cfg, md5Hex, true, jar, f, db, users, None).value.0;
      GetCookieValue(Logout(j), "ss_userid").None? && GetCookieValue(Logout(j), "ss_password").None?
  {
    UserService.LoginCookiesAuthenticate(cfg, md5Hex, db, users, f.username, f.password);
  }
}
