/**
 * Registration: the three field patterns, the order in which the form's
 * messages are collected, and what a registration returns and sets.
 */
module RegisterHandler {
  import opened Wrappers
  import opened Strings
  import opened Config
  import opened ApiJson
  import opened Cookies
  import UserService

  /** The only way a form handler fails outright: its template is missing. */
  datatype HandlerError = InvalidId

  datatype RegisterForm = RegisterForm(username: string, password: string, email: string)

  const USERNAME_EMPTY: string := "用户名不能为空"
  const USERNAME_BAD: string := "用户名必须是6-32位，仅包含英文和数字"
  const PASSWORD_EMPTY: string := "密码不能为空"
  const PASSWORD_BAD: string := "密码必须是6-32位"
  const EMAIL_EMPTY: string := "邮箱不能为空"
  const EMAIL_BAD: string := "邮箱格式错误"
  const CHECK_FAILED: string := "参数校验失败"

  /** The lifetime of the login cookies: 365 days, in seconds. */
  const COOKIE_AGE: nat := 365 * 86400

  // ---------------------------------------------------------------------------
  // The field patterns

  /** `^[a-zA-Z0-9]{6,32}$`. */
  predicate UsernameOk(s: string)
  {
    6 <= |s| <= 32 && forall i :: 0 <= i < |s| ==> IsAsciiAlnum(s[i])
  }

  /** `^.{6,32}$`: `.` matches any character but a newline. */
  predicate PasswordOk(s: string)
  {
    6 <= |s| <= 32 && forall i :: 0 <= i < |s| ==> s[i] != '\n'
  }

  /** `[a-zA-Z0-9._%+-]`, the characters before the '@'. */
  predicate LocalChar(c: char)
  {
    IsAsciiAlnum(c) || c == '.' || c == '_' || c == '%' || c == '+' || c == '-'
  }

  /** `[a-zA-Z0-9.-]`, the characters of the domain. */
  predicate DomainChar(c: char)
  {
    IsAsciiAlnum(c) || c == '.' || c == '-'
  }

  /**
   * `s` matches `^[a-zA-Z0-9._%+-]+@[a-zA-Z0-9.-]+\.[a-zA-Z]{2,}$` with the
   * '@' at `a` and the dot before the top-level domain at `d`.
   */
  predicate EmailAt(s: string, a: int, d: int)
  {
    0 < a && a + 1 < d && d + 3 <= |s| && s[a] == '@' && s[d] == '.' &&
    (forall k :: 0 <= k < a ==> LocalChar(s[k])) &&
    (forall k :: a < k < d ==> DomainChar(s[k])) &&
    (forall k :: d < k < |s| ==> IsAsciiLetter(s[k]))
  }

  /** The e-mail pattern matches `s`. */
  predicate EmailOk(s: string)
  {
    exists a, d | 0 <= a < |s| && 0 <= d < |s| :: EmailAt(s, a, d)
  }

  /** The first position of `c` in `s`. */
  function IndexOf(s: string, c: char): (r: Option<nat>)
    ensures r.Some? ==> r.value < |s| && s[r.value] == c && forall k :: 0 <= k < r.value ==> s[k] != c
    ensures r.None? ==> forall k :: 0 <= k < |s| ==> s[k] != c
  {
    if s == [] then None
    else if s[0] == c then Some(0)
    else match IndexOf(s[1..], c)
      case None => None
      case Some(i) => Some(i + 1)
  }

  /** The last position of `c` in `s`. */
  function LastIndexOf(s: string, c: char): (r: Option<nat>)
    ensures r.Some? ==> r.value < |s| && s[r.value] == c && forall k :: r.value < k < |s| ==> s[k] != c
    ensures r.None? ==> forall k :: 0 <= k < |s| ==> s[k] != c
  {
    if s == [] then None
    else if s[|s| - 1] == c then Some(|s| - 1)
    else LastIndexOf(s[..|s| - 1], c)
  }

  /**
   * A direct check of the e-mail pattern: neither an '@' nor a '.' can
   * follow the top-level domain, and no '@' can precede the one that
   * splits the address, so only the first '@' and the last '.' need trying.
   */
  function MatchEmail(s: string): bool
  {
    match (IndexOf(s, '@'), LastIndexOf(s, '.'))
    case (Some(a), Some(d)) => EmailAt(s, a, d)
    case _ => false
  }

  /** The direct check accepts exactly the addresses the pattern matches. */
  lemma MatchEmailIff(s: string)
    ensures MatchEmail(s) <==> EmailOk(s)
  {
    if EmailOk(s) {
      var a, d :| 0 <= a < |s| && 0 <= d < |s| && EmailAt(s, a, d);
      var i := IndexOf(s, '@');
      assert i.Some? && i.value == a by {
        assert s[a] == '@';
      }
      var j := LastIndexOf(s, '.');
      assert j.Some? && j.value == d by {
        assert s[d] == '.';
      }
    }
  }

  // ---------------------------------------------------------------------------
  // Validation

  /** One field's message: the "empty" one first, else the pattern's, else none. */
  function FieldMessage(value: string, ok: bool, emptyMsg: string, badMsg: string): (r: seq<string>)
    ensures |r| <= 1
    ensures value == "" ==> r == [emptyMsg]
    ensures value != "" ==> (r == [] <==> ok) && (r != [] ==> r == [badMsg])
  {
    if value == "" then [emptyMsg] else if !ok then [badMsg] else []
  }

  /**
   * The messages of `post_register`, in the order of its checks: each field
   * adds at most one, and the form passes exactly when all three fields
   * match their patterns.
   */
  function RegisterMessages(f: RegisterForm): (r: seq<string>)
    ensures |r| <= 3
    ensures r == [] <==> UsernameOk(f.username) && PasswordOk(f.password) && EmailOk(f.email)
    ensures f.username == "" ==> r[0] == USERNAME_EMPTY
    ensures f.username != "" && !UsernameOk(f.username) ==> r[0] == USERNAME_BAD
  {
    FieldMessage(f.username, UsernameOk(f.username), USERNAME_EMPTY, USERNAME_BAD) +
    FieldMessage(f.password, PasswordOk(f.password), PASSWORD_EMPTY, PASSWORD_BAD) +
    FieldMessage(f.email, EmailOk(f.email), EMAIL_EMPTY, EMAIL_BAD)
  }

  /** One field's check: push the "empty" message, else the pattern's message, else nothing. */
  method PushFieldMessage(errorMsg: seq<string>, value: string, ok: bool, emptyMsg: string, badMsg: string)
    returns (out: seq<string>)
    ensures out == errorMsg + FieldMessage(value, ok, emptyMsg, badMsg)
  {
    out := errorMsg;
    if value == "" {
      out := out + [emptyMsg];
    } else if !ok {
      out := out + [badMsg];
    }
  }

  /** The checks of `post_register`, pushing onto the message list. */
  method ValidateRegister(f: RegisterForm) returns (errorMsg: seq<string>)
    ensures errorMsg == RegisterMessages(f)
  {
    errorMsg := PushFieldMessage([], f.username, UsernameOk(f.username), USERNAME_EMPTY, USERNAME_BAD);
    errorMsg := PushFieldMessage(errorMsg, f.password, PasswordOk(f.password), PASSWORD_EMPTY, PASSWORD_BAD);
    MatchEmailIff(f.email);
    errorMsg := PushFieldMessage(errorMsg, f.email, MatchEmail(f.email), EMAIL_EMPTY, EMAIL_BAD);
  }

  // ---------------------------------------------------------------------------
  // Outcome

  /** The three cookies set after a registration or a login; only the password is HTTP-only. */
  function LoginCookies(jar: Jar, u: UserService.User): (r: Jar)
    ensures GetCookieValue(r, "ss_userid") == Some(Dec(u.uid))
    ensures GetCookieValue(r, "ss_username") == Some(u.uname)
    ensures GetCookieValue(r, "ss_password") == Some(u.pass)
    ensures r["ss_password"].httpOnly && !r["ss_userid"].httpOnly && !r["ss_username"].httpOnly
    ensures forall k :: k in r ==> r[k].maxAge == COOKIE_AGE || (k in jar && r[k] == jar[k])
    ensures r.Keys == jar.Keys + {"ss_userid", "ss_username", "ss_password"}
  {
    var j1 := SetCookieValue(jar, "ss_userid", Dec(u.uid), COOKIE_AGE, false, false);
    var j2 := SetCookieValue(j1, "ss_username", u.uname, COOKIE_AGE, false, false);
    SetCookieValue(j2, "ss_password", u.pass, COOKIE_AGE, true, false)
  }

  /**
   * `post_register`: a missing template is an error; any message fails the
   * form before the table is touched; otherwise `create_user` runs, and its
   * success sets the cookies while its error is reported by its text. The
   * result comes with the user table after the call.
   */
  function PostRegister(cfg: Config, md5Hex: string -> string, templateExists: bool, jar: Jar, f: RegisterForm,
                        db: UserService.Comparison, users: seq<UserService.User>, io: UserService.UserIo)
    : (r: (Result<(Jar, ApiResponse<string>), HandlerError>, seq<UserService.User>))
    requires cfg.legacyUser || |md5Hex(io.uuid)| >= 16
    ensures !templateExists ==> r == (Err(InvalidId), users)
    ensures templateExists && RegisterMessages(f) != [] ==>
              r == (Ok((jar, Fail(CHECK_FAILED, Some(RegisterMessages(f))))), users)
    ensures r.0.Ok? && r.0.value.1.success ==>
              templateExists && RegisterMessages(f) == [] &&
              var c := UserService.CreateUser(cfg, md5Hex, db, users, f.username, f.password, f.email, io);
              c.0.Ok? && r == (Ok((LoginCookies(jar, c.0.value), Success("注册成功", Some("")))), c.1)
    ensures r.0.Ok? && !r.0.value.1.success ==> r.0.value.0 == jar
  {
    if !templateExists then (Err(InvalidId), users)
    else if RegisterMessages(f) != [] then (Ok((jar, Fail(CHECK_FAILED, Some(RegisterMessages(f))))), users)
    else
      var c := UserService.CreateUser(cfg, md5Hex, db, users, f.username, f.password, f.email, io);
      match c.0
      case Ok(user) => (Ok((LoginCookies(jar, user), Success("注册成功", Some("")))), c.1)
      case Err(e) => (Ok((jar, Fail("注册失败", Some([UserService.ErrorText(e)])))), c.1)
  }

  /**
   * After a registration succeeds, the cookies it set pass the login check
   * of the bookcase pages against the new table, when the new id is not
   * already taken.
   */
  lemma RegisteredCookiesAuthenticate(cfg: Config, md5Hex: string -> string, jar: Jar, f: RegisterForm,
                                      db: UserService.Comparison, users: seq<UserService.User>, io: UserService.UserIo)
    requires cfg.legacyUser || |md5Hex(io.uuid)| >= 16
    requires UserService.UidsUnique(users) && UserService.ReadsDecimals(db) && forall u :: u in users ==> u.uid != io.uid
    requires PostRegister(cfg, md5Hex, true, jar, f, db, users, io).0.Ok?
    requires PostRegister(cfg, md5Hex, true, jar, f, db, users, io).0.value.1.success
    ensures var (res, users') := PostRegister(cfg, md5Hex, true, jar, f, db, users, io);
      UserService.IsUserLogin(db, users', GetCookieValue(res.value.0, "ss_userid").value,
                              GetCookieValue(res.value.0, "ss_password").value, None) == Ok(true)
  {
    var c := UserService.CreateUser(cfg, md5Hex, db, users, f.username, f.password, f.email, io);
    UserService.CreatedUserIsInserted(cfg, md5Hex, db, users, f.username, f.password, f.email, io);
    var row := UserService.NewRow(cfg, md5Hex, f.username, f.password, f.email, io);
    var users' := users + [row];
    assert UserService.UidsUnique(users') by {
      forall i, j | 0 <= i < j < |users'|
        ensures users'[i].uid != users'[j].uid
      {
        if j == |users| {
          assert users'[i] in users;
        }
      }
    }
    assert row in users';
    assert db.numberOf(Dec(row.uid)) == Some(row.uid as int);
    UserService.FindByConvertedUid(db, users', row, Dec(row.uid));
  }

  /** `get_logout`: the three login cookies are removed. */
  function Logout(jar: Jar): (r: Jar)
    ensures !IsCookieExist(r, "ss_userid") && !IsCookieExist(r, "ss_username") && !IsCookieExist(r, "ss_password")
    ensures forall k :: k in jar && k !in {"ss_userid", "ss_username", "ss_password"} ==> k in r && r[k] == jar[k]
  {
    RemoveCookie(RemoveCookie(RemoveCookie(jar, "ss_userid"), "ss_username"), "ss_password")
  }
}
