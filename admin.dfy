/**
 * The administration endpoints of src/handlers/admin/index.rs: the admin
 * page, which issues a short-lived token, and the two configuration
 * endpoints, which accept only that token.
 *
 * The environment variable ADMIN_TOKEN, the clock, MD5, serde and the
 * file system are parameters: `env` is the variable (None when unset),
 * `now` is `timestamp_10()`, `md5Hex` is the lower-case hex digest.
 * `release` says whether the binary was built without debug assertions,
 * which both switches on the default-key refusal and makes `u64`
 * arithmetic wrap instead of panic.
 */
module AdminHandler {
  import opened Wrappers
  import opened Ints
  import opened Strings
  import opened Config
  import opened ApiJson

  /** `AdminFrom`: the token and the time it was issued for. */
  datatype AdminForm = AdminForm(token: string, time: Option<u64>)

  /** A request the handler cannot answer: a bad admin page request, or an arithmetic panic. */
  datatype AdminError = InvalidId | OverflowPanic

  const TOKEN_ERROR: string := "token error"
  const DEFAULT_KEY: string := "默认密钥不可用"
  const BAD_OR_EXPIRED: string := "密钥不正确或过期"
  const TOKEN_LIFETIME: nat := 300

  /** `env::var("ADMIN_TOKEN").unwrap_or_else(|_| String::new())`. */
  function EnvToken(env: Option<string>): (r: string)
    ensures env.Some? ==> r == env.value
    ensures env.None? ==> r == ""
  {
    if env.Some? then env.value else ""
  }

  /** The key a release build refuses to use: unset, or left at its documented default. */
  predicate DefaultKey(token: string)
  {
    token == "" || token == "admin_token"
  }

  /** The token the configuration endpoints accept for `time`: the digest of the key followed by the decimal time. */
  function Expected(md5Hex: string -> string, token: string, time: nat): string
  {
    md5Hex(token + Dec(time))
  }

  /** The outcome of the token check shared by both configuration endpoints. */
  datatype Check = Pass | Refuse(reason: string) | Panic

  /**
   * The check of lines 24-35 (and 52-63): a release build refuses a
   * default key; then the token must be the digest for the given time
   * (0 when absent) and `time + 300` must not be before now. The sum is
   * evaluated only when the token matches; it wraps in a release build and
   * panics in a debug one.
   */
  function CheckToken(release: bool, token: string, md5Hex: string -> string, form: AdminForm, now: i64): (r: Check)
  {
    if release && DefaultKey(token) then Refuse(DEFAULT_KEY)
    else
      var time := if form.time.Some? then form.time.value else 0;
      if Expected(md5Hex, token, time) != form.token then Refuse(BAD_OR_EXPIRED)
      else if !release && time + TOKEN_LIFETIME >= U64_LIMIT then Panic
      else if (time + TOKEN_LIFETIME) % U64_LIMIT < ToU64(now) then Refuse(BAD_OR_EXPIRED)
      else Pass
  }

  /** A release build refuses a default key before it looks at the request. */
  lemma DefaultKeyRefused(token: string, md5Hex: string -> string, form: AdminForm, now: i64)
    ensures DefaultKey(token) <==> CheckToken(true, token, md5Hex, form, now) == Refuse(DEFAULT_KEY)
  {
  }

  /**
   * A request passes exactly when the key is usable, the token is the
   * digest for its time and the (possibly wrapped) expiry is not before now.
   */
  lemma CheckPasses(release: bool, token: string, md5Hex: string -> string, form: AdminForm, now: i64)
    ensures var time := if form.time.Some? then form.time.value else 0;
      CheckToken(release, token, md5Hex, form, now) == Pass <==>
        !(release && DefaultKey(token)) &&
        form.token == Expected(md5Hex, token, time) &&
        (release || time + TOKEN_LIFETIME < U64_LIMIT) &&
        ToU64(now) <= (time + TOKEN_LIFETIME) % U64_LIMIT
  {
  }

  /** A matching token whose time is now or later never counts as expired. */
  lemma FutureNotExpired(release: bool, token: string, md5Hex: string -> string, time: u64, now: i64)
    requires !(release && DefaultKey(token))
    requires 0 <= now <= time + TOKEN_LIFETIME < U64_LIMIT
    ensures CheckToken(release, token, md5Hex, AdminForm(Expected(md5Hex, token, time), Some(time)), now) == Pass
  {
  }

  /**
   * A matching token issued so close to the end of the `u64` range that
   * its expiry wraps is treated as expired by a release build once the
   * clock is past the wrapped value, and panics a debug build.
   */
  lemma WrappedExpiry(token: string, md5Hex: string -> string, time: u64, now: i64)
    requires !DefaultKey(token)
    requires time + TOKEN_LIFETIME >= U64_LIMIT
    requires time + TOKEN_LIFETIME - U64_LIMIT < now
    ensures CheckToken(true, token, md5Hex, AdminForm(Expected(md5Hex, token, time), Some(time)), now) == Refuse(BAD_OR_EXPIRED)
    ensures CheckToken(false, token, md5Hex, AdminForm(Expected(md5Hex, token, time), Some(time)), now) == Panic
  {
  }

  /** The failure envelope of a refused check. */
  function Refusal(reason: string): (r: ApiResponse<string>)
    ensures !r.success && r.msg == TOKEN_ERROR && r.errors == Some([reason])
  {
    Fail(TOKEN_ERROR, Some([reason]))
  }

  /**
   * `admin_conf_get`: after the check, the current configuration
   * serialised, or the serialisation error.
   */
  function ConfGet(release: bool, env: Option<string>, md5Hex: string -> string, form: AdminForm, now: i64,
                   current: Config, serialize: Config -> Result<string, string>): (r: Result<ApiResponse<string>, AdminError>)
    ensures r.Err? <==> CheckToken(release, EnvToken(env), md5Hex, form, now) == Panic
    ensures r.Ok? && r.value.success <==>
              CheckToken(release, EnvToken(env), md5Hex, form, now) == Pass && serialize(current).Ok?
    ensures r.Ok? && r.value.success ==> r.value.data == Some(serialize(current).value)
  {
    match CheckToken(release, EnvToken(env), md5Hex, form, now)
    case Panic => Err(OverflowPanic)
    case Refuse(reason) => Ok(Refusal(reason))
    case Pass =>
      match serialize(current)
      case Err(e) => Ok(Fail("serialize error", Some([e])))
      case Ok(s) => Ok(Success("success", Some(s)))
  }

  /**
   * The process-wide configuration and the contents of conf.json
   * (None while the file is absent).
   */
  class Settings {
    var confJson: Option<string>
    var current: Config

    constructor (file: Option<string>, config: Config)
      ensures confJson == file && current == config
    {
      confJson := file;
      current := config;
    }

    /**
     * `admin_conf_edit`: after the check, the body is serialised and
     * written to conf.json (`write` returns the error, if any); only when
     * the write succeeds is the body installed as the configuration.
     */
    method ConfEdit(release: bool, env: Option<string>, md5Hex: string -> string, form: AdminForm, now: i64,
                    body: Config, serialize: Config -> Result<string, string>, write: string -> Option<string>)
      returns (r: Result<ApiResponse<string>, AdminError>)
      modifies this
      ensures r == ConfEditResponse(release, env, md5Hex, form, now, body, serialize, write)
      ensures r.Ok? && r.value.success ==> confJson == Some(serialize(body).value) && current == body
      ensures !(r.Ok? && r.value.success) ==> confJson == old(confJson) && current == old(current)
    {
      var check := CheckToken(release, EnvToken(env), md5Hex, form, now);
      if check == Panic {
        return Err(OverflowPanic);
      }
      if check.Refuse? {
        return Ok(Refusal(check.reason));
      }
      var conf := serialize(body);
      if conf.Err? {
        return Ok(Fail("serialize error", Some([conf.error])));
      }
      var written := write(conf.value);
      if written.Some? {
        return Ok(Fail("save error", Some([written.value])));
      }
      confJson := Some(conf.value);
      current := body;
      return Ok(Success("success", Some("")));
    }
  }

  /** The answer of `admin_conf_edit`; it succeeds exactly when the check passes and both the serialisation and the write succeed. */
  function ConfEditResponse(release: bool, env: Option<string>, md5Hex: string -> string, form: AdminForm, now: i64,
                            body: Config, serialize: Config -> Result<string, string>, write: string -> Option<string>): (r: Result<ApiResponse<string>, AdminError>)
    ensures r.Err? <==> CheckToken(release, EnvToken(env), md5Hex, form, now) == Panic
    ensures r.Ok? && r.value.success <==>
              CheckToken(release, EnvToken(env), md5Hex, form, now) == Pass &&
              serialize(body).Ok? && write(serialize(body).value).None?
    ensures r.Ok? && !r.value.success && CheckToken(release, EnvToken(env), md5Hex, form, now) == Pass ==>
              r.value.msg in {"serialize error", "save error"}
  {
    match CheckToken(release, EnvToken(env), md5Hex, form, now)
    case Panic => Err(OverflowPanic)
    case Refuse(reason) => Ok(Refusal(reason))
    case Pass =>
      match serialize(body)
      case Err(e) => Ok(Fail("serialize error", Some([e])))
      case Ok(s) =>
        match write(s)
        case Some(e) => Ok(Fail("save error", Some([e])))
        case None => Ok(Success("success", Some("")))
  }

  /** What the admin page is rendered with. */
  datatype AdminPage = AdminPage(themes: seq<string>, token: string, time: i64)

  /**
   * `index`: the request must carry the raw key (a release build also
   * refuses a default key); the page then carries a fresh token for the
   * current time, the time itself and the template folders.
   */
  function Index(release: bool, env: Option<string>, md5Hex: string -> string, form: AdminForm, now: i64,
                 folders: seq<string>): (r: Result<AdminPage, AdminError>)
    ensures r.Ok? <==> EnvToken(env) != "" && form.token == EnvToken(env) && !(release && DefaultKey(EnvToken(env)))
    ensures r.Err? ==> r.error == InvalidId
    ensures r.Ok? ==> r.value.themes == folders && r.value.time == now &&
                      r.value.token == md5Hex(EnvToken(env) + IntText(now))
  {
    var token := EnvToken(env);
    if release && (DefaultKey(token) || form.token != token) then Err(InvalidId)
    else if !release && (token == "" || form.token != token) then Err(InvalidId)
    else Ok(AdminPage(folders, md5Hex(token + IntText(now)), now))
  }

  /**
   * The token the admin page issues at `issued` is accepted by the
   * configuration endpoints, sent back with that time, at any moment up to
   * 300 seconds later.
   */
  lemma IssuedTokenAccepted(release: bool, env: Option<string>, md5Hex: string -> string, form: AdminForm,
                            issued: i64, now: i64, folders: seq<string>)
    requires Index(release, env, md5Hex, form, issued, folders).Ok?
    requires 0 <= issued <= now <= issued + TOKEN_LIFETIME
    ensures var page := Index(release, env, md5Hex, form, issued, folders).value;
      CheckToken(release, EnvToken(env), md5Hex, AdminForm(page.token, Some(issued)), now) == Pass
  {
    var page := Index(release, env, md5Hex, form, issued, folders).value;
    assert page.token == Expected(md5Hex, EnvToken(env), issued);
    FutureNotExpired(release, EnvToken(env), md5Hex, issued, now);
  }
}
