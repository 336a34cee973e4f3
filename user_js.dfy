// The browser-side checks of public/common/js/user.js: the login and
// registration form validators and the chapter defaulting of
// `add_bookshelf`. Alerts and fetches are left out; a validator's alert
// becomes an `Alert` verdict whose reason `AlertText` turns into the message.

module UserForms {
  import opened Strings
  import RegisterHandler

  /** Why a validator refuses a form. */
  datatype Reason = EmptyCredentials | EmptyEmail | BadEmail | BadUsername | ShortPassword

  /** The outcome of a validator: `true`, or `false` after an alert. */
  datatype Verdict = Pass | Alert(reason: Reason)

  /** The `value`s of the form's username, password and email inputs. */
  datatype Form = Form(username: string, password: string, email: string)

  const EMPTY_CREDENTIALS: string := "用户名和密码不能为空"
  const EMPTY_EMAIL: string := "邮箱不能为空"
  const BAD_EMAIL: string := "邮箱格式错误"
  const BAD_USERNAME: string := "用户名仅允许字母数字_@-  6-32位"
  const SHORT_PASSWORD: string := "密码长度至少6位"

  /** The text of the alert. */
  function AlertText(r: Reason): string
  {
    match r
    case EmptyCredentials => EMPTY_CREDENTIALS
    case EmptyEmail => EMPTY_EMAIL
    case BadEmail => BAD_EMAIL
    case BadUsername => BAD_USERNAME
    case ShortPassword => SHORT_PASSWORD
  }

  // ---------------------------------------------------------------------------
  // JavaScript strings

  /**
   * The characters `String.prototype.trim` strips and `\s` matches:
   * WhiteSpace and LineTerminator of ECMAScript. Unlike Rust's set it has
   * U+FEFF and lacks U+0085.
   */
  predicate JsSpace(c: char)
  {
    ('\U{9}' <= c <= '\U{D}') || c == ' ' || c == '\U{A0}' || c == '\U{1680}'
    || ('\U{2000}' <= c <= '\U{200A}') || c == '\U{2028}' || c == '\U{2029}' || c == '\U{202F}'
    || c == '\U{205F}' || c == '\U{3000}' || c == '\U{FEFF}'
  }

  predicate AllJsSpace(s: string)
  {
    forall i :: 0 <= i < |s| ==> JsSpace(s[i])
  }

  /** `s.trim()`: whitespace goes from both ends. */
  function JsTrim(s: string): (r: string)
    ensures r == [] || (!JsSpace(r[0]) && !JsSpace(r[|r| - 1]))
  {
    if s == [] then []
    else if JsSpace(s[0]) then JsTrim(s[1..])
    else if JsSpace(s[|s| - 1]) then JsTrim(s[..|s| - 1])
    else s
  }

  /** The trim is a slice of `s` with only whitespace cut off around it. */
  lemma {:induction false} JsTrimSlice(s: string) returns (i: nat, j: nat)
    ensures i <= j <= |s| && JsTrim(s) == s[i..j]
    ensures AllJsSpace(s[..i]) && AllJsSpace(s[j..])
  {
    if s == [] {
      return 0, 0;
    } else if JsSpace(s[0]) {
      var i', j' := JsTrimSlice(s[1..]);
      SliceFront(s, i', j');
      i, j := i' + 1, j' + 1;
    } else if JsSpace(s[|s| - 1]) {
      i, j := JsTrimSlice(s[..|s| - 1]);
      SliceBack(s, i, j);
    } else {
      i, j := 0, |s|;
    }
  }

  lemma SliceFront(s: string, i: nat, j: nat)
    requires s != [] && JsSpace(s[0]) && i <= j <= |s| - 1
    requires AllJsSpace(s[1..][..i]) && AllJsSpace(s[1..][j..])
    ensures s[1..][i..j] == s[i + 1..j + 1]
    ensures AllJsSpace(s[..i + 1]) && AllJsSpace(s[j + 1..])
  {
    assert s[1..][j..] == s[j + 1..];
    assert forall k :: 1 <= k < i + 1 ==> s[k] == s[1..][..i][k - 1];
  }

  lemma SliceBack(s: string, i: nat, j: nat)
    requires s != [] && JsSpace(s[|s| - 1]) && i <= j <= |s| - 1
    requires AllJsSpace(s[..|s| - 1][..i]) && AllJsSpace(s[..|s| - 1][j..])
    ensures s[..|s| - 1][i..j] == s[i..j]
    ensures AllJsSpace(s[..i]) && AllJsSpace(s[j..])
  {
    var t := s[..|s| - 1];
    assert t[..i] == s[..i];
    assert forall k :: j <= k < |s| - 1 ==> s[k] == t[j..][k - j];
  }

  /** A trimmed field is empty exactly when the field is all whitespace. */
  lemma JsTrimEmpty(s: string)
    ensures JsTrim(s) == [] <==> AllJsSpace(s)
  {
    var i, j := JsTrimSlice(s);
    if JsTrim(s) == [] {
      assert forall k :: 0 <= k < |s| ==> (k < i && s[k] == s[..i][k]) || (k >= j && s[k] == s[j..][k - j]);
    }
  }

  /** A string with no whitespace at either end is its own trim. */
  lemma JsTrimFixed(s: string)
    requires s == [] || (!JsSpace(s[0]) && !JsSpace(s[|s| - 1]))
    ensures JsTrim(s) == s
  {
  }

  /** `s.length`: UTF-16 code units, two for a character outside the Basic Multilingual Plane. */
  function Utf16Len(s: string): nat
  {
    if s == [] then 0 else Utf16Len(s[..|s| - 1]) + (if s[|s| - 1] >= '\U{10000}' then 2 else 1)
  }

  /** `length` counts each character once or twice. */
  lemma {:induction false} Utf16LenBounds(s: string)
    ensures |s| <= Utf16Len(s) <= 2 * |s|
  {
    if s != [] {
      Utf16LenBounds(s[..|s| - 1]);
    }
  }

  // ---------------------------------------------------------------------------
  // The patterns

  /** `[a-zA-Z0-9_@-]`. */
  predicate UsernameChar(c: char)
  {
    IsAsciiAlnum(c) || c == '_' || c == '@' || c == '-'
  }

  /** Every character is in `[a-zA-Z0-9_@-]`. */
  predicate UsernameChars(s: string)
  {
    s == [] || (UsernameChar(s[0]) && UsernameChars(s[1..]))
  }

  /** `/^[a-zA-Z0-9_@-]{6,32}$/`: all ASCII, so code units and characters agree. */
  predicate ClientUsernameOk(s: string)
  {
    6 <= |s| <= 32 && UsernameChars(s)
  }

  /** The scan over the characters agrees with the character class at every index. */
  lemma {:induction false} UsernameCharsAt(s: string)
    ensures UsernameChars(s) <==> forall i :: 0 <= i < |s| ==> UsernameChar(s[i])
  {
    if s != [] {
      UsernameCharsAt(s[1..]);
      assert forall i :: 1 <= i < |s| ==> s[i] == s[1..][i - 1];
    }
  }

  /** `[^\s@]`. */
  predicate EmailChar(c: char)
  {
    !JsSpace(c) && c != '@'
  }

  /**
   * `s` matches `/^[^\s@]+@[^\s@]+\.[^\s@]+$/` with the '@' at `a` and
   * the escaped dot at `d`: every other character is neither whitespace
   * nor '@', and the dot has a character on each side inside the domain.
   */
  predicate ClientEmailAt(s: string, a: int, d: int)
  {
    0 < a && a + 1 < d && d + 1 < |s| && s[a] == '@' && s[d] == '.' &&
    forall k :: 0 <= k < |s| && k != a ==> EmailChar(s[k])
  }

  /** The client e-mail pattern matches `s`. */
  predicate ClientEmailOk(s: string)
  {
    exists a, d | 0 <= a < |s| && 0 <= d < |s| :: ClientEmailAt(s, a, d)
  }

  // ---------------------------------------------------------------------------
  // A left-to-right matcher for the e-mail pattern

  /**
   * The states of a scan: nothing read, in the local part, just after the
   * '@', in the domain with no usable dot, just after a usable dot, a
   * usable dot followed by a character, and no match possible.
   */
  datatype ScanState = Start | Local | AtSign | Domain | Dot | Done | Dead

  function Step(st: ScanState, c: char): ScanState
  {
    if JsSpace(c) then Dead
    else match st
      case Start => if c == '@' then Dead else Local
      case Local => if c == '@' then AtSign else Local
      case AtSign => if c == '@' then Dead else Domain
      case Domain => if c == '@' then Dead else if c == '.' then Dot else Domain
      case Dot => if c == '@' then Dead else Done
      case Done => if c == '@' then Dead else Done
      case Dead => Dead
  }

  function Scan(p: string): ScanState
  {
    if p == [] then Start else Step(Scan(p[..|p| - 1]), p[|p| - 1])
  }

  function MatchClientEmail(s: string): bool
  {
    Scan(s) == Done
  }

  /** Every state the scan reaches describes the text read so far; `a` is the '@', `d` a usable dot. */
  lemma {:induction false} ScanSound(p: string) returns (a: int, d: int)
    ensures Scan(p) == Local ==> p != [] && forall k :: 0 <= k < |p| ==> EmailChar(p[k])
    ensures Scan(p) in {AtSign, Domain, Dot, Done} ==>
      (0 < a < |p| && p[a] == '@' && forall k :: 0 <= k < |p| && k != a ==> EmailChar(p[k]))
    ensures Scan(p) == AtSign ==> a == |p| - 1
    ensures Scan(p) == Domain ==> a < |p| - 1
    ensures Scan(p) == Dot ==> a + 1 < |p| - 1 && p[|p| - 1] == '.'
    ensures Scan(p) == Done ==> a + 1 < d < |p| - 1 && p[d] == '.'
  {
    if p == [] {
      return 0, 0;
    }
    var q := p[..|p| - 1];
    var c := p[|p| - 1];
    var qa, qd := ScanSound(q);
    var st := Scan(q);
    assert forall k :: 0 <= k < |q| ==> p[k] == q[k];
    if st == Local {
      a, d := |q|, 0;
    } else if st == Dot {
      a, d := qa, |q| - 1;
    } else {
      a, d := qa, qd;
    }
  }

  /** Reading a matching address prefix by prefix passes through the expected states. */
  lemma {:induction false} ScanPrefix(s: string, a: int, d: int, n: nat)
    requires ClientEmailAt(s, a, d) && n <= |s|
    ensures n == 0 ==> Scan(s[..n]) == Start
    ensures 0 < n <= a ==> Scan(s[..n]) == Local
    ensures n == a + 1 ==> Scan(s[..n]) == AtSign
    ensures a + 1 < n <= d ==> Scan(s[..n]) in {Domain, Dot, Done}
    ensures n == d + 1 ==> Scan(s[..n]) in {Dot, Done}
    ensures d + 1 < n ==> Scan(s[..n]) == Done
  {
    if n > 0 {
      ScanPrefix(s, a, d, n - 1);
      assert s[..n][..n - 1] == s[..n - 1];
      assert s[..n][n - 1] == s[n - 1];
      assert EmailChar(s[n - 1]) || n - 1 == a;
    }
  }

  /** The scan accepts exactly the addresses the pattern matches. */
  lemma MatchClientEmailIff(s: string)
    ensures MatchClientEmail(s) <==> ClientEmailOk(s)
  {
    if ClientEmailOk(s) {
      var a, d :| 0 <= a < |s| && 0 <= d < |s| && ClientEmailAt(s, a, d);
      ScanPrefix(s, a, d, |s|);
      assert s[..|s|] == s;
    }
    if MatchClientEmail(s) {
      var a, d := ScanSound(s);
      assert ClientEmailAt(s, a, d);
    }
  }

  // ---------------------------------------------------------------------------
  // The validators

  /** `validateLoginForm`: both trimmed fields must be non-empty. */
  function ValidateLogin(f: Form): (r: Verdict)
    ensures r == Pass || r == Alert(EmptyCredentials)
  {
    if JsTrim(f.username) == "" || JsTrim(f.password) == "" then Alert(EmptyCredentials) else Pass
  }

  /** The login form is refused exactly when the username or the password is only whitespace. */
  lemma LoginRefusesBlank(f: Form)
    ensures ValidateLogin(f) == Pass <==> !AllJsSpace(f.username) && !AllJsSpace(f.password)
  {
    JsTrimEmpty(f.username);
    JsTrimEmpty(f.password);
  }

  /** The form with every field trimmed, as the validators read it. */
  function Trimmed(f: Form): Form
  {
    Form(JsTrim(f.username), JsTrim(f.password), JsTrim(f.email))
  }

  /** Every check of `validateRegisterForm` passes on already trimmed fields. */
  predicate FieldsValid(t: Form)
  {
    t.username != "" && t.password != "" && t.email != "" &&
    ClientEmailOk(t.email) && ClientUsernameOk(t.username) && Utf16Len(t.password) >= 6
  }

  predicate RegisterValid(f: Form)
  {
    FieldsValid(Trimmed(f))
  }

  /** The cascade of checks on trimmed fields; the first that fails gives the alert. */
  function CheckRegister(t: Form): (r: Verdict)
    ensures r == Pass <==> FieldsValid(t)
  {
    if t.username == "" || t.password == "" then Alert(EmptyCredentials)
    else if t.email == "" then Alert(EmptyEmail)
    else if !ClientEmailOk(t.email) then Alert(BadEmail)
    else if !ClientUsernameOk(t.username) then Alert(BadUsername)
    else if Utf16Len(t.password) < 6 then Alert(ShortPassword)
    else Pass
  }

  /** `validateRegisterForm`. */
  function ValidateRegister(f: Form): (r: Verdict)
    ensures r == Pass <==> RegisterValid(f)
  {
    CheckRegister(Trimmed(f))
  }

  /** The checks come in order: each alert means every earlier check passed and this one failed. */
  lemma RegisterAlertOrder(f: Form)
    ensures ValidateRegister(f) == Alert(EmptyCredentials) <==> AllJsSpace(f.username) || AllJsSpace(f.password)
    ensures ValidateRegister(f) == Alert(EmptyEmail) <==>
      (!AllJsSpace(f.username) && !AllJsSpace(f.password) && AllJsSpace(f.email))
    ensures ValidateRegister(f) == Alert(BadEmail) <==>
      (!AllJsSpace(f.username) && !AllJsSpace(f.password) && !AllJsSpace(f.email) && !ClientEmailOk(JsTrim(f.email)))
    ensures ValidateRegister(f) == Alert(BadUsername) <==>
      (!AllJsSpace(f.username) && !AllJsSpace(f.password) && ClientEmailOk(JsTrim(f.email)) && !ClientUsernameOk(JsTrim(f.username)))
    ensures ValidateRegister(f) == Alert(ShortPassword) <==>
      (!AllJsSpace(f.password) && ClientEmailOk(JsTrim(f.email)) && ClientUsernameOk(JsTrim(f.username)) && Utf16Len(JsTrim(f.password)) < 6)
  {
    JsTrimEmpty(f.username);
    JsTrimEmpty(f.password);
    JsTrimEmpty(f.email);
  }

  /** A registration form the client accepts also passes the login check. */
  lemma RegisterPassesLogin(f: Form)
    requires ValidateRegister(f) == Pass
    ensures ValidateLogin(f) == Pass
  {
  }

  /** The empty-email alert comes first: the pattern cannot match the empty string anyway. */
  lemma EmptyEmailUnmatched()
    ensures !ClientEmailOk("")
  {
  }

  // ---------------------------------------------------------------------------
  // Client and server rules

  /** Every username the server accepts passes the client pattern. */
  lemma ServerUsernamePassesClient(s: string)
    requires RegisterHandler.UsernameOk(s)
    ensures ClientUsernameOk(s)
  {
    UsernameCharsAt(s);
  }

  /** The client pattern is looser: it lets '_', '@' and '-' through, which the server refuses. */
  lemma ClientUsernameLooser()
    ensures ClientUsernameOk("user_01") && !RegisterHandler.UsernameOk("user_01")
  {
    UsernameCharsAt("user_01");
    assert !IsAsciiAlnum("user_01"[4]);
  }

  /** Every address the server's pattern accepts passes the client's. */
  lemma ServerEmailPassesClient(s: string)
    requires RegisterHandler.EmailOk(s)
    ensures ClientEmailOk(s)
  {
    var a, d :| 0 <= a < |s| && 0 <= d < |s| && RegisterHandler.EmailAt(s, a, d);
    assert ClientEmailAt(s, a, d);
  }

  /**
   * A form the server would accept as sent passes the client check, as
   * long as the password has no whitespace at its ends (the server does
   * not trim, the client does).
   */
  lemma ServerAcceptedPassesClient(f: Form)
    requires RegisterHandler.UsernameOk(f.username) && RegisterHandler.PasswordOk(f.password)
    requires RegisterHandler.EmailOk(f.email)
    requires !JsSpace(f.password[0]) && !JsSpace(f.password[|f.password| - 1])
    ensures ValidateRegister(f) == Pass
  {
    assert Trimmed(f) == f by {
      ServerUsernameTrimmed(f.username);
      ServerPasswordTrimmed(f.password);
      ServerEmailTrimmed(f.email);
    }
    assert FieldsValid(f) by {
      ServerUsernameTrimmed(f.username);
      ServerPasswordTrimmed(f.password);
      ServerEmailTrimmed(f.email);
    }
  }

  lemma ServerUsernameTrimmed(u: string)
    requires RegisterHandler.UsernameOk(u)
    ensures JsTrim(u) == u && ClientUsernameOk(u)
  {
    assert IsAsciiAlnum(u[0]) && IsAsciiAlnum(u[|u| - 1]);
    JsTrimFixed(u);
    ServerUsernamePassesClient(u);
  }

  lemma ServerPasswordTrimmed(p: string)
    requires RegisterHandler.PasswordOk(p) && !JsSpace(p[0]) && !JsSpace(p[|p| - 1])
    ensures JsTrim(p) == p && Utf16Len(p) >= 6
  {
    JsTrimFixed(p);
    Utf16LenBounds(p);
  }

  /** A server-valid address has no whitespace at its ends and passes the client pattern. */
  lemma ServerEmailTrimmed(e: string)
    requires RegisterHandler.EmailOk(e)
    ensures JsTrim(e) == e && ClientEmailOk(e)
  {
    var a, d :| 0 <= a < |e| && 0 <= d < |e| && RegisterHandler.EmailAt(e, a, d);
    assert ClientEmailAt(e, a, d);
    assert EmailChar(e[0]) && EmailChar(e[|e| - 1]);
    JsTrimFixed(e);
  }

  // ---------------------------------------------------------------------------
  // add_bookshelf

  /** A JavaScript value as passed to `add_bookshelf`; numbers are integers here. */
  datatype JsVal = Undefined | Null | Bool(b: bool) | Num(n: int) | NaN | Str(s: string)

  /** The falsy values: `!v` is true. */
  predicate Falsy(v: JsVal)
  {
    v == Undefined || v == Null || v == Bool(false) || v == Num(0) || v == NaN || v == Str("")
  }

  /** `String(v)`, the text `URLSearchParams.append` stores. */
  function ToText(v: JsVal): string
  {
    match v
    case Undefined => "undefined"
    case Null => "null"
    case Bool(b) => if b then "true" else "false"
    case Num(n) => IntText(n)
    case NaN => "NaN"
    case Str(s) => s
  }

  /**
   * The form fields `add_bookshelf` posts: a falsy chapter id becomes 0
   * with an empty chapter name; otherwise both go as given.
   */
  function BookshelfForm(articleid: JsVal, articlename: JsVal, chapterid: JsVal, chaptername: JsVal): (r: seq<(string, string)>)
    ensures |r| == 4
    ensures r[0] == ("articleid", ToText(articleid)) && r[1] == ("articlename", ToText(articlename))
    ensures r[2].0 == "chapterid" && r[3].0 == "chaptername"
    ensures Falsy(chapterid) ==> r[2].1 == "0" && r[3].1 == ""
    ensures !Falsy(chapterid) ==> r[2].1 == ToText(chapterid) && r[3].1 == ToText(chaptername)
  {
    var (cid, cname) := if Falsy(chapterid) then (Num(0), Str("")) else (chapterid, chaptername);
    [("articleid", ToText(articleid)), ("articlename", ToText(articlename)),
     ("chapterid", ToText(cid)), ("chaptername", ToText(cname))]
  }

  /** The posted chapter id is never empty: an empty string is falsy and goes as "0". */
  lemma ChapterIdNeverEmpty(articleid: JsVal, articlename: JsVal, chapterid: JsVal, chaptername: JsVal)
    ensures BookshelfForm(articleid, articlename, chapterid, chaptername)[2].1 != ""
  {
  }

  /** An integer chapter id goes as its decimal text, 0 included. */
  lemma ChapterIdNumber(articleid: JsVal, articlename: JsVal, n: int, chaptername: JsVal)
    ensures BookshelfForm(articleid, articlename, Num(n), chaptername)[2].1 == IntText(n)
  {
  }
}
