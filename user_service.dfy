/**
 * The user service: bookcase links (`bookshelf_mapping`), the bookcase
 * join of `get_bookcase_list`, and account creation and checks
 * (`create_user`, `get_user`, `is_user_login`) over an abstract user table.
 */
module UserService {
  import opened Wrappers
  import opened Ints
  import opened Strings
  import opened Config
  import opened NovelService

  /** A row of `system_users`. */
  datatype User = User(uid: u64, uname: string, name: string, pass: string, email: string, salt: string)

  /** A row of `article_bookcase`, with the link filled in by the mapping. */
  datatype BookShelf = BookShelf(caseid: u64, articleid: u64, articlename: string, chapterid: u64, chaptername: string, caseUrl: string)

  /** A bookcase entry joined with its book. */
  datatype BookShelfOnNovel = BookShelfOnNovel(bookcase: BookShelf, novel: Novel)

  datatype CreateUserError =
    | UsernameAlreadyExist
    | EmailAlreadyExist
    | InsertFailed
    | Unknown
    | PasswordError
    | DbErr(msg: string)
    | UserNotExist
    | LoginAuthFailed

  /** The text of each error, as its `Display` writes it. */
  function ErrorText(e: CreateUserError): string
  {
    match e
    case UsernameAlreadyExist => "用户名已经存在"
    case EmailAlreadyExist => "邮箱已经存在"
    case InsertFailed => "创建用户失败,插入0条记录"
    case Unknown => "未知错误"
    case PasswordError => "密码错误"
    case DbErr(msg) => "数据库错误：" + msg
    case UserNotExist => "用户不存在"
    case LoginAuthFailed => "登录认证失败"
  }

  /** The text tells the errors apart: two errors have the same text exactly when they are the same error. */
  lemma ErrorTextInjective(e1: CreateUserError, e2: CreateUserError)
    ensures ErrorText(e1) == ErrorText(e2) <==> e1 == e2
  {
    if e1.DbErr? && e2.DbErr? {
      var p := "数据库错误：";
      assert e1.msg == ErrorText(e1)[|p|..];
      assert e2.msg == ErrorText(e2)[|p|..];
    } else if e1.DbErr? != e2.DbErr? {
      assert ErrorText(e1)[0] != ErrorText(e2)[0];
    }
  }

  // ---------------------------------------------------------------------------
  // bookshelf_mapping

  /** The mapping of one entry: only the link changes, and an entry without a chapter gets none. */
  function MapShelf(cfg: Config, b: BookShelf): (r: BookShelf)
    ensures r.(caseUrl := b.caseUrl) == b
    ensures b.chapterid == 0 ==> r.caseUrl == ""
  {
    b.(caseUrl := if b.chapterid == 0 then "" else ReadUrl(cfg, NewId(cfg, b.articleid), NewId(cfg, b.chapterid), 1))
  }

  /** With a reversible obfuscation, the link of an entry names its book and chapter by public ids that decode back. */
  lemma ShelfLinkDecodes(cfg: Config, b: BookShelf)
    requires cfg.confusionAlgorithm != "*" && b.chapterid != 0
    ensures exists a: u64, c: u64 :: MapShelf(cfg, b).caseUrl == ReadUrl(cfg, a, c, 1) &&
                                      SourceId(cfg, a) == b.articleid && SourceId(cfg, c) == b.chapterid
  {
    IdsRoundTrip(cfg, b.articleid);
    IdsRoundTrip(cfg, b.chapterid);
    var a, c := NewId(cfg, b.articleid), NewId(cfg, b.chapterid);
    assert MapShelf(cfg, b).caseUrl == ReadUrl(cfg, a, c, 1);
  }

  /** `bookshelf_mapping`: every entry of the slice is mapped in place. */
  method BookshelfMapping(cfg: Config, bs: array<BookShelf>)
    modifies bs
    ensures bs[..] == MapShelves(cfg, old(bs[..]))
  {
    ghost var before := bs[..];
    for i := 0 to bs.Length
      invariant bs[..i] == MapShelves(cfg, before[..i])
      invariant bs[i..] == before[i..]
    {
      var b := bs[i];
      var caseUrl := "";
      if b.chapterid != 0 {
        var articleid := NewId(cfg, b.articleid);
        var chapterid := NewId(cfg, b.chapterid);
        caseUrl := ReadUrl(cfg, articleid, chapterid, 1);
      }
      bs[i] := b.(caseUrl := caseUrl);
    }
  }

  // ---------------------------------------------------------------------------
  // get_bookcase_list

  /** One "?" per entry. */
  function Marks(n: nat): (r: seq<string>)
    ensures |r| == n && forall i :: 0 <= i < n ==> r[i] == "?"
  {
    seq(n, _ => "?")
  }

  /** The IN list: `n` copies of "?" joined by ','. */
  function Placeholders(n: nat): string
  {
    Join(Marks(n), ',')
  }

  /** The IN list has exactly `n` placeholders, and splits back into them. */
  lemma {:induction false} PlaceholdersCount(n: nat)
    ensures Count(Placeholders(n), '?') == n
    ensures n > 0 ==> Split(Placeholders(n), ',') == Marks(n)
  {
    if n > 1 {
      PlaceholdersCount(n - 1);
      assert Marks(n)[1..] == Marks(n - 1);
      CountConcat("?", ",", '?');
      CountConcat("?,", Placeholders(n - 1), '?');
      assert Placeholders(n) == "?," + Placeholders(n - 1);
    } else if n == 1 {
      assert Placeholders(1) == "?";
    }
    if n > 0 {
      SplitJoin(Marks(n), ',');
    }
  }

  /** The statement that loads the books of `n` entries. */
  function NovelSql(prefix: string, n: nat): string
  {
    "SELECT * FROM " + prefix + "article_article WHERE articleid IN (" + Placeholders(n) + ") ORDER BY lastupdate DESC"
  }

  /** The bound values, one book id per entry. */
  function ArticleIds(bs: seq<BookShelf>): (r: seq<u64>)
    ensures |r| == |bs|
  {
    seq(|bs|, i requires 0 <= i < |bs| => bs[i].articleid)
  }

  /** The push loop that collects the bound values. */
  method CollectVals(bs: seq<BookShelf>) returns (vals: seq<u64>)
    ensures |vals| == |bs|
    ensures forall i :: 0 <= i < |bs| ==> vals[i] == bs[i].articleid
  {
    vals := [];
    for i := 0 to |bs|
      invariant |vals| == i
      invariant forall j :: 0 <= j < i ==> vals[j] == bs[j].articleid
    {
      vals := vals + [bs[i].articleid];
    }
  }

  /** The first loaded book whose source id is `id`. */
  function FindNovel(novels: seq<Novel>, id: u64): (r: Option<Novel>)
    ensures r.Some? ==> r.value in novels && r.value.sourceId == id
    ensures r.None? <==> forall n :: n in novels ==> n.sourceId != id
  {
    if novels == [] then None
    else if novels[0].sourceId == id then Some(novels[0])
    else FindNovel(novels[1..], id)
  }

  /** The `filter_map` join: each entry whose book was loaded, paired with it, in bookcase order. */
  function Joined(bs: seq<BookShelf>, novels: seq<Novel>): (r: seq<BookShelfOnNovel>)
    ensures |r| <= |bs|
  {
    if bs == [] then []
    else
      var rest := Joined(bs[1..], novels);
      match FindNovel(novels, bs[0].articleid)
      case None => rest
      case Some(n) => [BookShelfOnNovel(bs[0], n)] + rest
  }

  /** Every joined pair is an entry of the bookcase with a loaded book of the same source id. */
  lemma {:induction false} JoinedSound(bs: seq<BookShelf>, novels: seq<Novel>)
    ensures forall k :: 0 <= k < |Joined(bs, novels)| ==>
      Joined(bs, novels)[k].bookcase in bs && Joined(bs, novels)[k].novel in novels &&
      Joined(bs, novels)[k].novel.sourceId == Joined(bs, novels)[k].bookcase.articleid
  {
    if bs != [] {
      JoinedSound(bs[1..], novels);
      var rest := Joined(bs[1..], novels);
      var r := Joined(bs, novels);
      assert forall b :: b in bs[1..] ==> b in bs;
      if FindNovel(novels, bs[0].articleid).Some? {
        assert forall k :: 1 <= k < |r| ==> r[k] == rest[k - 1];
      }
    }
  }

  /** An entry whose book was loaded is kept. */
  lemma {:induction false} JoinedKeepsFound(bs: seq<BookShelf>, novels: seq<Novel>, i: nat)
    requires i < |bs| && FindNovel(novels, bs[i].articleid).Some?
    ensures exists k :: 0 <= k < |Joined(bs, novels)| && Joined(bs, novels)[k] ==
                        BookShelfOnNovel(bs[i], FindNovel(novels, bs[i].articleid).value)
  {
    var r := Joined(bs, novels);
    if i == 0 {
      assert r[0] == BookShelfOnNovel(bs[0], FindNovel(novels, bs[0].articleid).value);
    } else {
      var target := BookShelfOnNovel(bs[i], FindNovel(novels, bs[i].articleid).value);
      assert bs[1..][i - 1] == bs[i];
      JoinedKeepsFound(bs[1..], novels, i - 1);
      var rest := Joined(bs[1..], novels);
      var k :| 0 <= k < |rest| && rest[k] == target;
      if FindNovel(novels, bs[0].articleid).Some? {
        assert r[k + 1] == rest[k];
      } else {
        assert r[k] == rest[k];
      }
    }
  }

  /** When every book was loaded, the join keeps every entry, in order. */
  lemma {:induction false} JoinedAllFound(bs: seq<BookShelf>, novels: seq<Novel>)
    requires forall i :: 0 <= i < |bs| ==> FindNovel(novels, bs[i].articleid).Some?
    ensures |Joined(bs, novels)| == |bs|
    ensures forall k :: 0 <= k < |bs| ==> Joined(bs, novels)[k].bookcase == bs[k]
  {
    if bs != [] {
      assert forall i :: 0 <= i < |bs[1..]| ==> bs[1..][i] == bs[i + 1];
      JoinedAllFound(bs[1..], novels);
      assert FindNovel(novels, bs[0].articleid).Some?;
    }
  }

  /**
   * `get_bookcase_list`, given the bookcase query's result and the book
   * loader (a function of the statement and its values): a query error
   * propagates, an empty bookcase loads no books, and otherwise the
   * mapped entries are joined with the books loaded for their ids.
   */
  function BookcaseList(cfg: Config, rows: Result<seq<BookShelf>, string>,
                        loadNovels: (string, seq<u64>) -> Result<seq<Novel>, string>): (r: Result<seq<BookShelfOnNovel>, string>)
    ensures rows.Err? ==> r == Err(rows.error)
    ensures rows == Ok([]) ==> r == Ok([])
    ensures rows.Ok? && rows.value != [] && loadNovels(NovelSql(cfg.prefix, |rows.value|), ArticleIds(rows.value)).Err? ==>
      r == Err(loadNovels(NovelSql(cfg.prefix, |rows.value|), ArticleIds(rows.value)).error)
  {
    match rows
    case Err(e) => Err(e)
    case Ok(bs) =>
      if bs == [] then Ok([])
      else
        var mapped := MapShelves(cfg, bs);
        assert ArticleIds(mapped) == ArticleIds(bs);
        match loadNovels(NovelSql(cfg.prefix, |bs|), ArticleIds(mapped))
        case Err(e) => Err(e)
        case Ok(novels) => Ok(Joined(mapped, novels))
  }

  /** The mapping of every entry. */
  function MapShelves(cfg: Config, bs: seq<BookShelf>): (r: seq<BookShelf>)
    ensures |r| == |bs| && forall i :: 0 <= i < |bs| ==> r[i] == MapShelf(cfg, bs[i])
  {
    seq(|bs|, i requires 0 <= i < |bs| => MapShelf(cfg, bs[i]))
  }

  /**
   * A listed bookcase holds, in bookcase order, the mapped entries whose
   * book came back from the loader, each paired with that book; no more
   * entries than the bookcase has, and none that is not in it.
   */
  lemma BookcaseListJoins(cfg: Config, bs: seq<BookShelf>, loadNovels: (string, seq<u64>) -> Result<seq<Novel>, string>)
    requires bs != [] && loadNovels(NovelSql(cfg.prefix, |bs|), ArticleIds(bs)).Ok?
    ensures var novels := loadNovels(NovelSql(cfg.prefix, |bs|), ArticleIds(bs)).value;
      var r := BookcaseList(cfg, Ok(bs), loadNovels);
      r.Ok? && |r.value| <= |bs| &&
      (forall k :: 0 <= k < |r.value| ==>
        r.value[k].bookcase in MapShelves(cfg, bs) && r.value[k].novel in novels &&
        r.value[k].novel.sourceId == r.value[k].bookcase.articleid) &&
      (forall i :: 0 <= i < |bs| && FindNovel(novels, bs[i].articleid).Some? ==>
        exists k :: (0 <= k < |r.value| && r.value[k] == BookShelfOnNovel(MapShelf(cfg, bs[i]), FindNovel(novels, bs[i].articleid).value)))
  {
    var mapped := MapShelves(cfg, bs);
    assert ArticleIds(mapped) == ArticleIds(bs);
    var novels := loadNovels(NovelSql(cfg.prefix, |bs|), ArticleIds(bs)).value;
    JoinedSound(mapped, novels);
    forall i | 0 <= i < |bs| && FindNovel(novels, bs[i].articleid).Some?
      ensures exists k :: (0 <= k < |Joined(mapped, novels)| &&
        Joined(mapped, novels)[k] == BookShelfOnNovel(MapShelf(cfg, bs[i]), FindNovel(novels, bs[i].articleid).value))
    {
      JoinedKeepsFound(mapped, novels, i);
    }
  }

  /** `get_bookcase_list` step by step: the mapping in place, then the push loop, then the join. */
  method GetBookcaseList(cfg: Config, rows: Result<seq<BookShelf>, string>,
                         loadNovels: (string, seq<u64>) -> Result<seq<Novel>, string>)
    returns (r: Result<seq<BookShelfOnNovel>, string>)
    ensures r == BookcaseList(cfg, rows, loadNovels)
  {
    if rows.Err? {
      return Err(rows.error);
    }
    var bs := rows.value;
    if bs == [] {
      return Ok([]);
    }
    var arr := new BookShelf[|bs|](i requires 0 <= i < |bs| => bs[i]);
    BookshelfMapping(cfg, arr);
    var mapped := arr[..];
    assert mapped == MapShelves(cfg, bs);
    var vals := CollectVals(mapped);
    assert vals == ArticleIds(mapped);
    var loaded := loadNovels(NovelSql(cfg.prefix, |mapped|), vals);
    if loaded.Err? {
      return Err(loaded.error);
    }
    r := Ok(Joined(mapped, loaded.value));
  }

  // ---------------------------------------------------------------------------
  // create_user / get_user / is_user_login

  /** The queries of the account functions, in the order they run. */
  datatype Step = CountName | CountEmail | Insert | Select

  /**
   * What the database and the environment contribute: the error (if any)
   * each query returns, whether the insert reported no row, the id the
   * insert assigns, the fresh UUID text and the clock.
   */
  datatype UserIo = UserIo(fault: Step -> Option<string>, insertIgnored: bool, uid: u64, uuid: string, now: i64)

  /** The stored password: md5 of the password, salted and hashed again unless the schema is the old one. */
  function PassHash(cfg: Config, md5Hex: string -> string, password: string, salt: string): string
  {
    if cfg.legacyUser then md5Hex(password) else md5Hex(md5Hex(password) + salt)
  }

  /** The salt: the last 16 hex digits of the UUID's md5. */
  function Salt(md5Hex: string -> string, uuid: string): (r: string)
    requires |md5Hex(uuid)| >= 16
    ensures |r| == 16 && md5Hex(uuid) == md5Hex(uuid)[..|md5Hex(uuid)| - 16] + r
  {
    var h := md5Hex(uuid);
    h[|h| - 16..]
  }

  /** A row as the old schema reads it: `'' AS salt`. */
  function AsRead(cfg: Config, u: User): User
  {
    if cfg.legacyUser then u.(salt := "") else u
  }

  /**
   * How the database compares a bound text with a column. `uname` and
   * `email` compare under the table's collation: two texts are equal when
   * their collation keys are (a case-insensitive collation, MySQL's
   * default, folds case). `uid` is numeric, so the text is converted to a
   * number first: `numberOf` is that conversion, `None` for a value that
   * is no integer.
   */
  datatype Comparison = Comparison(textKey: string -> string, numberOf: string -> Option<int>)

  /** The conversion reads a decimal id text as that id. */
  predicate ReadsDecimals(db: Comparison)
  {
    forall n: u64 {:trigger Dec(n)} :: db.numberOf(Dec(n)) == Some(n as int)
  }

  /** The row `SELECT … WHERE uname = ? LIMIT 1` finds: the first whose name collates equal. */
  function FindByName(db: Comparison, users: seq<User>, name: string): (r: Option<User>)
    ensures r.Some? ==> r.value in users && db.textKey(r.value.uname) == db.textKey(name)
    ensures r.None? <==> forall u :: u in users ==> db.textKey(u.uname) != db.textKey(name)
  {
    if users == [] then None
    else if db.textKey(users[0].uname) == db.textKey(name) then Some(users[0])
    else FindByName(db, users[1..], name)
  }

  /** The row `SELECT … WHERE uid = ? LIMIT 1` finds for the cookie's text: the first whose id the text converts to. */
  function FindByUid(db: Comparison, users: seq<User>, userId: string): (r: Option<User>)
    ensures r.Some? ==> r.value in users && db.numberOf(userId) == Some(r.value.uid as int)
    ensures r.None? <==> forall u :: u in users ==> db.numberOf(userId) != Some(u.uid as int)
  {
    if users == [] then None
    else if db.numberOf(userId) == Some(users[0].uid as int) then Some(users[0])
    else FindByUid(db, users[1..], userId)
  }

  /**
   * `get_user`: a query error propagates; an unknown name is
   * `UserNotExist`; a row whose stored hash differs from the hash of the
   * given password under the row's salt is `PasswordError`.
   */
  function GetUser(cfg: Config, md5Hex: string -> string, db: Comparison, users: seq<User>, username: string, password: string,
                   fault: Option<string>): (r: Result<User, CreateUserError>)
    ensures fault.Some? ==> r == Err(DbErr(fault.value))
    ensures fault.None? ==> (r == Err(UserNotExist) <==> forall u :: u in users ==> db.textKey(u.uname) != db.textKey(username))
    ensures r.Ok? ==> db.textKey(r.value.uname) == db.textKey(username) && r.value.pass == PassHash(cfg, md5Hex, password, r.value.salt) &&
                      exists u :: u in users && r.value == AsRead(cfg, u)
    ensures fault.None? && r.Err? ==> r == Err(UserNotExist) || r == Err(PasswordError)
    ensures fault.None? && FindByName(db, users, username).Some? ==>
              (r.Ok? <==> AsRead(cfg, FindByName(db, users, username).value).pass ==
                          PassHash(cfg, md5Hex, password, AsRead(cfg, FindByName(db, users, username).value).salt))
    ensures r.Ok? ==> r.value == AsRead(cfg, FindByName(db, users, username).value)
  {
    if fault.Some? then Err(DbErr(fault.value))
    else match FindByName(db, users, username)
      case None => Err(UserNotExist)
      case Some(row) =>
        var user := AsRead(cfg, row);
        if user.pass != PassHash(cfg, md5Hex, password, user.salt) then Err(PasswordError)
        else Ok(user)
  }

  /**
   * `is_user_login`: the cookie's password text is compared with the
   * stored hash as it is, with no hashing.
   */
  function IsUserLogin(db: Comparison, users: seq<User>, userId: string, password: string, fault: Option<string>): (r: Result<bool, CreateUserError>)
    ensures fault.Some? ==> r == Err(DbErr(fault.value))
    ensures r.Ok? ==> r.value
    ensures fault.None? ==> (r.Ok? <==> FindByUid(db, users, userId).Some? && FindByUid(db, users, userId).value.pass == password)
    ensures fault.None? && r.Err? ==> r == Err(LoginAuthFailed)
  {
    if fault.Some? then Err(DbErr(fault.value))
    else match FindByUid(db, users, userId)
      case None => Err(LoginAuthFailed)
      case Some(user) => if user.pass != password then Err(LoginAuthFailed) else Ok(true)
  }

  /** The row `create_user` inserts. */
  function NewRow(cfg: Config, md5Hex: string -> string, username: string, password: string, email: string, io: UserIo): User
    requires cfg.legacyUser || |md5Hex(io.uuid)| >= 16
  {
    var salt := if cfg.legacyUser then "" else Salt(md5Hex, io.uuid);
    User(io.uid, username, username, PassHash(cfg, md5Hex, password, salt), email, salt)
  }

  /**
   * `create_user`: the name is checked, then the e-mail, each duplicate
   * failing before the insert; an insert that reports no row is
   * `InsertFailed`; otherwise the new account is read back with
   * `get_user`. The result comes with the table after the call.
   */
  function CreateUser(cfg: Config, md5Hex: string -> string, db: Comparison, users: seq<User>, username: string, password: string,
                      email: string, io: UserIo): (r: (Result<User, CreateUserError>, seq<User>))
    requires cfg.legacyUser || |md5Hex(io.uuid)| >= 16
    ensures r.1 == users || r.1 == users + [NewRow(cfg, md5Hex, username, password, email, io)]
    ensures r.1 != users ==> io.fault(Insert).None? && !io.insertIgnored &&
                             (forall u :: u in users ==> db.textKey(u.uname) != db.textKey(username) &&
                                                         db.textKey(u.email) != db.textKey(email))
    ensures io.fault(CountName).None? && (exists u :: u in users && db.textKey(u.uname) == db.textKey(username)) ==>
            r == (Err(UsernameAlreadyExist), users)
    ensures io.fault(CountName).None? && io.fault(CountEmail).None? &&
            (forall u :: u in users ==> db.textKey(u.uname) != db.textKey(username)) &&
            (exists u :: u in users && db.textKey(u.email) == db.textKey(email)) ==>
            r == (Err(EmailAlreadyExist), users)
  {
    if io.fault(CountName).Some? then (Err(DbErr(io.fault(CountName).value)), users)
    else if FindByName(db, users, username).Some? then (Err(UsernameAlreadyExist), users)
    else if io.fault(CountEmail).Some? then (Err(DbErr(io.fault(CountEmail).value)), users)
    else if exists u :: u in users && db.textKey(u.email) == db.textKey(email) then (Err(EmailAlreadyExist), users)
    else if io.fault(Insert).Some? then (Err(DbErr(io.fault(Insert).value)), users)
    else if io.insertIgnored then (Err(InsertFailed), users)
    else
      var users' := users + [NewRow(cfg, md5Hex, username, password, email, io)];
      (GetUser(cfg, md5Hex, db, users', username, password, io.fault(Select)), users')
  }

  /** A name that collates equal to no row is found at the row appended with it. */
  lemma {:induction false} FindByNameAppend(db: Comparison, users: seq<User>, row: User, name: string)
    requires forall u :: u in users ==> db.textKey(u.uname) != db.textKey(name)
    requires row.uname == name
    ensures FindByName(db, users + [row], name) == Some(row)
  {
    if users == [] {
      assert [row][0] == row;
    } else {
      assert (users + [row])[1..] == users[1..] + [row];
      FindByNameAppend(db, users[1..], row, name);
    }
  }

  /** A created account is the inserted row, read back, and its password checks. */
  lemma CreatedUserIsInserted(cfg: Config, md5Hex: string -> string, db: Comparison, users: seq<User>, username: string,
                              password: string, email: string, io: UserIo)
    requires cfg.legacyUser || |md5Hex(io.uuid)| >= 16
    requires CreateUser(cfg, md5Hex, db, users, username, password, email, io).0.Ok?
    ensures var row := NewRow(cfg, md5Hex, username, password, email, io);
      CreateUser(cfg, md5Hex, db, users, username, password, email, io) == (Ok(AsRead(cfg, row)), users + [row])
  {
    var row := NewRow(cfg, md5Hex, username, password, email, io);
    FindByNameAppend(db, users, row, username);
  }

  /** No two rows share an id (the primary key). */
  predicate UidsUnique(users: seq<User>)
  {
    forall i, j :: 0 <= i < j < |users| ==> users[i].uid != users[j].uid
  }

  /**
   * With unique ids, any text the database converts to a user's id finds
   * that user's row: "5" and, when the conversion reads them so, "05" or
   * "5abc" alike.
   */
  lemma {:induction false} FindByConvertedUid(db: Comparison, users: seq<User>, u: User, userId: string)
    requires UidsUnique(users) && u in users
    requires db.numberOf(userId) == Some(u.uid as int)
    ensures FindByUid(db, users, userId) == Some(u)
  {
    if users[0] != u {
      var k :| 1 <= k < |users| && users[k] == u;
      assert users[0].uid != users[k].uid;
      assert u in users[1..];
      FindByConvertedUid(db, users[1..], u, userId);
    }
  }

  /**
   * The cookies set after a login authenticate: the user's id text and the
   * stored hash pass `is_user_login`.
   */
  lemma LoginCookiesAuthenticate(cfg: Config, md5Hex: string -> string, db: Comparison, users: seq<User>, username: string,
                                 password: string)
    requires UidsUnique(users) && ReadsDecimals(db)
    requires GetUser(cfg, md5Hex, db, users, username, password, None).Ok?
    ensures var u := GetUser(cfg, md5Hex, db, users, username, password, None).value;
      IsUserLogin(db, users, Dec(u.uid), u.pass, None) == Ok(true)
  {
    var u := GetUser(cfg, md5Hex, db, users, username, password, None).value;
    var row := FindByName(db, users, username).value;
    assert u == AsRead(cfg, row);
    assert db.numberOf(Dec(row.uid)) == Some(row.uid as int);
    FindByConvertedUid(db, users, row, Dec(row.uid));
  }
}
