/**
 * The bookcase handlers of src/handlers/user/bookcase.rs: adding a book
 * (update of an existing entry, or a vote and an insert), deleting an
 * entry, and the login check in front of the bookcase pages, over an
 * abstract bookcase table and the books' vote counts.
 */
module BookcaseHandler {
  import opened Wrappers
  import opened Ints
  import opened Strings
  import opened Config
  import opened ApiJson
  import UserService

  /** A row of `article_bookcase`. */
  datatype Case = Case(caseid: u64, articleid: u64, articlename: string, chapterid: u64, chaptername: string,
                       userid: string, username: string)

  /** The form of `add_bookcase`. */
  datatype AddRequest = AddRequest(articleid: u64, articlename: string, chapterid: Option<u64>, chaptername: Option<string>)

  /** The tables the handlers change: the bookcase rows and each book's `goodnum`. */
  datatype Tables = Tables(cases: seq<Case>, goodnum: map<u64, nat>)

  /**
   * What the database contributes: which statements fail (a failed
   * statement counts as 0 rows, and a failed count as 0) and the id the
   * insert assigns.
   */
  datatype BookcaseIo = BookcaseIo(countFails: bool, updateFails: bool, goodnumFails: bool, insertFails: bool,
                                   deleteFails: bool, newCaseId: u64)

  /** The error pages: a missing template, or the panic of a division by zero in `source_id`. */
  datatype HandlerError = InvalidId | DivisionByZero

  const ADD_FAIL: string := "添加失败"
  const DEL_FAIL: string := "删除失败"
  const BAD_PARAMS: string := "传参错误"
  const DB_FAILED: string := "数据库操作失败"

  // ---------------------------------------------------------------------------
  // add_bookcase

  /** Whether a row is the given user's entry for a book. */
  predicate IsEntry(c: Case, articleid: u64, userid: string)
  {
    c.articleid == articleid && c.userid == userid
  }

  /** `SELECT COUNT(*) … WHERE articleid = ? and userid = ?`. */
  function EntryCount(cases: seq<Case>, articleid: u64, userid: string): (n: nat)
    ensures n <= |cases|
    ensures n == 0 <==> forall i :: 0 <= i < |cases| ==> !IsEntry(cases[i], articleid, userid)
  {
    if cases == [] then 0
    else EntryCount(cases[..|cases| - 1], articleid, userid) + (if IsEntry(cases[|cases| - 1], articleid, userid) then 1 else 0)
  }

  /** `UPDATE … SET chapterid = ?, chaptername = ? WHERE articleid = ? and userid = ?`. */
  function UpdateEntries(cases: seq<Case>, articleid: u64, userid: string, chapterid: u64, chaptername: string): (r: seq<Case>)
    ensures |r| == |cases|
    ensures forall i :: 0 <= i < |cases| ==>
      r[i] == if IsEntry(cases[i], articleid, userid) then cases[i].(chapterid := chapterid, chaptername := chaptername) else cases[i]
  {
    seq(|cases|, i requires 0 <= i < |cases| =>
      if IsEntry(cases[i], articleid, userid) then cases[i].(chapterid := chapterid, chaptername := chaptername) else cases[i])
  }

  /** `UPDATE article_article SET goodnum = goodnum + 1 WHERE articleid = ?`: no row changes for an unknown book. */
  function Vote(goodnum: map<u64, nat>, articleid: u64): (r: map<u64, nat>)
    ensures r.Keys == goodnum.Keys
    ensures articleid in goodnum ==> r[articleid] == goodnum[articleid] + 1
    ensures forall a :: a in goodnum && a != articleid ==> r[a] == goodnum[a]
  {
    if articleid in goodnum then goodnum[articleid := goodnum[articleid] + 1] else goodnum
  }

  /**
   * `add_bookcase`: the request is checked before anything is written; an
   * existing entry of the user for the book gets the chapter, otherwise
   * the book gets a vote and a new entry is inserted; a statement that
   * changed no row is a failure.
   */
  function Add(cfg: Config, templateExists: bool, t: Tables, userId: Option<string>, req: AddRequest, io: BookcaseIo)
    : (r: (Result<ApiResponse<string>, HandlerError>, Tables))
    ensures !templateExists ==> r == (Err(InvalidId), t)
    ensures templateExists && (req.articleid == 0 || req.articlename == "" || userId.None?) ==>
            r == (Ok(Fail(ADD_FAIL, Some([BAD_PARAMS]))), t)
    ensures r.0.Ok? && r.0.value.success ==>
      !DividesByZero(cfg) && userId.Some? && (r.1 != t || EntryCount(t.cases, SourceId(cfg, req.articleid), userId.value) > 0)
  {
    if !templateExists then (Err(InvalidId), t)
    else if req.articleid == 0 || req.articlename == "" || userId.None? then (Ok(Fail(ADD_FAIL, Some([BAD_PARAMS]))), t)
    else if DividesByZero(cfg) then (Err(DivisionByZero), t)
    else
      var sourceId := SourceId(cfg, req.articleid);
      var sourceCid := if req.chapterid.Some? then req.chapterid.value else 0;
      var chaptername := if req.chaptername.Some? then req.chaptername.value else "";
      var userid := userId.value;
      var num := if io.countFails then 0 else EntryCount(t.cases, sourceId, userid);
      if num > 0 then
        var changed := if io.updateFails then 0 else EntryCount(t.cases, sourceId, userid);
        var cases' := if io.updateFails then t.cases else UpdateEntries(t.cases, sourceId, userid, sourceCid, chaptername);
        var t' := t.(cases := cases');
        if changed == 0 then (Ok(Fail(ADD_FAIL, Some([DB_FAILED]))), t')
        else (Ok(Success("添加成功", Some(""))), t')
      else
        var goodnum' := if io.goodnumFails then t.goodnum else Vote(t.goodnum, sourceId);
        var row := Case(io.newCaseId, sourceId, req.articlename, sourceCid, chaptername, userid, "");
        var cases' := if io.insertFails then t.cases else t.cases + [row];
        var t' := Tables(cases', goodnum');
        if io.insertFails then (Ok(Fail(ADD_FAIL, Some([DB_FAILED]))), t')
        else (Ok(Success("添加成功", Some(""))), t')
  }

  /**
   * Adding a book the user already has changes only that entry's chapter id
   * and chapter name (every row of the user for the book, and no other row)
   * and gives no vote; a failed update changes nothing.
   */
  lemma AddExistingUpdates(cfg: Config, t: Tables, userid: string, req: AddRequest, io: BookcaseIo)
    requires req.articleid != 0 && req.articlename != "" && !DividesByZero(cfg) && !io.countFails
    requires EntryCount(t.cases, SourceId(cfg, req.articleid), userid) > 0
    ensures var r := Add(cfg, true, t, Some(userid), req, io);
      var cid := if req.chapterid.Some? then req.chapterid.value else 0;
      var name := if req.chaptername.Some? then req.chaptername.value else "";
      r.1.goodnum == t.goodnum && |r.1.cases| == |t.cases| &&
      (r.0 == Ok(Success("添加成功", Some(""))) <==> !io.updateFails) &&
      (io.updateFails ==> r.1.cases == t.cases) &&
      (!io.updateFails ==> r.1.cases == UpdateEntries(t.cases, SourceId(cfg, req.articleid), userid, cid, name)) &&
      (!io.updateFails ==> forall i :: 0 <= i < |t.cases| ==>
        (IsEntry(t.cases[i], SourceId(cfg, req.articleid), userid) ==>
           r.1.cases[i].chapterid == cid && r.1.cases[i].chaptername == name) &&
        (!IsEntry(t.cases[i], SourceId(cfg, req.articleid), userid) ==> r.1.cases[i] == t.cases[i]))
  {
  }

  /**
   * Adding a new book gives the book one vote and appends one entry for the
   * user, holding the new row id, the internal book id, the book name, and
   * the chapter id and name as given (0 and "" when absent).
   */
  lemma AddNewInserts(cfg: Config, t: Tables, userid: string, req: AddRequest, io: BookcaseIo)
    requires req.articleid != 0 && req.articlename != "" && !DividesByZero(cfg)
    requires io.countFails || EntryCount(t.cases, SourceId(cfg, req.articleid), userid) == 0
    requires !io.goodnumFails && !io.insertFails
    ensures var r := Add(cfg, true, t, Some(userid), req, io);
      var src := SourceId(cfg, req.articleid);
      r.0 == Ok(Success("添加成功", Some(""))) &&
      r.1.cases[..|t.cases|] == t.cases && |r.1.cases| == |t.cases| + 1 &&
      r.1.cases[|t.cases|].articleid == src && r.1.cases[|t.cases|].userid == userid &&
      r.1.cases[|t.cases|].chapterid == (if req.chapterid.Some? then req.chapterid.value else 0) &&
      r.1.cases[|t.cases|].articlename == req.articlename &&
      r.1.cases[|t.cases|].chaptername == (if req.chaptername.Some? then req.chaptername.value else "") &&
      r.1.cases[|t.cases|].caseid == io.newCaseId &&
      (src in t.goodnum ==> r.1.goodnum[src] == t.goodnum[src] + 1)
  {
  }

  /** A failed count takes the insert path even when the user already has the book. */
  lemma CountFailureDuplicates(cfg: Config, t: Tables, userid: string, req: AddRequest, io: BookcaseIo)
    requires req.articleid != 0 && req.articlename != "" && !DividesByZero(cfg)
    requires io.countFails && !io.insertFails
    ensures EntryCount(Add(cfg, true, t, Some(userid), req, io).1.cases, SourceId(cfg, req.articleid), userid) ==
            EntryCount(t.cases, SourceId(cfg, req.articleid), userid) + 1
  {
    var src := SourceId(cfg, req.articleid);
    var cases' := Add(cfg, true, t, Some(userid), req, io).1.cases;
    assert cases'[..|cases'| - 1] == t.cases;
  }

  // ---------------------------------------------------------------------------
  // del_bookcase

  /** `DELETE … WHERE caseid = ? and userid = ?`: the rows kept, in order. */
  function DeleteEntries(cases: seq<Case>, caseid: u64, userid: string): (r: seq<Case>)
    ensures |r| <= |cases|
    ensures forall c :: c in r <==> c in cases && !(c.caseid == caseid && c.userid == userid)
  {
    if cases == [] then []
    else
      var rest := DeleteEntries(cases[1..], caseid, userid);
      assert forall c :: c in cases <==> c == cases[0] || c in cases[1..];
      if cases[0].caseid == caseid && cases[0].userid == userid then rest else [cases[0]] + rest
  }

  /**
   * `del_bookcase`: a zero case id or a missing user is refused before
   * the delete; otherwise only the user's own row with that id goes, and
   * the deletion succeeds whether or not a row matched.
   */
  function Del(templateExists: bool, t: Tables, userId: Option<string>, caseid: u64, io: BookcaseIo)
    : (r: (Result<ApiResponse<string>, HandlerError>, Tables))
    ensures !templateExists ==> r == (Err(InvalidId), t)
    ensures templateExists && (caseid == 0 || userId.None?) ==> r == (Ok(Fail(DEL_FAIL, Some([BAD_PARAMS]))), t)
    ensures r.1.goodnum == t.goodnum
    ensures r.0.Ok? && r.0.value.success <==> templateExists && caseid != 0 && userId.Some? && !io.deleteFails
    ensures r.0.Ok? && r.0.value.success ==>
      forall c :: c in r.1.cases <==> c in t.cases && !(c.caseid == caseid && c.userid == userId.value)
  {
    if !templateExists then (Err(InvalidId), t)
    else if caseid == 0 || userId.None? then (Ok(Fail(DEL_FAIL, Some([BAD_PARAMS]))), t)
    else if io.deleteFails then (Ok(Fail(DEL_FAIL, Some([DB_FAILED]))), t)
    else (Ok(Success("删除成功", Some(""))), t.(cases := DeleteEntries(t.cases, caseid, userId.value)))
  }

  /** Deleting never removes another user's row. */
  lemma DelKeepsOthers(t: Tables, userid: string, caseid: u64, io: BookcaseIo, c: Case)
    requires c in t.cases && c.userid != userid
    ensures c in Del(true, t, Some(userid), caseid, io).1.cases
  {
  }

  // ---------------------------------------------------------------------------
  // The tables as state

  /** The bookcase and vote tables, changed in place by the handlers. */
  class BookcaseDb {
    var cases: seq<Case>
    var goodnum: map<u64, nat>

    constructor (cases0: seq<Case>, goodnum0: map<u64, nat>)
      ensures cases == cases0 && goodnum == goodnum0
    {
      cases := cases0;
      goodnum := goodnum0;
    }

    /** `add_bookcase` against the tables. */
    method AddBookcase(cfg: Config, templateExists: bool, userId: Option<string>, req: AddRequest, io: BookcaseIo)
      returns (r: Result<ApiResponse<string>, HandlerError>)
      modifies this
      ensures (r, Tables(cases, goodnum)) == Add(cfg, templateExists, Tables(old(cases), old(goodnum)), userId, req, io)
    {
      if !templateExists {
        return Err(InvalidId);
      }
      if req.articleid == 0 || req.articlename == "" || userId.None? {
        return Ok(Fail(ADD_FAIL, Some([BAD_PARAMS])));
      }
      if DividesByZero(cfg) {
        return Err(DivisionByZero);
      }
      var sourceId := SourceId(cfg, req.articleid);
      var sourceCid := if req.chapterid.Some? then req.chapterid.value else 0;
      var chaptername := if req.chaptername.Some? then req.chaptername.value else "";
      var userid := userId.value;
      var num := if io.countFails then 0 else EntryCount(cases, sourceId, userid);
      var changed;
      if num > 0 {
        changed := 0;
        if !io.updateFails {
          changed := EntryCount(cases, sourceId, userid);
          cases := UpdateEntries(cases, sourceId, userid, sourceCid, chaptername);
        }
      } else {
        if !io.goodnumFails {
          goodnum := Vote(goodnum, sourceId);
        }
        changed := 0;
        if !io.insertFails {
          cases := cases + [Case(io.newCaseId, sourceId, req.articlename, sourceCid, chaptername, userid, "")];
          changed := 1;
        }
      }
      if changed == 0 {
        return Ok(Fail(ADD_FAIL, Some([DB_FAILED])));
      }
      r := Ok(Success("添加成功", Some("")));
    }

    /** `del_bookcase` against the tables. */
    method DelBookcase(templateExists: bool, userId: Option<string>, caseid: u64, io: BookcaseIo)
      returns (r: Result<ApiResponse<string>, HandlerError>)
      modifies this
      ensures (r, Tables(cases, goodnum)) == Del(templateExists, Tables(old(cases), old(goodnum)), userId, caseid, io)
    {
      if !templateExists {
        return Err(InvalidId);
      }
      if caseid == 0 || userId.None? {
        return Ok(Fail(DEL_FAIL, Some([BAD_PARAMS])));
      }
      if io.deleteFails {
        return Ok(Fail(DEL_FAIL, Some([DB_FAILED])));
      }
      cases := DeleteEntries(cases, caseid, userId.value);
      r := Ok(Success("删除成功", Some("")));
    }
  }

  // ---------------------------------------------------------------------------
  // login_auth

  /** What the middleware does: let the request through, or redirect to /login (clearing the three cookies or not). */
  datatype AuthOutcome = Pass | ToLogin(clearCookies: bool)

  /**
   * `login_auth`: both cookies must be present; then the stored hash of the
   * user must equal the password cookie, and a failed check clears the
   * cookies.
   */
  function LoginAuth(templateExists: bool, db: UserService.Comparison, users: seq<UserService.User>, userId: Option<string>, pass: Option<string>,
                     fault: Option<string>): (r: Result<AuthOutcome, HandlerError>)
    ensures !templateExists <==> r == Err(InvalidId)
    ensures templateExists && (userId.None? || pass.None?) ==> r == Ok(ToLogin(false))
    ensures r == Ok(Pass) <==> templateExists && userId.Some? && pass.Some? &&
                               UserService.IsUserLogin(db, users, userId.value, pass.value, fault).Ok?
    ensures r == Ok(ToLogin(true)) ==> userId.Some? && pass.Some?
    ensures templateExists && userId.Some? && pass.Some? ==> r == Ok(Pass) || r == Ok(ToLogin(true))
  {
    if !templateExists then Err(InvalidId)
    else if userId.None? || pass.None? then Ok(ToLogin(false))
    else if UserService.IsUserLogin(db, users, userId.value, pass.value, fault).Ok? then Ok(Pass)
    else Ok(ToLogin(true))
  }

  /** The cookies a login sets let the bookcase pages through. */
  lemma LoginCookiesPass(cfg: Config, md5Hex: string -> string, db: UserService.Comparison, users: seq<UserService.User>, username: string, password: string)
    requires UserService.UidsUnique(users) && UserService.ReadsDecimals(db)
    requires UserService.GetUser(cfg, md5Hex, db, users, username, password, None).Ok?
    ensures var u := UserService.GetUser(cfg, md5Hex, db, users, username, password, None).value;
      LoginAuth(true, db, users, Some(Dec(u.uid)), Some(u.pass), None) == Ok(Pass)
  {
    UserService.LoginCookiesAuthenticate(cfg, md5Hex, db, users, username, password);
  }
}
