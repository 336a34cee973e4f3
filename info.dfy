/**
 * The book page: the 3-in-1 dispatch, and what `get_info` and `get_lang`
 * hand to the template. The book, its chapters and its long-tail rows come
 * from the cached loaders, here functions of the internal id.
 */
module InfoHandler {
  import opened Wrappers
  import opened Ints
  import opened Config
  import opened NovelService
  import opened LangTailService
  import IndexList

  datatype BookPath = BookPath(sid: Option<u64>, id: string)

  /** The not-found page, or a panic: a division by a zero confusion value, or an unwrapped missing error. */
  datatype InfoError = InvalidId | DivisionByZero | LangRowPanic

  /** Where a book path leads. */
  datatype InfoRoute =
    | ToIndexList(path: IndexList.IndexListPath)
    | ToInfo(id: u64)
    | ToLangIndex(path: IndexList.IndexListPath)
    | ToLang(langId: u64)

  /** Where a book id leads: on a 3-in-1 site the first page of the index, otherwise the info page. */
  function Route(cfg: Config, id: u64, lang: bool): (r: InfoRoute)
    ensures cfg.is3in1 ==> (r.ToIndexList? || r.ToLangIndex?) && r.path == IndexList.IndexListPath(id, "1")
    ensures cfg.is3in1 ==> (r.ToLangIndex? <==> lang)
    ensures !cfg.is3in1 ==> r == (if lang then ToLang(id) else ToInfo(id))
  {
    if cfg.is3in1 then
      (if lang then ToLangIndex(IndexList.IndexListPath(id, "1")) else ToIndexList(IndexList.IndexListPath(id, "1")))
    else if lang then ToLang(id) else ToInfo(id)
  }

  /** `get_info_3in1` and `get_lang_info_3in1`: a path without an id is not found. */
  function Info3in1(cfg: Config, p: BookPath, lang: bool): (r: Result<InfoRoute, InfoError>)
    ensures r.Err? <==> ExtractId(p.id).None?
    ensures r.Err? ==> r.error == InvalidId
    ensures r.Ok? ==> r.value == Route(cfg, ExtractId(p.id).value, lang)
  {
    match ExtractId(p.id)
    case None => Err(InvalidId)
    case Some(id) => Ok(Route(cfg, id, lang))
  }

  /** What the info template receives. */
  datatype InfoView = InfoView(
    detail: Novel,
    chapters: seq<NovelService.Chapter>,
    lastChapters: seq<NovelService.Chapter>,
    sourceId: u64,
    lastChapter: NovelService.Chapter,
    firstChapter: NovelService.Chapter,
    langArr: seq<LangTail>)

  /**
   * The view of a book row and its chapters: the last twelve chapters, and
   * the first and last chapters or, for a book without chapters, the
   * placeholder pointing at the book's own page.
   */
  function View(row: Novel, chapters: seq<NovelService.Chapter>, sourceId: u64, langArr: seq<LangTail>): (v: InfoView)
    ensures v.detail == row && v.chapters == chapters && v.sourceId == sourceId && v.langArr == langArr
    ensures |v.lastChapters| == Min(12, |chapters|) && v.lastChapters == chapters[|chapters| - |v.lastChapters|..]
    ensures chapters == [] ==> v.firstChapter == DefaultChapter(row.infoUrl) && v.lastChapter == DefaultChapter(row.infoUrl)
    ensures chapters != [] ==> v.firstChapter == chapters[0] && v.lastChapter == chapters[|chapters| - 1]
  {
    var ends := IndexList.Ends(row, chapters);
    InfoView(row, chapters, IndexList.LastTwelve(chapters), sourceId, ends.1, ends.0, langArr)
  }

  /**
   * `get_info`: the internal id of the book (a division by zero under a "*"
   * confusion of 0); no row is not found; otherwise the view, and the
   * long-tail generation is started for the book when long tails are on.
   */
  function GetInfo(cfg: Config, id: u64, info: u64 -> seq<Novel>, chapters: u64 -> seq<NovelService.Chapter>,
                   langArr: u64 -> seq<LangTail>): (r: Result<(InfoView, Option<(u64, string)>), InfoError>)
    ensures DividesByZero(cfg) <==> r == Err(DivisionByZero)
    ensures !DividesByZero(cfg) ==>
      var sid := SourceId(cfg, id);
      (r.Err? <==> info(sid) == []) &&
      (r.Ok? ==> r.value.0 == View(info(sid)[0], chapters(sid), sid, langArr(sid))) &&
      (r.Ok? ==> r.value.1 == if cfg.isLang then Some((sid, info(sid)[0].articlename)) else None)
  {
    if DividesByZero(cfg) then Err(DivisionByZero)
    else
      var sid := SourceId(cfg, id);
      if info(sid) == [] then Err(InvalidId)
      else
        var row := info(sid)[0];
        Ok((View(row, chapters(sid), sid, langArr(sid)), if cfg.isLang then Some((sid, row.articlename)) else None))
  }

  /**
   * `get_lang` step by step. `langTail` is what `get_lang_tail` returns for
   * the internal long-tail id: a query error is not found, and a missing row
   * panics there. The book is then looked up by the row's source id, and
   * its name and two links are replaced by the long tail's after the
   * placeholder chapters have taken the book's own link.
   */
  method GetLang(cfg: Config, langId: u64, langTail: u64 -> Result<LangTail, LangError>, info: u64 -> seq<Novel>,
                 chapters: u64 -> seq<NovelService.Chapter>, langArr: u64 -> seq<LangTail>)
    returns (r: Result<InfoView, InfoError>)
    ensures DividesByZero(cfg) <==> r == Err(DivisionByZero)
    ensures !DividesByZero(cfg) && SourceId(cfg, langId) == 0 ==> r == Err(InvalidId)
    ensures !DividesByZero(cfg) && SourceId(cfg, langId) != 0 ==>
      var lt := langTail(SourceId(cfg, langId));
      (lt == Err(NoRowPanic) ==> r == Err(LangRowPanic)) &&
      (lt.Err? && lt.error.DbError? ==> r == Err(InvalidId)) &&
      (lt.Ok? ==>
        var lr := lt.value;
        (r.Err? <==> info(lr.sourceid) == []) &&
        (r.Ok? ==>
          var book := info(lr.sourceid)[0];
          r.value == View(book, chapters(lr.sourceid), lr.sourceid, langArr(lr.sourceid))
                       .(detail := book.(articlename := lr.langname, infoUrl := lr.infoUrl, indexUrl := lr.indexUrl))))
  {
    if DividesByZero(cfg) {
      return Err(DivisionByZero);
    }
    var sourceLangId := SourceId(cfg, langId);
    if sourceLangId == 0 {
      return Err(InvalidId);
    }
    var langRow: LangTail;
    match langTail(sourceLangId) {
      case Err(e) =>
        return if e == NoRowPanic then Err(LangRowPanic) else Err(InvalidId);
      case Ok(lr) =>
        langRow := lr;
    }
    var rows := info(langRow.sourceid);
    if rows == [] {
      return Err(InvalidId);
    }
    var row := rows[0];
    var view := View(row, chapters(langRow.sourceid), langRow.sourceid, langArr(langRow.sourceid));
    row := row.(articlename := langRow.langname);
    row := row.(infoUrl := langRow.infoUrl);
    row := row.(indexUrl := langRow.indexUrl);
    r := Ok(view.(detail := row));
  }

  /**
   * On a long-tail page the book shows the long tail's name and links,
   * while a book without chapters still points its placeholder chapters at
   * the book's own page.
   */
  lemma LangOverrides(cfg: Config, lr: LangTail, book: Novel, chapterRows: seq<NovelService.Chapter>, langRows: seq<LangTail>)
    ensures var v := View(book, chapterRows, lr.sourceid, langRows).(detail := book.(articlename := lr.langname, infoUrl := lr.infoUrl, indexUrl := lr.indexUrl));
      v.detail.articlename == lr.langname && v.detail.infoUrl == lr.infoUrl && v.detail.indexUrl == lr.indexUrl &&
      v.detail.articleid == book.articleid && v.sourceId == lr.sourceid &&
      (chapterRows == [] ==> v.firstChapter.readUrl == book.infoUrl && v.lastChapter.readUrl == book.infoUrl)
  {
  }
}
