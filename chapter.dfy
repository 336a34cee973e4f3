/**
 * The chapter page of src/handlers/chapter.rs: decoding the chapter id and
 * page out of the request path, choosing the previous and next chapter
 * links, rewriting `<br ...>` tags to line breaks and cutting the chapter
 * text into pages by lines or by grapheme clusters.
 */
module ChapterHandler {
  import opened Wrappers
  import opened Ints
  import opened Strings
  import opened Config
  import opened Text
  import opened NovelService

  /** The path parameters of the chapter route; `sid` is never read. */
  datatype ChapterPath = ChapterPath(id: u64, cid: Option<string>, sCid: Option<string>, page: Option<string>)

  /** `TeraRenderError::InvalidId` (the not-found page), or the panic of a division by zero. */
  datatype ChapterError = InvalidId | DivisionByZero

  /** The text shown for a chapter whose file is empty or missing. */
  const PENDING := "章节正在手打中，请稍后重新访问！"

  // ---------------------------------------------------------------------------
  // Decoding the chapter id and page

  lemma {:induction false} CountPositive(s: string, c: char)
    requires c in s
    ensures Count(s, c) > 0
  {
    if s[0] != c {
      assert c in s[1..] by {
        var i :| 0 <= i < |s| && s[i] == c;
        assert s[1..][i - 1] == c;
      }
      CountPositive(s[1..], c);
    }
  }

  /**
   * The (cid, page) pair the path names, before the page-0 and cid-0
   * checks: with a `{s_cid}` chapter URL "a_b" is read as cid a and page b
   * and "a" as cid a on page 1; otherwise `cid` and `page` are read
   * separately and a missing page is page 1. A missing or unreadable id is
   * not found.
   */
  function Decode(cfg: Config, p: ChapterPath): (r: Option<(u64, u64)>)
    ensures Contains(cfg.rewrite.chapterUrl, "{s_cid}") && p.sCid.None? ==> r.None?
    ensures !Contains(cfg.rewrite.chapterUrl, "{s_cid}") && p.cid.None? ==> r.None?
    ensures r.Some? && Contains(cfg.rewrite.chapterUrl, "{s_cid}") && '_' !in p.sCid.value ==> r.value.1 == 1
    ensures r.Some? && !Contains(cfg.rewrite.chapterUrl, "{s_cid}") && p.page.None? ==> r.value.1 == 1
  {
    if Contains(cfg.rewrite.chapterUrl, "{s_cid}") then
      match p.sCid
      case None => None
      case Some(s) =>
        if '_' in s then
          var parts := Split(s, '_');
          SplitCount(s, '_');
          CountPositive(s, '_');
          match (ExtractId(parts[0]), ExtractId(parts[1]))
          case (Some(cid), Some(page)) => Some((cid, page))
          case _ => None
        else
          match ExtractId(s)
          case None => None
          case Some(cid) => Some((cid, 1))
    else
      match p.cid
      case None => None
      case Some(c) =>
        match ExtractId(c)
        case None => None
        case Some(cid) =>
          if p.page.None? then Some((cid, 1))
          else
            match ExtractId(p.page.value)
            case None => None
            case Some(page) => Some((cid, page))
  }

  /** The decoded pair after page 0 becomes page 1 and cid 0 is refused. */
  function Ids(cfg: Config, p: ChapterPath): (r: Option<(u64, u64)>)
    ensures r.Some? ==> r.value.0 >= 1 && r.value.1 >= 1
    ensures r.Some? <==> Decode(cfg, p).Some? && Decode(cfg, p).value.0 != 0
    ensures r.Some? ==> r.value.0 == Decode(cfg, p).value.0
    ensures r.Some? && Decode(cfg, p).value.1 != 0 ==> r.value.1 == Decode(cfg, p).value.1
  {
    match Decode(cfg, p)
    case None => None
    case Some((cid, page)) => if cid == 0 then None else Some((cid, if page == 0 then 1 else page))
  }

  /** "cid_page" splits at its one '_' into the two numbers. */
  lemma SplitPair(cid: u64, page: u64)
    ensures '_' in Dec(cid) + "_" + Dec(page)
    ensures Split(Dec(cid) + "_" + Dec(page), '_') == [Dec(cid), Dec(page)]
  {
    var s := Dec(cid) + "_" + Dec(page);
    assert s[|Dec(cid)|] == '_';
    DecHasNo(cid, '_');
    DecHasNo(page, '_');
    assert s == Dec(cid) + ['_'] + Dec(page);
    SplitAt(Dec(cid), Dec(page), '_');
    SplitWithout(Dec(cid), '_');
    SplitWithout(Dec(page), '_');
  }

  /** The `{s_cid}` segment `read_url` writes decodes back to the chapter id and page it was made from. */
  lemma SCidRoundTrip(cfg: Config, id: u64, cid: u64, page: u64, other: Option<string>)
    requires Contains(cfg.rewrite.chapterUrl, "{s_cid}") && cid >= 1 && page >= 1
    ensures Ids(cfg, ChapterPath(id, other, Some(SCid(cid, page)), other)) == Some((cid, page))
  {
    var path := ChapterPath(id, other, Some(SCid(cid, page)), other);
    ExtractIdOfDec(cid);
    if page == 1 {
      DecHasNo(cid, '_');
      assert Decode(cfg, path) == Some((cid, 1));
    } else {
      ExtractIdOfDec(page);
      SplitPair(cid, page);
      assert Decode(cfg, path) == Some((cid, page));
    }
  }

  /** `extract_id` of "n.ext" is n. */
  lemma ExtractIdWithExt(n: u64, ext: string)
    requires '/' !in ext && '.' !in ext
    ensures ExtractId(Dec(n) + "." + ext) == Some(n)
  {
    var seg := Dec(n) + "." + ext;
    DecHasNo(n, '/');
    DecHasNo(n, '.');
    assert '/' !in seg;
    SplitWithout(seg, '/');
    assert LastNonEmpty([seg]) == Some(seg);
    assert seg[..|Dec(n)|] == Dec(n) && seg[|Dec(n)|] == '.' && seg[|Dec(n)| + 1..] == ext;
    assert BeforeLastDot(seg) == Dec(n);
    ParseDec(n);
  }

  /** Without `{s_cid}`, a `{cid}` and `{page}` written as numbers (with or without an extension) decode back. */
  lemma PlainRoundTrip(cfg: Config, id: u64, cid: u64, page: u64, ext: string, sCid: Option<string>)
    requires !Contains(cfg.rewrite.chapterUrl, "{s_cid}") && cid >= 1 && page >= 1
    requires '/' !in ext && '.' !in ext
    ensures Ids(cfg, ChapterPath(id, Some(Dec(cid) + "." + ext), sCid, Some(Dec(page)))) == Some((cid, page))
    ensures Ids(cfg, ChapterPath(id, Some(Dec(cid)), sCid, None)) == Some((cid, 1))
  {
    ExtractIdWithExt(cid, ext);
    ExtractIdOfDec(cid);
    ExtractIdOfDec(page);
    assert Decode(cfg, ChapterPath(id, Some(Dec(cid) + "." + ext), sCid, Some(Dec(page)))) == Some((cid, page));
    assert Decode(cfg, ChapterPath(id, Some(Dec(cid)), sCid, None)) == Some((cid, 1));
  }

  // ---------------------------------------------------------------------------
  // Finding the chapter and its neighbours

  /** The index of the first chapter with id `cid` (`find` and `position` agree on it). */
  function FindChapter(rows: seq<NovelService.Chapter>, cid: u64): (r: Option<nat>)
    ensures r.Some? ==> r.value < |rows| && rows[r.value].chapterid == cid
    ensures r.Some? ==> forall j :: 0 <= j < r.value ==> rows[j].chapterid != cid
    ensures r.None? <==> forall j :: 0 <= j < |rows| ==> rows[j].chapterid != cid
  {
    if rows == [] then None
    else if rows[0].chapterid == cid then Some(0)
    else
      match FindChapter(rows[1..], cid)
      case None => None
      case Some(i) => Some(i + 1)
  }

  /** The book's landing link: the chapter index in 3-in-1 mode, the info page otherwise. */
  function LandingUrl(cfg: Config, row: Novel): string
  {
    if cfg.is3in1 then row.indexUrl else row.infoUrl
  }

  /** `(next_url, prev_url)` of chapter `i`. */
  function Neighbours(cfg: Config, row: Novel, rows: seq<NovelService.Chapter>, i: nat): (r: (string, string))
    requires i < |rows|
    ensures i == |rows| - 1 ==> r.0 == LandingUrl(cfg, row)
    ensures i < |rows| - 1 ==> r.0 == ReadUrl(cfg, row.articleid, rows[i + 1].chapterid, 1)
    ensures i == 0 ==> r.1 == LandingUrl(cfg, row)
    ensures i > 0 ==> r.1 == ReadUrl(cfg, row.articleid, rows[i - 1].chapterid, 1)
  {
    var info := LandingUrl(cfg, row);
    (if i == |rows| - 1 then info else ReadUrl(cfg, row.articleid, rows[i + 1].chapterid, 1),
     if i == 0 then info else ReadUrl(cfg, row.articleid, rows[i - 1].chapterid, 1))
  }

  /** The links of neighbouring chapters point at each other's first page. */
  lemma NeighboursMutual(cfg: Config, row: Novel, rows: seq<NovelService.Chapter>, i: nat)
    requires i + 1 < |rows|
    ensures Neighbours(cfg, row, rows, i).0 == ReadUrl(cfg, row.articleid, rows[i + 1].chapterid, 1)
    ensures Neighbours(cfg, row, rows, i + 1).1 == ReadUrl(cfg, row.articleid, rows[i].chapterid, 1)
  {
  }

  // ---------------------------------------------------------------------------
  // BR_REGEX: `(?i)<br\s+[^>]*?/?>` replaced by "\n"

  /** `s` starts with "<br" in any case followed by a whitespace character. */
  predicate BrOpen(s: string)
  {
    |s| >= 4 && s[0] == '<' && (s[1] == 'b' || s[1] == 'B') && (s[2] == 'r' || s[2] == 'R') && IsSpace(s[3])
  }

  /** The position of the first '>' in `s`. */
  function FirstGt(s: string): (r: Option<nat>)
    ensures r.Some? ==> r.value < |s| && s[r.value] == '>' && '>' !in s[..r.value]
    ensures r.None? <==> '>' !in s
  {
    if s == [] then None
    else if s[0] == '>' then Some(0)
    else
      match FirstGt(s[1..])
      case None => None
      case Some(k) =>
        assert s[..k + 1] == [s[0]] + s[1..][..k];
        Some(k + 1)
  }

  /**
   * Every match of the regex, leftmost first, replaced by "\n". A match
   * starts at "<br" followed by whitespace and, since `[^>]` cannot cross a
   * '>', ends at the first '>' after it; with no '>' left there is none.
   */
  function BrToNewline(s: string): (r: string)
    ensures |r| <= |s|
    decreases |s|
  {
    if s == [] then []
    else if BrOpen(s) && FirstGt(s[4..]).Some? then "\n" + BrToNewline(s[4 + FirstGt(s[4..]).value + 1..])
    else [s[0]] + BrToNewline(s[1..])
  }

  /** Text without '<' passes through unchanged, in front of anything. */
  lemma {:induction false} BrFreePrefix(a: string, b: string)
    requires '<' !in a
    ensures BrToNewline(a + b) == a + BrToNewline(b)
  {
    if a != [] {
      assert (a + b)[0] == a[0] && (a + b)[1..] == a[1..] + b;
      assert a[0] != '<' && '<' !in a[1..];
      assert !BrOpen(a + b);
      assert BrToNewline(a + b) == [a[0]] + BrToNewline(a[1..] + b);
      BrFreePrefix(a[1..], b);
      assert [a[0]] + (a[1..] + BrToNewline(b)) == a + BrToNewline(b);
    } else {
      assert a + b == b;
    }
  }

  /** Text without '<' is left as it is. */
  lemma BrFreeUnchanged(s: string)
    requires '<' !in s
    ensures BrToNewline(s) == s
  {
    BrFreePrefix(s, "");
    assert s + "" == s;
  }

  /** A "<br />" tag becomes one line break. */
  lemma BrTagBreaks(a: string, b: string)
    requires '<' !in a
    ensures BrToNewline(a + "<br />" + b) == a + "\n" + BrToNewline(b)
  {
    var s := "<br />" + b;
    assert a + "<br />" + b == a + s;
    BrFreePrefix(a, s);
    assert s[0] == '<' && s[1] == 'b' && s[2] == 'r' && s[3] == ' ';
    assert BrOpen(s);
    var t := s[4..];
    assert t[0] == '/' && t[1..][0] == '>';
    assert FirstGt(t[1..]) == Some(0);
    assert FirstGt(t) == Some(1);
    assert BrToNewline(s) == "\n" + BrToNewline(s[6..]);
    assert s[6..] == b;
  }

  /** A '<' not followed by "br" and whitespace is copied, and so is the '<'-free text after it. */
  lemma {:induction false} NotBrKept(tag: string, b: string)
    requires |tag| >= 4 && !IsSpace(tag[3]) && '<' !in tag[1..]
    ensures BrToNewline(tag + b) == tag + BrToNewline(b)
  {
    var s := tag + b;
    assert s[3] == tag[3];
    assert !BrOpen(s);
    assert s[1..] == tag[1..] + b;
    BrFreePrefix(tag[1..], b);
    assert [s[0]] + (tag[1..] + BrToNewline(b)) == tag + BrToNewline(b);
  }

  /** "<br>" and "<br/>" have no whitespace after "br" and are kept as written. */
  lemma BareBrKept(a: string, b: string)
    requires '<' !in a
    ensures BrToNewline(a + "<br>" + b) == a + "<br>" + BrToNewline(b)
    ensures BrToNewline(a + "<br/>" + b) == a + "<br/>" + BrToNewline(b)
  {
    var bare, slash := "<br>", "<br/>";
    assert bare[1..] == "br>" && slash[1..] == "br/>";
    NotBrKept(bare, b);
    NotBrKept(slash, b);
    assert a + bare + b == a + (bare + b);
    assert a + slash + b == a + (slash + b);
    BrFreePrefix(a, bare + b);
    BrFreePrefix(a, slash + b);
  }

  // ---------------------------------------------------------------------------
  // Page splitting

  /** What the page shows: the content, the page count and the links to the previous and next page. */
  datatype Page = Page(content: string, maxPage: nat, prevPageUrl: string, nextPageUrl: string)

  function PrevPageUrl(cfg: Config, aid: u64, cid: u64, page: u64): string
  {
    if page > 1 then ReadUrl(cfg, aid, cid, page - 1) else ""
  }

  function NextPageUrl(cfg: Config, aid: u64, cid: u64, page: u64, maxPage: nat): string
  {
    if page < maxPage then ReadUrl(cfg, aid, cid, page + 1) else ""
  }

  /**
   * The page links agree with the page count: a previous page exactly when
   * 1 < page <= max_page, a next page exactly when page < max_page, each
   * pointing at the neighbouring page.
   */
  predicate LinksAgree(cfg: Config, aid: u64, cid: u64, page: u64, pg: Page)
  {
    pg.prevPageUrl == (if 1 < page as nat <= pg.maxPage then ReadUrl(cfg, aid, cid, page as nat - 1) else "") &&
    pg.nextPageUrl == (if page as nat < pg.maxPage then ReadUrl(cfg, aid, cid, page as nat + 1) else "")
  }

  /**
   * Mode 1, by lines: only a chapter with more lines than the configured
   * count is cut, into pages of escaped lines; a page past the end (or a
   * zero line count, which gives no pages) is not found. A shorter chapter
   * is shown whole, unwrapped, on every page.
   */
  function LinesPage(cfg: Config, c: string, page: u64, aid: u64, cid: u64): (r: Result<Page, ChapterError>)
    requires page >= 1
    ensures r.Err? <==> (cfg.readPageSplitLines < |Split(c, '\n')| % U32_LIMIT &&
      (cfg.readPageSplitLines == 0 || page > DivCeil(|EscapedLines(c)|, cfg.readPageSplitLines)))
    ensures r.Err? ==> r.error == InvalidId
    ensures r.Ok? ==> LinksAgree(cfg, aid, cid, page, r.value)
    ensures r.Ok? && cfg.readPageSplitLines >= |Split(c, '\n')| % U32_LIMIT ==> r.value == Page(c, 1, "", "")
    ensures r.Ok? && cfg.readPageSplitLines < |Split(c, '\n')| % U32_LIMIT ==>
      r.value.maxPage == DivCeil(|EscapedLines(c)|, cfg.readPageSplitLines) &&
      r.value.content == WrapAll(Paragraphs(PageSlice(EscapedLines(c), cfg.readPageSplitLines, page)))
  {
    var lines := cfg.readPageSplitLines as nat;
    if !(lines < |Split(c, '\n')| % U32_LIMIT) then Ok(Page(c, 1, "", ""))
    else if lines == 0 || page as nat > DivCeil(|EscapedLines(c)|, lines) then Err(InvalidId)
    else
      var total := DivCeil(|EscapedLines(c)|, lines);
      Ok(Page(WrapAll(Paragraphs(PageSlice(EscapedLines(c), lines, page))), total,
        PrevPageUrl(cfg, aid, cid, page), NextPageUrl(cfg, aid, cid, page, total)))
  }

  /** `iter.skip(start).take(n)` on a sequence. */
  function SkipTake<T>(all: seq<T>, start: nat, n: nat): seq<T>
  {
    var rest := all[Min(start, |all|)..];
    rest[..Min(n, |rest|)]
  }

  /** Within the page count, skipping whole pages and taking one is the page's slice. */
  lemma SkipTakePage<T>(all: seq<T>, per: nat, page: u64)
    requires per > 0 && 1 <= page <= DivCeil(|all|, per) && per < U32_LIMIT
    ensures |all| < U64_LIMIT ==> SkipTake(all, SaturatingMul64(page - 1, per), per) == PageSlice(all, per, page)
  {
    DivCeilBound(|all|, per, page);
  }

  /**
   * Mode 2, by grapheme clusters: pages of `per_page` clusters, counted by
   * `div_ceil`, which panics on a zero page size; a page past the end is
   * not found, and the page's clusters are wrapped line by line.
   */
  function GraphemesPage(cfg: Config, c: string, page: u64, aid: u64, cid: u64, graphemes: string -> seq<string>)
    : (r: Result<Page, ChapterError>)
    requires page >= 1
    ensures var per := cfg.readPageSplitLines as nat;
      r.Err? <==> per == 0 || page > DivCeil(|graphemes(c)|, per)
    ensures r.Err? ==> (r.error == DivisionByZero <==> cfg.readPageSplitLines == 0)
    ensures r.Ok? ==> r.value.maxPage == DivCeil(|graphemes(c)|, cfg.readPageSplitLines as nat)
    ensures r.Ok? ==> LinksAgree(cfg, aid, cid, page, r.value)
    ensures r.Ok? && |graphemes(c)| < U64_LIMIT ==>
      r.value.content == WrapAll(Lines(JoinWith(PageSlice(graphemes(c), cfg.readPageSplitLines as nat, page), "")))
  {
    var per := cfg.readPageSplitLines as nat;
    var all := graphemes(c);
    if per == 0 then Err(DivisionByZero)
    else
      var maxPid := DivCeil(|all|, per);
      if page as nat > maxPid then Err(InvalidId)
      else
        var start := SaturatingMul64(page - 1, per);
        SkipTakePage(all, per, page);
        Ok(Page(WrapAll(Lines(JoinWith(SkipTake(all, start, per), ""))), maxPid,
          PrevPageUrl(cfg, aid, cid, page), NextPageUrl(cfg, aid, cid, page, maxPid)))
  }

  /**
   * Mode 2 as the handler is written: the page count is bound by a `let`
   * that shadows the outer `max_pid`, so the page reports one page
   * whatever the count.
   */
  function GraphemesPageAsWritten(cfg: Config, c: string, page: u64, aid: u64, cid: u64, graphemes: string -> seq<string>)
    : (r: Result<Page, ChapterError>)
    requires page >= 1
    ensures r.Ok? ==> r.value.maxPage == 1
    ensures r.Ok? <==> GraphemesPage(cfg, c, page, aid, cid, graphemes).Ok?
  {
    match GraphemesPage(cfg, c, page, aid, cid, graphemes)
    case Err(e) => Err(e)
    case Ok(pg) => Ok(pg.(maxPage := 1))
  }

  /** As written, a two-cluster chapter at one cluster per page links to page 2 while reporting one page. */
  lemma MaxPageShadowed(cfg: Config, c: string, aid: u64, cid: u64, graphemes: string -> seq<string>)
    requires cfg.readPageSplitLines == 1 && |graphemes(c)| == 2
    ensures var r := GraphemesPageAsWritten(cfg, c, 1, aid, cid, graphemes);
      r.Ok? && r.value.maxPage == 1 && r.value.nextPageUrl == ReadUrl(cfg, aid, cid, 2)
    ensures var r := GraphemesPage(cfg, c, 1, aid, cid, graphemes);
      r.Ok? && r.value.maxPage == 2 && r.value.nextPageUrl == ReadUrl(cfg, aid, cid, 2)
  {
    assert DivCeil(2, 1) == 2;
  }

  /** The chapter body and paging for page `page` of text `text` in the configured mode. */
  function Content(cfg: Config, text: string, page: u64, aid: u64, cid: u64, graphemes: string -> seq<string>)
    : (r: Result<Page, ChapterError>)
    requires page >= 1
    ensures text == "" ==> r == Ok(Page(PENDING, 1, "", ""))
    ensures text != "" && cfg.readPageSplitMode != 1 && cfg.readPageSplitMode != 2 ==>
      r == Ok(Page(WrapAll(Lines(BrToNewline(text))), 1, "", ""))
  {
    if text == "" then Ok(Page(PENDING, 1, "", ""))
    else
      var c := BrToNewline(text);
      if cfg.readPageSplitMode == 1 then LinesPage(cfg, c, page, aid, cid)
      else if cfg.readPageSplitMode == 2 then GraphemesPage(cfg, c, page, aid, cid, graphemes)
      else Ok(Page(WrapAll(Lines(c)), 1, "", ""))
  }

  /** In every mode the page links agree with the page count the page reports. */
  lemma PageLinksAgree(cfg: Config, text: string, page: u64, aid: u64, cid: u64, graphemes: string -> seq<string>)
    requires page >= 1
    ensures var r := Content(cfg, text, page, aid, cid, graphemes);
      r.Ok? ==> LinksAgree(cfg, aid, cid, page, r.value)
  {
    if text != "" {
      var c := BrToNewline(text);
      if cfg.readPageSplitMode == 1 {
        assert Content(cfg, text, page, aid, cid, graphemes) == LinesPage(cfg, c, page, aid, cid);
      } else if cfg.readPageSplitMode == 2 {
        assert Content(cfg, text, page, aid, cid, graphemes) == GraphemesPage(cfg, c, page, aid, cid, graphemes);
      }
    }
  }

  // ---------------------------------------------------------------------------
  // The handler

  /** What the chapter template receives. */
  datatype ChapterView = ChapterView(
    chapter: NovelService.Chapter,
    detail: Novel,
    chapters: seq<NovelService.Chapter>,
    nextUrl: string,
    prevUrl: string,
    nextPageUrl: string,
    prevPageUrl: string,
    content: string,
    maxPage: nat,
    page: u64,
    infoUrl: string)

  /**
   * The page of chapter `cid` of book `row`, once the ids are decoded and
   * the book is found, given the outcome `body` of paging its text.
   */
  function ChapterAt(cfg: Config, row: Novel, rows: seq<NovelService.Chapter>, cid: u64, page: u64,
                     body: Result<Page, ChapterError>)
    : (r: Result<ChapterView, ChapterError>)
    ensures r.Ok? ==> r.value.chapter in rows && r.value.chapter.chapterid == cid && r.value.page == page
    ensures r.Ok? ==> r.value.detail == row && r.value.chapters == rows && r.value.infoUrl == LandingUrl(cfg, row)
    ensures FindChapter(rows, cid).None? ==> r == Err(InvalidId)
  {
    match FindChapter(rows, cid)
    case None => Err(InvalidId)
    case Some(i) =>
      var links := Neighbours(cfg, row, rows, i);
      match body
      case Err(e) => Err(e)
      case Ok(pg) =>
        Ok(ChapterView(rows[i], row, rows, links.0, links.1, pg.nextPageUrl, pg.prevPageUrl,
          pg.content, pg.maxPage, page, LandingUrl(cfg, row)))
  }

  /**
   * The page `get_chapter` renders: not found without the theme's template
   * or for an undecodable path; then `source_id`, which panics under a "*"
   * confusion of 0; then not found for a missing book or a chapter not in
   * the book; the page count of grapheme mode is the one computed for the
   * chapter.
   */
  function View(cfg: Config, templateExists: bool, p: ChapterPath, info: seq<Novel>,
                rows: seq<NovelService.Chapter>, text: string, graphemes: string -> seq<string>)
    : (r: Result<ChapterView, ChapterError>)
    ensures !templateExists || Ids(cfg, p).None? ==> r == Err(InvalidId)
    ensures templateExists && Ids(cfg, p).Some? && DividesByZero(cfg) ==> r == Err(DivisionByZero)
    ensures r.Ok? ==> templateExists && Ids(cfg, p).Some? && !DividesByZero(cfg) && info != [] && r.value.detail == info[0]
    ensures r.Ok? ==> r.value.chapter in rows && r.value.chapter.chapterid == Ids(cfg, p).value.0
    ensures r.Ok? ==> r.value.page == Ids(cfg, p).value.1 >= 1
    ensures !DividesByZero(cfg) && Ids(cfg, p).Some? && FindChapter(rows, Ids(cfg, p).value.0).None? ==> r == Err(InvalidId)
  {
    if !templateExists then Err(InvalidId)
    else
      match Ids(cfg, p)
      case None => Err(InvalidId)
      case Some((cid, page)) =>
        if DividesByZero(cfg) then Err(DivisionByZero)
        else if info == [] then Err(InvalidId)
        else ChapterAt(cfg, info[0], rows, cid, page, Content(cfg, text, page, info[0].articleid, cid, graphemes))
  }

  /** The id-decoding half of `get_chapter`, on its mutable `cid` and `page`. */
  method DecodeIds(cfg: Config, p: ChapterPath) returns (r: Option<(u64, u64)>)
    ensures r == Ids(cfg, p)
  {
    var page: u64 := 1;
    var cid: u64 := 0;
    if Contains(cfg.rewrite.chapterUrl, "{s_cid}") {
      if p.sCid.Some? {
        var sCid := p.sCid.value;
        if '_' in sCid {
          var parts := Split(sCid, '_');
          SplitCount(sCid, '_');
          CountPositive(sCid, '_');
          var c := ExtractId(parts[0]);
          if c.None? {
            return None;
          }
          cid := c.value;
          var pg := ExtractId(parts[1]);
          if pg.None? {
            return None;
          }
          page := pg.value;
        } else {
          page := 1;
          var c := ExtractId(sCid);
          if c.None? {
            return None;
          }
          cid := c.value;
        }
      } else {
        return None;
      }
    } else {
      if p.cid.Some? {
        var c := ExtractId(p.cid.value);
        if c.None? {
          return None;
        }
        cid := c.value;
      } else {
        return None;
      }
      if p.page.Some? {
        var pg := ExtractId(p.page.value);
        if pg.None? {
          return None;
        }
        page := pg.value;
      } else {
        page := 1;
      }
    }
    assert Decode(cfg, p) == Some((cid, page));
    if page == 0 {
      page := 1;
    }
    if cid == 0 {
      return None;
    }
    return Some((cid, page));
  }

  /** Mode 1 of `get_chapter`, on its mutable `chapter_content`, `max_pid` and page links. */
  method SplitByLines(cfg: Config, c: string, page: u64, aid: u64, cid: u64) returns (r: Result<Page, ChapterError>)
    requires page >= 1
    ensures r == LinesPage(cfg, c, page, aid, cid)
  {
    var chapterContent := c;
    var maxPid: nat := 1;
    var nextPageUrl := "";
    var prevPageUrl := "";
    if cfg.readPageSplitLines < |Split(chapterContent, '\n')| % U32_LIMIT {
      chapterContent, maxPid := ReadPageSplit(chapterContent, Some(cfg.readPageSplitLines as nat), Some(page as nat));
      if page as nat > maxPid {
        return Err(InvalidId);
      }
      if page > 1 {
        prevPageUrl := ReadUrl(cfg, aid, cid, page - 1);
      }
      if page as nat < maxPid {
        nextPageUrl := ReadUrl(cfg, aid, cid, page + 1);
      }
    }
    return Ok(Page(chapterContent, maxPid, prevPageUrl, nextPageUrl));
  }

  /** Mode 2 of `get_chapter`, with the page count kept for the page (see `GraphemesPageAsWritten`). */
  method SplitByGraphemes(cfg: Config, c: string, page: u64, aid: u64, cid: u64, graphemes: string -> seq<string>)
    returns (r: Result<Page, ChapterError>)
    requires page >= 1
    ensures r == GraphemesPage(cfg, c, page, aid, cid, graphemes)
  {
    var nextPageUrl := "";
    var prevPageUrl := "";
    var perPage := cfg.readPageSplitLines as nat;
    var allWords := graphemes(c);
    if perPage == 0 {
      return Err(DivisionByZero);
    }
    var maxPid := DivCeil(|allWords|, perPage);
    if page as nat > maxPid {
      return Err(InvalidId);
    }
    var start := SaturatingMul64(page - 1, perPage);
    var pageText := JoinWith(SkipTake(allWords, start, perPage), "");
    var chapterContent := StrToP(pageText);
    if page > 1 {
      prevPageUrl := ReadUrl(cfg, aid, cid, page - 1);
    }
    if page as nat < maxPid {
      nextPageUrl := ReadUrl(cfg, aid, cid, page + 1);
    }
    return Ok(Page(chapterContent, maxPid, prevPageUrl, nextPageUrl));
  }

  /** The content half of `get_chapter`: the placeholder for an empty file, else the `<br>` rewrite and the configured split. */
  method PageContent(cfg: Config, text: string, page: u64, aid: u64, cid: u64, graphemes: string -> seq<string>)
    returns (r: Result<Page, ChapterError>)
    requires page >= 1
    ensures r == Content(cfg, text, page, aid, cid, graphemes)
  {
    if text == "" {
      return Ok(Page(PENDING, 1, "", ""));
    }
    var chapterContent := BrToNewline(text);
    match cfg.readPageSplitMode
    case 1 =>
      r := SplitByLines(cfg, chapterContent, page, aid, cid);
    case 2 =>
      r := SplitByGraphemes(cfg, chapterContent, page, aid, cid, graphemes);
    case _ =>
      chapterContent := StrToP(chapterContent);
      r := Ok(Page(chapterContent, 1, "", ""));
  }

  /** The part of `get_chapter` after the book row is loaded: the chapter, its neighbours and its content. */
  method ShowChapter(cfg: Config, row: Novel, rows: seq<NovelService.Chapter>, cid: u64, page: u64,
                     text: string, graphemes: string -> seq<string>)
    returns (r: Result<ChapterView, ChapterError>)
    requires page >= 1
    ensures r == ChapterAt(cfg, row, rows, cid, page, Content(cfg, text, page, row.articleid, cid, graphemes))
  {
    // `find` and `position` with the same test stop at the same chapter.
    var found := FindChapter(rows, cid);
    if found.None? {
      return Err(InvalidId);
    }
    var index := found.value;
    var chapter := rows[index];
    var infoUrl := LandingUrl(cfg, row);
    var (nextUrl, prevUrl) := Neighbours(cfg, row, rows, index);
    var content := PageContent(cfg, text, page, row.articleid, cid, graphemes);
    if content.Err? {
      return Err(content.error);
    }
    var pg := content.value;
    r := Ok(ChapterView(chapter, row, rows, nextUrl, prevUrl, pg.nextPageUrl, pg.prevPageUrl,
      pg.content, pg.maxPage, page, infoUrl));
  }

  /**
   * `get_chapter`: the loaded book rows, chapter list and chapter file, the
   * template check and grapheme segmentation are parameters.
   */
  method GetChapter(cfg: Config, templateExists: bool, p: ChapterPath, info: seq<Novel>,
                    rows: seq<NovelService.Chapter>, text: string, graphemes: string -> seq<string>)
    returns (r: Result<ChapterView, ChapterError>)
    ensures r == View(cfg, templateExists, p, info, rows, text, graphemes)
  {
    if !templateExists {
      return Err(InvalidId);
    }
    var ids := DecodeIds(cfg, p);
    if ids.None? {
      return Err(InvalidId);
    }
    var (cid, page) := ids.value;
    if DividesByZero(cfg) {
      return Err(DivisionByZero);
    }
    if info == [] {
      return Err(InvalidId);
    }
    r := ShowChapter(cfg, info[0], rows, cid, page, text, graphemes);
  }
}
