/**
 * The chapter-index page of src/handlers/index_list.rs: the page number
 * from the path, the page count, the slice of chapters shown on the page,
 * the previous/next links and the list of links to every page.
 */
module IndexList {
  import opened Wrappers
  import opened Ints
  import opened Strings
  import opened Config
  import opened Text
  import opened NovelService

  /** The path parameters of the index route; `sid` is never read. */
  datatype IndexListPath = IndexListPath(id: u64, page: string)

  /**
   * `TeraRenderError::InvalidId` (the not-found page), or a panic: a
   * division by a zero page size, or a slice whose start lies past its end.
   */
  datatype ListError = InvalidId | DivisionByZero | SliceOutOfOrder

  /** One entry of `page_urls`. */
  datatype PageUrl = PageUrl(page: u64, url: string, select: bool)

  /** What the index template receives. */
  datatype IndexView = IndexView(
    prevUrl: string,
    nextUrl: string,
    detail: Novel,
    cutChapters: seq<NovelService.Chapter>,
    lastChapters: seq<NovelService.Chapter>,
    sourceId: u64,
    lastChapter: NovelService.Chapter,
    firstChapter: NovelService.Chapter,
    totalPage: u64,
    pageUrls: seq<PageUrl>,
    page: u64)

  /** `(len + n - 1) / n` on usize, the sum wrapping around. */
  function TotalPage(len: nat, n: u64): (r: u64)
    requires n > 0
  {
    ((len + n - 1) % U64_LIMIT) / n
  }

  /** Without wrap-around the page count is the ceiling of len / n. */
  lemma TotalPageIsDivCeil(len: nat, n: u64)
    requires n > 0 && len + n - 1 < U64_LIMIT
    ensures TotalPage(len, n) == DivCeil(len, n)
  {
  }

  /** `&rows[rows.len().saturating_sub(12)..]`: the last twelve chapters, or all of them. */
  function LastTwelve(rows: seq<NovelService.Chapter>): (r: seq<NovelService.Chapter>)
    ensures |r| == Min(12, |rows|) && r == rows[|rows| - |r|..]
  {
    rows[SaturatingSub(|rows|, 12)..]
  }

  /** The first and last chapter, or the placeholder pointing at the info page for an empty list. */
  function Ends(row: Novel, rows: seq<NovelService.Chapter>): (r: (NovelService.Chapter, NovelService.Chapter))
    ensures rows == [] ==> r.0 == DefaultChapter(row.infoUrl) && r.1 == DefaultChapter(row.infoUrl)
    ensures rows != [] ==> r.0 == rows[0] && r.1 == rows[|rows| - 1]
  {
    if rows == [] then (DefaultChapter(row.infoUrl), DefaultChapter(row.infoUrl))
    else (rows[0], rows[|rows| - 1])
  }

  /** `page_urls`: a link to each page 1..total, the current one selected. */
  function PageUrls(cfg: Config, aid: u64, total: u64, page: u64): (r: seq<PageUrl>)
    ensures |r| == total
    ensures forall i :: 0 <= i < |r| ==>
      r[i] == PageUrl(i + 1, IndexUrl(cfg, aid, i + 1), i + 1 == page)
  {
    if total == 0 then [] else PageUrls(cfg, aid, total - 1, page) + [PageUrl(total, IndexUrl(cfg, aid, total), total == page)]
  }

  /** The positions of the selected entries. */
  function Selected(urls: seq<PageUrl>): set<nat>
  {
    set i: nat | i < |urls| && urls[i].select
  }

  /** Exactly the current page is selected when it is one of the pages, and none otherwise. */
  lemma SelectedIsCurrent(cfg: Config, aid: u64, total: u64, page: u64)
    ensures Selected(PageUrls(cfg, aid, total, page)) == if 1 <= page <= total then {page as nat - 1} else {}
  {
    var urls := PageUrls(cfg, aid, total, page);
    if 1 <= page <= total {
      assert urls[page - 1].select;
    }
  }

  /**
   * The pushing loop of `get_index_list` that fills `page_urls` for pages
   * 1..=total.
   */
  method BuildPageUrls(cfg: Config, aid: u64, total: u64, page: u64) returns (urls: seq<PageUrl>)
    ensures urls == PageUrls(cfg, aid, total, page)
  {
    urls := [];
    var i: nat := 1;
    while i <= total
      invariant 1 <= i <= total + 1
      invariant urls == PageUrls(cfg, aid, i - 1, page)
    {
      urls := urls + [PageUrl(i, IndexUrl(cfg, aid, i), i == page)];
      i := i + 1;
    }
  }

  /** The previous link: the page before, or the book's info page on page 1. */
  function PrevUrl(cfg: Config, row: Novel, page: u64): string
  {
    if page > 1 then IndexUrl(cfg, row.articleid, page - 1) else row.infoUrl
  }

  /** The next link: the page after, or the book's info page on the last page. */
  function NextUrl(cfg: Config, row: Novel, page: u64, total: u64): string
  {
    if page < total then IndexUrl(cfg, row.articleid, page + 1) else row.infoUrl
  }

  /** `(page - 1) * n as u64`, the product wrapping around. */
  function SliceStart(page: u64, n: u64): u64
    requires page >= 1
  {
    ((page - 1) * n) % U64_LIMIT
  }

  /**
   * `&chapter_rows[start_index..end_index]`: the slice starts at
   * (page - 1)·n and ends n later or at the end of the list, the sums and
   * products wrapping around; a start past the end panics. It never holds
   * more than n chapters: once start + n wraps, the end falls before the start.
   */
  function Cut(rows: seq<NovelService.Chapter>, page: u64, n: u64): (r: Result<seq<NovelService.Chapter>, ListError>)
    requires page >= 1
    ensures r.Ok? ==> |r.value| <= n
    ensures r.Err? ==> r == Err(SliceOutOfOrder)
  {
    var start := SliceStart(page, n);
    var end := Min((start + n) % U64_LIMIT, |rows|);
    if start > end then Err(SliceOutOfOrder) else Ok(rows[start..end])
  }

  /** The slicing statements of `get_index_list`. */
  method CutChapters(rows: seq<NovelService.Chapter>, page: u64, n: u64) returns (r: Result<seq<NovelService.Chapter>, ListError>)
    requires page >= 1
    ensures r == Cut(rows, page, n)
  {
    var startIndex := SliceStart(page, n);
    var endIndex := (startIndex + n) % U64_LIMIT;
    endIndex := Min(endIndex, |rows|);
    if startIndex > endIndex {
      return Err(SliceOutOfOrder);
    }
    r := Ok(rows[startIndex..endIndex]);
  }

  /**
   * The page of book `row` once the page number is read and the book is
   * found: the page size is `index_list_num` as usize; a zero size divides
   * by zero; a page past the count is not found; the slice starts at
   * (page - 1) * n and ends n later or at the end of the list.
   */
  function IndexAt(cfg: Config, row: Novel, rows: seq<NovelService.Chapter>, page: u64, sourceId: u64)
    : (r: Result<IndexView, ListError>)
    requires page >= 1
    ensures ToU64(cfg.indexListNum) == 0 <==> r == Err(DivisionByZero)
    ensures r.Ok? ==> r.value.totalPage == TotalPage(|rows|, ToU64(cfg.indexListNum))
    ensures r.Ok? ==> 1 <= r.value.page <= r.value.totalPage && r.value.page == page
    ensures r.Ok? ==> r.value.pageUrls == PageUrls(cfg, row.articleid, r.value.totalPage, page)
    ensures r.Ok? ==> r.value.prevUrl == PrevUrl(cfg, row, page) && r.value.nextUrl == NextUrl(cfg, row, page, r.value.totalPage)
    ensures r.Ok? ==> r.value.lastChapters == LastTwelve(rows) && (r.value.firstChapter, r.value.lastChapter) == Ends(row, rows)
  {
    var n := ToU64(cfg.indexListNum);
    if n == 0 then Err(DivisionByZero)
    else
      var total := TotalPage(|rows|, n);
      if page > total then Err(InvalidId)
      else
        match Cut(rows, page, n)
        case Err(e) => Err(e)
        case Ok(cut) =>
          var ends := Ends(row, rows);
          Ok(IndexView(PrevUrl(cfg, row, page), NextUrl(cfg, row, page, total), row, cut,
            LastTwelve(rows), sourceId, ends.1, ends.0, total, PageUrls(cfg, row.articleid, total, page), page))
  }

  /**
   * The page `get_index_list` renders: not found without the theme's
   * template or for a page that does not parse or is 0; then `source_id`,
   * which panics under a "*" confusion of 0; then not found for a missing
   * book, and otherwise the page of the chapter list.
   */
  function Index(cfg: Config, templateExists: bool, p: IndexListPath, info: seq<Novel>, rows: seq<NovelService.Chapter>)
    : (r: Result<IndexView, ListError>)
    ensures !templateExists || ExtractId(p.page).None? || ExtractId(p.page) == Some(0) ==> r == Err(InvalidId)
    ensures templateExists && ExtractId(p.page).Some? && ExtractId(p.page) != Some(0) && DividesByZero(cfg) ==>
              r == Err(DivisionByZero)
    ensures !DividesByZero(cfg) && info == [] ==> r == Err(InvalidId)
    ensures r.Ok? ==> !DividesByZero(cfg) && Some(r.value.page) == ExtractId(p.page) && r.value.detail == info[0]
    ensures r.Ok? ==> r.value.sourceId == SourceId(cfg, p.id)
  {
    if !templateExists then Err(InvalidId)
    else
      match ExtractId(p.page)
      case None => Err(InvalidId)
      case Some(page) =>
        if page == 0 then Err(InvalidId)
        else if DividesByZero(cfg) then Err(DivisionByZero)
        else if info == [] then Err(InvalidId)
        else IndexAt(cfg, info[0], rows, page, SourceId(cfg, p.id))
  }

  /** No chapters make no pages. */
  lemma TotalPageEmpty(n: u64)
    requires n > 0
    ensures TotalPage(0, n) == 0
  {
    assert (n - 1) % U64_LIMIT == n - 1;
    DivBelow(n - 1, n);
  }

  lemma DivBelow(a: nat, n: nat)
    requires a < n
    ensures a / n == 0
  {
  }

  /**
   * The previous and next links are the neighbouring entries of the page
   * list, falling back to the book's info page before the first and after
   * the last page; the current page is the one entry selected.
   */
  lemma LinksFollowPageList(cfg: Config, row: Novel, rows: seq<NovelService.Chapter>, page: u64, sourceId: u64)
    requires page >= 1
    ensures var r := IndexAt(cfg, row, rows, page, sourceId);
      r.Ok? ==> (r.value.prevUrl == if page == 1 then row.infoUrl else r.value.pageUrls[page - 2].url)
    ensures var r := IndexAt(cfg, row, rows, page, sourceId);
      r.Ok? ==> (r.value.nextUrl == if page == r.value.totalPage then row.infoUrl else r.value.pageUrls[page].url)
    ensures var r := IndexAt(cfg, row, rows, page, sourceId);
      r.Ok? ==> Selected(r.value.pageUrls) == {page as nat - 1}
  {
    var r := IndexAt(cfg, row, rows, page, sourceId);
    if r.Ok? {
      SelectedIsCurrent(cfg, row.articleid, r.value.totalPage, page);
    }
  }

  /** A book without chapters has no page 1, so no page at all. */
  lemma EmptyRowsNotFound(cfg: Config, row: Novel, page: u64, sourceId: u64)
    requires page >= 1
    ensures IndexAt(cfg, row, [], page, sourceId).Err?
  {
    var r := IndexAt(cfg, row, [], page, sourceId);
    if r.Ok? {
      TotalPageEmpty(ToU64(cfg.indexListNum));
    }
  }

  /** An empty chapter list never has a page to show. */
  lemma EmptyListNotFound(cfg: Config, templateExists: bool, p: IndexListPath, info: seq<Novel>)
    ensures Index(cfg, templateExists, p, info, []).Err?
  {
    var page := ExtractId(p.page);
    if templateExists && page.Some? && page.value != 0 && !DividesByZero(cfg) && info != [] {
      EmptyRowsNotFound(cfg, info[0], page.value, SourceId(cfg, p.id));
    }
  }

  /** Without wrap-around the slice of page `page` starts at (page - 1)·n, inside the list, and ends n later. */
  lemma SliceBounds(len: nat, n: nat, page: u64)
    requires 0 < n && len + n < U64_LIMIT && 1 <= page <= DivCeil(len, n)
    ensures SliceStart(page, n) == (page - 1) * n < len
    ensures (SliceStart(page, n) + n) % U64_LIMIT == (page - 1) * n + n
  {
    DivCeilBound(len, n, page);
    var start := (page - 1) * n;
    assert start % U64_LIMIT == start;
    assert (start + n) % U64_LIMIT == start + n;
  }

  /**
   * With a positive `index_list_num` n and no wrap-around, a page is shown
   * exactly when it is one of the ceil(len / n) pages, and it shows the
   * chapters [(page-1)·n, min(page·n, len)), at most n of them.
   */
  lemma ShownSlice(cfg: Config, row: Novel, rows: seq<NovelService.Chapter>, page: u64, sourceId: u64)
    requires page >= 1 && cfg.indexListNum > 0 && |rows| + cfg.indexListNum < U64_LIMIT
    ensures var r := IndexAt(cfg, row, rows, page, sourceId);
      r.Ok? <==> page <= DivCeil(|rows|, cfg.indexListNum as nat)
    ensures var r := IndexAt(cfg, row, rows, page, sourceId);
      r.Ok? ==> r.value.totalPage == DivCeil(|rows|, cfg.indexListNum as nat) &&
                r.value.cutChapters == PageSlice(rows, cfg.indexListNum as nat, page) &&
                |r.value.cutChapters| <= cfg.indexListNum as nat
  {
    var n: nat := cfg.indexListNum as nat;
    TotalPageIsDivCeil(|rows|, n);
    if page <= DivCeil(|rows|, n) {
      SliceBounds(|rows|, n, page);
    }
  }

  /** The part of `get_index_list` after the book row is loaded. */
  method ShowIndex(cfg: Config, row: Novel, rows: seq<NovelService.Chapter>, page: u64, sourceId: u64)
    returns (r: Result<IndexView, ListError>)
    requires page >= 1
    ensures r == IndexAt(cfg, row, rows, page, sourceId)
  {
    var last12 := rows[SaturatingSub(|rows|, 12)..];
    var lastChapter := if rows == [] then DefaultChapter(row.infoUrl) else rows[|rows| - 1];
    var firstChapter := if rows == [] then DefaultChapter(row.infoUrl) else rows[0];
    var n := ToU64(cfg.indexListNum);
    if n == 0 {
      return Err(DivisionByZero);
    }
    var totalPage := TotalPage(|rows|, n);
    if page > totalPage {
      return Err(InvalidId);
    }
    var cut := CutChapters(rows, page, n);
    if cut.Err? {
      return Err(cut.error);
    }
    var cutChapters := cut.value;
    var prevUrl := if page > 1 then IndexUrl(cfg, row.articleid, page - 1) else row.infoUrl;
    var nextUrl := if page < totalPage then IndexUrl(cfg, row.articleid, page + 1) else row.infoUrl;
    var pageUrls := BuildPageUrls(cfg, row.articleid, totalPage, page);
    r := Ok(IndexView(prevUrl, nextUrl, row, cutChapters, last12, sourceId, lastChapter, firstChapter,
      totalPage, pageUrls, page));
  }

  /**
   * `get_index_list`: the template check, the loaded book rows and chapter
   * list are parameters.
   */
  method GetIndexList(cfg: Config, templateExists: bool, p: IndexListPath, info: seq<Novel>, rows: seq<NovelService.Chapter>)
    returns (r: Result<IndexView, ListError>)
    ensures r == Index(cfg, templateExists, p, info, rows)
  {
    if !templateExists {
      return Err(InvalidId);
    }
    var page := ExtractId(p.page);
    if page.None? || page.value == 0 {
      return Err(InvalidId);
    }
    if DividesByZero(cfg) {
      return Err(DivisionByZero);
    }
    var sourceId := SourceId(cfg, p.id);
    if info == [] {
      return Err(InvalidId);
    }
    r := ShowIndex(cfg, info[0], rows, page.value, sourceId);
  }
}
