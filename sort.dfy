/**
 * The category page of src/handlers/sort.rs: which category the path
 * names, how many pages it has, the offset of the page's query, the
 * previous/next links and the window of jump links.
 */
module SortHandler {
  import opened Wrappers
  import opened Ints
  import opened Strings
  import opened Config
  import opened NovelService
  import IndexList

  /** The path parameters of the category route. */
  datatype SortPath = SortPath(code: Option<string>, page: Option<string>)

  /** The not-found page, or the panic of a division by a zero page size. */
  datatype SortError = InvalidId | DivisionByZero

  /** What the category template receives. */
  datatype SortView = SortView(
    sort: Sort,
    sortId: nat,
    rows: seq<Novel>,
    prevUrl: string,
    nextUrl: string,
    page: u64,
    maxPage: u64,
    jumpPages: seq<IndexList.PageUrl>)

  /**
   * The two cached queries, as functions of their bound parameters: the
   * number of books of category `sortid`, and the page of books of that
   * category starting at `offset`.
   */
  datatype Loaders = Loaders(count: i8 -> u64, rows: (i8, u64) -> seq<Novel>)

  /** The first position of a category with this code. */
  function Position(arr: seq<Sort>, code: string): (r: Option<nat>)
    ensures r.Some? ==> r.value < |arr| && arr[r.value].code == code &&
                        forall j :: 0 <= j < r.value ==> arr[j].code != code
    ensures r.None? ==> forall j :: 0 <= j < |arr| ==> arr[j].code != code
  {
    if arr == [] then None
    else if arr[0].code == code then Some(0)
    else match Position(arr[1..], code)
      case None => None
      case Some(i) => Some(i + 1)
  }

  // ---------------------------------------------------------------------------
  // The category id

  /**
   * The category id as written: with an `{id}` URL the number in the path
   * is used as the zero-based index, although `sort_url` writes index + 1.
   */
  function SortIdAsWritten(cfg: Config, code: string): (r: Option<nat>)
    ensures Contains(cfg.rewrite.sortUrl, "{id}") ==>
      r == (if ExtractId(code).None? then None else Some(ExtractId(code).value as nat))
  {
    if Contains(cfg.rewrite.sortUrl, "{id}") then
      match ExtractId(code)
      case None => None
      case Some(id) => Some(id as nat)
    else
      match ExtractStr(code)
      case None => None
      case Some(c) => Position(cfg.sortArr, c)
  }

  /**
   * The category id, read back the way `sort_url` writes it: with an
   * `{id}` URL the number in the path is index + 1, so 0 names no
   * category; otherwise the code segment is looked up in `sort_arr`.
   * Either way an id past the list is not found.
   */
  function SortId(cfg: Config, code: string): (r: Option<nat>)
    ensures r.Some? ==> r.value < |cfg.sortArr|
    ensures Contains(cfg.rewrite.sortUrl, "{id}") ==>
      (r.Some? <==> ExtractId(code).Some? && 1 <= ExtractId(code).value <= |cfg.sortArr|)
    ensures Contains(cfg.rewrite.sortUrl, "{id}") && r.Some? ==> r.value == ExtractId(code).value - 1
    ensures !Contains(cfg.rewrite.sortUrl, "{id}") ==>
      (r.Some? <==> ExtractStr(code).Some? && Position(cfg.sortArr, ExtractStr(code).value).Some?)
    ensures !Contains(cfg.rewrite.sortUrl, "{id}") && r.Some? ==>
      cfg.sortArr[r.value].code == ExtractStr(code).value
  {
    var id :=
      if Contains(cfg.rewrite.sortUrl, "{id}") then
        match ExtractId(code)
        case None => None
        case Some(n) => if n == 0 then None else Some(n - 1)
      else
        match ExtractStr(code)
        case None => None
        case Some(c) => Position(cfg.sortArr, c);
    if id.Some? && id.value < |cfg.sortArr| then id else None
  }

  /**
   * With an `{id}` URL the link `sort_url` writes for category i names
   * category i again; the id as written reads it as category i + 1.
   */
  lemma SortIdRoundTrip(cfg: Config, i: nat)
    requires Contains(cfg.rewrite.sortUrl, "{id}") && i < |cfg.sortArr| && i + 1 < U64_LIMIT
    ensures SortId(cfg, Dec(i + 1)) == Some(i)
    ensures SortIdAsWritten(cfg, Dec(i + 1)) == Some(i + 1)
  {
    ExtractIdOfDec(i + 1);
  }

  /**
   * The link to the last category, in a single-category configuration,
   * leads to the not-found page as written.
   */
  lemma LastCategoryNotFound(cfg: Config)
    requires Contains(cfg.rewrite.sortUrl, "{id}") && |cfg.sortArr| == 1
    ensures var id := SortIdAsWritten(cfg, Dec(1));
      id == Some(1) && id.value >= |cfg.sortArr|
    ensures SortId(cfg, Dec(1)) == Some(0)
  {
    SortIdRoundTrip(cfg, 0);
  }

  /**
   * Without `{id}` the path carries the code: a category whose code is a
   * plain name, and which comes first with that code, is found again.
   */
  lemma SortIdByCode(cfg: Config, i: nat, pre: string)
    requires !Contains(cfg.rewrite.sortUrl, "{id}") && i < |cfg.sortArr|
    requires forall j :: 0 <= j < i ==> cfg.sortArr[j].code != cfg.sortArr[i].code
    requires cfg.sortArr[i].code != "" && '/' !in cfg.sortArr[i].code && '.' !in cfg.sortArr[i].code
    ensures SortId(cfg, pre + "/" + cfg.sortArr[i].code) == Some(i)
  {
    ExtractOfSegment(pre, cfg.sortArr[i].code, "html");
  }

  // ---------------------------------------------------------------------------
  // Paging

  /** `(page - 1).saturating_mul(per)`: page 0 wraps to u64::MAX before the product. */
  function Offset(page: u64, per: u64): u64
  {
    SaturatingMul64((page + U64_MAX) % U64_LIMIT, per)
  }

  /**
   * The offset skips the books of the pages before, (page - 1)·per of
   * them, saturating at u64::MAX; page 0 asks for the offset u64::MAX.
   */
  lemma OffsetSkipsPages(page: u64, per: u64)
    ensures page >= 1 && (page - 1) * per < U64_LIMIT ==> Offset(page, per) == (page - 1) * per
    ensures page >= 1 && (page - 1) * per >= U64_LIMIT ==> Offset(page, per) == U64_MAX
    ensures page == 0 ==> Offset(page, per) == if per == 0 then 0 else U64_MAX
  {
    if page == 0 && per > 0 {
      assert (page + U64_MAX) % U64_LIMIT == U64_MAX;
      MulPos(U64_MAX, per);
    }
  }

  /** `count.div_ceil(per).max(1)`. */
  function MaxPage(count: u64, per: u64): (r: u64)
    requires per > 0
    ensures r >= 1
  {
    Max(DivCeil(count, per), 1)
  }

  /**
   * There is always a page; the pages hold all `count` books, and only the
   * last may be partly empty.
   */
  lemma MaxPageCovers(count: u64, per: u64)
    requires per > 0
    ensures count <= MaxPage(count, per) * per
    ensures MaxPage(count, per) == 1 || (MaxPage(count, per) - 1) * per < count
  {
    var q := DivCeil(count, per);
    if q == 0 {
      MulPos(per, 1);
    }
  }

  /** The entries of `jump_pages`, one per page of the window, the current one selected. */
  function JumpPages(cfg: Config, code: string, id: nat, pages: seq<nat>, page: u64): (r: seq<IndexList.PageUrl>)
    requires forall i :: 0 <= i < |pages| ==> pages[i] < U64_LIMIT
    ensures |r| == |pages|
    ensures forall i :: 0 <= i < |r| ==>
      r[i] == IndexList.PageUrl(pages[i], SortUrl(cfg, code, id, pages[i]), pages[i] == page)
  {
    if pages == [] then []
    else [IndexList.PageUrl(pages[0], SortUrl(cfg, code, id, pages[0]), pages[0] == page)] + JumpPages(cfg, code, id, pages[1..], page)
  }

  /** The loop of `get_sort` that pushes one entry per page of the window. */
  method BuildJumpPages(cfg: Config, code: string, id: nat, pages: seq<nat>, page: u64) returns (out: seq<IndexList.PageUrl>)
    requires forall i :: 0 <= i < |pages| ==> pages[i] < U64_LIMIT
    ensures out == JumpPages(cfg, code, id, pages, page)
  {
    out := [];
    var k := 0;
    while k < |pages|
      invariant 0 <= k <= |pages|
      invariant |out| == k
      invariant forall i :: 0 <= i < k ==> out[i] == IndexList.PageUrl(pages[i], SortUrl(cfg, code, id, pages[i]), pages[i] == page)
    {
      out := out + [IndexList.PageUrl(pages[k], SortUrl(cfg, code, id, pages[k]), pages[k] == page)];
      k := k + 1;
    }
  }

  /**
   * The page of category `sortId` once the page number and the category
   * are known: a zero `category_per_page` divides by zero, a page past
   * `max_page` is not found; the books come from the page query at the
   * page's offset.
   */
  function SortPage(cfg: Config, ld: Loaders, sortId: nat, page: u64): (r: Result<SortView, SortError>)
    requires sortId < |cfg.sortArr|
    ensures ToU64(cfg.categoryPerPage) == 0 <==> r == Err(DivisionByZero)
    ensures r.Ok? ==> r.value.maxPage == MaxPage(ld.count(AsI8(sortId + 1)), ToU64(cfg.categoryPerPage))
    ensures r.Ok? <==> ToU64(cfg.categoryPerPage) > 0 && page <= MaxPage(ld.count(AsI8(sortId + 1)), ToU64(cfg.categoryPerPage))
    ensures r.Ok? ==> r.value.page == page && r.value.sortId == sortId && r.value.sort == cfg.sortArr[sortId]
    ensures r.Ok? ==> r.value.rows == ld.rows(AsI8(sortId + 1), Offset(page, ToU64(cfg.categoryPerPage)))
    ensures r.Ok? ==> r.value.prevUrl == (if page > 1 then SortUrl(cfg, cfg.sortArr[sortId].code, sortId + 1, page - 1) else "")
    ensures r.Ok? ==> r.value.nextUrl == (if page < r.value.maxPage then SortUrl(cfg, cfg.sortArr[sortId].code, sortId + 1, page + 1) else "")
    ensures r.Ok? ==> r.value.jumpPages == JumpPages(cfg, cfg.sortArr[sortId].code, sortId + 1, GeneratePaginationNumbers(page, r.value.maxPage), page)
  {
    var per := ToU64(cfg.categoryPerPage);
    var sort := cfg.sortArr[sortId];
    var offset := Offset(page, per);
    var count := ld.count(AsI8(sortId + 1));
    if per == 0 then Err(DivisionByZero)
    else
      var maxPage := MaxPage(count, per);
      if page > maxPage then Err(InvalidId)
      else
        var rows := ld.rows(AsI8(sortId + 1), offset);
        var prevUrl := if page > 1 then SortUrl(cfg, sort.code, sortId + 1, page - 1) else "";
        var nextUrl := if page < maxPage then SortUrl(cfg, sort.code, sortId + 1, page + 1) else "";
        var pages := GeneratePaginationNumbers(page, maxPage);
        Ok(SortView(sort, sortId, rows, prevUrl, nextUrl, page, maxPage,
          JumpPages(cfg, sort.code, sortId + 1, pages, page)))
  }

  /**
   * The page `get_sort` renders: not found without the theme's template,
   * without a code, for a page that does not parse, or for a code that
   * names no category; a missing page is page 1.
   */
  function Category(cfg: Config, templateExists: bool, ld: Loaders, p: SortPath): (r: Result<SortView, SortError>)
    ensures !templateExists || p.code.None? ==> r == Err(InvalidId)
    ensures p.code.Some? && SortId(cfg, p.code.value).None? ==> r == Err(InvalidId)
    ensures r.Ok? ==> Some(r.value.page) == (if p.page.None? then Some(1) else ExtractId(p.page.value))
    ensures r.Ok? ==> Some(r.value.sortId) == SortId(cfg, p.code.value) &&
                      r.value.sort == cfg.sortArr[r.value.sortId]
  {
    if !templateExists || p.code.None? then Err(InvalidId)
    else
      var page := if p.page.None? then Some(1) else ExtractId(p.page.value);
      if page.None? then Err(InvalidId)
      else
        match SortId(cfg, p.code.value)
        case None => Err(InvalidId)
        case Some(id) => SortPage(cfg, ld, id, page.value)
  }

  // ---------------------------------------------------------------------------
  // Properties

  /**
   * Page 0 is not turned away: `page - 1` wraps, the offset saturates,
   * and the page is shown with no previous link and a next link to page 1.
   */
  lemma PageZeroShown(cfg: Config, ld: Loaders, sortId: nat)
    requires sortId < |cfg.sortArr| && ToU64(cfg.categoryPerPage) > 0
    ensures var r := SortPage(cfg, ld, sortId, 0);
      r.Ok? && r.value.rows == ld.rows(AsI8(sortId + 1), U64_MAX) && r.value.prevUrl == "" &&
      r.value.nextUrl == SortUrl(cfg, cfg.sortArr[sortId].code, sortId + 1, 1)
  {
  }

  /**
   * For a page in range the window holds the page itself, exactly once
   * selected, and every entry links to its own page of this category.
   */
  lemma JumpSelectsCurrent(cfg: Config, ld: Loaders, sortId: nat, page: u64)
    requires sortId < |cfg.sortArr| && page >= 1 && page + 5 < U64_LIMIT
    ensures var r := SortPage(cfg, ld, sortId, page);
      r.Ok? ==> exists i :: 0 <= i < |r.value.jumpPages| && r.value.jumpPages[i].page == page && r.value.jumpPages[i].select
    ensures var r := SortPage(cfg, ld, sortId, page);
      r.Ok? ==> forall i :: 0 <= i < |r.value.jumpPages| ==>
        (r.value.jumpPages[i].select <==> r.value.jumpPages[i].page == page) &&
        r.value.jumpPages[i].url == SortUrl(cfg, cfg.sortArr[sortId].code, sortId + 1, r.value.jumpPages[i].page)
  {
    var r := SortPage(cfg, ld, sortId, page);
    if r.Ok? {
      var pages := GeneratePaginationNumbers(page, r.value.maxPage);
      PaginationContainsPage(page, r.value.maxPage);
      var i :| 0 <= i < |pages| && pages[i] == page;
      assert r.value.jumpPages[i].page == page && r.value.jumpPages[i].select;
    }
  }

  /** `get_sort` after the template check, mirroring its mutable `page` and `sort_id`. */
  method GetSort(cfg: Config, templateExists: bool, ld: Loaders, p: SortPath) returns (r: Result<SortView, SortError>)
    ensures r == Category(cfg, templateExists, ld, p)
  {
    if !templateExists || p.code.None? {
      return Err(InvalidId);
    }
    var code := p.code.value;
    var page: u64 := 1;
    if p.page.Some? {
      var parsed := ExtractId(p.page.value);
      if parsed.None? {
        return Err(InvalidId);
      }
      page := parsed.value;
    }
    var sortId := SortId(cfg, code);
    if sortId.None? {
      return Err(InvalidId);
    }
    r := ShowSort(cfg, ld, sortId.value, page);
  }

  /** The paging part of `get_sort`. */
  method ShowSort(cfg: Config, ld: Loaders, sortId: nat, page: u64) returns (r: Result<SortView, SortError>)
    requires sortId < |cfg.sortArr|
    ensures r == SortPage(cfg, ld, sortId, page)
  {
    var sort := cfg.sortArr[sortId];
    var per := ToU64(cfg.categoryPerPage);
    var offset := SaturatingMul64((page + U64_MAX) % U64_LIMIT, per);
    var count := ld.count(AsI8(sortId + 1));
    if per == 0 {
      return Err(DivisionByZero);
    }
    var maxPage := MaxPage(count, per);
    if page > maxPage {
      return Err(InvalidId);
    }
    var rows := ld.rows(AsI8(sortId + 1), offset);
    var prevUrl := if page > 1 then SortUrl(cfg, sort.code, sortId + 1, page - 1) else "";
    var nextUrl := if page < maxPage then SortUrl(cfg, sort.code, sortId + 1, page + 1) else "";
    var pages := GeneratePaginationNumbers(page, maxPage);
    var jumpPages := BuildJumpPages(cfg, sort.code, sortId + 1, pages, page);
    r := Ok(SortView(sort, sortId, rows, prevUrl, nextUrl, page, maxPage, jumpPages));
  }
}
