/**
 * The book services of src/services/novel.rs: reading ids out of request
 * paths, the jump-page window of category pages, and the row mappings that
 * turn database rows into public records (public ids and presentation
 * fields).
 */
module NovelService {
  import opened Wrappers
  import opened Ints
  import opened Strings
  import opened Config
  import opened Text

  // ---------------------------------------------------------------------------
  // extract_id / extract_str

  /** The last non-empty piece, if there is one. */
  function LastNonEmpty(pieces: seq<string>): (r: Option<string>)
    ensures r.None? <==> forall i :: 0 <= i < |pieces| ==> pieces[i] == ""
    ensures r.Some? ==> r.value != "" && r.value in pieces
  {
    if pieces == [] then None
    else if pieces[|pieces| - 1] != "" then Some(pieces[|pieces| - 1])
    else
      var r := LastNonEmpty(pieces[..|pieces| - 1]);
      assert forall i :: 0 <= i < |pieces| - 1 ==> pieces[..|pieces| - 1][i] == pieces[i];
      r
  }

  /** `extract_str`: the last non-empty '/'-segment, without the text from its last '.'. */
  function ExtractStr(path: string): (r: Option<string>)
    ensures r.Some? ==> '/' !in r.value
  {
    match LastNonEmpty(Split(path, '/'))
    case None => None
    case Some(last) => Some(BeforeLastDot(last))
  }

  /** `extract_id`: the same segment parsed as a u64. */
  function ExtractId(path: string): (r: Option<u64>)
    ensures r.Some? ==> ExtractStr(path).Some?
  {
    match LastNonEmpty(Split(path, '/'))
    case None => None
    case Some(last) => ParseU64(BeforeLastDot(last))
  }

  /** `extract_id` is `extract_str` followed by parsing. */
  lemma ExtractIdParsesStr(path: string)
    ensures ExtractId(path) == if ExtractStr(path).None? then None else ParseU64(ExtractStr(path).value)
  {
  }

  /** All pieces of a split are empty exactly when the string is made of separators only. */
  lemma {:induction false} SplitAllEmpty(s: string, c: char)
    ensures (forall i :: 0 <= i < |Split(s, c)| ==> Split(s, c)[i] == "") <==> (forall i :: 0 <= i < |s| ==> s[i] == c)
  {
    if s != [] {
      SplitAllEmpty(s[1..], c);
      var rest := Split(s[1..], c);
      if s[0] == c {
        assert Split(s, c) == [""] + rest;
        assert forall i :: 0 <= i < |rest| ==> Split(s, c)[i + 1] == rest[i];
        assert forall i :: 0 <= i < |s| - 1 ==> s[1..][i] == s[i + 1];
      } else {
        assert Split(s, c)[0] != "";
      }
    }
  }

  /** A path yields no segment exactly when it is made of slashes only. */
  lemma ExtractNone(path: string)
    ensures ExtractStr(path).None? <==> forall i :: 0 <= i < |path| ==> path[i] == '/'
    ensures ExtractStr(path).None? ==> ExtractId(path).None?
  {
    SplitAllEmpty(path, '/');
    if forall i :: 0 <= i < |path| ==> path[i] == '/' {
      assert forall i :: 0 <= i < |Split(path, '/')| ==> Split(path, '/')[i] == "";
      assert LastNonEmpty(Split(path, '/')).None?;
    } else {
      assert !(forall i :: 0 <= i < |Split(path, '/')| ==> Split(path, '/')[i] == "");
      assert LastNonEmpty(Split(path, '/')).Some?;
    }
  }


  /** The segment of "…/name.ext" is `name`, whatever comes before it. */
  lemma ExtractOfSegment(pre: string, name: string, ext: string)
    requires name != "" && '/' !in name && '.' !in name && '/' !in ext && '.' !in ext
    ensures ExtractStr(pre + "/" + name + "." + ext) == Some(name)
    ensures ExtractStr(pre + "/" + name) == Some(name)
  {
    var seg := name + "." + ext;
    assert '/' !in seg;
    SplitAt(pre, seg, '/');
    SplitWithout(seg, '/');
    assert pre + "/" + name + "." + ext == pre + ['/'] + seg;
    var ps := Split(pre + ['/'] + seg, '/');
    assert ps[|ps| - 1] == seg;
    assert seg[..|name|] == name && seg[|name|] == '.' && seg[|name| + 1..] == ext;
    SplitAt(pre, name, '/');
    SplitWithout(name, '/');
    assert pre + "/" + name == pre + ['/'] + name;
  }

  /** A page path built from a number gives that number back. */
  lemma ExtractIdOfNumber(pre: string, n: u64, ext: string)
    requires '/' !in ext && '.' !in ext
    ensures ExtractId(pre + "/" + Dec(n) + "." + ext) == Some(n)
    ensures ExtractId(pre + "/" + Dec(n)) == Some(n)
  {
    DecHasNo(n, '/');
    DecHasNo(n, '.');
    ExtractOfSegment(pre, Dec(n), ext);
    ExtractIdParsesStr(pre + "/" + Dec(n) + "." + ext);
    ExtractIdParsesStr(pre + "/" + Dec(n));
    ParseDec(n);
  }

  /** `extract_id` of a bare decimal number gives the number back. */
  lemma ExtractIdOfDec(n: u64)
    ensures ExtractId(Dec(n)) == Some(n)
  {
    DecHasNo(n, '/');
    DecHasNo(n, '.');
    SplitWithout(Dec(n), '/');
    assert LastNonEmpty([Dec(n)]) == Some(Dec(n));
    ParseDec(n);
  }

  // ---------------------------------------------------------------------------
  // generate_pagination_numbers

  /** A contiguous ascending run of page numbers, `lo..=hi`. */
  function Run(lo: nat, hi: nat): (r: seq<nat>)
    ensures |r| == if lo <= hi then hi - lo + 1 else 0
    ensures forall i :: 0 <= i < |r| ==> r[i] == lo + i
    decreases hi + 1 - lo
  {
    if lo > hi then [] else [lo] + Run(lo + 1, hi)
  }

  /**
   * `generate_pagination_numbers`: up to five pages before `page` and the
   * window of eleven from there, pulled back at the last page. `start + 10`
   * wraps in a release build.
   */
  function GeneratePaginationNumbers(page: u64, maxPage: u64): (r: seq<nat>)
    ensures forall i :: 0 <= i < |r| ==> 1 <= r[i] <= maxPage
  {
    if maxPage == 0 then []
    else
      var start := Max(SaturatingSub(page, 5), 1);
      var end := (start + 10) % U64_LIMIT;
      if end > maxPage then Run(Max(SaturatingSub(maxPage, 10), 1), maxPage)
      else Run(start, end)
  }

  /** No pages, no window. */
  lemma PaginationEmpty(page: u64)
    ensures GeneratePaginationNumbers(page, 0) == []
  {
  }

  /**
   * The window is an ascending run of consecutive pages between 1 and
   * `max_page`, at most eleven long (one more than its doc comment says).
   */
  lemma PaginationWindow(page: u64, maxPage: u64)
    ensures var r := GeneratePaginationNumbers(page, maxPage);
            |r| <= 11 &&
            (forall i :: 0 <= i < |r| ==> 1 <= r[i] <= maxPage) &&
            (forall i :: 0 < i < |r| ==> r[i] == r[i - 1] + 1)
  {
  }

  /** A page in range is in its own window, which holds min(11, max_page) pages. */
  lemma PaginationContainsPage(page: u64, maxPage: u64)
    requires 1 <= page <= maxPage && page + 5 < U64_LIMIT
    ensures page in GeneratePaginationNumbers(page, maxPage)
    ensures |GeneratePaginationNumbers(page, maxPage)| == Min(11, maxPage)
  {
    var start := Max(SaturatingSub(page, 5), 1);
    assert start <= page && start + 10 < U64_LIMIT;
    assert (start + 10) % U64_LIMIT == start + 10;
    if start + 10 > maxPage {
      var lo := Max(SaturatingSub(maxPage, 10), 1);
      var r := Run(lo, maxPage);
      assert GeneratePaginationNumbers(page, maxPage) == r;
      assert lo <= page;
      assert r[page - lo] == page;
    } else {
      var r := Run(start, start + 10);
      assert GeneratePaginationNumbers(page, maxPage) == r;
      assert r[page - start] == page;
    }
  }

  /** The first page of three shows all three. */
  lemma PaginationFirstOfThree()
    ensures GeneratePaginationNumbers(1, 3) == [1, 2, 3]
  {
    var r := Run(1, 3);
    assert GeneratePaginationNumbers(1, 3) == r;
  }

  /** Page 50 of 100 shows pages 45 to 55. */
  lemma PaginationMiddle()
    ensures GeneratePaginationNumbers(50, 100) == [45, 46, 47, 48, 49, 50, 51, 52, 53, 54, 55]
  {
    var w := Run(45, 55);
    assert GeneratePaginationNumbers(50, 100) == w;
  }

  /**
   * Near the top of the u64 range `start + 10` wraps and the window comes
   * out empty although the page is in range.
   */
  lemma PaginationWrapsNearMax()
    ensures GeneratePaginationNumbers(U64_MAX - 1, U64_MAX) == []
  {
  }

  // ---------------------------------------------------------------------------
  // Rows and their mapping

  /** A chapter row (`NovelChapter`); `read_url` and `source_id` are filled by the mapping. */
  datatype Chapter = Chapter(
    articleid: u64,
    chapterid: u64,
    chaptername: string,
    chaptertype: u8,
    chapterorder: u32,
    words: u32,
    lastupdate: u64,
    readUrl: string,
    sourceId: u64)

  /** `NovelChapter::default(info_url)`: the placeholder shown for a book without chapters. */
  function DefaultChapter(infoUrl: string): (c: Chapter)
    ensures c.chaptername == "暂无章节" && c.readUrl == infoUrl
    ensures c.articleid == 0 && c.chapterid == 0 && c.sourceId == 0
  {
    Chapter(0, 0, "暂无章节", 0, 0, 0, 0, infoUrl, 0)
  }

  /** A book row (`Novel`); the fields from `infoUrl` on are filled by the mapping. */
  datatype Novel = Novel(
    articleid: u64,
    articlename: string,
    intro: string,
    author: string,
    sortid: u8,
    fullflag: bool,
    display: bool,
    lastupdate: u64,
    imgflag: bool,
    allvisit: u64,
    allvote: u64,
    goodnum: u64,
    keywords: string,
    lastchapter: string,
    lastchapterid: u64,
    words: u64,
    articlecode: string,
    infoUrl: string,
    indexUrl: string,
    introDes: string,
    authorUrl: string,
    sortname: string,
    sortname2: string,
    sortUrl: string,
    isfull: string,
    wordsW: u64,
    lastupdateCn: string,
    lastUrl: string,
    imgUrl: string,
    sourceId: u64)

  const DEFAULT_NAME: string := "其它类型"
  const SERIALIZE: string := "连载中"
  const COMPLETE: string := "已完结"

  /** What the mapping loop makes of one chapter row. */
  function MapChapter(cfg: Config, row: Chapter): (r: Chapter)
  {
    var articleid := NewId(cfg, row.articleid);
    var chapterid := NewId(cfg, row.chapterid);
    row.(articleid := articleid, chapterid := chapterid,
         readUrl := ReadUrl(cfg, articleid, chapterid, 1), sourceId := row.chapterid)
  }

  /**
   * A mapped chapter carries its original chapter id, public ids that
   * decode back to the originals (for every algorithm but "*"), and a
   * page-1 link built from the public ids; its name, order and counts stay.
   */
  lemma MapChapterIds(cfg: Config, row: Chapter)
    requires cfg.confusionAlgorithm != "*"
    ensures var r := MapChapter(cfg, row);
            r.sourceId == row.chapterid &&
            SourceId(cfg, r.chapterid) == row.chapterid &&
            SourceId(cfg, r.articleid) == row.articleid &&
            r.readUrl == ReadUrl(cfg, r.articleid, r.chapterid, 1) &&
            r.chaptername == row.chaptername && r.chapterorder == row.chapterorder &&
            r.words == row.words && r.lastupdate == row.lastupdate
  {
    IdsRoundTrip(cfg, row.chapterid);
    IdsRoundTrip(cfg, row.articleid);
  }

  /**
   * `novel_chapter_mapping`: the rows come back in the same number and
   * order, each mapped; the vector is taken and returned by value.
   */
  method NovelChapterMapping(cfg: Config, rows: seq<Chapter>) returns (out: seq<Chapter>)
    ensures |out| == |rows|
    ensures forall i :: 0 <= i < |rows| ==> out[i] == MapChapter(cfg, rows[i])
  {
    out := rows;
    for i := 0 to |out|
      invariant |out| == |rows|
      invariant forall j :: 0 <= j < i ==> out[j] == MapChapter(cfg, rows[j])
      invariant forall j :: i <= j < |out| ==> out[j] == rows[j]
    {
      var row := out[i];
      var sourceId := row.articleid;
      var chapterId := row.chapterid;
      var articleid := NewId(cfg, sourceId);
      var chapterid := NewId(cfg, chapterId);
      row := row.(articleid := articleid, chapterid := chapterid,
                  readUrl := ReadUrl(cfg, articleid, chapterid, 1), sourceId := chapterId);
      out := out[i := row];
    }
  }

  /**
   * The outside services a book mapping uses: the clock for `time_to_cn`
   * and percent-encoding for `author_url`.
   */
  datatype Env = Env(now: i64, date: i64 -> Option<string>, today: string, urlEncode: string -> string)

  /** What the mapping loop makes of one book row. */
  function MapNovel(cfg: Config, env: Env, row: Novel): (r: Novel)
  {
    var sourceId := row.articleid;
    var articleid := NewId(cfg, row.articleid);
    var sortName := GetSortName(cfg, row.sortid);
    var sortname := if sortName.Some? then sortName.value else DEFAULT_NAME;
    row.(sourceId := sourceId,
         articleid := articleid,
         infoUrl := InfoUrl(cfg, articleid),
         indexUrl := IndexUrl(cfg, articleid, 1),
         introDes := Txt200Des(row.intro),
         authorUrl := AuthorUrl(cfg, row.author, env.urlEncode),
         sortname := sortname,
         sortname2 := if |sortname| <= 2 then sortname else sortname[..2],
         isfull := if row.fullflag then COMPLETE else SERIALIZE,
         wordsW := row.words / 10000,
         imgUrl := GetImgUrl(cfg, sourceId, row.imgflag),
         lastupdateCn := TimeToCn(AsI64(row.lastupdate), env.now, env.date, env.today),
         lastUrl := ReadUrl(cfg, articleid, row.lastchapterid, 1))
  }

  /**
   * A mapped book keeps its original id in `source_id`; the public id
   * decodes back to it (for every algorithm but "*"); the cover uses the
   * original id while the book links use the public one; the last-chapter
   * link uses the chapter id as stored.
   */
  lemma MapNovelIds(cfg: Config, env: Env, row: Novel)
    requires cfg.confusionAlgorithm != "*"
    ensures var r := MapNovel(cfg, env, row);
            r.sourceId == row.articleid &&
            SourceId(cfg, r.articleid) == r.sourceId &&
            r.imgUrl == GetImgUrl(cfg, r.sourceId, row.imgflag) &&
            r.infoUrl == InfoUrl(cfg, r.articleid) &&
            r.indexUrl == IndexUrl(cfg, r.articleid, 1) &&
            r.lastUrl == ReadUrl(cfg, r.articleid, row.lastchapterid, 1)
  {
    IdsRoundTrip(cfg, row.articleid);
  }

  /**
   * The category name falls back to "其它类型" when the sort id is out of
   * range, `sortname_2` is its first two characters, `isfull` follows
   * `fullflag`, the word count is shown in units of ten thousand, and the
   * excerpt holds at most 200 characters; the stored fields stay.
   */
  lemma MapNovelLabels(cfg: Config, env: Env, row: Novel)
    ensures var r := MapNovel(cfg, env, row);
            var k := Max(row.sortid, 1);
            r.sortname == (if k <= |cfg.sortArr| then cfg.sortArr[k - 1].caption else DEFAULT_NAME) &&
            r.sortname2 <= r.sortname && |r.sortname2| == Min(2, |r.sortname|) &&
            (r.isfull == COMPLETE <==> row.fullflag) &&
            r.wordsW * 10000 <= row.words < (r.wordsW + 1) * 10000 &&
            |r.introDes| <= 200 &&
            r.articlename == row.articlename && r.author == row.author && r.intro == row.intro &&
            r.lastchapterid == row.lastchapterid && r.lastchapter == row.lastchapter
  {
  }

  /**
   * `novel_mapping`: the rows come back in the same number and order, each
   * mapped; the vector is taken and returned by value.
   */
  method NovelMapping(cfg: Config, env: Env, rows: seq<Novel>) returns (out: seq<Novel>)
    ensures |out| == |rows|
    ensures forall i :: 0 <= i < |rows| ==> out[i] == MapNovel(cfg, env, rows[i])
  {
    out := rows;
    for i := 0 to |out|
      invariant |out| == |rows|
      invariant forall j :: 0 <= j < i ==> out[j] == MapNovel(cfg, env, rows[j])
      invariant forall j :: i <= j < |out| ==> out[j] == rows[j]
    {
      out := out[i := MapNovel(cfg, env, out[i])];
    }
  }
}
