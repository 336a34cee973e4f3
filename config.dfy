/**
 * The site configuration (`Config` in src/models/config.rs): public/internal
 * id obfuscation and the URL builders that fill the rewrite templates.
 *
 * Version tests on the floating-point `sys_ver` are booleans here:
 * `sharded` is `sys_ver > 5.0`, `legacyUser` is `sys_ver < 2.0`, `fulltext`
 * is `sys_ver > 6.0`. Arithmetic on ids follows a release build, where u64
 * `+`, `-` and `*` wrap around.
 */
module Config {
  import opened Wrappers
  import opened Ints
  import opened Strings
  import opened Placeholders

  datatype Rewrite = Rewrite(
    infoUrl: string,
    chapterUrl: string,
    sortUrl: string,
    topUrl: string,
    rankUrl: string,
    completeUrl: string,
    historyUrl: string,
    indexListUrl: string,
    authorUrl: string,
    searchUrl: string)

  datatype Sort = Sort(code: string, caption: string, url: string)

  datatype SearchConf = SearchConf(limit: u16, min: u8, time: u32, isRecord: bool, delay: i32)

  datatype Config = Config(
    remoteImgUrl: string,
    themeDir: string,
    is3in1: bool,
    categoryPerPage: i8,
    readPageSplitLines: u32,
    readPageSplitMode: u8,
    indexListNum: i16,
    rewrite: Rewrite,
    sortArr: seq<Sort>,
    isMultiple: bool,
    confusionValue: u64,
    confusionAlgorithm: string,
    prefix: string,
    search: SearchConf,
    sharded: bool,
    legacyUser: bool,
    fulltext: bool,
    isLang: bool,
    /** The long-tail URL builders, which are not part of this model. */
    langInfoUrl: u64 -> string,
    langIndexUrl: (u64, u64) -> string)

  /** `source_id` panics on a division by zero exactly in this configuration. */
  predicate DividesByZero(cfg: Config)
  {
    cfg.isMultiple && cfg.confusionAlgorithm == "*" && cfg.confusionValue == 0
  }

  /** `new_id`: internal id to public id. */
  function NewId(cfg: Config, id: u64): u64
  {
    if !cfg.isMultiple then id
    else if cfg.confusionAlgorithm == "+" then (id + cfg.confusionValue) % U64_LIMIT
    else if cfg.confusionAlgorithm == "*" then (id * cfg.confusionValue) % U64_LIMIT
    else Xor64(id, cfg.confusionValue)
  }

  /** `source_id`: public id back to internal id. */
  function SourceId(cfg: Config, id: u64): u64
    requires !DividesByZero(cfg)
  {
    if !cfg.isMultiple then id
    else if cfg.confusionAlgorithm == "+" then (id - cfg.confusionValue) % U64_LIMIT
    else if cfg.confusionAlgorithm == "*" then id / cfg.confusionValue
    else Xor64(id, cfg.confusionValue)
  }

  /** Without obfuscation both directions are the identity. */
  lemma IdsUnchangedWhenSingle(cfg: Config, id: u64)
    requires !cfg.isMultiple
    ensures NewId(cfg, id) == id && SourceId(cfg, id) == id
  {
  }

  /** Under xor, and under "+" with wrap-around, the two directions are inverse bijections. */
  lemma {:induction false} IdsRoundTrip(cfg: Config, x: u64)
    requires cfg.confusionAlgorithm != "*"
    ensures SourceId(cfg, NewId(cfg, x)) == x
    ensures NewId(cfg, SourceId(cfg, x)) == x
  {
    if cfg.isMultiple && cfg.confusionAlgorithm != "+" {
      var v := cfg.confusionValue;
      XorInvolutive(x, v);
      XorInvolutive(Xor64(x, v), v);
    }
  }

  /** Under "+", a public id that does not overflow is the plain sum. */
  lemma AddWithoutOverflow(cfg: Config, x: u64)
    requires cfg.isMultiple && cfg.confusionAlgorithm == "+"
    requires x + cfg.confusionValue < U64_LIMIT
    ensures NewId(cfg, x) == x + cfg.confusionValue
    ensures SourceId(cfg, x + cfg.confusionValue) == x
  {
  }

  /** Under "+", a public id below the offset wraps to a large internal id instead of failing. */
  lemma AddUnderflowWraps(cfg: Config, y: u64)
    requires cfg.isMultiple && cfg.confusionAlgorithm == "+"
    requires y < cfg.confusionValue
    ensures SourceId(cfg, y) == y + U64_LIMIT - cfg.confusionValue
    ensures SourceId(cfg, y) > y
  {
  }

  /** Under "*" with a non-zero factor, an id whose product fits is recovered. */
  lemma MulRoundTrip(cfg: Config, x: u64)
    requires cfg.isMultiple && cfg.confusionAlgorithm == "*" && cfg.confusionValue > 0
    requires x * cfg.confusionValue < U64_LIMIT
    ensures SourceId(cfg, NewId(cfg, x)) == x
  {
    var v := cfg.confusionValue;
    var p := x * v;
    assert p % U64_LIMIT == p;
    DivUnique(p, v, x, 0);
  }

  /** Under "*", a public id survives the trip back and forth exactly when the factor divides it. */
  lemma {:induction false} MulOnlyMultiples(cfg: Config, y: u64)
    requires cfg.isMultiple && cfg.confusionAlgorithm == "*" && cfg.confusionValue > 0
    ensures NewId(cfg, SourceId(cfg, y)) == y <==> y % cfg.confusionValue == 0
  {
    var v := cfg.confusionValue;
    assert (y / v) * v <= y;
    assert (y / v) * v + y % v == y;
  }

  /** `short_id`: the thousand-block of an id. */
  function ShortId(id: u64): (r: u64)
    ensures r * 1000 <= id < (r + 1) * 1000
  {
    id / 1000
  }

  /** `rank_url`. */
  function RankUrl(cfg: Config, code: string): string
  {
    Replace(cfg.rewrite.rankUrl, "{code}", code)
  }

  /** `sort_url`. */
  function SortUrl(cfg: Config, code: string, id: nat, page: nat): string
  {
    Replace(Replace(Replace(cfg.rewrite.sortUrl, "{code}", code), "{id}", Dec(id)), "{page}", Dec(page))
  }

  /** `info_url`. */
  function InfoUrl(cfg: Config, id: u64): string
  {
    Replace(Replace(cfg.rewrite.infoUrl, "{id}", Dec(id)), "{sid}", Dec(ShortId(id)))
  }

  /** The `{s_cid}` value: the chapter id alone on page 1, "cid_page" otherwise. */
  function SCid(cid: u64, page: nat): (r: string)
    ensures '{' !in r
  {
    DecHasNo(cid, '{');
    DecHasNo(page, '{');
    if page == 1 then Dec(cid) else Dec(cid) + "_" + Dec(page)
  }

  /** `read_url`. */
  function ReadUrl(cfg: Config, id: u64, cid: u64, page: nat): string
  {
    Replace(Replace(Replace(Replace(Replace(cfg.rewrite.chapterUrl,
      "{id}", Dec(id)), "{sid}", Dec(ShortId(id))), "{cid}", Dec(cid)), "{s_cid}", SCid(cid, page)), "{page}", Dec(page))
  }

  /** `index_url`. */
  function IndexUrl(cfg: Config, id: u64, page: nat): string
  {
    Replace(Replace(Replace(cfg.rewrite.indexListUrl, "{id}", Dec(id)), "{page}", Dec(page)), "{sid}", Dec(ShortId(id)))
  }

  /** `author_url`; percent-encoding is a parameter of the model. */
  function AuthorUrl(cfg: Config, name: string, urlEncode: string -> string): string
  {
    Replace(cfg.rewrite.authorUrl, "{name}", urlEncode(name))
  }

  /** A placeholder the template does not hold leaves the template as it is. */
  lemma UrlsWithoutPlaceholders(cfg: Config, id: u64, cid: u64, page: u64)
    requires !Contains(cfg.rewrite.chapterUrl, "{id}") && !Contains(cfg.rewrite.chapterUrl, "{sid}")
    requires !Contains(cfg.rewrite.chapterUrl, "{cid}") && !Contains(cfg.rewrite.chapterUrl, "{s_cid}")
    requires !Contains(cfg.rewrite.chapterUrl, "{page}")
    requires !Contains(cfg.rewrite.infoUrl, "{id}") && !Contains(cfg.rewrite.infoUrl, "{sid}")
    ensures ReadUrl(cfg, id, cid, page) == cfg.rewrite.chapterUrl
    ensures InfoUrl(cfg, id) == cfg.rewrite.infoUrl
  {
    var u := cfg.rewrite.chapterUrl;
    ReplaceAbsent(u, "{id}", Dec(id));
    ReplaceAbsent(u, "{sid}", Dec(ShortId(id)));
    ReplaceAbsent(u, "{cid}", Dec(cid));
    ReplaceAbsent(u, "{s_cid}", SCid(cid, page));
    ReplaceAbsent(u, "{page}", Dec(page));
    var w := cfg.rewrite.infoUrl;
    ReplaceAbsent(w, "{id}", Dec(id));
    ReplaceAbsent(w, "{sid}", Dec(ShortId(id)));
  }

  /** The placeholders of the rewrite templates. */
  lemma Keys()
    ensures Key("code") == "{code}" && Key("id") == "{id}" && Key("page") == "{page}"
    ensures Key("sid") == "{sid}" && Key("cid") == "{cid}" && Key("s_cid") == "{s_cid}"
    ensures Key("name") == "{name}"
  {
  }

  /** Filling a value that has no '{' keeps a template well formed. */
  lemma DecFillWellFormed(t: Template, name: string, n: nat)
    requires WellFormed(t)
    ensures WellFormed(Fill(t, name, Dec(n)))
  {
    DecHasNo(n, '{');
    FillWellFormed(t, name, Dec(n));
  }

  /** `rank_url` fills the `{code}` placeholders with the code. */
  lemma RankUrlFills(cfg: Config, t: Template, code: string)
    requires cfg.rewrite.rankUrl == Text(t) && WellFormed(t)
    ensures RankUrl(cfg, code) == Text(Fill(t, "code", code))
  {
    Keys();
    ReplaceHole(t, "code", code);
  }

  /** `sort_url` fills `{code}`, `{id}` and `{page}`. */
  lemma SortUrlFills(cfg: Config, t: Template, code: string, id: nat, page: nat)
    requires cfg.rewrite.sortUrl == Text(t) && WellFormed(t) && '{' !in code
    ensures SortUrl(cfg, code, id, page) == Text(Fill(Fill(Fill(t, "code", code), "id", Dec(id)), "page", Dec(page)))
  {
    Keys();
    ReplaceHole(t, "code", code);
    FillWellFormed(t, "code", code);
    var t1 := Fill(t, "code", code);
    ReplaceHole(t1, "id", Dec(id));
    DecFillWellFormed(t1, "id", id);
    ReplaceHole(Fill(t1, "id", Dec(id)), "page", Dec(page));
  }

  /** `info_url` fills `{id}` with the id and `{sid}` with `id / 1000`. */
  lemma InfoUrlFills(cfg: Config, t: Template, id: u64)
    requires cfg.rewrite.infoUrl == Text(t) && WellFormed(t)
    ensures InfoUrl(cfg, id) == Text(Fill(Fill(t, "id", Dec(id)), "sid", Dec(id / 1000)))
  {
    Keys();
    ReplaceHole(t, "id", Dec(id));
    DecFillWellFormed(t, "id", id);
    ReplaceHole(Fill(t, "id", Dec(id)), "sid", Dec(id / 1000));
  }

  /**
   * `read_url` fills `{id}`, `{sid}` (always `id / 1000`), `{cid}`, `{s_cid}`
   * (the chapter id on page 1, "cid_page" otherwise) and `{page}`.
   */
  lemma ReadUrlFills(cfg: Config, t: Template, id: u64, cid: u64, page: u64)
    requires cfg.rewrite.chapterUrl == Text(t) && WellFormed(t)
    ensures ReadUrl(cfg, id, cid, page) == Text(
      Fill(Fill(Fill(Fill(Fill(t, "id", Dec(id)), "sid", Dec(id / 1000)), "cid", Dec(cid)),
        "s_cid", if page == 1 then Dec(cid) else Dec(cid) + "_" + Dec(page)), "page", Dec(page)))
  {
    Keys();
    var t1 := Fill(t, "id", Dec(id));
    var t2 := Fill(t1, "sid", Dec(id / 1000));
    var t3 := Fill(t2, "cid", Dec(cid));
    var t4 := Fill(t3, "s_cid", SCid(cid, page));
    ReplaceHole(t, "id", Dec(id));
    DecFillWellFormed(t, "id", id);
    ReplaceHole(t1, "sid", Dec(id / 1000));
    DecFillWellFormed(t1, "sid", id / 1000);
    ReplaceHole(t2, "cid", Dec(cid));
    DecFillWellFormed(t2, "cid", cid);
    ReplaceHole(t3, "s_cid", SCid(cid, page));
    FillWellFormed(t3, "s_cid", SCid(cid, page));
    ReplaceHole(t4, "page", Dec(page));
  }

  /** `index_url` fills `{id}`, `{page}` and `{sid}`. */
  lemma IndexUrlFills(cfg: Config, t: Template, id: u64, page: u64)
    requires cfg.rewrite.indexListUrl == Text(t) && WellFormed(t)
    ensures IndexUrl(cfg, id, page) == Text(Fill(Fill(Fill(t, "id", Dec(id)), "page", Dec(page)), "sid", Dec(id / 1000)))
  {
    Keys();
    ReplaceHole(t, "id", Dec(id));
    DecFillWellFormed(t, "id", id);
    ReplaceHole(Fill(t, "id", Dec(id)), "page", Dec(page));
    DecFillWellFormed(Fill(t, "id", Dec(id)), "page", page);
    ReplaceHole(Fill(Fill(t, "id", Dec(id)), "page", Dec(page)), "sid", Dec(id / 1000));
  }

  /** `author_url` fills `{name}` with the encoded name. */
  lemma AuthorUrlFills(cfg: Config, t: Template, name: string, urlEncode: string -> string)
    requires cfg.rewrite.authorUrl == Text(t) && WellFormed(t)
    ensures AuthorUrl(cfg, name, urlEncode) == Text(Fill(t, "name", urlEncode(name)))
  {
    Keys();
    ReplaceHole(t, "name", urlEncode(name));
  }

  /**
   * `get_sort_name`: sort ids are one-based, and id 0 is read as 1 by the
   * saturating subtraction.
   */
  function GetSortName(cfg: Config, sortId: u8): (r: Option<string>)
    ensures r.Some? <==> Max(sortId, 1) <= |cfg.sortArr|
    ensures r.Some? ==> r.value == cfg.sortArr[Max(sortId, 1) - 1].caption
  {
    var index := SaturatingSub(sortId, 1);
    if index < |cfg.sortArr| then Some(cfg.sortArr[index].caption) else None
  }

  /** `get_img_url`: the remote cover path is built from the id, the placeholder only from the theme. */
  function GetImgUrl(cfg: Config, id: u64, imgFlag: bool): (r: string)
    ensures imgFlag ==> cfg.remoteImgUrl + "/" + Dec(id / 1000) + "/" <= r
    ensures imgFlag ==> |r| >= |Dec(id)| + 5 && r[|r| - |Dec(id)| - 5..] == Dec(id) + "s.jpg"
    ensures !imgFlag ==> r == GetImgUrl(cfg, 0, false)
    ensures !imgFlag ==> "/static/" <= r
    ensures !imgFlag ==> r == "/static/" + cfg.themeDir + "/nocover.jpg"
  {
    if imgFlag then cfg.remoteImgUrl + "/" + Dec(id / 1000) + "/" + Dec(id) + "/" + Dec(id) + "s.jpg"
    else "/static/" + cfg.themeDir + "/nocover.jpg"
  }

  /**
   * A remote cover path has exactly three segments after the host: the
   * block of 1000, the id, and the file named after the id; the id is read
   * back from the middle one.
   */
  lemma ImgUrlSegments(cfg: Config, id: u64)
    ensures var r := GetImgUrl(cfg, id, true);
      |r| > |cfg.remoteImgUrl| && r[..|cfg.remoteImgUrl| + 1] == cfg.remoteImgUrl + "/" &&
      Split(r[|cfg.remoteImgUrl| + 1..], '/') == [Dec(id / 1000), Dec(id), Dec(id) + "s.jpg"]
    ensures ParseU64(Split(GetImgUrl(cfg, id, true)[|cfg.remoteImgUrl| + 1..], '/')[1]) == Some(id)
  {
    DecHasNo(id / 1000, '/');
    DecHasNo(id, '/');
    assert '/' !in Dec(id) + "s.jpg";
    var h, a, b := cfg.remoteImgUrl, Dec(id / 1000), Dec(id);
    assert GetImgUrl(cfg, id, true) == h + "/" + a + "/" + b + "/" + (b + "s.jpg");
    PathSegments(h, a, b, b + "s.jpg");
    ParseDec(id);
  }

  /** The three '/'-free segments of `h/a/b/d` after `h/`. */
  lemma PathSegments(h: string, a: string, b: string, d: string)
    requires '/' !in a && '/' !in b && '/' !in d
    ensures var r := h + "/" + a + "/" + b + "/" + d;
      |r| > |h| && r[..|h| + 1] == h + "/" && Split(r[|h| + 1..], '/') == [a, b, d]
  {
    var r := h + "/" + a + "/" + b + "/" + d;
    assert r == (h + "/") + (a + "/" + b + "/" + d);
    SplitThree(a, b, d, '/');
  }

  /** `get_chapter_table`. */
  function GetChapterTable(cfg: Config, id: u64): string
  {
    if cfg.sharded then cfg.prefix + "article_chapter_" + Dec(id / 10000)
    else cfg.prefix + "article_chapter"
  }

  lemma {:induction false} DecInjective(a: nat, b: nat)
    requires Dec(a) == Dec(b)
    ensures a == b
  {
    DigitsValueOfDec(a);
    DigitsValueOfDec(b);
  }

  /**
   * Two books share a chapter table exactly when the tables are not sharded
   * or their ids lie in the same block of 10000.
   */
  lemma ChapterTableShared(cfg: Config, a: u64, b: u64)
    ensures GetChapterTable(cfg, a) == GetChapterTable(cfg, b) <==> (!cfg.sharded || a / 10000 == b / 10000)
  {
    if cfg.sharded && GetChapterTable(cfg, a) == GetChapterTable(cfg, b) {
      var p := cfg.prefix + "article_chapter_";
      assert GetChapterTable(cfg, a)[|p|..] == Dec(a / 10000);
      assert GetChapterTable(cfg, b)[|p|..] == Dec(b / 10000);
      DecInjective(a / 10000, b / 10000);
    }
  }
}
