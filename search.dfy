/**
 * The search page: the gating on the configuration and the throttle
 * cookie, the choice of query, the throttle cookie set after a search and
 * the random fallback list.
 */
module SearchHandler {
  import opened Wrappers
  import opened Ints
  import opened Strings
  import opened Config
  import opened Cookies

  /** A statement with the values bound to its '?' marks. */
  datatype Query = Query(sql: string, binds: seq<string>)

  /** What the template receives: the keyword, the matches and the fallback list. */
  datatype Page<T> = Page(keyword: string, rows: seq<T>, noRows: seq<T>)

  /** A page that only runs a script (an alert, then back), or the rendered search page with its cookies. */
  datatype SearchResponse<T> = Alert(script: string) | Rendered(jar: Jar, query: Option<Query>, page: Page<T>)

  const THROTTLE_COOKIE: string := "search_last_time"

  function AlertBack(message: string): string
  {
    "<script>alert(\"" + message + "\");window.history.go(-1);</script>"
  }

  const CLOSED_ALERT: string := AlertBack("对不起,管理员已关闭此功能.")

  function IntervalAlert(delay: int): string
  {
    AlertBack("搜索间隔: " + IntText(delay) + " 秒")
  }

  function MinAlert(min: nat): string
  {
    AlertBack("关键字最少 " + Dec(min) + " 个字符")
  }

  /** The full-text filter, with one '?' for the keyword. */
  const FULLTEXT_MATCH: string := " AND MATCH(articlename, author) AGAINST(CONCAT('+',?) IN BOOLEAN MODE)"

  /** The LIKE filter on the name or the author, with two '?' for the keyword. */
  const LIKE_MATCH: string := " AND (articlename LIKE CONCAT('%',?, '%') OR author LIKE CONCAT('%',?, '%'))"

  /** The number of results shown: the configured limit, at most 100. */
  function Limit(cfg: Config): (r: nat)
    ensures r <= 100 && r <= cfg.search.limit
    ensures r == 100 || r == cfg.search.limit
  {
    Min(cfg.search.limit, 100)
  }

  /**
   * The search statement: a full-text match binding the keyword once on
   * a version above 6.0, else a LIKE on the name or the author binding it
   * twice. `field` and `where` are the configured column list and filter.
   */
  function SearchQuery(cfg: Config, field: string, where: string, keyword: string): (q: Query)
    ensures cfg.fulltext ==> q.binds == [keyword]
    ensures !cfg.fulltext ==> q.binds == [keyword, keyword]
  {
    var head := "SELECT " + field + " FROM " + cfg.prefix + "article_article WHERE " + where;
    var tail := " ORDER BY lastupdate DESC LIMIT " + Dec(Limit(cfg)) + ";";
    if cfg.fulltext then
      Query(head + FULLTEXT_MATCH + tail, [keyword])
    else
      Query(head + LIKE_MATCH + tail, [keyword, keyword])
  }

  /**
   * `search`. `graphemes` splits the keyword into grapheme clusters,
   * `run` is the cached query (its rows for a statement) and `random` the
   * random list for a limit; the rendering itself is not part of this model.
   */
  function Search<T>(cfg: Config, field: string, where: string, jar: Jar, keyword: string,
                     graphemes: string -> seq<string>, run: Query -> seq<T>, random: nat -> seq<T>): (r: SearchResponse<T>)
  {
    if cfg.search.delay == -1 then Alert(CLOSED_ALERT)
    else if IsCookieExist(jar, THROTTLE_COOKIE) then Alert(IntervalAlert(cfg.search.delay))
    else if keyword != "" && |graphemes(keyword)| < cfg.search.min then Alert(MinAlert(cfg.search.min))
    else
      var query := if keyword == "" then None else Some(SearchQuery(cfg, field, where, keyword));
      var rows := if query.None? then [] else run(query.value);
      Rendered(ThrottledJar(cfg, jar, keyword), query, Page(keyword, rows, if rows == [] then random(Limit(cfg)) else []))
  }

  /** The jar after a search that passed the gates: the throttle cookie is set for `delay` seconds after a real search. */
  function ThrottledJar(cfg: Config, jar: Jar, keyword: string): Jar
  {
    if keyword != "" && cfg.search.delay > 0
    then SetCookieValue(jar, THROTTLE_COOKIE, "1", cfg.search.delay, true, true)
    else jar
  }

  /**
   * The gating, in order: a delay of -1 closes the search before anything
   * else; then a throttle cookie refuses it; then a non-empty keyword with
   * fewer grapheme clusters than the minimum. Otherwise the page is rendered.
   */
  lemma SearchGates<T>(cfg: Config, field: string, where: string, jar: Jar, keyword: string,
                       graphemes: string -> seq<string>, run: Query -> seq<T>, random: nat -> seq<T>)
    ensures var r := Search(cfg, field, where, jar, keyword, graphemes, run, random);
      (cfg.search.delay == -1 ==> r == Alert(CLOSED_ALERT)) &&
      (cfg.search.delay != -1 && THROTTLE_COOKIE in jar ==> r == Alert(IntervalAlert(cfg.search.delay))) &&
      (cfg.search.delay != -1 && THROTTLE_COOKIE !in jar && keyword != "" && |graphemes(keyword)| < cfg.search.min ==>
         r == Alert(MinAlert(cfg.search.min))) &&
      (r.Rendered? <==>
         cfg.search.delay != -1 && THROTTLE_COOKIE !in jar && (keyword == "" || |graphemes(keyword)| >= cfg.search.min))
  {
  }

  /**
   * A rendered search: an empty keyword runs no query; the throttle cookie
   * is set (HTTP-only and secure, for `delay` seconds) exactly when the
   * keyword is non-empty and the delay positive; the fallback list is
   * loaded exactly when there is no match, the empty keyword included.
   */
  lemma RenderedSearch<T>(cfg: Config, field: string, where: string, jar: Jar, keyword: string,
                          graphemes: string -> seq<string>, run: Query -> seq<T>, random: nat -> seq<T>)
    requires Search(cfg, field, where, jar, keyword, graphemes, run, random).Rendered?
    ensures var r := Search(cfg, field, where, jar, keyword, graphemes, run, random);
      (r.query.None? <==> keyword == "") &&
      (keyword == "" ==> r.page.rows == []) &&
      (r.query.Some? ==> r.page.rows == run(r.query.value) && |r.query.value.binds| == (if cfg.fulltext then 1 else 2)) &&
      (IsCookieExist(r.jar, THROTTLE_COOKIE) <==> keyword != "" && cfg.search.delay > 0) &&
      (IsCookieExist(r.jar, THROTTLE_COOKIE) ==>
         r.jar[THROTTLE_COOKIE] == Cookie("1", "/", cfg.search.delay as nat, true, true, "Lax")) &&
      (r.page.noRows == if r.page.rows == [] then random(Limit(cfg)) else []) &&
      r.page.keyword == keyword
  {
  }

  /**
   * `search` step by step: the gates return early, then the rows, the
   * cookie and the fallback list are reassigned in the source's order.
   */
  method RunSearch<T>(cfg: Config, field: string, where: string, jar: Jar, keyword: string,
                      graphemes: string -> seq<string>, run: Query -> seq<T>, random: nat -> seq<T>)
    returns (r: SearchResponse<T>)
    ensures r == Search(cfg, field, where, jar, keyword, graphemes, run, random)
  {
    if cfg.search.delay == -1 {
      return Alert(CLOSED_ALERT);
    }
    if IsCookieExist(jar, THROTTLE_COOKIE) {
      return Alert(IntervalAlert(cfg.search.delay));
    }
    var limit := Limit(cfg);
    var searchRows: seq<T> := [];
    var searchNoRows: seq<T> := [];
    var query: Option<Query> := None;
    if keyword != "" {
      if |graphemes(keyword)| < cfg.search.min {
        return Alert(MinAlert(cfg.search.min));
      }
      query := Some(SearchQuery(cfg, field, where, keyword));
      searchRows := run(query.value);
    }
    if searchRows == [] {
      searchNoRows := random(limit);
    }
    r := Rendered(ThrottledJar(cfg, jar, keyword), query, Page(keyword, searchRows, searchNoRows));
  }
}
