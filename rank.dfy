/**
 * The rank pages: the table of rank codes and titles, the navigation
 * built from it, the rank list of one code and the top page's lists per
 * category.
 */
module RankHandler {
  import opened Wrappers
  import opened Strings
  import opened Config
  import opened NovelService

  datatype RankError = InvalidId

  /** `RANK_NAV_ITEMS`: each rank code with its title, in the navigation's order. */
  const RANK_NAV_ITEMS: seq<(string, string)> := [
    ("allvisit", "总排行榜"),
    ("monthvisit", "月排行榜"),
    ("weekvisit", "周排行榜"),
    ("dayvisit", "日排行榜"),
    ("allvote", "总推荐榜"),
    ("monthvote", "月推荐榜"),
    ("weekvote", "周推荐榜"),
    ("dayvote", "日推荐榜"),
    ("goodnum", "收藏榜")
  ]

  /** The codes of the table. */
  predicate IsRankCode(key: string)
  {
    key == "allvisit" || key == "monthvisit" || key == "weekvisit" || key == "dayvisit" ||
    key == "allvote" || key == "monthvote" || key == "weekvote" || key == "dayvote" || key == "goodnum"
  }

  /** The first entry of `items` with code `key`. */
  function FindTitle(items: seq<(string, string)>, key: string): (r: Option<string>)
    ensures r.Some? <==> exists i :: 0 <= i < |items| && items[i].0 == key
    ensures r.Some? ==> exists i :: 0 <= i < |items| && items[i] == (key, r.value)
  {
    if items == [] then None
    else if items[0].0 == key then Some(items[0].1)
    else
      var r := FindTitle(items[1..], key);
      assert r.Some? ==> exists i :: 0 <= i < |items[1..]| && items[1..][i] == (key, r.value);
      r
  }

  /** `get_rank_nav`: the title of a rank code. */
  function GetRankNav(key: string): (r: Option<string>)
  {
    FindTitle(RANK_NAV_ITEMS, key)
  }

  /** Each entry of the table has one of the nine codes and a non-empty title. */
  lemma RankItems()
    ensures forall i :: 0 <= i < |RANK_NAV_ITEMS| ==> IsRankCode(RANK_NAV_ITEMS[i].0) && RANK_NAV_ITEMS[i].1 != ""
  {
  }

  /** The table has a title for exactly the nine codes, and every title is non-empty. */
  lemma RankNavCodes(key: string)
    ensures GetRankNav(key).Some? <==> IsRankCode(key)
    ensures GetRankNav(key).Some? ==> GetRankNav(key).value != ""
  {
    RankItems();
    var items := RANK_NAV_ITEMS;
    if key == "allvisit" { assert items[0].0 == key; }
    else if key == "monthvisit" { assert items[1].0 == key; }
    else if key == "weekvisit" { assert items[2].0 == key; }
    else if key == "dayvisit" { assert items[3].0 == key; }
    else if key == "allvote" { assert items[4].0 == key; }
    else if key == "monthvote" { assert items[5].0 == key; }
    else if key == "weekvote" { assert items[6].0 == key; }
    else if key == "dayvote" { assert items[7].0 == key; }
    else if key == "goodnum" { assert items[8].0 == key; }
  }

  /** The table lists each code once. */
  lemma RankCodesDistinct()
    ensures forall i, j :: 0 <= i < j < |RANK_NAV_ITEMS| ==> RANK_NAV_ITEMS[i].0 != RANK_NAV_ITEMS[j].0
  {
  }

  // ---------------------------------------------------------------------------
  // Navigation

  /** One link of the rank navigation. */
  datatype RankUrls = RankUrls(title: string, url: string, select: bool)

  /** The link of one table entry, selected when its code is the current one. */
  function NavEntry(cfg: Config, item: (string, string), current: Option<string>): RankUrls
  {
    RankUrls(item.1, RankUrl(cfg, item.0), current == Some(item.0))
  }

  /**
   * The navigation loop of `get_rank` (`current` is the page's code) and of
   * `get_top` (no code: nothing is selected): one link per table entry, in
   * table order.
   */
  method BuildRankNav(cfg: Config, current: Option<string>) returns (rankUrls: seq<RankUrls>)
    ensures |rankUrls| == |RANK_NAV_ITEMS|
    ensures forall i :: 0 <= i < |RANK_NAV_ITEMS| ==> rankUrls[i] == NavEntry(cfg, RANK_NAV_ITEMS[i], current)
  {
    rankUrls := [];
    for i := 0 to |RANK_NAV_ITEMS|
      invariant |rankUrls| == i
      invariant forall j :: 0 <= j < i ==> rankUrls[j] == NavEntry(cfg, RANK_NAV_ITEMS[j], current)
    {
      rankUrls := rankUrls + [NavEntry(cfg, RANK_NAV_ITEMS[i], current)];
    }
  }

  /**
   * In a navigation built for a code of the table exactly one link is
   * selected, the code's own; built for no code, none is.
   */
  lemma NavSelection(cfg: Config, nav: seq<RankUrls>, current: Option<string>)
    requires |nav| == |RANK_NAV_ITEMS|
    requires forall i :: 0 <= i < |RANK_NAV_ITEMS| ==> nav[i] == NavEntry(cfg, RANK_NAV_ITEMS[i], current)
    ensures current.None? ==> forall i :: 0 <= i < |nav| ==> !nav[i].select
    ensures current.Some? && IsRankCode(current.value) ==>
              exists i :: 0 <= i < |nav| && nav[i].select && RANK_NAV_ITEMS[i].0 == current.value &&
                forall j :: 0 <= j < |nav| && j != i ==> !nav[j].select
  {
    if current.Some? && IsRankCode(current.value) {
      RankNavCodes(current.value);
      RankCodesDistinct();
      var i :| 0 <= i < |RANK_NAV_ITEMS| && RANK_NAV_ITEMS[i].0 == current.value;
      assert nav[i].select;
    }
  }

  // ---------------------------------------------------------------------------
  // get_rank

  /** A statement with the values bound to its '?' marks. */
  datatype Query = Query(sql: string, binds: seq<string>)

  /** The statement's head: the configured columns of the visible books. */
  function Head(cfg: Config, field: string, where: string): string
  {
    "SELECT " + field + " FROM " + cfg.prefix + "article_article WHERE " + where
  }

  const RANK_ORDER_MARK: string := " ORDER BY ? DESC LIMIT 100;"

  /**
   * The rank statement as `get_rank` writes it: the order column is a '?'
   * bound to the path text. A bound value is a string constant, so the
   * statement is the same for every code and the rows are not ordered by
   * the rank.
   */
  function RankQueryAsWritten(cfg: Config, field: string, where: string, code: string): (q: Query)
    ensures q.binds == [code]
  {
    Query(Head(cfg, field, where) + RANK_ORDER_MARK, [code])
  }

  /** Whatever the code, the text of the statement as written is the same: the code cannot choose the order. */
  lemma RankOrderIgnoresCode(cfg: Config, field: string, where: string, code1: string, code2: string)
    ensures RankQueryAsWritten(cfg, field, where, code1).sql == RankQueryAsWritten(cfg, field, where, code2).sql
  {
  }

  /** The rank statement ordering by the code's column; only codes of the table are spliced in. */
  function RankQuery(cfg: Config, field: string, where: string, key: string): (q: Query)
    requires IsRankCode(key)
    ensures q.binds == []
  {
    Query(Head(cfg, field, where) + " ORDER BY " + key + " DESC LIMIT 100;", [])
  }

  /** Two different codes give two different statements: each code orders by its own column. */
  lemma RankQueryOrdersByKey(cfg: Config, field: string, where: string, key1: string, key2: string)
    requires IsRankCode(key1) && IsRankCode(key2)
    ensures RankQuery(cfg, field, where, key1).sql == RankQuery(cfg, field, where, key2).sql <==> key1 == key2
  {
    if key1 != key2 {
      var p := Head(cfg, field, where) + " ORDER BY ";
      var s1 := RankQuery(cfg, field, where, key1).sql;
      var s2 := RankQuery(cfg, field, where, key2).sql;
      assert s1 == p + key1 + " DESC LIMIT 100;";
      assert s2 == p + key2 + " DESC LIMIT 100;";
      if |key1| == |key2| {
        var j :| 0 <= j < |key1| && key1[j] != key2[j];
        assert s1[|p| + j] == key1[j];
        assert s2[|p| + j] == key2[j];
      } else {
        assert |s1| != |s2|;
      }
    }
  }

  /** The rank page: its title, its rows and its navigation. */
  datatype RankPage<T> = RankPage(title: string, rows: seq<T>, rankNav: seq<RankUrls>)

  /**
   * `get_rank`: a missing template, a path without a code, or a code
   * outside the table are `InvalidId`; otherwise the rows of the code's
   * statement (through `run`, the cached query) and the navigation with
   * the code selected.
   */
  method GetRank<T>(cfg: Config, templateExists: bool, field: string, where: string, code: string,
                    run: Query -> seq<T>) returns (r: Result<RankPage<T>, RankError>)
    ensures r.Err? <==> !templateExists || ExtractStr(code).None? || !IsRankCode(ExtractStr(code).value)
    ensures r.Ok? ==>
      var key := ExtractStr(code).value;
      r.value.title == GetRankNav(key).value &&
      r.value.rows == run(RankQuery(cfg, field, where, key)) &&
      |r.value.rankNav| == |RANK_NAV_ITEMS| &&
      forall i :: 0 <= i < |RANK_NAV_ITEMS| ==> r.value.rankNav[i] == NavEntry(cfg, RANK_NAV_ITEMS[i], Some(key))
  {
    if !templateExists {
      return Err(InvalidId);
    }
    var key := match ExtractStr(code) case Some(k) => k case None => "";
    if key == "" {
      return Err(InvalidId);
    }
    var title := match GetRankNav(key) case Some(t) => t case None => "";
    RankNavCodes(key);
    if title == "" {
      return Err(InvalidId);
    }
    var rows := run(RankQuery(cfg, field, where, key));
    var rankUrls := BuildRankNav(cfg, Some(key));
    r := Ok(RankPage(title, rows, rankUrls));
  }

  // ---------------------------------------------------------------------------
  // get_top

  /** The statement of one top list: a category's books by one visit count. */
  function TopSql(cfg: Config, field: string, where: string, sortId: nat, column: string): string
  {
    Head(cfg, field, where) + " AND sortid = " + Dec(sortId) + " ORDER BY " + column + " DESC LIMIT 50;"
  }

  /** The three lists of the category with id `sortId`, under their column names. */
  function TopLists<T>(cfg: Config, field: string, where: string, sortId: nat, run: string -> seq<T>): map<string, seq<T>>
  {
    map["allvisit" := run(TopSql(cfg, field, where, sortId, "allvisit")),
        "monthvisit" := run(TopSql(cfg, field, where, sortId, "monthvisit")),
        "weekvisit" := run(TopSql(cfg, field, where, sortId, "weekvisit"))]
  }

  /** The top page's rows for the first `n` categories: each its caption mapped to its three lists. */
  function TopRows<T>(cfg: Config, field: string, where: string, run: string -> seq<T>, n: nat): (r: seq<map<string, map<string, seq<T>>>>)
    requires n <= |cfg.sortArr|
    ensures |r| == n
    ensures forall i :: 0 <= i < n ==> r[i] == map[cfg.sortArr[i].caption := TopLists(cfg, field, where, i + 1, run)]
  {
    if n == 0 then []
    else TopRows(cfg, field, where, run, n - 1) + [map[cfg.sortArr[n - 1].caption := TopLists(cfg, field, where, n, run)]]
  }

  /** The top page: its rows and its navigation. */
  datatype TopPage<T> = TopPage(rows: seq<map<string, map<string, seq<T>>>>, rankNav: seq<RankUrls>)

  /**
   * `get_top`: for each category, in order and with the 1-based id, the
   * three lists by all, month and week visits; then the navigation with
   * nothing selected.
   */
  method GetTop<T>(cfg: Config, templateExists: bool, field: string, where: string, run: string -> seq<T>)
    returns (r: Result<TopPage<T>, RankError>)
    ensures r.Err? <==> !templateExists
    ensures r.Ok? ==> r.value.rows == TopRows(cfg, field, where, run, |cfg.sortArr|)
    ensures r.Ok? ==> |r.value.rankNav| == |RANK_NAV_ITEMS| && forall i :: 0 <= i < |r.value.rankNav| ==> !r.value.rankNav[i].select
  {
    if !templateExists {
      return Err(InvalidId);
    }
    var rows: seq<map<string, map<string, seq<T>>>> := [];
    for i := 0 to |cfg.sortArr|
      invariant rows == TopRows(cfg, field, where, run, i)
    {
      var k := i + 1;
      var rankMap := map["allvisit" := run(TopSql(cfg, field, where, k, "allvisit")),
                         "monthvisit" := run(TopSql(cfg, field, where, k, "monthvisit")),
                         "weekvisit" := run(TopSql(cfg, field, where, k, "weekvisit"))];
      rows := rows + [map[cfg.sortArr[i].caption := rankMap]];
    }
    var rankUrls := BuildRankNav(cfg, None);
    NavSelection(cfg, rankUrls, None);
    r := Ok(TopPage(rows, rankUrls));
  }
}
