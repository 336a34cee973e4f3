/**
 * The long-tail keywords of src/services/lang_tail.rs: at most one
 * background generation per book at a time, a weekly freshness check, the
 * suggestion names collected from the search engines, the batch upsert,
 * and the cached lookups of the stored keywords.
 *
 * Fetching, the engines' regular expressions, md5 and JSON are parameters:
 * an engine contributes the list of its first capture groups.
 */
module LangTailService {
  import opened Wrappers
  import opened Ints
  import opened Strings
  import opened Config
  import opened Cache

  /** A stored long-tail keyword; the two URLs are filled by the mapping, not stored. */
  datatype LangTail = LangTail(langid: u64, langname: string, sourceid: u64, uptime: u64, infoUrl: string, indexUrl: string)

  // ---------------------------------------------------------------------------
  // mapping_langtail

  /** `mapping_langtail`: the URLs of the keyword's public id, page 1; no other field changes. */
  function MapLangTail(cfg: Config, row: LangTail): (r: LangTail)
    ensures r.infoUrl == cfg.langInfoUrl(NewId(cfg, row.langid)) && r.indexUrl == cfg.langIndexUrl(NewId(cfg, row.langid), 1)
    ensures r.(infoUrl := row.infoUrl, indexUrl := row.indexUrl) == row
  {
    var id := NewId(cfg, row.langid);
    row.(infoUrl := cfg.langInfoUrl(id), indexUrl := cfg.langIndexUrl(id, 1))
  }

  /** Mapping a mapped row changes nothing more. */
  lemma MapLangTailIdempotent(cfg: Config, row: LangTail)
    ensures MapLangTail(cfg, MapLangTail(cfg, row)) == MapLangTail(cfg, row)
  {
  }

  /** `mapping_langtail_array`: every row mapped, in order. */
  function MapLangTails(cfg: Config, rows: seq<LangTail>): (r: seq<LangTail>)
    ensures |r| == |rows| && forall i :: 0 <= i < |r| ==> r[i] == MapLangTail(cfg, rows[i])
  {
    seq(|rows|, i requires 0 <= i < |rows| => MapLangTail(cfg, rows[i]))
  }

  // ---------------------------------------------------------------------------
  // The RUNNING set

  /** What a generation run did. */
  datatype RunOutcome = StillFresh | NoNames | Upserted(sql: string, vals: seq<SqlValue>)

  /** A bound SQL parameter. */
  datatype SqlValue = BigUnsigned(n: u64) | Text(s: string)

  /**
   * What a generation run sees: the newest stored `uptime` of the book (if
   * any) as the freshness test means to read it, the clock, each engine's
   * captures, and the order in which the collected name set is enumerated.
   * `LatestDecoded` gives what the query as written delivers instead.
   */
  datatype RunInput = RunInput(prefix: string, latest: Option<u64>, now: i64, engines: seq<EngineResult>, order: seq<string>)

  /** The ids whose generation is under way (`RUNNING`). */
  class Running {
    var ids: set<u64>

    constructor ()
      ensures ids == {}
    {
      ids := {};
    }

    /** `set.insert(id)`: false, and nothing changes, when the id is already there. */
    method Insert(id: u64) returns (inserted: bool)
      modifies this
      ensures inserted <==> id !in old(ids)
      ensures ids == old(ids) + {id}
    {
      inserted := id !in ids;
      ids := ids + {id};
    }

    /** `Guard::drop`: the id leaves the set. */
    method Remove(id: u64)
      modifies this
      ensures ids == old(ids) - {id}
    {
      ids := ids - {id};
    }

    /**
     * `gen_lang_tail`, run to completion: a book already being generated
     * is left alone; otherwise its id is held for the run and released at
     * the end, whatever the run's outcome.
     */
    method GenLangTail(articleId: u64, articleName: string, input: RunInput) returns (run: Option<RunOutcome>)
      modifies this
      ensures run.None? <==> articleId in old(ids)
      ensures run.Some? ==> run.value == GenLangTailImpl(articleId, articleName, input)
      ensures ids == old(ids)
    {
      ghost var before := ids;
      var inserted := Insert(articleId);
      if !inserted {
        return None;
      }
      var outcome := RunImpl(articleId, articleName, input);
      Remove(articleId);
      assert ids == before + {articleId} - {articleId} == before;
      run := Some(outcome);
    }
  }

  // ---------------------------------------------------------------------------
  // gen_lang_tail_impl

  /** Seven days, in seconds. */
  const WEEK: nat := 7 * 86400

  /** A run is skipped when the newest keyword is less than a week old: `uptime + 7·86400 >= now`, the sum wrapping. */
  predicate StillFreshAt(latest: Option<u64>, now: i64)
  {
    latest.Some? && (latest.value + WEEK) % U64_LIMIT >= ToU64(now)
  }

  /** Without wrap-around and with a non-negative clock, fresh means at most a week old. */
  lemma FreshMeansRecent(uptime: u64, now: i64)
    requires now >= 0 && uptime + WEEK < U64_LIMIT
    ensures StillFreshAt(Some(uptime), now) <==> now <= uptime + WEEK
    ensures !StillFreshAt(None, now)
  {
  }

  /** The columns the derived `FromQueryResult` of `LangTail` reads: every field not marked `skip`. */
  const LANG_TAIL_COLUMNS: set<string> := {"langid", "langname", "sourceid", "uptime"}

  /** The columns the freshness query `SELECT uptime FROM …article_langtail …` returns. */
  const FRESHNESS_COLUMNS: set<string> := {"uptime"}

  /**
   * What `if let Ok(Some(row))` sees of the book's newest stored row, as
   * written: its uptime when the query returns every column `LangTail`
   * decodes; otherwise the decode is an `Err`, which the pattern skips.
   */
  function LatestDecoded(selected: set<string>, newest: Option<u64>): (r: Option<u64>)
    ensures r.Some? <==> newest.Some? && LANG_TAIL_COLUMNS <= selected
    ensures r.Some? ==> r == newest
  {
    if newest.Some? && LANG_TAIL_COLUMNS <= selected then newest else None
  }

  /**
   * As written, the freshness query never yields an uptime, so a run is never
   * skipped, however recent the book's keywords are.
   */
  lemma FreshnessNeverSkips(articleId: u64, articleName: string, input: RunInput, newest: Option<u64>)
    ensures LatestDecoded(FRESHNESS_COLUMNS, newest).None?
    ensures GenLangTailImpl(articleId, articleName, input.(latest := LatestDecoded(FRESHNESS_COLUMNS, newest))) != StillFresh
  {
    assert "langid" in LANG_TAIL_COLUMNS && "langid" !in FRESHNESS_COLUMNS;
  }

  /**
   * Keywords stored a minute ago: the intended test skips the run, while the
   * query as written regenerates them.
   */
  lemma RecentKeywordsRegenerated(articleId: u64, articleName: string, input: RunInput)
    requires input.latest == Some(1_700_000_000) && input.now == 1_700_000_060
    ensures GenLangTailImpl(articleId, articleName, input) == StillFresh
    ensures GenLangTailImpl(articleId, articleName, input.(latest := LatestDecoded(FRESHNESS_COLUMNS, input.latest))) != StillFresh
  {
    FreshMeansRecent(1_700_000_000, input.now);
    FreshnessNeverSkips(articleId, articleName, input, input.latest);
  }

  /** One engine's first capture groups. */
  datatype EngineResult = EngineResult(name: string, captures: seq<string>)

  /** The names one capture contributes: Baidu's list loses its quotes and is cut at ','; any other engine's capture is one name. */
  function CaptureNames(engine: string, capture: string): set<string>
  {
    if engine == "baidu" then
      var pieces := Split(Replace(capture, "\"", ""), ',');
      set i | 0 <= i < |pieces| :: pieces[i]
    else {capture}
  }

  /** The names the captures of one engine contribute. */
  function EngineNames(engine: string, captures: seq<string>): set<string>
  {
    if captures == [] then {}
    else EngineNames(engine, captures[..|captures| - 1]) + CaptureNames(engine, captures[|captures| - 1])
  }

  /** `lang_name_arr`: the names of all engines. */
  function Names(engines: seq<EngineResult>): set<string>
  {
    if engines == [] then {}
    else Names(engines[..|engines| - 1]) + EngineNames(engines[|engines| - 1].name, engines[|engines| - 1].captures)
  }

  /** A name is collected exactly when some capture of some engine contributes it. */
  lemma {:induction false} EngineNamesAre(engine: string, captures: seq<string>, x: string)
    ensures x in EngineNames(engine, captures) <==> exists j :: 0 <= j < |captures| && x in CaptureNames(engine, captures[j])
  {
    if captures != [] {
      var init := captures[..|captures| - 1];
      EngineNamesAre(engine, init, x);
      if x in EngineNames(engine, init) {
        var j :| 0 <= j < |init| && x in CaptureNames(engine, init[j]);
        assert captures[j] == init[j];
      }
      if exists j :: 0 <= j < |captures| && x in CaptureNames(engine, captures[j]) {
        var j :| 0 <= j < |captures| && x in CaptureNames(engine, captures[j]);
        if j < |init| {
          assert init[j] == captures[j];
        }
      }
    }
  }

  /** A name is collected exactly when some engine collects it. */
  lemma {:induction false} NamesAre(engines: seq<EngineResult>, x: string)
    ensures x in Names(engines) <==> exists i :: 0 <= i < |engines| && x in EngineNames(engines[i].name, engines[i].captures)
  {
    if engines != [] {
      var init := engines[..|engines| - 1];
      NamesAre(init, x);
      if x in Names(init) {
        var i :| 0 <= i < |init| && x in EngineNames(init[i].name, init[i].captures);
        assert engines[i] == init[i];
      }
      if exists i :: 0 <= i < |engines| && x in EngineNames(engines[i].name, engines[i].captures) {
        var i :| 0 <= i < |engines| && x in EngineNames(engines[i].name, engines[i].captures);
        if i < |init| {
          assert init[i] == engines[i];
        }
      }
    }
  }

  /** The body of the capture loop: the names of one capture are inserted into `lang_name_arr`. */
  method InsertCapture(names: set<string>, engine: string, capture: string) returns (out: set<string>)
    ensures out == names + CaptureNames(engine, capture)
  {
    out := names;
    if engine == "baidu" {
      var langArr := Replace(capture, "\"", "");
      var pieces := Split(langArr, ',');
      var p := 0;
      while p < |pieces|
        invariant 0 <= p <= |pieces|
        invariant out == names + set q | 0 <= q < p :: pieces[q]
      {
        out := out + {pieces[p]};
        p := p + 1;
      }
      return;
    }
    out := out + {capture};
  }

  /** The nested loops of `gen_lang_tail_impl` that fill `lang_name_arr`. */
  method CollectNames(engines: seq<EngineResult>) returns (names: set<string>)
    ensures names == Names(engines)
  {
    names := {};
    var i := 0;
    while i < |engines|
      invariant 0 <= i <= |engines|
      invariant names == Names(engines[..i])
    {
      var engine := engines[i];
      var k := 0;
      while k < |engine.captures|
        invariant 0 <= k <= |engine.captures|
        invariant names == Names(engines[..i]) + EngineNames(engine.name, engine.captures[..k])
      {
        names := InsertCapture(names, engine.name, engine.captures[k]);
        assert engine.captures[..k + 1][..k] == engine.captures[..k];
        k := k + 1;
      }
      assert engine.captures[..k] == engine.captures;
      assert engines[..i + 1][..i] == engines[..i];
      i := i + 1;
    }
    assert engines[..i] == engines;
  }

  /** `order` lists the set, each member once: how the HashSet is iterated. */
  ghost predicate Enumerates(order: seq<string>, names: set<string>)
  {
    |order| == |names| && forall x :: x in order <==> x in names
  }

  // ---------------------------------------------------------------------------
  // batch_upsert_langtail

  /** A name is written unless it is empty or is the book's own name. */
  predicate Kept(name: string, articleName: string)
  {
    name != "" && name != articleName
  }

  /** The kept names, in enumeration order. */
  function KeptNames(order: seq<string>, articleName: string): (r: seq<string>)
    ensures |r| <= |order|
    ensures forall x :: x in r <==> x in order && Kept(x, articleName)
    ensures r == [] <==> forall x :: x in order ==> !Kept(x, articleName)
  {
    if order == [] then []
    else
      var init := KeptNames(order[..|order| - 1], articleName);
      var last := order[|order| - 1];
      assert forall x :: x in order <==> x in order[..|order| - 1] || x == last;
      if Kept(last, articleName) then init + [last] else init
  }

  /** One row of the VALUES clause. */
  const TUPLE: string := "(?, ?, ?)"

  /** `k` rows of placeholders separated by ','. */
  function Tuples(k: nat): string
  {
    if k == 0 then "" else if k == 1 then TUPLE else Tuples(k - 1) + "," + TUPLE
  }

  /** The three values bound for each kept name: the book, the name, the time. */
  function Bound(articleId: u64, names: seq<string>, now: u64): (r: seq<SqlValue>)
    ensures |r| == 3 * |names|
    ensures forall i :: 0 <= i < |names| ==>
      r[3 * i] == BigUnsigned(articleId) && r[3 * i + 1] == Text(names[i]) && r[3 * i + 2] == BigUnsigned(now)
  {
    if names == [] then []
    else Bound(articleId, names[..|names| - 1], now) + [BigUnsigned(articleId), Text(names[|names| - 1]), BigUnsigned(now)]
  }

  /**
   * The VALUES clause and parameters as written: the ',' goes before every
   * row but the first name's, whether or not the first name was written.
   */
  function ValuesAsWritten(articleId: u64, articleName: string, order: seq<string>, now: u64): (r: (string, seq<SqlValue>))
  {
    if order == [] then ("", [])
    else
      var prev := ValuesAsWritten(articleId, articleName, order[..|order| - 1], now);
      var name := order[|order| - 1];
      if !Kept(name, articleName) then prev
      else ((if |order| - 1 > 0 then prev.0 + "," else prev.0) + TUPLE, prev.1 + [BigUnsigned(articleId), Text(name), BigUnsigned(now)])
  }

  /** The VALUES clause and parameters: a ',' between rows, one row per kept name. */
  function Values(articleId: u64, articleName: string, order: seq<string>, now: u64): (string, seq<SqlValue>)
  {
    if order == [] then ("", [])
    else
      var prev := Values(articleId, articleName, order[..|order| - 1], now);
      var name := order[|order| - 1];
      if !Kept(name, articleName) then prev
      else ((if prev.0 != "" then prev.0 + "," else prev.0) + TUPLE, prev.1 + [BigUnsigned(articleId), Text(name), BigUnsigned(now)])
  }

  /** The clause has one row, and three bound values, per kept name, in order. */
  lemma {:induction false} ValuesRows(articleId: u64, articleName: string, order: seq<string>, now: u64)
    ensures Values(articleId, articleName, order, now).0 == Tuples(|KeptNames(order, articleName)|)
    ensures Values(articleId, articleName, order, now).1 == Bound(articleId, KeptNames(order, articleName), now)
  {
    if order != [] {
      var init := order[..|order| - 1];
      ValuesRows(articleId, articleName, init, now);
      var k := |KeptNames(init, articleName)|;
      if Kept(order[|order| - 1], articleName) {
        var kept := KeptNames(order, articleName);
        assert kept[..|kept| - 1] == KeptNames(init, articleName);
        assert Tuples(k) != "" <==> k > 0;
      }
    }
  }

  /** One row has three placeholders. */
  lemma TupleHasThree()
    ensures Count(TUPLE, '?') == 3
  {
    assert ")"[1..] == "";
    assert Count(")", '?') == 0;
    assert "?)"[1..] == ")";
    assert Count("?)", '?') == 1;
    assert " ?)"[1..] == "?)";
    assert Count(" ?)", '?') == 1;
    assert ", ?)"[1..] == " ?)";
    assert Count(", ?)", '?') == 1;
    assert "?, ?)"[1..] == ", ?)";
    assert Count("?, ?)", '?') == 2;
    assert " ?, ?)"[1..] == "?, ?)";
    assert Count(" ?, ?)", '?') == 2;
    assert ", ?, ?)"[1..] == " ?, ?)";
    assert Count(", ?, ?)", '?') == 2;
    assert "?, ?, ?)"[1..] == ", ?, ?)";
    assert Count("?, ?, ?)", '?') == 3;
    assert "(?, ?, ?)"[1..] == "?, ?, ?)";
    assert Count("(?, ?, ?)", '?') == 3;
  }

  /** Each row holds three placeholders. */
  lemma {:induction false} TuplesPlaceholders(k: nat)
    ensures Count(Tuples(k), '?') == 3 * k
  {
    TupleHasThree();
    if k > 1 {
      TuplesPlaceholders(k - 1);
      CountConcat(Tuples(k - 1), ",", '?');
      CountConcat(Tuples(k - 1) + ",", TUPLE, '?');
    }
  }

  /** The statement binds exactly one value per placeholder. */
  lemma PlaceholdersMatchValues(articleId: u64, articleName: string, order: seq<string>, now: u64)
    ensures var (sql, vals) := Values(articleId, articleName, order, now);
      Count(sql, '?') == |vals|
  {
    ValuesRows(articleId, articleName, order, now);
    TuplesPlaceholders(|KeptNames(order, articleName)|);
  }

  /** When the first name is written, the clause as written is the intended one. */
  lemma {:induction false} AsWrittenWhenFirstKept(articleId: u64, articleName: string, order: seq<string>, now: u64)
    requires order != [] && Kept(order[0], articleName)
    ensures ValuesAsWritten(articleId, articleName, order, now) == Values(articleId, articleName, order, now)
  {
    if |order| > 1 {
      var init := order[..|order| - 1];
      assert init[0] == order[0];
      AsWrittenWhenFirstKept(articleId, articleName, init, now);
      ValuesRows(articleId, articleName, init, now);
      assert init[0] in KeptNames(init, articleName);
    }
  }

  /** A skipped first name leaves a leading ',' in the clause as written. */
  lemma LeadingComma(articleId: u64, now: u64)
    ensures ValuesAsWritten(articleId, "book", ["", "tail"], now).0 == ",(?, ?, ?)"
    ensures Values(articleId, "book", ["", "tail"], now).0 == "(?, ?, ?)"
  {
    var o := ["", "tail"];
    assert o[..1] == [""] && [""][..0] == [];
    assert ValuesAsWritten(articleId, "book", [""], now).0 == "";
    assert Values(articleId, "book", [""], now).0 == "";
  }

  /** The statement of `batch_upsert_langtail` around a VALUES clause. */
  function UpsertSql(prefix: string, values: string): string
  {
    "INSERT INTO " + prefix + "article_langtail (sourceid, langname, uptime) VALUES " + values +
    " ON DUPLICATE KEY UPDATE uptime = VALUES(uptime)"
  }

  /** The loop of `batch_upsert_langtail`, with the separator placed between written rows. */
  method BatchUpsertLangtail(articleId: u64, articleName: string, order: seq<string>, now: u64)
    returns (valuesSql: string, vals: seq<SqlValue>)
    ensures valuesSql == Values(articleId, articleName, order, now).0
    ensures vals == Values(articleId, articleName, order, now).1
  {
    valuesSql := "";
    vals := [];
    var i := 0;
    while i < |order|
      invariant 0 <= i <= |order|
      invariant valuesSql == Values(articleId, articleName, order[..i], now).0
      invariant vals == Values(articleId, articleName, order[..i], now).1
    {
      var name := order[i];
      assert order[..i + 1][..i] == order[..i];
      assert order[..i + 1][i] == name;
      if Kept(name, articleName) {
        if valuesSql != "" {
          valuesSql := valuesSql + ",";
        }
        valuesSql := valuesSql + TUPLE;
        vals := vals + [BigUnsigned(articleId), Text(name), BigUnsigned(now)];
      }
      i := i + 1;
    }
    assert order[..i] == order;
  }

  /**
   * `gen_lang_tail_impl`: nothing happens while the newest keyword is
   * fresh or when no names were collected; otherwise the names, in the
   * set's enumeration order, are upserted at the current time.
   */
  function GenLangTailImpl(articleId: u64, articleName: string, input: RunInput): (r: RunOutcome)
    ensures StillFreshAt(input.latest, input.now) <==> r == StillFresh
    ensures r == NoNames <==> !StillFreshAt(input.latest, input.now) && Names(input.engines) == {}
  {
    if StillFreshAt(input.latest, input.now) then StillFresh
    else if Names(input.engines) == {} then NoNames
    else
      var v := Values(articleId, articleName, input.order, ToU64(input.now));
      Upserted(UpsertSql(input.prefix, v.0), v.1)
  }

  /**
   * An upsert binds the book, the name and the time of every kept name, in
   * enumeration order; when `order` enumerates the collected set, these are
   * exactly the collected names other than "" and the book's own name.
   */
  lemma UpsertBindsKeptNames(articleId: u64, articleName: string, input: RunInput)
    requires GenLangTailImpl(articleId, articleName, input).Upserted?
    ensures Enumerates(input.order, Names(input.engines)) ==>
      forall x :: x in KeptNames(input.order, articleName) <==> x in Names(input.engines) && Kept(x, articleName)
    ensures GenLangTailImpl(articleId, articleName, input).vals ==
      Bound(articleId, KeptNames(input.order, articleName), ToU64(input.now))
    ensures GenLangTailImpl(articleId, articleName, input).sql ==
      UpsertSql(input.prefix, Tuples(|KeptNames(input.order, articleName)|))
  {
    ValuesRows(articleId, articleName, input.order, ToU64(input.now));
  }

  /**
   * When every collected name is "" or the book's own name, the set is not
   * empty, so the run still upserts, but with an empty VALUES clause:
   * `… VALUES  ON DUPLICATE KEY …` binds nothing, a statement the server
   * refuses.
   */
  lemma EmptyValuesUpsert(articleId: u64, articleName: string, input: RunInput)
    requires !StillFreshAt(input.latest, input.now)
    requires Names(input.engines) != {} && Enumerates(input.order, Names(input.engines))
    requires forall x :: x in Names(input.engines) ==> !Kept(x, articleName)
    ensures GenLangTailImpl(articleId, articleName, input) == Upserted(UpsertSql(input.prefix, ""), [])
  {
    ValuesRows(articleId, articleName, input.order, ToU64(input.now));
  }

  /** The freshness test at the head of `gen_lang_tail_impl`. */
  method CheckFresh(latest: Option<u64>, now: i64) returns (isFresh: bool)
    ensures isFresh == StillFreshAt(latest, now)
  {
    isFresh := false;
    if latest.Some? {
      var lastUptime := (latest.value + WEEK) % U64_LIMIT;
      var thisTime := ToU64(now);
      isFresh := lastUptime >= thisTime;
    }
  }

  /** `gen_lang_tail_impl` step by step. */
  method RunImpl(articleId: u64, articleName: string, input: RunInput) returns (r: RunOutcome)
    ensures r == GenLangTailImpl(articleId, articleName, input)
  {
    var isFresh := CheckFresh(input.latest, input.now);
    if isFresh {
      return StillFresh;
    }
    var names := CollectNames(input.engines);
    if names == {} {
      return NoNames;
    }
    var thisTime := ToU64(input.now);
    var valuesSql, vals := BatchUpsertLangtail(articleId, articleName, input.order, thisTime);
    r := Upserted(UpsertSql(input.prefix, valuesSql), vals);
  }

  // ---------------------------------------------------------------------------
  // get_lang_tail / get_lang_tail_array

  const LANGTAIL_PREFIX: string := "novel:langtail:"
  const LANGTAIL_ROWS_PREFIX: string := "novel:langtail:rows:"

  /** Why `get_lang_tail` has no keyword: a query error, or a panic when the query finds no row and the missing error is unwrapped. */
  datatype LangError = DbError(msg: string) | NoRowPanic

  /**
   * `get_lang_tail`: a hit returns the cached row as stored, unmapped; on a
   * miss a found row is stored before mapping and returned mapped.
   */
  function LangTailFlow(cfg: Config, store: Store, key: string, ttl: u64,
                        encode: LangTail -> Option<string>, decode: string -> Option<LangTail>, io: Io,
                        loaded: Result<Option<LangTail>, string>): (o: Outcome<Result<LangTail, LangError>>)
    ensures !o.queried ==> o.store == store && o.value.Ok?
    ensures o.queried && loaded.Err? ==> o.value == Err(DbError(loaded.error)) && o.store == store
    ensures o.queried && loaded == Ok(None) ==> o.value == Err(NoRowPanic) && o.store == store
    ensures o.queried && loaded.Ok? && loaded.value.Some? ==>
      o.value == Ok(MapLangTail(cfg, loaded.value.value)) &&
      o.store == (if store.Some? then SetJson(store, key, loaded.value.value, ttl, encode, io.writeFails).0 else store)
  {
    var cached := GetJson(store, key, decode, io.readFails);
    if cached.Ok? && cached.value.Some? then Outcome(Ok(cached.value.value), store, false)
    else match loaded
      case Err(e) => Outcome(Err(DbError(e)), store, true)
      case Ok(None) => Outcome(Err(NoRowPanic), store, true)
      case Ok(Some(row)) =>
        var store' := if store.Some? then SetJson(store, key, row, ttl, encode, io.writeFails).0 else store;
        Outcome(Ok(MapLangTail(cfg, row)), store', true)
  }

  /**
   * `get_lang_tail_array`: nothing, without a query, when long tails are
   * off; a hit returns the cached rows unmapped; on a miss the rows (none
   * on a query error) are stored when there are some, and returned mapped.
   */
  function LangTailsFlow(cfg: Config, isLang: bool, store: Store, key: string, ttl: u64,
                         encode: seq<LangTail> -> Option<string>, decode: string -> Option<seq<LangTail>>, io: Io,
                         loaded: Option<seq<LangTail>>): (o: Outcome<seq<LangTail>>)
    ensures !isLang ==> o == Outcome([], store, false)
    ensures isLang && o.queried ==> o.value == MapLangTails(cfg, RowsFlow(store, key, ttl, encode, decode, io, loaded).value)
    ensures isLang && !o.queried ==> o == RowsFlow(store, key, ttl, encode, decode, io, loaded)
    ensures isLang ==> o.store == RowsFlow(store, key, ttl, encode, decode, io, loaded).store
  {
    if !isLang then Outcome([], store, false)
    else
      var o := RowsFlow(store, key, ttl, encode, decode, io, loaded);
      if o.queried then Outcome(MapLangTails(cfg, o.value), o.store, true) else o
  }

  /** An empty result is never cached, and a row list is cached unmapped. */
  lemma LangTailsCacheRaw(cfg: Config, m: map<string, Entry>, key: string, ttl: u64,
                          encode: seq<LangTail> -> Option<string>, decode: string -> Option<seq<LangTail>>,
                          loaded: Option<seq<LangTail>>)
    requires key !in m
    ensures var o := LangTailsFlow(cfg, true, Some(m), key, ttl, encode, decode, Io(false, false), loaded);
      o.queried &&
      (loaded.None? || loaded == Some([]) ==> o.value == [] && o.store == Some(m)) &&
      (loaded.Some? && loaded.value != [] && encode(loaded.value).Some? ==>
        o.store == Some(m[key := Entry(encode(loaded.value).value, ttl)]) &&
        o.value == MapLangTails(cfg, loaded.value))
  {
  }

  /** The two lookups use distinct keys when the digests are hex text. */
  lemma LangKeysDiffer(md5Hex: string -> string, url1: string, sql1: string, p1: string, url2: string, sql2: string, p2: string)
    requires forall s :: forall i :: 0 <= i < |md5Hex(s)| ==> md5Hex(s)[i] in "0123456789abcdef"
    ensures CacheKey(LANGTAIL_PREFIX, md5Hex, url1, sql1, p1) != CacheKey(LANGTAIL_ROWS_PREFIX, md5Hex, url2, sql2, p2)
  {
    var k1 := CacheKey(LANGTAIL_PREFIX, md5Hex, url1, sql1, p1);
    var k2 := CacheKey(LANGTAIL_ROWS_PREFIX, md5Hex, url2, sql2, p2);
    var d := md5Hex(KeySeed(url1, sql1, p1));
    assert k2[15] == 'r';
    assert |k1| == 15 + |d|;
    if |d| > 0 {
      assert k1[15] == d[0];
    }
  }

  /** `get_lang_tail` on the shared connection. */
  method GetLangTail(redis: Redis, cfg: Config, ttl: u64, md5Hex: string -> string, sourceId: u64, url: string,
                     encode: LangTail -> Option<string>, decode: string -> Option<LangTail>, io: Io,
                     loaded: Result<Option<LangTail>, string>)
    returns (r: Result<LangTail, LangError>, queried: bool)
    modifies redis
    ensures var sql := "SELECT langid,sourceid,langname,uptime FROM " + cfg.prefix + "article_langtail WHERE langid = ?";
      Outcome(r, redis.store, queried) ==
      LangTailFlow(cfg, old(redis.store), CacheKey(LANGTAIL_PREFIX, md5Hex, url, sql, Dec(sourceId)),
                   ttl, encode, decode, io, loaded)
  {
    var sql := "SELECT langid,sourceid,langname,uptime FROM " + cfg.prefix + "article_langtail WHERE langid = ?";
    var key := CacheKey(LANGTAIL_PREFIX, md5Hex, url, sql, Dec(sourceId));
    if redis.store.Some? {
      var cached := redis.CacheGetJson(key, decode, io.readFails);
      if cached.Ok? && cached.value.Some? {
        return Ok(cached.value.value), false;
      }
    }
    queried := true;
    match loaded {
      case Err(e) => r := Err(DbError(e));
      case Ok(None) => r := Err(NoRowPanic);
      case Ok(Some(row)) =>
        if redis.store.Some? {
          var _ := redis.CacheSetJson(key, row, ttl, encode, io.writeFails);
        }
        r := Ok(MapLangTail(cfg, row));
    }
  }

  /** `get_lang_tail_array` on the shared connection. */
  method GetLangTailArray(redis: Redis, cfg: Config, isLang: bool, ttl: u64, md5Hex: string -> string, articleId: u64, url: string,
                          encode: seq<LangTail> -> Option<string>, decode: string -> Option<seq<LangTail>>, io: Io,
                          loaded: Option<seq<LangTail>>)
    returns (rows: seq<LangTail>, queried: bool)
    modifies redis
    ensures var sql := "SELECT langid,sourceid,langname,uptime FROM " + cfg.prefix + "article_langtail WHERE sourceid = ?";
      Outcome(rows, redis.store, queried) ==
      LangTailsFlow(cfg, isLang, old(redis.store), CacheKey(LANGTAIL_ROWS_PREFIX, md5Hex, url, sql, Dec(articleId)),
                    ttl, encode, decode, io, loaded)
  {
    if !isLang {
      return [], false;
    }
    var sql := "SELECT langid,sourceid,langname,uptime FROM " + cfg.prefix + "article_langtail WHERE sourceid = ?";
    var key := CacheKey(LANGTAIL_ROWS_PREFIX, md5Hex, url, sql, Dec(articleId));
    rows, queried := redis.ReadThroughRows(key, ttl, encode, decode, io, loaded);
    if queried {
      rows := MapLangTails(cfg, rows);
    }
  }
}
