/**
 * The `db` template tag of src/utils/templates/db.rs: argument parsing and
 * validation, and the assembly of one parameterised MySQL SELECT. Every
 * identifier that reaches the SQL text has been checked to be made of ASCII
 * letters, digits and '_', and every condition value is bound as a
 * parameter, one per '?'. Running the query and decoding its columns is
 * database I/O and is not part of this model.
 */
module DbTag {
  import opened Wrappers
  import opened Ints
  import opened Strings

  /** A JSON / Tera value. Integers are those serde_json keeps exactly (i64 or u64); floats carry no payload. */
  datatype Json =
    | JNull
    | JBool(b: bool)
    | JInt(n: int)
    | JFloat
    | JStr(s: string)
    | JArr(items: seq<Json>)
    | JObj(fields: seq<(string, Json)>)

  /** A JSON object's entries, in the map's iteration order. */
  type Conds = seq<(string, Json)>

  /** The tag's named arguments. */
  type Args = map<string, Json>

  function AsStr(v: Json): Option<string>
  {
    if v.JStr? then Some(v.s) else None
  }

  /** `Value::as_u64`: a non-negative integer. */
  function AsU64(v: Json): Option<u64>
  {
    if v.JInt? && 0 <= v.n < U64_LIMIT then Some(v.n) else None
  }

  /** Which identifier failed validation. */
  datatype IdentUse = TableName | SelectField | CondField(clause: string) | OrderField

  datatype TagError =
    | MissingTable
    | BadIdent(use: IdentUse)
    | SelectNotString
    | NotObject(key: string)
    | BadLimit
    | BadOffset
    | OrderNotString
    | OrderFormat
    | OrderDirection

  /** `DbQueryConfig`. The order is (field, direction in lower case). */
  datatype QueryConfig = QueryConfig(
    table: string,
    select: seq<string>,
    whereCond: Option<Conds>,
    andConds: Option<Conds>,
    orConds: Option<Conds>,
    limit: Option<u32>,
    offset: Option<u64>,
    order: Option<(string, string)>)

  // ---------------------------------------------------------------------------
  // Validators

  /** `is_safe_ident`: non-empty, ASCII letters, digits and '_' only. */
  predicate IsSafeIdent(s: string)
  {
    s != [] && forall i :: 0 <= i < |s| ==> IsAsciiAlnum(s[i]) || s[i] == '_'
  }

  /** `validate_ident`. */
  function ValidateIdent(s: string, use: IdentUse): (r: Result<(), TagError>)
    ensures r.Ok? <==> IsSafeIdent(s)
    ensures r.Err? ==> r.error == BadIdent(use)
  {
    if IsSafeIdent(s) then Ok(()) else Err(BadIdent(use))
  }

  predicate KeysSafe(m: Conds)
  {
    forall i :: 0 <= i < |m| ==> IsSafeIdent(m[i].0)
  }

  /** The key loop of `validate_cond_keys`, stopping at the first unsafe key. */
  function ValidateKeys(m: Conds, clause: string): (r: Result<(), TagError>)
    ensures r.Ok? <==> KeysSafe(m)
    ensures r.Err? ==> r.error == BadIdent(CondField(clause))
  {
    if m == [] then Ok(())
    else if !IsSafeIdent(m[0].0) then Err(BadIdent(CondField(clause)))
    else
      var rest := ValidateKeys(m[1..], clause);
      assert KeysSafe(m) <==> KeysSafe(m[1..]) by {
        if KeysSafe(m[1..]) {
          forall i | 0 <= i < |m| ensures IsSafeIdent(m[i].0) {
            if i > 0 { assert m[i] == m[1..][i - 1]; }
          }
        }
      }
      rest
  }

  /** `validate_cond_keys`: an absent clause is fine; otherwise every key must be a safe identifier. */
  function ValidateCondKeys(m: Option<Conds>, clause: string): (r: Result<(), TagError>)
    ensures r.Ok? <==> m.None? || KeysSafe(m.value)
  {
    if m.None? then Ok(()) else ValidateKeys(m.value, clause)
  }

  // ---------------------------------------------------------------------------
  // select and order

  /** A select field as the list parser produces it: non-empty, no comma, no whitespace at either end. */
  predicate Field(f: string)
  {
    f != [] && ',' !in f && !IsSpace(f[0]) && !IsSpace(f[|f| - 1])
  }

  /** The trim of a comma-free piece, when not empty, is a field. */
  lemma TrimField(p: string)
    requires ',' !in p && Trim(p) != []
    ensures Field(Trim(p))
  {
  }

  /** The pieces kept from a comma-split select list: trimmed, empty ones dropped. */
  function TrimmedFields(pieces: seq<string>): (r: seq<string>)
    requires forall j :: 0 <= j < |pieces| ==> ',' !in pieces[j]
    ensures forall i :: 0 <= i < |r| ==> Field(r[i])
  {
    if pieces == [] then []
    else
      var rest := TrimmedFields(pieces[1..]);
      var t := Trim(pieces[0]);
      if t == [] then rest else TrimField(pieces[0]); [t] + rest
  }

  /** `parse_select_list`. */
  function ParseSelectList(s: string): (r: seq<string>)
    ensures Trim(s) == "*" ==> r == ["*"]
    ensures Trim(s) != "*" ==> forall i :: 0 <= i < |r| ==> Field(r[i])
  {
    var t := Trim(s);
    if t == "*" then ["*"] else TrimmedFields(Split(t, ','))
  }

  /** A string without whitespace at either end is its own trim. */
  lemma TrimFixed(s: string)
    requires s == [] || (!IsSpace(s[0]) && !IsSpace(s[|s| - 1]))
    ensures Trim(s) == s
  {
    assert TrimStart(s) == s;
  }

  /** The first `n` characters are non-space, and the next one, if any, is a space. */
  function WordLen(t: string): (n: nat)
    ensures n <= |t|
    ensures forall i :: 0 <= i < n ==> !IsSpace(t[i])
    ensures n < |t| ==> IsSpace(t[n])
  {
    if t == [] || IsSpace(t[0]) then 0 else 1 + WordLen(t[1..])
  }

  /** A non-empty run of non-whitespace characters. */
  predicate Word(w: string)
  {
    w != [] && forall k :: 0 <= k < |w| ==> !IsSpace(w[k])
  }

  /** `split_whitespace`: the maximal runs of non-whitespace characters. */
  function Words(s: string): (r: seq<string>)
    ensures forall i :: 0 <= i < |r| ==> Word(r[i])
    decreases |s|
  {
    var t := TrimStart(s);
    if t == [] then []
    else
      var n := WordLen(t);
      assert n > 0;
      var w := t[..n];
      assert Word(w);
      [w] + Words(t[n..])
  }

  /** `parse_order`: exactly two words, a safe field name and asc/desc in any case; the direction is kept in lower case. */
  function ParseOrder(s: string): (r: Result<(string, string), TagError>)
    ensures r.Ok? <==> |Words(s)| == 2 && IsSafeIdent(Words(s)[0]) && Lower(Words(s)[1]) in {"asc", "desc"}
    ensures r.Ok? ==> r.value == (Words(s)[0], Lower(Words(s)[1]))
    ensures r.Err? ==> r.error == (if |Words(s)| != 2 then OrderFormat
                                   else if !IsSafeIdent(Words(s)[0]) then BadIdent(OrderField)
                                   else OrderDirection)
  {
    var parts := Words(s);
    if |parts| != 2 then Err(OrderFormat)
    else
      var field := parts[0];
      var dir := Lower(parts[1]);
      match ValidateIdent(field, OrderField)
      case Err(e) => Err(e)
      case Ok(_) =>
        if dir != "asc" && dir != "desc" then Err(OrderDirection) else Ok((field, dir))
  }

  /** `normalize_mysql_type`: the type name up to the first '(' or ' ', in upper case. */
  function NormalizeMysqlType(t: string): (r: string)
    ensures |r| <= |t| && '(' !in r && ' ' !in r
  {
    var n := TypeNameLen(t);
    UpperAscii(t[..n])
  }

  function TypeNameLen(t: string): (n: nat)
    ensures n <= |t| && '(' !in t[..n] && ' ' !in t[..n]
    ensures n < |t| ==> t[n] == '(' || t[n] == ' '
  {
    if t == [] || t[0] == '(' || t[0] == ' ' then 0
    else
      var n := 1 + TypeNameLen(t[1..]);
      assert t[..n] == [t[0]] + t[1..][..n - 1];
      n
  }

  // ---------------------------------------------------------------------------
  // parse_args

  /** `parse_conditions`: an absent key is None, a present one must hold a JSON object. */
  function ParseConditions(args: Args, key: string): (r: Result<Option<Conds>, TagError>)
    ensures r.Err? <==> key in args && !args[key].JObj?
    ensures r.Ok? ==> r.value == (if key in args then Some(args[key].fields) else None)
  {
    if key !in args then Ok(None)
    else if args[key].JObj? then Ok(Some(args[key].fields))
    else Err(NotObject(key))
  }

  /** The select check of `parse_args`: anything but exactly `["*"]` must be safe identifiers, checked in order. */
  function ValidateSelect(select: seq<string>): (r: Result<(), TagError>)
    ensures r.Ok? <==> select == ["*"] || forall i :: 0 <= i < |select| ==> IsSafeIdent(select[i])
  {
    if select == ["*"] then Ok(()) else ValidateAll(select)
  }

  function ValidateAll(fields: seq<string>): (r: Result<(), TagError>)
    ensures r.Ok? <==> forall i :: 0 <= i < |fields| ==> IsSafeIdent(fields[i])
  {
    if fields == [] then Ok(())
    else if !IsSafeIdent(fields[0]) then Err(BadIdent(SelectField))
    else
      var rest := ValidateAll(fields[1..]);
      assert (forall i :: 0 <= i < |fields| ==> IsSafeIdent(fields[i])) <==>
             (forall i :: 0 <= i < |fields[1..]| ==> IsSafeIdent(fields[1..][i])) by {
        if forall i :: 0 <= i < |fields[1..]| ==> IsSafeIdent(fields[1..][i]) {
          forall i | 0 <= i < |fields| ensures IsSafeIdent(fields[i]) {
            if i > 0 { assert fields[i] == fields[1..][i - 1]; }
          }
        }
      }
      rest
  }

  /** What a well-formed configuration guarantees about every piece of text that reaches the SQL. */
  predicate Valid(cfg: QueryConfig)
  {
    IsSafeIdent(cfg.table)
    && (cfg.select == ["*"] || forall i :: 0 <= i < |cfg.select| ==> IsSafeIdent(cfg.select[i]))
    && (cfg.whereCond.Some? ==> KeysSafe(cfg.whereCond.value))
    && (cfg.andConds.Some? ==> KeysSafe(cfg.andConds.value))
    && (cfg.orConds.Some? ==> KeysSafe(cfg.orConds.value))
    && (cfg.order.Some? ==> IsSafeIdent(cfg.order.value.0) && cfg.order.value.1 in {"asc", "desc"})
  }

  /** The `table` argument: required, a string, a safe identifier. */
  function ParseTable(args: Args): (r: Result<string, TagError>)
    ensures r.Ok? <==> "table" in args && args["table"].JStr? && IsSafeIdent(args["table"].s)
    ensures r.Ok? ==> r.value == args["table"].s
    ensures r.Err? ==> r.error == (if "table" !in args || !args["table"].JStr? then MissingTable else BadIdent(TableName))
  {
    var table := if "table" in args then AsStr(args["table"]) else None;
    if table.None? then Err(MissingTable)
    else if !IsSafeIdent(table.value) then Err(BadIdent(TableName))
    else Ok(table.value)
  }

  /** The `select` argument: `["*"]` when absent, otherwise a string parsed and validated field by field. */
  function ParseSelectArg(args: Args): (r: Result<seq<string>, TagError>)
    ensures "select" !in args ==> r == Ok(["*"])
    ensures r.Ok? ==> r.value == ["*"] || forall i :: 0 <= i < |r.value| ==> IsSafeIdent(r.value[i])
    ensures "select" in args && !args["select"].JStr? ==> r == Err(SelectNotString)
  {
    if "select" in args && AsStr(args["select"]).None? then Err(SelectNotString)
    else
      var select := if "select" in args then ParseSelectList(AsStr(args["select"]).value) else ["*"];
      var sel := ValidateSelect(select);
      if sel.Err? then Err(sel.error) else Ok(select)
  }

  /** The clause `m` holds the entries of the object under `key`, or is None when the key is absent. */
  predicate ClauseFrom(args: Args, key: string, m: Option<Conds>)
  {
    (key in args <==> m.Some?) &&
    (key in args ==> args[key].JObj? && m.value == args[key].fields && KeysSafe(m.value))
  }

  /** where, and, or: all three shapes are checked before any key. */
  function ParseClauses(args: Args): (r: Result<(Option<Conds>, Option<Conds>, Option<Conds>), TagError>)
    ensures r.Ok? ==> ClauseFrom(args, "where", r.value.0) && ClauseFrom(args, "and", r.value.1) &&
                      ClauseFrom(args, "or", r.value.2)
  {
    var w := ParseConditions(args, "where");
    if w.Err? then Err(w.error) else
    var a := ParseConditions(args, "and");
    if a.Err? then Err(a.error) else
    var o := ParseConditions(args, "or");
    if o.Err? then Err(o.error) else
    var wk := ValidateCondKeys(w.value, "where");
    if wk.Err? then Err(wk.error) else
    var ak := ValidateCondKeys(a.value, "and");
    if ak.Err? then Err(ak.error) else
    var ok := ValidateCondKeys(o.value, "or");
    if ok.Err? then Err(ok.error) else Ok((w.value, a.value, o.value))
  }

  /** `limit` (truncated to 32 bits by `n as u32`) and `offset`: non-negative integers when present. */
  function ParseLimitOffset(args: Args): (r: Result<(Option<u32>, Option<u64>), TagError>)
  {
    if "limit" in args && AsU64(args["limit"]).None? then Err(BadLimit)
    else if "offset" in args && AsU64(args["offset"]).None? then Err(BadOffset)
    else
      Ok((if "limit" in args then Some(AsU64(args["limit"]).value % U32_LIMIT) else None,
          if "offset" in args then AsU64(args["offset"]) else None))
  }

  /** `order`: a string in the `parse_order` form, when present. */
  function ParseOrderArg(args: Args): (r: Result<Option<(string, string)>, TagError>)
    ensures r.Ok? && r.value.Some? ==> IsSafeIdent(r.value.value.0) && r.value.value.1 in {"asc", "desc"}
  {
    if "order" !in args then Ok(None)
    else if AsStr(args["order"]).None? then Err(OrderNotString)
    else
      var o := ParseOrder(AsStr(args["order"]).value);
      if o.Err? then Err(o.error) else Ok(Some(o.value))
  }

  /** `parse_args`: table, select, the clauses, limit and offset, order, each check stopping at the first error. */
  function ParseArgs(args: Args): (r: Result<QueryConfig, TagError>)
    ensures r.Ok? ==> Valid(r.value)
  {
    match ParseTable(args)
    case Err(e) => Err(e)
    case Ok(table) =>
      match ParseSelectArg(args)
      case Err(e) => Err(e)
      case Ok(select) =>
        match ParseClauses(args)
        case Err(e) => Err(e)
        case Ok((w, a, o)) =>
          match ParseLimitOffset(args)
          case Err(e) => Err(e)
          case Ok((limit, offset)) =>
            match ParseOrderArg(args)
            case Err(e) => Err(e)
            case Ok(order) => Ok(QueryConfig(table, select, w, a, o, limit, offset, order))
  }

  /** `table` is checked before any other argument. */
  lemma TableChecksFirst(args: Args)
    ensures ("table" !in args || !args["table"].JStr?) ==> ParseArgs(args) == Err(MissingTable)
    ensures "table" in args && args["table"].JStr? && !IsSafeIdent(args["table"].s) ==> ParseArgs(args) == Err(BadIdent(TableName))
    ensures ParseArgs(args).Ok? ==> "table" in args && ParseArgs(args).value.table == args["table"].s
  {
  }

  /** A present limit or offset must be a non-negative integer; the limit is kept modulo 2^32. */
  lemma LimitAndOffset(args: Args)
    requires ParseArgs(args).Ok?
    ensures "limit" in args <==> ParseArgs(args).value.limit.Some?
    ensures "limit" in args ==> args["limit"].JInt? && 0 <= args["limit"].n < U64_LIMIT &&
                                ParseArgs(args).value.limit.value == args["limit"].n % U32_LIMIT
    ensures "offset" in args <==> ParseArgs(args).value.offset.Some?
    ensures "offset" in args ==> args["offset"] == JInt(ParseArgs(args).value.offset.value)
  {
  }

  // ---------------------------------------------------------------------------
  // Bound values

  /** `SeaValue`: what a condition value is bound as. */
  datatype SqlValue =
    | BigInt(i: i64)
    | BigUnsigned(u: u64)
    | Double
    | Bool(b: bool)
    | Str(s: string)
    | JsonNull
    | JsonValue(j: Json)

  /** `val_to_sea`: i64 first, then u64, float, bool, string, null, and any other JSON as itself. */
  function ValToSea(v: Json): SqlValue
  {
    match v
    case JInt(n) =>
      if -0x8000_0000_0000_0000 <= n < 0x8000_0000_0000_0000 then BigInt(n)
      else if 0 <= n < U64_LIMIT then BigUnsigned(n)
      else Double
    case JFloat => Double
    case JBool(b) => Bool(b)
    case JStr(s) => Str(s)
    case JNull => JsonNull
    case _ => JsonValue(v)
  }

  /** Reading a bound value back as JSON. */
  function SeaToVal(v: SqlValue): Json
  {
    match v
    case BigInt(i) => JInt(i)
    case BigUnsigned(u) => JInt(u)
    case Double => JFloat
    case Bool(b) => JBool(b)
    case Str(s) => JStr(s)
    case JsonNull => JNull
    case JsonValue(j) => j
  }

  /** Binding loses nothing: every value serde_json can hold is recovered from its parameter. */
  lemma ValToSeaLossless(v: Json)
    requires v.JInt? ==> -0x8000_0000_0000_0000 <= v.n < U64_LIMIT
    ensures SeaToVal(ValToSea(v)) == v
  {
  }

  // ---------------------------------------------------------------------------
  // build_sql

  function Quote(f: string): string { "`" + f + "`" }

  function QuoteAll(fs: seq<string>): (r: seq<string>)
    ensures |r| == |fs| && forall i :: 0 <= i < |fs| ==> r[i] == Quote(fs[i])
  {
    if fs == [] then [] else [Quote(fs[0])] + QuoteAll(fs[1..])
  }

  function SelectFields(select: seq<string>): string
  {
    if select == ["*"] then "*" else JoinWith(QuoteAll(select), ", ")
  }

  /** "`key` = ?" */
  function EqClause(k: string): string { Quote(k) + " = ?" }

  /** One equality per entry, in order. */
  function EqClauses(m: Conds): (r: seq<string>)
    ensures |r| == |m|
  {
    if m == [] then [] else EqClauses(m[..|m| - 1]) + [EqClause(m[|m| - 1].0)]
  }

  /** One bound value per entry, in order. */
  function Values(m: Conds): (r: seq<SqlValue>)
    ensures |r| == |m|
  {
    if m == [] then [] else Values(m[..|m| - 1]) + [ValToSea(m[|m| - 1].1)]
  }

  function OptEqClauses(m: Option<Conds>): seq<string> { if m.Some? then EqClauses(m.value) else [] }
  function OptValues(m: Option<Conds>): seq<SqlValue> { if m.Some? then Values(m.value) else [] }

  /** The OR conditions as one parenthesised clause, or nothing when there are none. */
  function OrClause(m: Option<Conds>): seq<string>
  {
    if m.None? || m.value == [] then [] else ["(" + JoinWith(EqClauses(m.value), " OR ") + ")"]
  }

  function WhereClauses(cfg: QueryConfig): seq<string>
  {
    OptEqClauses(cfg.whereCond) + OptEqClauses(cfg.andConds) + OrClause(cfg.orConds)
  }

  function SelectPart(cfg: QueryConfig): string
  {
    "SELECT " + SelectFields(cfg.select) + " FROM " + Quote(cfg.table)
  }

  function WherePart(cfg: QueryConfig): seq<string>
  {
    var wc := WhereClauses(cfg);
    if wc == [] then [] else ["WHERE " + JoinWith(wc, " AND ")]
  }

  function OrderPart(cfg: QueryConfig): seq<string>
  {
    if cfg.order.None? then [] else ["ORDER BY " + Quote(cfg.order.value.0) + " " + UpperAscii(cfg.order.value.1)]
  }

  function LimitPart(cfg: QueryConfig): seq<string>
  {
    if cfg.limit.None? then []
    else ["LIMIT " + Dec(cfg.limit.value)] + (if cfg.offset.Some? then ["OFFSET " + Dec(cfg.offset.value)] else [])
  }

  /** The statement's parts, joined by single spaces. */
  function SqlParts(cfg: QueryConfig): seq<string>
  {
    [SelectPart(cfg)] + WherePart(cfg) + OrderPart(cfg) + LimitPart(cfg)
  }

  function Sql(cfg: QueryConfig): string { JoinWith(SqlParts(cfg), " ") }

  /** The bound parameters: where, then and, then or. */
  function Params(cfg: QueryConfig): seq<SqlValue>
  {
    OptValues(cfg.whereCond) + OptValues(cfg.andConds) + OptValues(cfg.orConds)
  }

  lemma EqClausesStep(m: Conds, i: nat)
    requires i < |m|
    ensures EqClauses(m[..i + 1]) == EqClauses(m[..i]) + [EqClause(m[i].0)]
    ensures Values(m[..i + 1]) == Values(m[..i]) + [ValToSea(m[i].1)]
  {
    assert m[..i + 1][..i] == m[..i];
  }

  /** One of the condition loops of `build_sql`: a clause and a bound value per entry. */
  method PushConds(m: Conds, clauses: seq<string>, params: seq<SqlValue>)
    returns (clauses': seq<string>, params': seq<SqlValue>)
    ensures clauses' == clauses + EqClauses(m) && params' == params + Values(m)
  {
    clauses', params' := clauses, params;
    for i := 0 to |m|
      invariant clauses' == clauses + EqClauses(m[..i]) && params' == params + Values(m[..i])
    {
      EqClausesStep(m, i);
      clauses' := clauses' + [EqClause(m[i].0)];
      params' := params' + [ValToSea(m[i].1)];
    }
    assert m[..|m|] == m;
  }

  /** The three condition loops of `build_sql`: the WHERE clauses and the bound values. */
  method BuildWhere(cfg: QueryConfig) returns (whereClauses: seq<string>, params: seq<SqlValue>)
    ensures whereClauses == WhereClauses(cfg) && params == Params(cfg)
  {
    params := [];
    whereClauses := [];
    if cfg.whereCond.Some? {
      whereClauses, params := PushConds(cfg.whereCond.value, whereClauses, params);
    }
    if cfg.andConds.Some? {
      whereClauses, params := PushConds(cfg.andConds.value, whereClauses, params);
    }
    ghost var w0 := whereClauses;
    assert w0 == OptEqClauses(cfg.whereCond) + OptEqClauses(cfg.andConds);
    assert params == OptValues(cfg.whereCond) + OptValues(cfg.andConds);
    if cfg.orConds.Some? {
      var orParts;
      orParts, params := PushConds(cfg.orConds.value, [], params);
      assert orParts == EqClauses(cfg.orConds.value);
      if orParts != [] {
        whereClauses := whereClauses + ["(" + JoinWith(orParts, " OR ") + ")"];
      } else {
        assert w0 + OrClause(cfg.orConds) == w0;
      }
    } else {
      assert w0 + OrClause(cfg.orConds) == w0;
    }
  }

  /** `build_sql`. */
  method BuildSql(cfg: QueryConfig) returns (sql: string, params: seq<SqlValue>)
    ensures sql == Sql(cfg) && params == Params(cfg)
  {
    var sqlParts := [SelectPart(cfg)];
    var whereClauses;
    whereClauses, params := BuildWhere(cfg);
    if whereClauses != [] {
      sqlParts := sqlParts + ["WHERE " + JoinWith(whereClauses, " AND ")];
    }
    assert sqlParts == [SelectPart(cfg)] + WherePart(cfg);
    if cfg.order.Some? {
      var (field, orderType) := cfg.order.value;
      sqlParts := sqlParts + ["ORDER BY " + Quote(field) + " " + UpperAscii(orderType)];
    }
    ghost var before := sqlParts;
    assert before == [SelectPart(cfg)] + WherePart(cfg) + OrderPart(cfg);
    if cfg.limit.Some? {
      sqlParts := sqlParts + ["LIMIT " + Dec(cfg.limit.value)];
      if cfg.offset.Some? {
        sqlParts := sqlParts + ["OFFSET " + Dec(cfg.offset.value)];
      }
    }
    assert sqlParts == before + LimitPart(cfg);
    sql := JoinWith(sqlParts, " ");
  }

  // ---------------------------------------------------------------------------
  // What the statement can contain

  predicate IdentChar(c: char) { IsAsciiAlnum(c) || c == '_' }

  /** The characters a statement is built from: identifier characters, backticks and the fixed punctuation. */
  predicate SqlChar(c: char)
  {
    IdentChar(c) || c == '`' || c == ' ' || c == ',' || c == '=' || c == '?' || c == '(' || c == ')' || c == '*'
  }

  /** The same without the placeholder. */
  predicate PlainSqlChar(c: char) { SqlChar(c) && c != '?' }

  /** Every piece satisfies `AllChars` for `p`. */
  predicate AllPieces(ps: seq<string>, p: char -> bool)
  {
    forall i :: 0 <= i < |ps| ==> AllChars(ps[i], p)
  }

  lemma AllPiecesConcat(a: seq<string>, b: seq<string>, p: char -> bool)
    requires AllPieces(a, p) && AllPieces(b, p)
    ensures AllPieces(a + b, p)
  {
    forall i | 0 <= i < |a + b| ensures AllChars((a + b)[i], p) {
      if i >= |a| { assert (a + b)[i] == b[i - |a|]; }
    }
  }

  lemma {:induction false} CountAllZero(ps: seq<string>, c: char)
    requires forall i :: 0 <= i < |ps| ==> Count(ps[i], c) == 0
    ensures CountAll(ps, c) == 0
  {
    if ps != [] {
      CountAllZero(ps[1..], c);
    }
  }

  lemma PlainFacts(s: string)
    requires AllChars(s, PlainSqlChar)
    ensures AllChars(s, SqlChar) && Count(s, '?') == 0
  {
    CountAbsent(s, '?');
  }

  lemma QuotePlain(f: string)
    requires IsSafeIdent(f)
    ensures AllChars(Quote(f), PlainSqlChar)
  {
    AllCharsConcat("`", f, PlainSqlChar);
    AllCharsConcat("`" + f, "`", PlainSqlChar);
  }

  lemma SelectPlain(cfg: QueryConfig)
    requires Valid(cfg)
    ensures AllChars(SelectPart(cfg), PlainSqlChar)
  {
    if cfg.select != ["*"] {
      var q := QuoteAll(cfg.select);
      forall i | 0 <= i < |q| ensures AllChars(q[i], PlainSqlChar) {
        QuotePlain(cfg.select[i]);
      }
      AllCharsJoinWith(q, ", ", PlainSqlChar);
    }
    QuotePlain(cfg.table);
    var f := SelectFields(cfg.select);
    AllCharsConcat("SELECT ", f, PlainSqlChar);
    AllCharsConcat("SELECT " + f, " FROM ", PlainSqlChar);
    AllCharsConcat("SELECT " + f + " FROM ", Quote(cfg.table), PlainSqlChar);
  }

  lemma UpperDirections()
    ensures UpperAscii("asc") == "ASC" && UpperAscii("desc") == "DESC"
  {
    var u, v := UpperAscii("asc"), UpperAscii("desc");
    assert u[0] == 'A' && u[1] == 'S' && u[2] == 'C';
    assert v[0] == 'D' && v[1] == 'E' && v[2] == 'S' && v[3] == 'C';
  }

  lemma DirectionPlain(dir: string)
    requires dir in {"asc", "desc"}
    ensures AllChars(UpperAscii(dir), PlainSqlChar)
  {
    UpperDirections();
  }

  lemma OrderPlain(cfg: QueryConfig)
    requires Valid(cfg) && cfg.order.Some?
    ensures AllChars(OrderPart(cfg)[0], PlainSqlChar)
  {
    var (f, dir) := cfg.order.value;
    QuotePlain(f);
    var u := UpperAscii(dir);
    DirectionPlain(dir);
    assert AllChars("ORDER BY ", PlainSqlChar);
    AllCharsConcat("ORDER BY ", Quote(f), PlainSqlChar);
    AllCharsConcat("ORDER BY " + Quote(f), " ", PlainSqlChar);
    AllCharsConcat("ORDER BY " + Quote(f) + " ", u, PlainSqlChar);
  }

  lemma NumberPlain(prefix: string, n: nat)
    requires AllChars(prefix, PlainSqlChar)
    ensures AllChars(prefix + Dec(n), PlainSqlChar)
  {
    AllCharsConcat(prefix, Dec(n), PlainSqlChar);
  }

  lemma LimitPlain(cfg: QueryConfig)
    ensures forall i :: 0 <= i < |LimitPart(cfg)| ==> AllChars(LimitPart(cfg)[i], PlainSqlChar)
  {
    if cfg.limit.Some? {
      NumberPlain("LIMIT ", cfg.limit.value);
      if cfg.offset.Some? {
        NumberPlain("OFFSET ", cfg.offset.value);
      }
    }
  }

  /** One equality: safe characters and exactly one placeholder. */
  lemma EqClauseFacts(k: string)
    requires IsSafeIdent(k)
    ensures AllChars(EqClause(k), SqlChar) && Count(EqClause(k), '?') == 1
  {
    QuotePlain(k);
    PlainFacts(Quote(k));
    AllCharsConcat(Quote(k), " = ?", SqlChar);
    CountConcat(Quote(k), " = ?", '?');
  }

  lemma {:induction false} EqClausesFacts(m: Conds)
    requires KeysSafe(m)
    ensures forall i :: 0 <= i < |EqClauses(m)| ==> AllChars(EqClauses(m)[i], SqlChar)
    ensures CountAll(EqClauses(m), '?') == |m|
  {
    if m != [] {
      var init := m[..|m| - 1];
      assert KeysSafe(init) by {
        forall i | 0 <= i < |init| ensures IsSafeIdent(init[i].0) { assert init[i] == m[i]; }
      }
      EqClausesFacts(init);
      EqClauseFacts(m[|m| - 1].0);
      CountAllConcat(EqClauses(init), [EqClause(m[|m| - 1].0)], '?');
    }
  }

  lemma OrClauseFacts(m: Option<Conds>)
    requires m.Some? ==> KeysSafe(m.value)
    ensures forall i :: 0 <= i < |OrClause(m)| ==> AllChars(OrClause(m)[i], SqlChar)
    ensures CountAll(OrClause(m), '?') == |OptValues(m)|
  {
    if m.Some? && m.value != [] {
      var es := EqClauses(m.value);
      EqClausesFacts(m.value);
      AllCharsJoinWith(es, " OR ", SqlChar);
      CountJoinWith(es, " OR ", '?');
      var j := JoinWith(es, " OR ");
      AllCharsConcat("(", j, SqlChar);
      AllCharsConcat("(" + j, ")", SqlChar);
      CountConcat("(", j, '?');
      CountConcat("(" + j, ")", '?');
    }
  }

  lemma OptEqClausesFacts(m: Option<Conds>)
    requires m.Some? ==> KeysSafe(m.value)
    ensures forall i :: 0 <= i < |OptEqClauses(m)| ==> AllChars(OptEqClauses(m)[i], SqlChar)
    ensures CountAll(OptEqClauses(m), '?') == |OptValues(m)|
  {
    if m.Some? {
      EqClausesFacts(m.value);
    }
  }

  lemma WhereClausesFacts(cfg: QueryConfig)
    requires Valid(cfg)
    ensures AllPieces(WhereClauses(cfg), SqlChar)
    ensures CountAll(WhereClauses(cfg), '?') == |Params(cfg)|
  {
    var a, b, c := OptEqClauses(cfg.whereCond), OptEqClauses(cfg.andConds), OrClause(cfg.orConds);
    OptEqClausesFacts(cfg.whereCond);
    OptEqClausesFacts(cfg.andConds);
    OrClauseFacts(cfg.orConds);
    CountAllConcat(a, b, '?');
    CountAllConcat(a + b, c, '?');
    AllPiecesConcat(a, b, SqlChar);
    AllPiecesConcat(a + b, c, SqlChar);
  }

  lemma PrefixedJoinFacts(prefix: string, ps: seq<string>, sep: string)
    requires AllPieces(ps, SqlChar) && AllChars(prefix, PlainSqlChar) && AllChars(sep, PlainSqlChar)
    ensures AllChars(prefix + JoinWith(ps, sep), SqlChar)
    ensures Count(prefix + JoinWith(ps, sep), '?') == CountAll(ps, '?')
  {
    PlainFacts(prefix);
    PlainFacts(sep);
    var j := JoinWith(ps, sep);
    AllCharsJoinWith(ps, sep, SqlChar);
    CountJoinWith(ps, sep, '?');
    AllCharsConcat(prefix, j, SqlChar);
    CountConcat(prefix, j, '?');
  }

  lemma WhereFacts(cfg: QueryConfig)
    requires Valid(cfg)
    ensures AllPieces(WherePart(cfg), SqlChar)
    ensures CountAll(WherePart(cfg), '?') == |Params(cfg)|
  {
    var wc := WhereClauses(cfg);
    WhereClausesFacts(cfg);
    if wc != [] {
      PrefixedJoinFacts("WHERE ", wc, " AND ");
    }
  }

  lemma PartsFacts(cfg: QueryConfig)
    requires Valid(cfg)
    ensures AllPieces(SqlParts(cfg), SqlChar)
    ensures CountAll(SqlParts(cfg), '?') == |Params(cfg)|
  {
    var s, w, o, l := [SelectPart(cfg)], WherePart(cfg), OrderPart(cfg), LimitPart(cfg);
    SelectPlain(cfg);
    PlainFacts(SelectPart(cfg));
    WhereFacts(cfg);
    if cfg.order.Some? {
      OrderPlain(cfg);
      PlainFacts(o[0]);
    }
    LimitPlain(cfg);
    forall i | 0 <= i < |l| ensures AllChars(l[i], SqlChar) && Count(l[i], '?') == 0 {
      PlainFacts(l[i]);
    }
    CountAllZero(l, '?');
    CountAllConcat(s, w, '?');
    CountAllConcat(s + w, o, '?');
    CountAllConcat(s + w + o, l, '?');
    AllPiecesConcat(s, w, SqlChar);
    AllPiecesConcat(s + w, o, SqlChar);
    AllPiecesConcat(s + w + o, l, SqlChar);
  }

  /**
   * Injection safety: a statement built from validated arguments consists
   * only of identifier characters, backticks and fixed punctuation, so it
   * holds no quote, semicolon, backslash, '-' or '#'.
   */
  lemma SqlOnlySafeChars(cfg: QueryConfig)
    requires Valid(cfg)
    ensures AllChars(Sql(cfg), SqlChar)
    ensures forall c :: c in Sql(cfg) ==> c !in "'\";-#\\"
  {
    PartsFacts(cfg);
    AllCharsJoinWith(SqlParts(cfg), " ", SqlChar);
  }

  /** There is exactly one '?' per bound parameter. */
  lemma PlaceholdersMatchParams(cfg: QueryConfig)
    requires Valid(cfg)
    ensures Count(Sql(cfg), '?') == |Params(cfg)|
  {
    PartsFacts(cfg);
    CountJoinWith(SqlParts(cfg), " ", '?');
  }

  /** The parameters are the where, and, or values in that order. */
  lemma ParamsInClauseOrder(cfg: QueryConfig)
    ensures |Params(cfg)| == |OptValues(cfg.whereCond)| + |OptValues(cfg.andConds)| + |OptValues(cfg.orConds)|
    ensures cfg.whereCond.Some? ==> Params(cfg)[..|cfg.whereCond.value|] == Values(cfg.whereCond.value)
    ensures cfg.orConds.Some? ==> Params(cfg)[|Params(cfg)| - |cfg.orConds.value|..] == Values(cfg.orConds.value)
  {
    var p := Params(cfg);
    if cfg.whereCond.Some? {
      assert p == Values(cfg.whereCond.value) + (OptValues(cfg.andConds) + OptValues(cfg.orConds));
    }
  }

  /** WHERE appears exactly when some condition is given; OFFSET only after LIMIT. */
  lemma ClausesPresent(cfg: QueryConfig)
    ensures WherePart(cfg) == [] <==>
            (cfg.whereCond.None? || cfg.whereCond.value == []) &&
            (cfg.andConds.None? || cfg.andConds.value == []) &&
            (cfg.orConds.None? || cfg.orConds.value == [])
    ensures |LimitPart(cfg)| == (if cfg.limit.None? then 0 else if cfg.offset.None? then 1 else 2)
  {
    var a, b := OptEqClauses(cfg.whereCond), OptEqClauses(cfg.andConds);
    assert |WhereClauses(cfg)| == |a| + |b| + |OrClause(cfg.orConds)|;
  }

  /** The direction is emitted in upper case. */
  lemma OrderEmitted(cfg: QueryConfig, f: string)
    ensures cfg.order == Some((f, "asc")) ==> OrderPart(cfg) == ["ORDER BY `" + f + "` ASC"]
    ensures cfg.order == Some((f, "desc")) ==> OrderPart(cfg) == ["ORDER BY `" + f + "` DESC"]
  {
    UpperDirections();
    assert "ORDER BY " + Quote(f) + " " + "ASC" == "ORDER BY `" + f + "` ASC";
    assert "ORDER BY " + Quote(f) + " " + "DESC" == "ORDER BY `" + f + "` DESC";
  }

  // ---------------------------------------------------------------------------
  // Round trips of the argument parsers

  lemma {:induction false} JoinEnds(fs: seq<string>, c: char)
    requires |fs| > 0 && forall i :: 0 <= i < |fs| ==> fs[i] != []
    ensures var s := Join(fs, c); s != [] && s[0] == fs[0][0] && s[|s| - 1] == fs[|fs| - 1][|fs[|fs| - 1]| - 1]
  {
    if |fs| > 1 {
      JoinEnds(fs[1..], c);
    }
  }

  lemma {:induction false} TrimmedFieldsFixed(fs: seq<string>)
    requires forall i :: 0 <= i < |fs| ==> ',' !in fs[i] && Field(fs[i])
    ensures TrimmedFields(fs) == fs
  {
    if fs != [] {
      TrimFixed(fs[0]);
      TrimmedFieldsFixed(fs[1..]);
    }
  }

  /** A comma-joined list of fields parses back to the same fields. */
  lemma {:induction false} SelectListRoundTrip(fs: seq<string>)
    requires |fs| > 0 && fs != ["*"]
    requires forall i :: 0 <= i < |fs| ==> Field(fs[i])
    ensures ParseSelectList(Join(fs, ',')) == fs
  {
    var s := Join(fs, ',');
    JoinEnds(fs, ',');
    TrimFixed(s);
    if |fs| > 1 {
      assert s[|fs[0]|] == ',';
    }
    SplitJoin(fs, ',');
    TrimmedFieldsFixed(fs);
  }

  lemma {:induction false} WordLenConcat(x: string, y: string)
    requires forall i :: 0 <= i < |x| ==> !IsSpace(x[i])
    requires y == [] || IsSpace(y[0])
    ensures WordLen(x + y) == |x|
  {
    if x != [] {
      assert (x + y)[1..] == x[1..] + y;
      WordLenConcat(x[1..], y);
    } else {
      assert x + y == y;
    }
  }

  lemma {:induction false} WordsSingle(w: string)
    requires Word(w)
    ensures Words(w) == [w]
  {
    assert TrimStart(w) == w;
    WordLenConcat(w, []);
    assert w + [] == w;
    assert w[..|w|] == w && w[|w|..] == [];
  }

  lemma {:induction false} WordsLead(w: string, rest: string)
    requires Word(w)
    requires rest == [] || IsSpace(rest[0])
    ensures Words(w + rest) == [w] + Words(rest)
  {
    var t := w + rest;
    assert TrimStart(t) == t;
    WordLenConcat(w, rest);
    assert t[..|w|] == w && t[|w|..] == rest;
  }

  lemma {:induction false} WordsSkipSpace(d: string)
    requires d != [] && !IsSpace(d[0])
    ensures Words(" " + d) == Words(d)
  {
    assert (" " + d)[1..] == d;
    assert TrimStart(" " + d) == TrimStart(d) == d;
  }

  /** Two words separated by a space: they are what `split_whitespace` returns. */
  lemma {:induction false} TwoWords(f: string, d: string)
    requires Word(f) && Word(d)
    ensures Words(f + " " + d) == [f, d]
  {
    var rest := " " + d;
    var w1 := Words(rest);
    assert w1 == [d] by {
      WordsSkipSpace(d);
      WordsSingle(d);
    }
    assert f + " " + d == f + rest;
    var w := Words(f + rest);
    assert w == [f] + w1 by {
      WordsLead(f, rest);
    }
    assert [f] + [d] == [f, d];
  }

  /** "field dir" with a safe field and asc/desc in any case parses to the field and the lower-cased direction. */
  lemma {:induction false} OrderRoundTrip(f: string, d: string)
    requires IsSafeIdent(f) && Word(d)
    requires Lower(d) in {"asc", "desc"}
    ensures ParseOrder(f + " " + d) == Ok((f, Lower(d)))
  {
    assert Word(f);
    TwoWords(f, d);
  }

  /** The type name is the text before the first '(' or ' ', upper-cased. */
  lemma {:induction false} NormalizeStopsAtSeparator(name: string, sep: char, rest: string)
    requires '(' !in name && ' ' !in name && (sep == '(' || sep == ' ')
    ensures NormalizeMysqlType(name + [sep] + rest) == UpperAscii(name)
  {
    var t := name + [sep] + rest;
    var n := TypeNameLen(t);
    assert t[|name|] == sep;
    assert n == |name|;
    assert t[..n] == name;
  }

  /** Each of where/and/or, when given, is an object whose entries become the clause, with safe keys. */
  lemma ConditionsChecked(args: Args)
    requires ParseArgs(args).Ok?
    ensures var cfg := ParseArgs(args).value;
            ClauseFrom(args, "where", cfg.whereCond) && ClauseFrom(args, "and", cfg.andConds) &&
            ClauseFrom(args, "or", cfg.orConds)
  {
  }
}
