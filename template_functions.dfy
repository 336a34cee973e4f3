/**
 * The template functions `substr`, `rewriter` and `get_config`: how each
 * reads its named arguments and what it returns. A template value is a
 * string, a boolean, an integer or anything else.
 */
module TemplateFunctions {
  import opened Wrappers
  import opened Ints
  import opened Config

  datatype Value = VString(s: string) | VBool(b: bool) | VInt(n: int) | VOther

  type Args = map<string, Value>

  /** A template error carries its message; a cut inside a character panics. */
  datatype FnError = Msg(text: string) | CharBoundaryPanic

  /** `as_str`. */
  function AsStr(v: Value): (r: Option<string>)
    ensures r.Some? <==> v.VString?
  {
    if v.VString? then Some(v.s) else None
  }

  /** `as_u64`: a non-negative integer that fits in 64 bits. */
  function AsU64(v: Value): (r: Option<u64>)
    ensures r.Some? <==> v.VInt? && 0 <= v.n < U64_LIMIT
  {
    if v.VInt? && 0 <= v.n < U64_LIMIT then Some(v.n) else None
  }

  /** A required string argument: missing and non-string are two errors. */
  function RequiredStr(args: Args, key: string, missing: string, notString: string): (r: Result<string, FnError>)
    ensures key !in args ==> r == Err(Msg(missing))
    ensures key in args ==> (r.Ok? <==> args[key].VString?) && (r.Ok? ==> r.value == args[key].s)
    ensures key in args && r.Err? ==> r == Err(Msg(notString))
  {
    if key !in args then Err(Msg(missing))
    else match AsStr(args[key])
      case None => Err(Msg(notString))
      case Some(s) => Ok(s)
  }

  // ---------------------------------------------------------------------------
  // GETConfigFunction

  /** `get_config`: only `is_lang` is served; any other key gives the empty string. */
  function GetConfigFn(cfg: Config, args: Args): (r: Result<Value, FnError>)
    ensures r.Ok? <==> "key" in args && args["key"].VString?
    ensures r.Ok? ==> r.value == (if args["key"].s == "is_lang" then VBool(cfg.isLang) else VString(""))
  {
    match RequiredStr(args, "key", "获取配置项的键是必须的", "key 参数必须是字符串类型")
    case Err(e) => Err(e)
    case Ok(key) => Ok(if key == "is_lang" then VBool(cfg.isLang) else VString(""))
  }

  // ---------------------------------------------------------------------------
  // RewriterFunction

  /**
   * `rewriter`: the rewrite template of the search, top or history page,
   * or the rank URL of `code` ("allvisit" when absent or not a string);
   * any other type is an error naming it.
   */
  function RewriterFn(cfg: Config, args: Args): (r: Result<Value, FnError>)
    ensures r.Ok? <==> "type" in args && args["type"].VString? &&
                       args["type"].s in ["search", "rank", "top", "history"]
    ensures r.Ok? ==> r.value.VString?
    ensures "type" in args && args["type"].VString? && args["type"].s !in ["search", "rank", "top", "history"] ==>
              r == Err(Msg("未知的 type 参数值: " + args["type"].s))
  {
    match RequiredStr(args, "type", "获取哪种类型的伪静态是必须的(search | rank | top)", "type 参数必须是字符串类型")
    case Err(e) => Err(e)
    case Ok(t) =>
      if t == "search" then Ok(VString(cfg.rewrite.searchUrl))
      else if t == "rank" then
        var code := if "code" in args && args["code"].VString? then args["code"].s else "allvisit";
        Ok(VString(RankUrl(cfg, code)))
      else if t == "top" then Ok(VString(cfg.rewrite.topUrl))
      else if t == "history" then Ok(VString(cfg.rewrite.historyUrl))
      else Err(Msg("未知的 type 参数值: " + t))
  }

  /** A rank link without a usable code is the link of "allvisit"; with one it is that code's link. */
  lemma RewriterRankCode(cfg: Config, args: Args)
    requires "type" in args && args["type"] == VString("rank")
    ensures "code" in args && args["code"].VString? ==> RewriterFn(cfg, args) == Ok(VString(RankUrl(cfg, args["code"].s)))
    ensures !("code" in args && args["code"].VString?) ==>
              RewriterFn(cfg, args) == RewriterFn(cfg, args["code" := VString("allvisit")])
  {
  }

  // ---------------------------------------------------------------------------
  // SubstrFunction

  /** The number of bytes of a character in UTF-8. */
  function Utf8Len(c: char): (n: nat)
    ensures 1 <= n <= 4
  {
    if c as int < 0x80 then 1 else if c as int < 0x800 then 2 else if c as int < 0x10000 then 3 else 4
  }

  /** `str::len`: the number of bytes of the UTF-8 text. */
  function ByteLen(s: string): nat
  {
    if s == [] then 0 else Utf8Len(s[0]) + ByteLen(s[1..])
  }

  lemma {:induction false} ByteLenPrefix(s: string, k: nat)
    requires 0 < k <= |s|
    ensures ByteLen(s[..k]) == Utf8Len(s[0]) + ByteLen(s[1..][..k - 1])
  {
    assert s[..k][1..] == s[1..][..k - 1];
  }

  lemma {:induction false} ByteLenMonotone(s: string, k: nat)
    requires k <= |s|
    ensures ByteLen(s[..k]) <= ByteLen(s)
  {
    if k > 0 {
      ByteLenPrefix(s, k);
      ByteLenMonotone(s[1..], k - 1);
    } else {
      assert s[..k] == [];
    }
  }

  /**
   * The number of characters whose bytes make up exactly the first `n`
   * bytes, if `n` falls on a character boundary.
   */
  function CutIndex(s: string, n: nat): (r: Option<nat>)
    ensures r.Some? ==> r.value <= |s|
  {
    if n == 0 then Some(0)
    else if s == [] || Utf8Len(s[0]) > n then None
    else match CutIndex(s[1..], n - Utf8Len(s[0]))
      case None => None
      case Some(k) => Some(k + 1)
  }

  /** The cut index is the one prefix of exactly `n` bytes, and there is none when the cut falls inside a character. */
  lemma {:induction false} CutIndexSpec(s: string, n: nat)
    ensures CutIndex(s, n).Some? ==> ByteLen(s[..CutIndex(s, n).value]) == n
    ensures CutIndex(s, n).None? ==> forall k :: 0 <= k <= |s| ==> ByteLen(s[..k]) != n
  {
    if n == 0 {
      assert s[..0] == [];
    } else if s == [] {
      assert s[..0] == [];
    } else if Utf8Len(s[0]) > n {
      forall k | 0 <= k <= |s|
        ensures ByteLen(s[..k]) != n
      {
        if k == 0 {
          assert s[..k] == [];
        } else {
          ByteLenPrefix(s, k);
        }
      }
    } else {
      CutIndexSpec(s[1..], n - Utf8Len(s[0]));
      match CutIndex(s[1..], n - Utf8Len(s[0])) {
        case Some(j) =>
          ByteLenPrefix(s, j + 1);
        case None =>
          forall k | 0 <= k <= |s|
            ensures ByteLen(s[..k]) != n
          {
            if k == 0 {
              assert s[..k] == [];
            } else {
              ByteLenPrefix(s, k);
            }
          }
      }
    }
  }

  /**
   * `substr`: a title of at most `max_len` bytes (20 by default) is
   * returned as it is; a longer one is cut to its first `max_len` bytes and
   * "..." is appended, which panics when the cut falls inside a character.
   */
  function SubstrFn(args: Args): (r: Result<Value, FnError>)
  {
    match RequiredStr(args, "name", "format_novel_title 缺少必选参数 name（小说标题）", "name 参数必须是字符串类型")
    case Err(e) => Err(e)
    case Ok(title) =>
      if "max_len" in args && AsU64(args["max_len"]).None? then Err(Msg("max_len 必须是数字"))
      else
        var maxLen := if "max_len" in args then AsU64(args["max_len"]).value else 20;
        if ByteLen(title) > maxLen then
          match CutIndex(title, maxLen)
          case None => Err(CharBoundaryPanic)
          case Some(k) => Ok(VString(title[..k] + "..."))
        else Ok(VString(title))
  }

  /** The cases of `substr`, for a string title and a usable or absent length. */
  lemma SubstrCases(args: Args, title: string, maxLen: nat)
    requires "name" in args && args["name"] == VString(title)
    requires if "max_len" in args then AsU64(args["max_len"]) == Some(maxLen) else maxLen == 20
    ensures ByteLen(title) <= maxLen ==> SubstrFn(args) == Ok(VString(title))
    ensures ByteLen(title) > maxLen ==>
      (SubstrFn(args) == Err(CharBoundaryPanic) <==> forall k :: 0 <= k <= |title| ==> ByteLen(title[..k]) != maxLen)
    ensures ByteLen(title) > maxLen && SubstrFn(args).Ok? ==>
      exists k :: 0 <= k <= |title| && ByteLen(title[..k]) == maxLen && SubstrFn(args) == Ok(VString(title[..k] + "..."))
  {
    CutIndexSpec(title, maxLen);
  }

  /** A length that is present but not a non-negative integer is an error, whatever the title. */
  lemma SubstrBadLength(args: Args)
    requires "name" in args && args["name"].VString?
    requires "max_len" in args && AsU64(args["max_len"]).None?
    ensures SubstrFn(args) == Err(Msg("max_len 必须是数字"))
  {
  }
}
