/** The route patterns of src/routes/app.rs that are computed from the configured URL templates. */
module Routes {
  import opened Strings
  import opened Config
  import opened Placeholders

  /** A string containing a pattern contains each of the pattern's characters. */
  lemma {:induction false} ContainsChar(s: string, pat: string, i: nat)
    requires i < |pat| && Contains(s, pat)
    ensures pat[i] in s
    decreases |s|
  {
    if pat <= s {
      assert s[i] == pat[i];
    } else {
      ContainsChar(s[1..], pat, i);
      assert pat[i] in s[1..];
    }
  }

  /**
   * `trim_suffix`: a template with a "}." (a placeholder followed by an
   * extension) loses everything from its last '.'; any other is kept.
   */
  function TrimSuffix(s: string): (r: string)
    ensures r <= s
    ensures !Contains(s, "}.") ==> r == s
    ensures Contains(s, "}.") ==> |r| < |s| && s[|r|] == '.' && '.' !in s[|r| + 1..]
  {
    if !Contains(s, "}.") then s
    else
      ContainsChar(s, "}.", 1);
      BeforeLastDot(s)
  }

  /** The sort route: the trimmed template with `{id}` written as `{code}`. */
  function SortRoute(cfg: Config): string
  {
    Replace(TrimSuffix(cfg.rewrite.sortUrl), "{id}", "{code}")
  }

  /** A template without `{id}` is registered as trimmed. */
  lemma SortRouteWithoutId(cfg: Config)
    requires !Contains(cfg.rewrite.sortUrl, "{id}")
    ensures SortRoute(cfg) == TrimSuffix(cfg.rewrite.sortUrl)
  {
    var t := TrimSuffix(cfg.rewrite.sortUrl);
    if Contains(t, "{id}") {
      ContainsPrefix(t, cfg.rewrite.sortUrl, "{id}");
    }
    ReplaceAbsent(t, "{id}", "{code}");
  }

  /**
   * With `{id}` in the template: for a trimmed template of literal text and
   * placeholders without a `{code}`, the route is the template with its
   * `{id}` renamed `{code}`, so no `{id}` is left, and the text a link wrote
   * for `{id}` is what the route binds as `code`.
   */
  lemma SortRouteRenamesId(cfg: Config, t: Template, x: string)
    requires TrimSuffix(cfg.rewrite.sortUrl) == Text(t) && WellFormed(t) && Hole("code") !in t
    ensures SortRoute(cfg) == Text(Rename(t, "id", "code"))
    ensures !Contains(SortRoute(cfg), "{id}")
    ensures Replace(SortRoute(cfg), "{code}", x) == Replace(TrimSuffix(cfg.rewrite.sortUrl), "{id}", x)
  {
    IdCodeKeys();
    RenameByReplace(t, "id", "code", x);
  }

  lemma IdCodeKeys()
    ensures Key("id") == "{id}" && Key("code") == "{code}" && BraceFree("id") && BraceFree("code")
  {
  }

  /** What contains a pattern, its extensions contain too. */
  lemma {:induction false} ContainsPrefix(t: string, s: string, pat: string)
    requires t <= s && Contains(t, pat)
    ensures Contains(s, pat)
    decreases |t|
  {
    if !(pat <= t) {
      ContainsPrefix(t[1..], s[1..], pat);
    }
  }
}
