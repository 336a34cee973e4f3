/**
 * The start-up step of src/utils/conf.rs: the configuration file is read
 * and decoded, then every category gets its first-page link.
 */
module Conf {
  import opened Wrappers
  import opened Config

  /** Why `load_config_sync` gives up: the file could not be opened or read, or it is not a configuration. */
  datatype LoadError = ReadFailed | DecodeFailed

  /**
   * The configuration with every category's `url` set to the link of its
   * first page, the category id being its position plus one; nothing else
   * changes.
   */
  function WithSortUrls(cfg: Config): (r: Config)
    ensures |r.sortArr| == |cfg.sortArr|
    ensures forall i :: 0 <= i < |r.sortArr| ==>
      r.sortArr[i] == cfg.sortArr[i].(url := SortUrl(cfg, cfg.sortArr[i].code, i + 1, 1))
    ensures r == cfg.(sortArr := r.sortArr)
  {
    cfg.(sortArr := seq(|cfg.sortArr|, i requires 0 <= i < |cfg.sortArr| =>
      cfg.sortArr[i].(url := SortUrl(cfg, cfg.sortArr[i].code, i + 1, 1))))
  }

  /** Filling the links twice is filling them once: a link depends only on the code, the position and the template. */
  lemma WithSortUrlsIdempotent(cfg: Config)
    ensures WithSortUrls(WithSortUrls(cfg)) == WithSortUrls(cfg)
  {
    var once := WithSortUrls(cfg);
    var twice := WithSortUrls(once);
    assert once.rewrite == cfg.rewrite;
    assert forall i :: 0 <= i < |once.sortArr| ==> once.sortArr[i].code == cfg.sortArr[i].code;
    assert twice.sortArr == once.sortArr;
  }

  /**
   * The index loop of `load_config_sync`, writing `sort_arr[i].url` in
   * place for i = 0, 1, …
   */
  method FillSortUrls(cfg: Config) returns (config: Config)
    ensures config == WithSortUrls(cfg)
  {
    config := cfg;
    var arr := config.sortArr;
    var i := 0;
    while i < |arr|
      invariant 0 <= i <= |arr| == |cfg.sortArr|
      invariant forall j :: 0 <= j < i ==>
        arr[j] == cfg.sortArr[j].(url := SortUrl(cfg, cfg.sortArr[j].code, j + 1, 1))
      invariant forall j :: i <= j < |arr| ==> arr[j] == cfg.sortArr[j]
    {
      var code := arr[i].code;
      var url := SortUrl(config, code, i + 1, 1);
      arr := arr[i := arr[i].(url := url)];
      i := i + 1;
    }
    config := config.(sortArr := arr);
  }

  /**
   * `load_config_sync`: the file's text (None when it cannot be opened or
   * read) and the JSON decoder are parameters. A failure returns before
   * any link is filled.
   */
  method LoadConfigSync(file: Option<string>, decode: string -> Option<Config>) returns (r: Result<Config, LoadError>)
    ensures file.None? ==> r == Err(ReadFailed)
    ensures file.Some? && decode(file.value).None? ==> r == Err(DecodeFailed)
    ensures file.Some? && decode(file.value).Some? ==> r == Ok(WithSortUrls(decode(file.value).value))
    ensures r.Err? <==> file.None? || decode(file.value).None?
  {
    if file.None? {
      return Err(ReadFailed);
    }
    var parsed := decode(file.value);
    if parsed.None? {
      return Err(DecodeFailed);
    }
    var config := FillSortUrls(parsed.value);
    r := Ok(config);
  }
}
