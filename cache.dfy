/**
 * The Redis read-through cache of src/utils/redis/conn.rs. The connection
 * is optional (`None` when Redis could not be reached at start-up); values
 * are stored as JSON text with a time to live. JSON encoding and decoding,
 * the md5 digest and the database loader are parameters: the loader's
 * outcome is passed in as a value, and `queried` reports whether the
 * database would have been consulted.
 */
module Cache {
  import opened Wrappers
  import opened Ints
  import opened Strings

  /** A stored value: its JSON text and the `SETEX` time to live in seconds. */
  datatype Entry = Entry(text: string, ttl: u64)

  /** The cache as seen through the optional connection. */
  type Store = Option<map<string, Entry>>

  /** A failed Redis command. */
  datatype CacheError = CommandFailed

  /** The outcomes of the two Redis commands of one request. */
  datatype Io = Io(readFails: bool, writeFails: bool)

  // ---------------------------------------------------------------------------
  // Keys

  /** The text hashed into a key: the URL, the statement and the debug rendering of the parameters, joined by '|'. */
  function KeySeed(url: string, sql: string, params: string): string
  {
    url + "|" + sql + "|" + params
  }

  const COUNT_PREFIX: string := "novel:count:"
  const ROWS_PREFIX: string := "novel:rows:"
  const CHAPTERS_PREFIX: string := "novel:chapters:"

  /** A cache key: a prefix and the hex md5 digest of the seed. */
  function CacheKey(prefix: string, md5Hex: string -> string, url: string, sql: string, params: string): (k: string)
    ensures prefix <= k
  {
    prefix + md5Hex(KeySeed(url, sql, params))
  }

  /** Keys of different kinds never coincide, whatever the digests are. */
  lemma KeysOfKindsDiffer(md5Hex: string -> string, url1: string, sql1: string, p1: string,
                          url2: string, sql2: string, p2: string)
    ensures CacheKey(COUNT_PREFIX, md5Hex, url1, sql1, p1) != CacheKey(ROWS_PREFIX, md5Hex, url2, sql2, p2)
    ensures CacheKey(COUNT_PREFIX, md5Hex, url1, sql1, p1) != CacheKey(CHAPTERS_PREFIX, md5Hex, url2, sql2, p2)
    ensures CacheKey(ROWS_PREFIX, md5Hex, url1, sql1, p1) != CacheKey(CHAPTERS_PREFIX, md5Hex, url2, sql2, p2)
  {
    var c := CacheKey(COUNT_PREFIX, md5Hex, url1, sql1, p1);
    var r := CacheKey(ROWS_PREFIX, md5Hex, url2, sql2, p2);
    var h := CacheKey(CHAPTERS_PREFIX, md5Hex, url2, sql2, p2);
    var r1 := CacheKey(ROWS_PREFIX, md5Hex, url1, sql1, p1);
    assert c[6] == 'c' && r[6] == 'r';
    assert c[7] == 'o' && h[7] == 'h';
    assert r1[6] == 'r' && h[6] == 'c';
  }

  // ---------------------------------------------------------------------------
  // cache_get_json / cache_set_json as functions of the store

  /**
   * `cache_get_json`: no connection reads as a miss, a failed `GET` is an
   * error, and a stored text that does not decode is a miss.
   */
  function GetJson<T>(store: Store, key: string, decode: string -> Option<T>, readFails: bool): (r: Result<Option<T>, CacheError>)
    ensures store.None? ==> r == Ok(None)
    ensures r.Ok? && r.value.Some? ==> store.Some? && key in store.value && decode(store.value[key].text) == r.value
  {
    if store.None? then Ok(None)
    else if readFails then Err(CommandFailed)
    else if key !in store.value then Ok(None)
    else Ok(decode(store.value[key].text))
  }

  /**
   * `cache_set_json`: without a connection, or when the value does not
   * encode, nothing is stored and the result is Ok; a failed `SETEX` leaves
   * the store as it was.
   */
  function SetJson<T>(store: Store, key: string, value: T, ttl: u64, encode: T -> Option<string>, writeFails: bool): (r: (Store, Result<(), CacheError>))
    ensures r.1.Err? <==> store.Some? && encode(value).Some? && writeFails
    ensures r.0 != store ==> store.Some? && encode(value).Some? && !writeFails &&
                             r.0 == Some(store.value[key := Entry(encode(value).value, ttl)])
  {
    if store.None? then (store, Ok(()))
    else if encode(value).None? then (store, Ok(()))
    else if writeFails then (store, Err(CommandFailed))
    else (Some(store.value[key := Entry(encode(value).value, ttl)]), Ok(()))
  }

  /** A value that was stored reads back, when its encoding decodes to it. */
  lemma SetThenGet<T>(m: map<string, Entry>, key: string, value: T, ttl: u64,
                      encode: T -> Option<string>, decode: string -> Option<T>)
    requires encode(value).Some? && decode(encode(value).value) == Some(value)
    ensures GetJson(SetJson(Some(m), key, value, ttl, encode, false).0, key, decode, false) == Ok(Some(value))
  {
  }

  // ---------------------------------------------------------------------------
  // The read-through flows

  /** What one read-through call returns, leaves in the cache, and whether it queried the database. */
  datatype Outcome<T> = Outcome(value: T, store: Store, queried: bool)

  /**
   * `get_cache_rows` / `get_chapter_rows`: a hit returns the cached rows;
   * otherwise the loaded rows (none on a query error) are returned and
   * stored only when there are some.
   */
  function RowsFlow<T>(store: Store, key: string, ttl: u64, encode: seq<T> -> Option<string>,
                       decode: string -> Option<seq<T>>, io: Io, loaded: Option<seq<T>>): Outcome<seq<T>>
  {
    var cached := GetJson(store, key, decode, io.readFails);
    if cached.Ok? && cached.value.Some? then Outcome(cached.value.value, store, false)
    else
      var rs := if loaded.Some? then loaded.value else [];
      var store' := if rs != [] && store.Some? then SetJson(store, key, rs, ttl, encode, io.writeFails).0 else store;
      Outcome(rs, store', true)
  }

  /** The JSON text of a u64. */
  function CountJson(n: u64): Option<string> { Some(Dec(n)) }

  /**
   * `get_cache_count`: a hit returns the cached count; otherwise the loaded
   * count (0 on a query error) is returned and stored, even when it is 0.
   */
  function CountFlow(store: Store, key: string, ttl: u64, decode: string -> Option<u64>, io: Io, loaded: Option<u64>): Outcome<u64>
  {
    var cached := GetJson(store, key, decode, io.readFails);
    if cached.Ok? && cached.value.Some? then Outcome(cached.value.value, store, false)
    else
      var cnt := if loaded.Some? then loaded.value else 0;
      var store' := if store.Some? then SetJson<u64>(store, key, cnt, ttl, CountJson, io.writeFails).0 else store;
      Outcome(cnt, store', true)
  }

  /** A hit answers from the cache: no query, nothing written. */
  lemma RowsHitSkipsQuery<T>(store: Store, key: string, ttl: u64, encode: seq<T> -> Option<string>,
                             decode: string -> Option<seq<T>>, io: Io, loaded: Option<seq<T>>)
    requires store.Some? && key in store.value && !io.readFails
    requires decode(store.value[key].text).Some?
    ensures var o := RowsFlow(store, key, ttl, encode, decode, io, loaded);
            !o.queried && o.store == store && o.value == decode(store.value[key].text).value
  {
  }

  /**
   * On a miss the database is queried; a query error gives no rows, and an
   * empty result is never written, so the cache only changes when rows
   * were loaded.
   */
  lemma RowsMiss<T>(store: Store, key: string, ttl: u64, encode: seq<T> -> Option<string>,
                    decode: string -> Option<seq<T>>, io: Io, loaded: Option<seq<T>>)
    requires GetJson(store, key, decode, io.readFails) != Ok(None) ==> GetJson(store, key, decode, io.readFails).Err?
    ensures var o := RowsFlow(store, key, ttl, encode, decode, io, loaded);
            o.queried &&
            o.value == (if loaded.Some? then loaded.value else []) &&
            (o.value == [] ==> o.store == store) &&
            (o.store != store ==> o.store == Some(store.value[key := Entry(encode(o.value).value, ttl)]))
  {
  }

  /** A read-through call that returns no rows leaves the cache as it was. */
  lemma RowsEmptyNeverCached<T>(store: Store, key: string, ttl: u64, encode: seq<T> -> Option<string>,
                                decode: string -> Option<seq<T>>, io: Io, loaded: Option<seq<T>>)
    ensures var o := RowsFlow(store, key, ttl, encode, decode, io, loaded);
            o.value == [] ==> o.store == store
  {
  }

  /** A failed cache write does not change what the caller gets. */
  lemma RowsWriteFailureIgnored<T>(store: Store, key: string, ttl: u64, encode: seq<T> -> Option<string>,
                                   decode: string -> Option<seq<T>>, io: Io, loaded: Option<seq<T>>)
    ensures RowsFlow(store, key, ttl, encode, decode, io, loaded).value ==
            RowsFlow(store, key, ttl, encode, decode, io.(writeFails := false), loaded).value
    ensures io.writeFails ==> RowsFlow(store, key, ttl, encode, decode, io, loaded).store == store
  {
  }

  /**
   * Rows loaded on a miss and stored are served by the next call with the
   * same key, without a query, when their JSON decodes back to them.
   */
  lemma RowsSecondCallHits<T>(m: map<string, Entry>, key: string, ttl: u64, encode: seq<T> -> Option<string>,
                              decode: string -> Option<seq<T>>, loaded: seq<T>, later: Option<seq<T>>)
    requires key !in m && loaded != []
    requires encode(loaded).Some? && decode(encode(loaded).value) == Some(loaded)
    ensures var first := RowsFlow(Some(m), key, ttl, encode, decode, Io(false, false), Some(loaded));
            var second := RowsFlow(first.store, key, ttl, encode, decode, Io(false, false), later);
            first.queried && !second.queried && second.value == loaded && second.store == first.store
  {
  }

  /** On a miss the count is stored even when it is 0, including a 0 from a failed query. */
  lemma CountAlwaysStored(m: map<string, Entry>, key: string, ttl: u64, decode: string -> Option<u64>, loaded: Option<u64>)
    requires key !in m
    ensures var o := CountFlow(Some(m), key, ttl, decode, Io(false, false), loaded);
            o.queried && o.value == (if loaded.Some? then loaded.value else 0) &&
            o.store == Some(m[key := Entry(Dec(o.value), ttl)])
    ensures loaded.None? ==> CountFlow(Some(m), key, ttl, decode, Io(false, false), loaded).store == Some(m[key := Entry("0", ttl)])
  {
  }

  /** Without a connection every call queries and nothing is stored. */
  lemma NoConnection<T>(key: string, ttl: u64, encode: seq<T> -> Option<string>, decode: string -> Option<seq<T>>,
                        decodeCount: string -> Option<u64>, io: Io, loaded: Option<seq<T>>, count: Option<u64>)
    ensures var o := RowsFlow(None, key, ttl, encode, decode, io, loaded);
            o.queried && o.store.None?
    ensures var o := CountFlow(None, key, ttl, decodeCount, io, count);
            o.queried && o.store.None?
  {
  }

  // ---------------------------------------------------------------------------
  // The connection and its commands

  /** The process-wide Redis connection, if any, and what it holds. */
  class Redis {
    var store: Store

    constructor (connected: bool)
      ensures store == if connected then Some(map[]) else None
    {
      store := if connected then Some(map[]) else None;
    }

    /** `cache_get_json`. */
    method CacheGetJson<T>(key: string, decode: string -> Option<T>, readFails: bool) returns (r: Result<Option<T>, CacheError>)
      ensures r == GetJson(store, key, decode, readFails)
    {
      if store.None? {
        return Ok(None);
      }
      if readFails {
        return Err(CommandFailed);
      }
      var s: Option<string> := if key in store.value then Some(store.value[key].text) else None;
      r := Ok(if s.Some? then decode(s.value) else None);
    }

    /** `cache_set_json`. */
    method CacheSetJson<T>(key: string, value: T, ttl: u64, encode: T -> Option<string>, writeFails: bool)
      returns (r: Result<(), CacheError>)
      modifies this
      ensures (store, r) == SetJson(old(store), key, value, ttl, encode, writeFails)
    {
      if store.None? {
        return Ok(());
      }
      var s := encode(value);
      if s.None? {
        return Ok(());
      }
      if writeFails {
        return Err(CommandFailed);
      }
      store := Some(store.value[key := Entry(s.value, ttl)]);
      r := Ok(());
    }

    /** The shared flow of `get_cache_rows` and `get_chapter_rows` under a given key. */
    method ReadThroughRows<T>(key: string, ttl: u64, encode: seq<T> -> Option<string>,
                              decode: string -> Option<seq<T>>, io: Io, loaded: Option<seq<T>>)
      returns (rows: seq<T>, queried: bool)
      modifies this
      ensures Outcome(rows, store, queried) == RowsFlow(old(store), key, ttl, encode, decode, io, loaded)
    {
      if store.Some? {
        var cached := CacheGetJson(key, decode, io.readFails);
        if cached.Ok? && cached.value.Some? {
          return cached.value.value, false;
        }
      }
      queried := true;
      rows := if loaded.Some? then loaded.value else [];
      if rows != [] {
        if store.Some? {
          var _ := CacheSetJson(key, rows, ttl, encode, io.writeFails);
        }
      }
    }

    /** `get_cache_rows`: book rows under "novel:rows:". */
    method GetCacheRows<T>(md5Hex: string -> string, sql: string, url: string, ttl: u64, params: string,
                           encode: seq<T> -> Option<string>, decode: string -> Option<seq<T>>, io: Io, loaded: Option<seq<T>>)
      returns (rows: seq<T>, queried: bool)
      modifies this
      ensures Outcome(rows, store, queried) ==
              RowsFlow(old(store), CacheKey(ROWS_PREFIX, md5Hex, url, sql, params), ttl, encode, decode, io, loaded)
    {
      var key := CacheKey(ROWS_PREFIX, md5Hex, url, sql, params);
      rows, queried := ReadThroughRows(key, ttl, encode, decode, io, loaded);
    }

    /** `get_chapter_rows`: chapter rows under "novel:chapters:". */
    method GetChapterRows<T>(md5Hex: string -> string, sql: string, url: string, ttl: u64, params: string,
                             encode: seq<T> -> Option<string>, decode: string -> Option<seq<T>>, io: Io, loaded: Option<seq<T>>)
      returns (rows: seq<T>, queried: bool)
      modifies this
      ensures Outcome(rows, store, queried) ==
              RowsFlow(old(store), CacheKey(CHAPTERS_PREFIX, md5Hex, url, sql, params), ttl, encode, decode, io, loaded)
    {
      var key := CacheKey(CHAPTERS_PREFIX, md5Hex, url, sql, params);
      rows, queried := ReadThroughRows(key, ttl, encode, decode, io, loaded);
    }

    /** `get_cache_count`: a count under "novel:count:". */
    method GetCacheCount(md5Hex: string -> string, sql: string, url: string, ttl: u64, params: string,
                         decode: string -> Option<u64>, io: Io, loaded: Option<u64>)
      returns (cnt: u64, queried: bool)
      modifies this
      ensures Outcome(cnt, store, queried) ==
              CountFlow(old(store), CacheKey(COUNT_PREFIX, md5Hex, url, sql, params), ttl, decode, io, loaded)
    {
      var key := CacheKey(COUNT_PREFIX, md5Hex, url, sql, params);
      if store.Some? {
        var cached := CacheGetJson(key, decode, io.readFails);
        if cached.Ok? && cached.value.Some? {
          return cached.value.value, false;
        }
      }
      queried := true;
      cnt := if loaded.Some? then loaded.value else 0;
      if store.Some? {
        var _ := CacheSetJson<u64>(key, cnt, ttl, CountJson, io.writeFails);
      }
    }
  }
}
