/**
 * The HTTP fetcher: the URL scheme check, the charset label mapping, the
 * retryable statuses, the back-off and the attempt loop of `get_text`.
 * The network, the URL parser, the body decoding and the random jitter
 * are parameters.
 */
module Request {
  import opened Wrappers
  import opened Ints
  import opened Strings

  datatype HttpError =
    | InvalidUrl(msg: string)
    | UnsupportedScheme(scheme: string)
    | Reqwest(msg: string)
    | NonSuccessStatusCode(status: nat)
    | ReadBodyError(msg: string)
    | EncodingError(msg: string)

  /** A parsed URL: its scheme and its text. */
  datatype Url = Url(scheme: string, text: string)

  // ---------------------------------------------------------------------------
  // parse_http_url

  /** `parse_http_url`: the trimmed text is parsed, and only the http and https schemes pass. */
  function ParseHttpUrl(parse: string -> Result<Url, string>, url: string): (r: Result<Url, HttpError>)
    ensures r.Ok? <==> parse(Trim(url)).Ok? && (parse(Trim(url)).value.scheme == "http" || parse(Trim(url)).value.scheme == "https")
    ensures r.Ok? ==> r.value == parse(Trim(url)).value
    ensures parse(Trim(url)).Err? ==> r == Err(InvalidUrl(parse(Trim(url)).error))
    ensures r.Err? && parse(Trim(url)).Ok? ==> r == Err(UnsupportedScheme(parse(Trim(url)).value.scheme))
  {
    match parse(Trim(url))
    case Err(e) => Err(InvalidUrl(e))
    case Ok(parsed) =>
      if parsed.scheme == "http" || parsed.scheme == "https" then Ok(parsed)
      else Err(UnsupportedScheme(parsed.scheme))
  }

  // ---------------------------------------------------------------------------
  // encoding_from_charset_label

  datatype Encoding = Utf8 | Gbk | Gb18030 | Other(name: string)

  /** `to_ascii_lowercase` on one character. */
  function AsciiLowerChar(c: char): (r: char)
    ensures !('A' <= r <= 'Z')
    ensures IsSpace(r) <==> IsSpace(c)
    ensures r == '"' <==> c == '"'
  {
    if 'A' <= c <= 'Z' then (c as int + 32) as char else c
  }

  /** `to_ascii_lowercase`. */
  function AsciiLower(s: string): (r: string)
    ensures |r| == |s| && forall i :: 0 <= i < |s| ==> r[i] == AsciiLowerChar(s[i])
  {
    if s == [] then [] else [AsciiLowerChar(s[0])] + AsciiLower(s[1..])
  }

  /** `trim_matches('"')`: the quotes at both ends go, and only they. */
  function TrimQuotes(s: string): (r: string)
    ensures |r| <= |s|
    ensures r == [] || (r[0] != '"' && r[|r| - 1] != '"')
  {
    if s != [] && s[0] == '"' then TrimQuotes(s[1..])
    else if s != [] && s[|s| - 1] == '"' then TrimQuotes(s[..|s| - 1])
    else s
  }

  /** The label as it is compared: trimmed, unquoted, lower-cased. */
  function NormalizeLabel(charset: string): string
  {
    AsciiLower(TrimQuotes(Trim(charset)))
  }

  /**
   * `encoding_from_charset_label`: gb2312 and gbk are GBK, gb18030 is
   * GB18030, and any other label is what the WHATWG label table
   * (`forLabel`) gives, or UTF-8 when it knows no such label.
   */
  function EncodingFromLabel(forLabel: string -> Option<Encoding>, charset: string): (r: Encoding)
    ensures NormalizeLabel(charset) == "gb2312" || NormalizeLabel(charset) == "gbk" ==> r == Gbk
    ensures NormalizeLabel(charset) == "gb18030" ==> r == Gb18030
    ensures NormalizeLabel(charset) !in {"gb2312", "gbk", "gb18030"} ==>
              r == (if forLabel(NormalizeLabel(charset)).Some? then forLabel(NormalizeLabel(charset)).value else Utf8)
    ensures forLabel(NormalizeLabel(charset)).None? ==> r == Utf8 || r == Gbk || r == Gb18030
  {
    var lower := NormalizeLabel(charset);
    if lower == "gb2312" || lower == "gbk" then Gbk
    else if lower == "gb18030" then Gb18030
    else match forLabel(lower)
      case Some(e) => e
      case None => Utf8
  }

  /** Lower-casing twice is lower-casing once. */
  lemma AsciiLowerIdempotent(s: string)
    ensures AsciiLower(AsciiLower(s)) == AsciiLower(s)
  {
  }

  lemma {:induction false} TrimStartLower(s: string)
    ensures TrimStart(AsciiLower(s)) == AsciiLower(TrimStart(s))
  {
    if s != [] {
      assert AsciiLower(s)[1..] == AsciiLower(s[1..]);
      TrimStartLower(s[1..]);
    }
  }

  lemma {:induction false} TrimEndLower(s: string)
    ensures TrimEnd(AsciiLower(s)) == AsciiLower(TrimEnd(s))
  {
    if s != [] {
      var l := AsciiLower(s);
      assert IsSpace(l[|l| - 1]) <==> IsSpace(s[|s| - 1]) by {
        assert l[|l| - 1] == AsciiLowerChar(s[|s| - 1]);
      }
      if IsSpace(s[|s| - 1]) {
        assert l[..|l| - 1] == AsciiLower(s[..|s| - 1]);
        assert TrimEnd(l) == TrimEnd(l[..|l| - 1]);
        TrimEndLower(s[..|s| - 1]);
      }
    }
  }

  lemma {:induction false} TrimQuotesLower(s: string)
    ensures TrimQuotes(AsciiLower(s)) == AsciiLower(TrimQuotes(s))
    decreases |s|
  {
    if s != [] {
      assert AsciiLower(s)[1..] == AsciiLower(s[1..]);
      assert AsciiLower(s)[..|s| - 1] == AsciiLower(s[..|s| - 1]);
      if s[0] == '"' {
        TrimQuotesLower(s[1..]);
      } else if s[|s| - 1] == '"' {
        TrimQuotesLower(s[..|s| - 1]);
      }
    }
  }

  /** Lower-casing commutes with the trimming, so the normalized label ignores ASCII case. */
  lemma NormalizeLower(charset: string)
    ensures NormalizeLabel(AsciiLower(charset)) == NormalizeLabel(charset)
  {
    TrimStartLower(charset);
    TrimEndLower(TrimStart(charset));
    assert Trim(AsciiLower(charset)) == AsciiLower(Trim(charset));
    TrimQuotesLower(Trim(charset));
    AsciiLowerIdempotent(TrimQuotes(Trim(charset)));
  }

  /** The label is matched without regard to ASCII case. */
  lemma LabelCaseInsensitive(forLabel: string -> Option<Encoding>, charset: string)
    ensures EncodingFromLabel(forLabel, AsciiLower(charset)) == EncodingFromLabel(forLabel, charset)
  {
    NormalizeLower(charset);
  }

  // ---------------------------------------------------------------------------
  // should_retry and backoff_sleep

  /** `status.is_success()`. */
  predicate IsSuccess(status: nat)
  {
    200 <= status <= 299
  }

  /** `should_retry`: 429, 502, 503 and 504. */
  predicate ShouldRetry(status: nat)
  {
    status == 429 || status == 502 || status == 503 || status == 504
  }

  /** The fetcher's retry settings. */
  datatype Fetcher = Fetcher(retryTimes: nat, baseBackoffMs: u64, maxBackoffMs: u64)

  /** `HttpFetcher::new`: two retries (three attempts), 80 ms base, 1500 ms cap. */
  const DEFAULT_FETCHER: Fetcher := Fetcher(2, 80, 1500)

  lemma {:induction false} Pow2Monotone(a: nat, b: nat)
    requires a <= b
    ensures Pow2(a) <= Pow2(b)
    decreases b
  {
    if a < b {
      Pow2Monotone(a, b - 1);
    }
  }

  /** `1u64 << min(attempt, 10)`: the shift never overflows. */
  function Exp(attempt: nat): (r: u64)
    ensures r == Pow2(Min(attempt, 10)) && 1 <= r <= 1024
  {
    Pow2Monotone(Min(attempt, 10), 10);
    assert Pow2(10) == 1024;
    Pow2(Min(attempt, 10))
  }

  /** The back-off before jitter: base · 2^min(attempt, 10), saturating, at most the cap. */
  function BackoffMs(f: Fetcher, attempt: nat): (r: u64)
    ensures r <= f.maxBackoffMs
  {
    Min(SaturatingMul64(f.baseBackoffMs, Exp(attempt)), f.maxBackoffMs)
  }

  lemma MulMonotone(a: nat, b: nat, c: nat)
    requires b <= c
    ensures a * b <= a * c
  {
    assert a * c == a * b + a * (c - b);
  }

  /** The back-off does not shrink from one attempt to the next, and stops growing after ten. */
  lemma BackoffMonotone(f: Fetcher, a1: nat, a2: nat)
    requires a1 <= a2
    ensures BackoffMs(f, a1) <= BackoffMs(f, a2)
    ensures a1 >= 10 ==> BackoffMs(f, a1) == BackoffMs(f, a2)
  {
    Pow2Monotone(Min(a1, 10), Min(a2, 10));
    var e1 := Exp(a1);
    var e2 := Exp(a2);
    MulMonotone(f.baseBackoffMs, e1, e2);
    var m1 := SaturatingMul64(f.baseBackoffMs, e1);
    var m2 := SaturatingMul64(f.baseBackoffMs, e2);
    assert m1 <= m2;
  }

  /**
   * The sleep of `backoff_sleep`: the back-off plus a jitter drawn in
   * [0, ms/2 + 1]; `random` is the generator's draw for the attempt, brought
   * into that range.
   */
  function SleepMs(f: Fetcher, attempt: nat, random: nat -> nat): (r: nat)
    ensures BackoffMs(f, attempt) <= r <= BackoffMs(f, attempt) + BackoffMs(f, attempt) / 2 + 1
    ensures r <= f.maxBackoffMs + f.maxBackoffMs / 2 + 1
  {
    BackoffMs(f, attempt) + random(attempt) % (BackoffMs(f, attempt) / 2 + 2)
  }

  /** `backoff_sleep`, which updates `ms` and then sleeps that long; the sleep is the returned length. */
  method BackoffSleep(f: Fetcher, attempt: nat, random: nat -> nat) returns (ms: nat)
    ensures ms == SleepMs(f, attempt, random)
  {
    var exp := Exp(attempt);
    ms := SaturatingMul64(f.baseBackoffMs, exp);
    ms := Min(ms, f.maxBackoffMs);
    var jitter := random(attempt) % (ms / 2 + 2);
    ms := ms + jitter;
  }

  /** With the default settings the first two back-offs are 80 and 160 ms, and none exceeds 1500 ms before jitter. */
  lemma DefaultBackoff(attempt: nat)
    ensures BackoffMs(DEFAULT_FETCHER, 0) == 80 && BackoffMs(DEFAULT_FETCHER, 1) == 160
    ensures BackoffMs(DEFAULT_FETCHER, attempt) <= 1500
  {
    assert Exp(0) == 1 && Exp(1) == 2;
  }

  // ---------------------------------------------------------------------------
  // get_text

  /** What one send returns: a transport error, or a status. */
  datatype Response = Transport(msg: string) | Status(code: nat)

  /**
   * The attempts of `get_text` from `attempt` on: the result, the number of
   * attempts made in all, and the sleeps taken in between. `send` answers
   * each attempt; `read` is the decoded body of a successful one.
   */
  function Attempts(f: Fetcher, send: nat -> Response, read: nat -> Result<string, HttpError>, random: nat -> nat,
                    attempt: nat): (r: (Result<string, HttpError>, nat, seq<nat>))
    requires attempt <= f.retryTimes
    ensures attempt < r.1
    decreases f.retryTimes - attempt
  {
    match send(attempt)
    case Transport(e) => (Err(Reqwest(e)), attempt + 1, [])
    case Status(st) =>
      if IsSuccess(st) then (read(attempt), attempt + 1, [])
      else if attempt < f.retryTimes && ShouldRetry(st) then
        var rest := Attempts(f, send, read, random, attempt + 1);
        (rest.0, rest.1, [SleepMs(f, attempt, random)] + rest.2)
      else (Err(NonSuccessStatusCode(st)), attempt + 1, [])
  }

  /** The attempts are bounded by retry_times + 1, and there is one sleep between two attempts. */
  lemma {:induction false} AttemptsCount(f: Fetcher, send: nat -> Response, read: nat -> Result<string, HttpError>,
                                         random: nat -> nat, attempt: nat)
    requires attempt <= f.retryTimes
    ensures attempt < Attempts(f, send, read, random, attempt).1 <= f.retryTimes + 1
    ensures |Attempts(f, send, read, random, attempt).2| == Attempts(f, send, read, random, attempt).1 - attempt - 1
    decreases f.retryTimes - attempt
  {
    if send(attempt).Status? && !IsSuccess(send(attempt).code) && attempt < f.retryTimes && ShouldRetry(send(attempt).code) {
      AttemptsCount(f, send, read, random, attempt + 1);
    }
  }

  /** Every attempt but the last failed with a retryable status, and was followed by its back-off. */
  lemma {:induction false} AttemptsRetried(f: Fetcher, send: nat -> Response, read: nat -> Result<string, HttpError>,
                                           random: nat -> nat, attempt: nat, k: nat)
    requires attempt <= f.retryTimes
    requires attempt <= k && k + 1 < Attempts(f, send, read, random, attempt).1
    ensures send(k).Status? && !IsSuccess(send(k).code) && ShouldRetry(send(k).code)
    ensures k - attempt < |Attempts(f, send, read, random, attempt).2|
    ensures Attempts(f, send, read, random, attempt).2[k - attempt] == SleepMs(f, k, random)
    decreases f.retryTimes - attempt
  {
    AttemptsCount(f, send, read, random, attempt);
    if k > attempt {
      AttemptsRetried(f, send, read, random, attempt + 1, k);
    }
  }

  /** The last attempt decides: a transport error, the body of a success, or the status. */
  lemma {:induction false} AttemptsLast(f: Fetcher, send: nat -> Response, read: nat -> Result<string, HttpError>,
                                        random: nat -> nat, attempt: nat)
    requires attempt <= f.retryTimes
    ensures var r := Attempts(f, send, read, random, attempt);
      var last := send(r.1 - 1);
      (last.Transport? ==> r.0 == Err(Reqwest(last.msg))) &&
      (last.Status? && IsSuccess(last.code) ==> r.0 == read(r.1 - 1)) &&
      (last.Status? && !IsSuccess(last.code) ==>
         r.0 == Err(NonSuccessStatusCode(last.code)) && (r.1 - 1 == f.retryTimes || !ShouldRetry(last.code)))
    decreases f.retryTimes - attempt
  {
    AttemptsCount(f, send, read, random, attempt);
    if send(attempt).Status? && !IsSuccess(send(attempt).code) && attempt < f.retryTimes && ShouldRetry(send(attempt).code) {
      AttemptsLast(f, send, read, random, attempt + 1);
    }
  }

  /** `get_text` as a whole: the URL check, then the attempts from the first. */
  function GetTextSpec(f: Fetcher, parse: string -> Result<Url, string>, url: string, send: nat -> Response,
                       read: nat -> Result<string, HttpError>, random: nat -> nat): (r: (Result<string, HttpError>, nat, seq<nat>))
  {
    match ParseHttpUrl(parse, url)
    case Err(e) => (Err(e), 0, [])
    case Ok(_) => Attempts(f, send, read, random, 0)
  }

  /** With the default settings a fetch makes at most three attempts and sleeps at most twice, never after a success. */
  lemma DefaultAttempts(parse: string -> Result<Url, string>, url: string, send: nat -> Response,
                        read: nat -> Result<string, HttpError>, random: nat -> nat)
    ensures var (res, n, sleeps) := GetTextSpec(DEFAULT_FETCHER, parse, url, send, read, random);
      n <= 3 && |sleeps| <= 2 && (n == 0 <==> ParseHttpUrl(parse, url).Err?)
  {
    if ParseHttpUrl(parse, url).Ok? {
      AttemptsCount(DEFAULT_FETCHER, send, read, random, 0);
    }
  }

  /**
   * `get_text`: the attempt loop. A success returns its body; a retryable
   * failure before the last attempt sleeps and tries again; anything else
   * is returned. The loop cannot run out: the last attempt always returns.
   */
  method GetText(f: Fetcher, parse: string -> Result<Url, string>, url: string, send: nat -> Response,
                 read: nat -> Result<string, HttpError>, random: nat -> nat)
    returns (r: Result<string, HttpError>, attempts: nat, sleeps: seq<nat>)
    ensures (r, attempts, sleeps) == GetTextSpec(f, parse, url, send, read, random)
  {
    var parsed := ParseHttpUrl(parse, url);
    if parsed.Err? {
      return Err(parsed.error), 0, [];
    }
    ghost var spec := GetTextSpec(f, parse, url, send, read, random);
    assert spec == Attempts(f, send, read, random, 0);
    sleeps := [];
    var attempt := 0;
    assert sleeps + spec.2 == spec.2;
    while attempt <= f.retryTimes
      invariant attempt <= f.retryTimes
      invariant var rest := Attempts(f, send, read, random, attempt);
        spec == (rest.0, rest.1, sleeps + rest.2)
      decreases f.retryTimes - attempt
    {
      var resp := send(attempt);
      if resp.Transport? {
        assert sleeps + [] == sleeps;
        return Err(Reqwest(resp.msg)), attempt + 1, sleeps;
      }
      if IsSuccess(resp.code) {
        assert sleeps + [] == sleeps;
        return read(attempt), attempt + 1, sleeps;
      }
      var st := resp.code;
      if attempt < f.retryTimes && ShouldRetry(st) {
        var ms := BackoffSleep(f, attempt, random);
        ghost var rest := Attempts(f, send, read, random, attempt + 1);
        assert Attempts(f, send, read, random, attempt) == (rest.0, rest.1, [ms] + rest.2);
        assert sleeps + ([ms] + rest.2) == (sleeps + [ms]) + rest.2;
        sleeps := sleeps + [ms];
        attempt := attempt + 1;
        continue;
      }
      assert sleeps + [] == sleeps;
      return Err(NonSuccessStatusCode(st)), attempt + 1, sleeps;
    }
    assert false;
  }
}
