/**
 * The parts of Rust's `str`/`String` API that the modelled code relies on:
 * substring search and `replace`, `split` on one character, `lines`, `trim`,
 * decimal formatting of unsigned integers and `u64::from_str`.
 */
module Strings {
  import opened Wrappers
  import opened Ints

  /** `s.contains(pat)`. */
  predicate Contains(s: string, pat: string)
    decreases |s|
  {
    pat <= s || (|s| > 0 && Contains(s[1..], pat))
  }

  /** A string without the first character of `pat` cannot contain `pat`. */
  lemma {:induction false} NotContainsWithoutHead(s: string, pat: string)
    requires |pat| > 0 && pat[0] !in s
    ensures !Contains(s, pat)
    decreases |s|
  {
    if |s| > 0 {
      assert s[0] in s;
      assert forall c :: c in s[1..] ==> c in s;
      NotContainsWithoutHead(s[1..], pat);
    }
  }

  /**
   * `s.replace(pat, rep)` for a non-empty pattern: occurrences are found from
   * left to right and do not overlap.
   */
  function Replace(s: string, pat: string, rep: string): string
    requires |pat| > 0
    decreases |s|
  {
    if pat <= s then rep + Replace(s[|pat|..], pat, rep)
    else if s == [] then []
    else [s[0]] + Replace(s[1..], pat, rep)
  }

  /** A string without the pattern is left as it is. */
  lemma {:induction false} ReplaceAbsent(s: string, pat: string, rep: string)
    requires |pat| > 0 && !Contains(s, pat)
    ensures Replace(s, pat, rep) == s
    decreases |s|
  {
    if s != [] {
      ReplaceAbsent(s[1..], pat, rep);
    }
  }

  /** Replacing a pattern by itself changes nothing. */
  lemma {:induction false} ReplaceBySelf(s: string, pat: string)
    requires |pat| > 0
    ensures Replace(s, pat, pat) == s
    decreases |s|
  {
    if pat <= s {
      ReplaceBySelf(s[|pat|..], pat);
      assert s == pat + s[|pat|..];
    } else if s != [] {
      ReplaceBySelf(s[1..], pat);
    }
  }

  /** No non-empty suffix of `x` is a proper prefix of `pat`: no match of `pat` can straddle the end of `x`. */
  predicate NoPartialMatch(x: string, pat: string)
  {
    forall k :: 0 < k < |pat| && k <= |x| ==> x[|x| - k..] != pat[..k]
  }

  lemma NoPartialMatchWithoutHead(x: string, pat: string)
    requires |pat| > 0 && pat[0] !in x
    ensures NoPartialMatch(x, pat)
  {
    forall k | 0 < k < |pat| && k <= |x|
      ensures x[|x| - k..] != pat[..k]
    {
      assert x[|x| - k..][0] == x[|x| - k];
    }
  }

  lemma PrefixOfLonger(x: string, y: string, pat: string)
    requires pat <= x + y && |x| < |pat|
    ensures pat[..|x|] == x && x[|x| - |x|..] == x
  {
  }

  /** Dropping a prefix keeps the property. */
  lemma NoPartialMatchDrop(x: string, pat: string, n: nat)
    requires NoPartialMatch(x, pat) && n <= |x|
    ensures NoPartialMatch(x[n..], pat)
  {
    forall k | 0 < k < |pat| && k <= |x[n..]|
      ensures x[n..][|x[n..]| - k..] != pat[..k]
    {
      assert x[n..][|x[n..]| - k..] == x[|x| - k..];
    }
  }

  lemma PrefixExtends(p: string, x: string, y: string)
    requires p <= x
    ensures p <= x + y
  {
    assert (x + y)[..|p|] == x[..|p|];
  }

  /** A match at the start of `x + y` lies inside `x`. */
  lemma NoStraddle(x: string, y: string, pat: string)
    requires |pat| > 0 && x != [] && NoPartialMatch(x, pat) && pat <= x + y
    ensures pat <= x
  {
    if |x| < |pat| {
      PrefixOfLonger(x, y, pat);
      assert false;
    }
    assert (x + y)[..|pat|] == x[..|pat|];
  }

  /** Neither part holds the pattern and no match straddles their join: the whole does not hold it. */
  lemma {:induction false} NotContainsConcat(x: string, y: string, pat: string)
    requires |pat| > 0 && NoPartialMatch(x, pat) && !Contains(x, pat) && !Contains(y, pat)
    ensures !Contains(x + y, pat)
    decreases |x|
  {
    if x == [] {
      assert x + y == y;
    } else {
      if pat <= x + y {
        NoStraddle(x, y, pat);
      }
      NoPartialMatchDrop(x, pat, 1);
      NotContainsConcat(x[1..], y, pat);
      assert (x + y)[1..] == x[1..] + y;
    }
  }

  /** Replacement distributes over a concatenation when no match straddles the seam. */
  lemma {:induction false} ReplaceConcat(x: string, y: string, pat: string, rep: string)
    requires |pat| > 0 && NoPartialMatch(x, pat)
    ensures Replace(x + y, pat, rep) == Replace(x, pat, rep) + Replace(y, pat, rep)
    decreases |x|, 1
  {
    if x == [] {
      assert x + y == y;
    } else if pat <= x + y {
      NoStraddle(x, y, pat);
      ReplaceConcatAtMatch(x, y, pat, rep);
    } else {
      if pat <= x {
        PrefixExtends(pat, x, y);
        assert false;
      }
      ReplaceConcatPastChar(x, y, pat, rep);
    }
  }

  lemma {:induction false} ReplaceConcatAtMatch(x: string, y: string, pat: string, rep: string)
    requires |pat| > 0 && NoPartialMatch(x, pat) && pat <= x
    ensures Replace(x + y, pat, rep) == Replace(x, pat, rep) + Replace(y, pat, rep)
    decreases |x|, 0
  {
    var n := |pat|;
    var r1, r2 := Replace(x[n..], pat, rep), Replace(y, pat, rep);
    assert Replace(x[n..] + y, pat, rep) == r1 + r2 by {
      NoPartialMatchDrop(x, pat, n);
      ReplaceConcat(x[n..], y, pat, rep);
    }
    assert Replace(x + y, pat, rep) == rep + Replace(x[n..] + y, pat, rep) by {
      PrefixExtends(pat, x, y);
      assert (x + y)[n..] == x[n..] + y;
    }
    assert Replace(x, pat, rep) == rep + r1;
    assert rep + (r1 + r2) == (rep + r1) + r2;
  }

  lemma {:induction false} ReplaceConcatPastChar(x: string, y: string, pat: string, rep: string)
    requires |pat| > 0 && NoPartialMatch(x, pat) && x != [] && !(pat <= x) && !(pat <= x + y)
    ensures Replace(x + y, pat, rep) == Replace(x, pat, rep) + Replace(y, pat, rep)
    decreases |x|, 0
  {
    var s := x + y;
    assert s[0] == x[0] && s[1..] == x[1..] + y;
    NoPartialMatchDrop(x, pat, 1);
    ReplaceConcat(x[1..], y, pat, rep);
    ReplaceSkip(s, pat, rep);
    ReplaceSkip(x, pat, rep);
    var h, r1, r2 := [x[0]], Replace(x[1..], pat, rep), Replace(y, pat, rep);
    assert h + (r1 + r2) == (h + r1) + r2;
  }

  /** Where no match starts, `replace` copies the first character. */
  lemma ReplaceSkip(s: string, pat: string, rep: string)
    requires |pat| > 0 && s != [] && !(pat <= s)
    ensures Replace(s, pat, rep) == [s[0]] + Replace(s[1..], pat, rep)
  {
  }

  // ---------------------------------------------------------------------------
  // Decimal numbers

  function DigitChar(d: nat): (c: char)
    requires d < 10
    ensures '0' <= c <= '9' && c as int - '0' as int == d
  {
    ['0', '1', '2', '3', '4', '5', '6', '7', '8', '9'][d]
  }

  predicate IsDigit(c: char) { '0' <= c <= '9' }

  predicate AllDigits(s: string) { forall i :: 0 <= i < |s| ==> IsDigit(s[i]) }

  /** `n.to_string()` for an unsigned integer: decimal digits, no sign, no leading zero. */
  function Dec(n: nat): (r: string)
    ensures |r| > 0 && AllDigits(r)
    ensures r[0] == '0' ==> n == 0
  {
    if n < 10 then [DigitChar(n)] else Dec(n / 10) + [DigitChar(n % 10)]
  }

  /** The text of a signed integer, as `format!` writes it. */
  function IntText(n: int): (r: string)
    ensures n >= 0 ==> r == Dec(n)
    ensures n < 0 ==> r == "-" + Dec(-n)
  {
    if n < 0 then "-" + Dec(-n) else Dec(n)
  }

  /** The value of a string of decimal digits. */
  function DigitsValue(s: string): nat
    requires AllDigits(s)
  {
    if s == [] then 0 else 10 * DigitsValue(s[..|s| - 1]) + (s[|s| - 1] as int - '0' as int)
  }

  lemma {:induction false} DigitsValueOfDec(n: nat)
    ensures DigitsValue(Dec(n)) == n
  {
    if n >= 10 {
      DigitsValueOfDec(n / 10);
      var s := Dec(n);
      assert s[..|s| - 1] == Dec(n / 10);
    }
  }

  /**
   * `s.parse::<u64>()`: one optional leading '+', then at least one ASCII
   * digit and nothing else; values of 2^64 and more overflow.
   */
  function ParseU64(s: string): (r: Option<u64>)
    ensures r.Some? ==> |s| > 0
  {
    var digits := if |s| > 0 && s[0] == '+' then s[1..] else s;
    if digits == [] || !AllDigits(digits) then None
    else if DigitsValue(digits) < U64_LIMIT then Some(DigitsValue(digits))
    else None
  }

  /** Printing a u64 and parsing it back gives the same number. */
  lemma ParseDec(n: u64)
    ensures ParseU64(Dec(n)) == Some(n)
  {
    DigitsValueOfDec(n);
  }

  /** A decimal rendering never contains a brace, a '/', a '.' or a '_'. */
  lemma DecHasNo(n: nat, c: char)
    requires !IsDigit(c)
    ensures c !in Dec(n)
  {
  }

  // ---------------------------------------------------------------------------
  // Splitting

  /** `s.split(c)`: the pieces between occurrences of `c`; there is always at least one. */
  function Split(s: string, c: char): (r: seq<string>)
    ensures |r| > 0
    ensures forall i :: 0 <= i < |r| ==> c !in r[i]
  {
    if s == [] then [""]
    else
      var rest := Split(s[1..], c);
      if s[0] == c then [""] + rest else [[s[0]] + rest[0]] + rest[1..]
  }

  /** `pieces.join(c)`. */
  function Join(pieces: seq<string>, c: char): string
  {
    if pieces == [] then ""
    else if |pieces| == 1 then pieces[0]
    else pieces[0] + [c] + Join(pieces[1..], c)
  }

  /** Splitting and joining again gives the original string. */
  lemma {:induction false} JoinSplit(s: string, c: char)
    ensures Join(Split(s, c), c) == s
  {
    if s != [] {
      JoinSplit(s[1..], c);
      var rest := Split(s[1..], c);
      if s[0] == c {
        assert Split(s, c) == [""] + rest;
        assert Split(s, c)[1..] == rest;
      } else {
        var r := Split(s, c);
        if |rest| == 1 {
        } else {
          assert r[1..] == rest[1..];
        }
      }
    }
  }

  /** The number of occurrences of `c` in `s`. */
  function Count(s: string, c: char): nat
  {
    if s == [] then 0 else (if s[0] == c then 1 else 0) + Count(s[1..], c)
  }

  /** There is one more piece than separators. */
  lemma {:induction false} SplitCount(s: string, c: char)
    ensures |Split(s, c)| == Count(s, c) + 1
  {
    if s != [] {
      SplitCount(s[1..], c);
    }
  }

  lemma {:induction false} CountConcat(a: string, b: string, c: char)
    ensures Count(a + b, c) == Count(a, c) + Count(b, c)
  {
    if a == [] {
      assert a + b == b;
    } else {
      CountConcat(a[1..], b, c);
      assert (a + b)[1..] == a[1..] + b;
    }
  }

  /** `s.rsplit_once('.').map(|(a, _)| a).unwrap_or(s)`: the text before the last '.', or all of `s`. */
  function BeforeLastDot(s: string): (r: string)
    ensures '.' !in s ==> r == s
    ensures '.' in s ==> |r| < |s| && r == s[..|r|] && s[|r|] == '.' && '.' !in s[|r| + 1..]
  {
    if '.' !in s then s
    else if s[|s| - 1] == '.' then s[..|s| - 1]
    else
      assert '.' in s[..|s| - 1] by {
        var i :| 0 <= i < |s| && s[i] == '.';
        assert s[..|s| - 1][i] == '.';
      }
      var r := BeforeLastDot(s[..|s| - 1]);
      assert s[|r| + 1..] == s[..|s| - 1][|r| + 1..] + [s[|s| - 1]];
      r
  }

  // ---------------------------------------------------------------------------
  // Lines and whitespace

  /** `s.strip_suffix('\r').unwrap_or(s)`. */
  function StripCr(s: string): (r: string)
    ensures r <= s && (r == s || r + "\r" == s)
  {
    if |s| > 0 && s[|s| - 1] == '\r' then s[..|s| - 1] else s
  }

  function MapStripCr(ls: seq<string>): (r: seq<string>)
    ensures |r| == |ls| && forall i :: 0 <= i < |ls| ==> r[i] == StripCr(ls[i])
  {
    if ls == [] then [] else [StripCr(ls[0])] + MapStripCr(ls[1..])
  }

  /**
   * `s.lines()`: the pieces between '\n', each with one trailing '\r'
   * removed when it ended in '\n'; a final empty piece is not a line.
   */
  function Lines(s: string): (r: seq<string>)
    ensures s == [] ==> r == []
    ensures forall i :: 0 <= i < |r| ==> '\n' !in r[i]
  {
    var p := Split(s, '\n');
    var body := MapStripCr(p[..|p| - 1]);
    assert forall i :: 0 <= i < |body| ==> body[i] <= p[i];
    if p[|p| - 1] == "" then body else body + [p[|p| - 1]]
  }

  /** Without carriage returns, the lines joined by '\n' give back the text, less a final '\n'. */
  lemma LinesJoin(s: string)
    requires '\r' !in s
    ensures Join(Lines(s), '\n') + (if |s| > 0 && s[|s| - 1] == '\n' then "\n" else "") == s
  {
    var p := Split(s, '\n');
    JoinSplit(s, '\n');
    assert forall i :: 0 <= i < |p| ==> StripCr(p[i]) == p[i] by {
      forall i | 0 <= i < |p| ensures StripCr(p[i]) == p[i] {
        SplitPiecesWithout(s, '\n', '\r', i);
      }
    }
    assert MapStripCr(p[..|p| - 1]) == p[..|p| - 1];
    if p[|p| - 1] == "" {
      if |p| == 1 {
        assert s == "";
      } else {
        JoinDropEmptyLast(p, '\n');
        assert s[|s| - 1] == '\n';
      }
    } else {
      assert p[..|p| - 1] + [p[|p| - 1]] == p;
      JoinLastNonEmpty(p, '\n');
    }
  }

  lemma {:induction false} SplitPiecesWithout(s: string, c: char, d: char, i: nat)
    requires d !in s
    requires i < |Split(s, c)|
    ensures d !in Split(s, c)[i]
  {
    if s != [] {
      var rest := Split(s[1..], c);
      assert forall x :: x in s[1..] ==> x in s;
      if s[0] == c {
        if i > 0 { SplitPiecesWithout(s[1..], c, d, i - 1); }
      } else {
        if i == 0 {
          SplitPiecesWithout(s[1..], c, d, 0);
          assert s[0] in s;
        } else {
          SplitPiecesWithout(s[1..], c, d, i);
        }
      }
    }
  }

  lemma {:induction false} JoinDropEmptyLast(p: seq<string>, c: char)
    requires |p| >= 2 && p[|p| - 1] == ""
    ensures Join(p, c) == Join(p[..|p| - 1], c) + [c]
    ensures |Join(p, c)| > 0 && Join(p, c)[|Join(p, c)| - 1] == c
  {
    if |p| == 2 {
    } else {
      JoinDropEmptyLast(p[1..], c);
      assert p[1..][..|p| - 2] == p[..|p| - 1][1..];
    }
  }

  lemma {:induction false} JoinLastNonEmpty(p: seq<string>, c: char)
    requires |p| >= 1 && p[|p| - 1] != "" && c !in p[|p| - 1]
    ensures |Join(p, c)| > 0 && Join(p, c)[|Join(p, c)| - 1] != c
  {
    if |p| > 1 {
      JoinLastNonEmpty(p[1..], c);
    } else {
      assert p[0][|p[0]| - 1] in p[0];
    }
  }

  /** Unicode White_Space, the set used by Rust's `trim` and by `\s` in the regex crate. */
  predicate IsSpace(c: char)
  {
    ('\U{9}' <= c <= '\U{D}') || c == ' ' || c == '\U{85}' || c == '\U{A0}' || c == '\U{1680}'
    || ('\U{2000}' <= c <= '\U{200A}') || c == '\U{2028}' || c == '\U{2029}' || c == '\U{202F}'
    || c == '\U{205F}' || c == '\U{3000}'
  }

  predicate AllSpace(s: string) { forall i :: 0 <= i < |s| ==> IsSpace(s[i]) }

  /** `s.trim_start()`. */
  function TrimStart(s: string): (r: string)
    ensures |r| <= |s| && r == s[|s| - |r|..]
    ensures AllSpace(s[..|s| - |r|])
    ensures r == [] || !IsSpace(r[0])
  {
    if s != [] && IsSpace(s[0]) then
      var r := TrimStart(s[1..]);
      assert s[1..][|s| - 1 - |r|..] == s[|s| - |r|..];
      assert forall i :: 1 <= i < |s| - |r| ==> s[i] == s[1..][..|s| - 1 - |r|][i - 1];
      r
    else s
  }

  /** `s.trim_end()`. */
  function TrimEnd(s: string): (r: string)
    ensures r <= s
    ensures AllSpace(s[|r|..])
    ensures r == [] || !IsSpace(r[|r| - 1])
  {
    if s != [] && IsSpace(s[|s| - 1]) then TrimEnd(s[..|s| - 1]) else s
  }

  /** `s.trim()`. */
  function Trim(s: string): (r: string)
    ensures r == [] || (!IsSpace(r[0]) && !IsSpace(r[|r| - 1]))
  {
    TrimEnd(TrimStart(s))
  }

  /** `s.trim().is_empty()` holds exactly for strings made only of whitespace. */
  lemma TrimEmpty(s: string)
    ensures Trim(s) == [] <==> AllSpace(s)
  {
    var t := TrimStart(s);
    if t != [] {
      assert !IsSpace(s[|s| - |t|]);
    }
  }

  /** `c.is_ascii_alphanumeric()`. */
  predicate IsAsciiAlnum(c: char)
  {
    ('a' <= c <= 'z') || ('A' <= c <= 'Z') || IsDigit(c)
  }

  predicate IsAsciiLetter(c: char)
  {
    ('a' <= c <= 'z') || ('A' <= c <= 'Z')
  }

  /**
   * `to_lowercase` restricted to the characters that can lower-case into
   * ASCII: 'A'..'Z' and the Kelvin sign U+212A, which becomes 'k'.
   */
  function LowerChar(c: char): (r: char)
    ensures IsAsciiLetter(r) ==> IsAsciiLetter(c) || c == 'K'
    ensures 'A' <= r <= 'Z' ==> false
  {
    if 'A' <= c <= 'Z' then (c as int + 32) as char
    else if c == 'K' then 'k'
    else c
  }

  function Lower(s: string): (r: string)
    ensures |r| == |s| && forall i :: 0 <= i < |s| ==> r[i] == LowerChar(s[i])
  {
    if s == [] then [] else [LowerChar(s[0])] + Lower(s[1..])
  }

  /** `to_uppercase` on a string of ASCII lower-case letters. */
  function UpperAscii(s: string): (r: string)
    ensures |r| == |s|
    ensures forall i :: 0 <= i < |s| ==> ('a' <= s[i] <= 'z' ==> r[i] as int == s[i] as int - 32)
    ensures forall i :: 0 <= i < |s| ==> (!('a' <= s[i] <= 'z') ==> r[i] == s[i])
  {
    if s == [] then []
    else [if 'a' <= s[0] <= 'z' then (s[0] as int - 32) as char else s[0]] + UpperAscii(s[1..])
  }

  // ---------------------------------------------------------------------------
  // Splitting and joining, continued

  /** Splitting at a separator splits the pieces. */
  lemma {:induction false} SplitAt(a: string, b: string, c: char)
    ensures Split(a + [c] + b, c) == Split(a, c) + Split(b, c)
    decreases |a|, 2
  {
    if a == [] {
      var x := a + [c] + b;
      assert x[1..] == b;
      assert Split(x, c) == [""] + Split(b, c);
    } else {
      SplitAtStep(a, b, c);
    }
  }

  /** One step of `Split`, on a string given by its first character. */
  lemma SplitCons(h: char, t: string, c: char)
    ensures Split([h] + t, c) ==
      if h == c then [""] + Split(t, c) else [[h] + Split(t, c)[0]] + Split(t, c)[1..]
  {
    assert ([h] + t)[0] == h && ([h] + t)[1..] == t;
  }

  lemma {:induction false} SplitAtStep(a: string, b: string, c: char)
    requires a != []
    ensures Split(a + [c] + b, c) == Split(a, c) + Split(b, c)
    decreases |a|, 1
  {
    if a[0] == c {
      SplitAtSeparator(a, b, c);
    } else {
      SplitAtOther(a, b, c);
    }
  }

  lemma {:induction false} SplitAtSeparator(a: string, b: string, c: char)
    requires a != [] && a[0] == c
    ensures Split(a + [c] + b, c) == Split(a, c) + Split(b, c)
    decreases |a|, 0
  {
    var t := a[1..];
    var head := Split(t, c);
    var tail := Split(b, c);
    assert Split(a + [c] + b, c) == [""] + (head + tail) by {
      assert a + [c] + b == [c] + (t + [c] + b);
      SplitCons(c, t + [c] + b, c);
      SplitAt(t, b, c);
    }
    assert Split(a, c) == [""] + head by {
      assert a == [c] + t;
      SplitCons(c, t, c);
    }
    assert [""] + (head + tail) == ([""] + head) + tail;
  }

  lemma {:induction false} SplitAtOther(a: string, b: string, c: char)
    requires a != [] && a[0] != c
    ensures Split(a + [c] + b, c) == Split(a, c) + Split(b, c)
    decreases |a|, 0
  {
    var t := a[1..];
    var head := Split(t, c);
    var tail := Split(b, c);
    var first := [a[0]] + head[0];
    assert Split(a + [c] + b, c) == [first] + (head[1..] + tail) by {
      assert a + [c] + b == [a[0]] + (t + [c] + b);
      SplitCons(a[0], t + [c] + b, c);
      SplitAt(t, b, c);
      assert (head + tail)[0] == head[0] && (head + tail)[1..] == head[1..] + tail;
    }
    assert Split(a, c) == [first] + head[1..] by {
      assert a == [a[0]] + t;
      SplitCons(a[0], t, c);
    }
    assert [first] + (head[1..] + tail) == ([first] + head[1..]) + tail;
  }

  /** Three separator-free pieces joined by the separator split back into the three. */
  lemma SplitThree(a: string, b: string, d: string, c: char)
    requires c !in a && c !in b && c !in d
    ensures Split(a + [c] + b + [c] + d, c) == [a, b, d]
  {
    SplitWithout(a, c);
    SplitWithout(b, c);
    SplitWithout(d, c);
    SplitAt(a, b + [c] + d, c);
    SplitAt(b, d, c);
    assert a + [c] + b + [c] + d == a + [c] + (b + [c] + d);
  }

  lemma {:induction false} SplitWithout(s: string, c: char)
    requires c !in s
    ensures Split(s, c) == [s]
  {
    if s != [] {
      SplitWithout(s[1..], c);
      assert [s[0]] + s[1..] == s;
    }
  }

  /** Splitting the join of separator-free pieces gives the pieces back. */
  lemma {:induction false} SplitJoin(pieces: seq<string>, c: char)
    requires |pieces| > 0 && forall i :: 0 <= i < |pieces| ==> c !in pieces[i]
    ensures Split(Join(pieces, c), c) == pieces
  {
    if |pieces| == 1 {
      SplitWithout(pieces[0], c);
    } else {
      SplitJoin(pieces[1..], c);
      SplitWithout(pieces[0], c);
      SplitAt(pieces[0], Join(pieces[1..], c), c);
    }
  }

  /** `Count` is zero when the character does not occur. */
  lemma {:induction false} CountAbsent(s: string, c: char)
    requires c !in s
    ensures Count(s, c) == 0
  {
    if s != [] {
      assert forall x :: x in s[1..] ==> x in s;
      CountAbsent(s[1..], c);
    }
  }

  /** `pieces.join(sep)` with a separator string. */
  function JoinWith(pieces: seq<string>, sep: string): string
  {
    if pieces == [] then ""
    else if |pieces| == 1 then pieces[0]
    else pieces[0] + sep + JoinWith(pieces[1..], sep)
  }

  /** The occurrences of `c` over all pieces. */
  function CountAll(pieces: seq<string>, c: char): nat
  {
    if pieces == [] then 0 else Count(pieces[0], c) + CountAll(pieces[1..], c)
  }

  lemma {:induction false} CountAllConcat(a: seq<string>, b: seq<string>, c: char)
    ensures CountAll(a + b, c) == CountAll(a, c) + CountAll(b, c)
  {
    if a == [] {
      assert a + b == b;
    } else {
      CountAllConcat(a[1..], b, c);
      assert (a + b)[1..] == a[1..] + b;
    }
  }

  /** A separator without `c` adds no occurrence of `c` to the join. */
  lemma {:induction false} CountJoinWith(pieces: seq<string>, sep: string, c: char)
    requires c !in sep
    ensures Count(JoinWith(pieces, sep), c) == CountAll(pieces, c)
  {
    if |pieces| == 1 {
      assert CountAll(pieces[1..], c) == 0;
    } else if |pieces| > 1 {
      CountJoinWith(pieces[1..], sep, c);
      CountAbsent(sep, c);
      CountConcat(pieces[0], sep, c);
      CountConcat(pieces[0] + sep, JoinWith(pieces[1..], sep), c);
    }
  }

  /** Every character of `s` satisfies `p`. */
  predicate AllChars(s: string, p: char -> bool)
  {
    forall i :: 0 <= i < |s| ==> p(s[i])
  }

  lemma AllCharsConcat(a: string, b: string, p: char -> bool)
    ensures AllChars(a + b, p) <==> AllChars(a, p) && AllChars(b, p)
  {
    if AllChars(a, p) && AllChars(b, p) {
      forall i | 0 <= i < |a + b| ensures p((a + b)[i]) {
        if i >= |a| { assert (a + b)[i] == b[i - |a|]; }
      }
    }
    if AllChars(a + b, p) {
      forall i | 0 <= i < |a| ensures p(a[i]) { assert (a + b)[i] == a[i]; }
      forall i | 0 <= i < |b| ensures p(b[i]) { assert (a + b)[|a| + i] == b[i]; }
    }
  }

  /** A join keeps a character property its pieces and separator have. */
  lemma {:induction false} AllCharsJoinWith(pieces: seq<string>, sep: string, p: char -> bool)
    requires AllChars(sep, p)
    requires forall i :: 0 <= i < |pieces| ==> AllChars(pieces[i], p)
    ensures AllChars(JoinWith(pieces, sep), p)
  {
    if |pieces| > 1 {
      AllCharsJoinWith(pieces[1..], sep, p);
      AllCharsConcat(pieces[0], sep, p);
      AllCharsConcat(pieces[0] + sep, JoinWith(pieces[1..], sep), p);
    }
  }
}
