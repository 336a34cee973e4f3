/**
 * Text helpers of src/utils/text.rs: HTML escaping of `& < >`, `<p>`
 * wrapping of lines, the whitespace-collapsing regex `RE_SPACE`, page
 * splitting by lines, the 200-character excerpt and relative times.
 */
module Text {
  import opened Wrappers
  import opened Ints
  import opened Strings

  // ---------------------------------------------------------------------------
  // Escaping

  /** The escape of one character: `&`, `<` and `>` become entities, every other character stays. */
  function EscapeChar(c: char): string
  {
    if c == '&' then "&amp;" else if c == '<' then "&lt;" else if c == '>' then "&gt;" else [c]
  }

  /** The escaped text, character by character. */
  function Escape(s: string): string
  {
    if s == [] then [] else EscapeChar(s[0]) + Escape(s[1..])
  }

  lemma {:induction false} EscapeConcat(a: string, b: string)
    ensures Escape(a + b) == Escape(a) + Escape(b)
  {
    if a == [] {
      assert a + b == b;
    } else {
      var e := EscapeChar(a[0]);
      assert Escape(a + b) == e + Escape(a[1..] + b) by {
        assert (a + b)[0] == a[0] && (a + b)[1..] == a[1..] + b;
      }
      EscapeConcat(a[1..], b);
      assert e + (Escape(a[1..]) + Escape(b)) == (e + Escape(a[1..])) + Escape(b);
    }
  }

  predicate HasSpecial(s: string) { '&' in s || '<' in s || '>' in s }

  /** Text without `& < >` is its own escape, quotes included. */
  lemma {:induction false} EscapePlain(s: string)
    requires !HasSpecial(s)
    ensures Escape(s) == s
  {
    if s != [] {
      assert s[0] in s;
      assert forall c :: c in s[1..] ==> c in s;
      EscapePlain(s[1..]);
    }
  }

  /**
   * `html_special_chars_no_quotes`: the text itself when it holds none of
   * `& < >`, otherwise a copy built character by character.
   */
  method HtmlSpecialCharsNoQuotes(s: string) returns (r: string)
    ensures r == Escape(s)
  {
    if !HasSpecial(s) {
      EscapePlain(s);
      return s;
    }
    r := "";
    var i := 0;
    while i < |s|
      invariant 0 <= i <= |s|
      invariant r == Escape(s[..i])
    {
      var c := s[i];
      if c == '&' {
        r := r + "&amp;";
      } else if c == '<' {
        r := r + "&lt;";
      } else if c == '>' {
        r := r + "&gt;";
      } else {
        r := r + [c];
      }
      EscapeConcat(s[..i], [c]);
      assert s[..i + 1] == s[..i] + [c];
      i := i + 1;
    }
    assert s[..i] == s;
  }

  /** Decoding of the three entities, the reverse of `Escape`. */
  function Unescape(s: string): string
    decreases |s|
  {
    if s == [] then []
    else if "&amp;" <= s then "&" + Unescape(s[5..])
    else if "&lt;" <= s then "<" + Unescape(s[4..])
    else if "&gt;" <= s then ">" + Unescape(s[4..])
    else [s[0]] + Unescape(s[1..])
  }

  /** Escaping loses nothing: the original text can be read back. */
  lemma {:induction false} UnescapeEscape(s: string)
    ensures Unescape(Escape(s)) == s
  {
    if s != [] {
      UnescapeEscape(s[1..]);
      var e := EscapeChar(s[0]);
      var rest := Escape(s[1..]);
      assert Escape(s) == e + rest;
      if s[0] == '&' {
        assert (e + rest)[5..] == rest;
      } else if s[0] == '<' {
        assert (e + rest)[1] == 'l';
        assert !("&amp;" <= e + rest);
        assert (e + rest)[4..] == rest;
      } else if s[0] == '>' {
        assert (e + rest)[1] == 'g';
        assert !("&amp;" <= e + rest) && !("&lt;" <= e + rest);
        assert (e + rest)[4..] == rest;
      } else {
        assert (e + rest)[0] == s[0];
        assert (e + rest)[1..] == rest;
      }
    }
  }

  /** Escaped text holds no '<' and no '>'. */
  lemma {:induction false} EscapeNoAngle(s: string)
    ensures '<' !in Escape(s) && '>' !in Escape(s)
  {
    if s != [] {
      EscapeNoAngle(s[1..]);
      var e := EscapeChar(s[0]);
      assert '<' !in e && '>' !in e;
      assert Escape(s) == e + Escape(s[1..]);
    }
  }

  /** Escaping keeps the number of newlines. */
  lemma {:induction false} EscapeKeepsNewlines(s: string)
    ensures Count(Escape(s), '\n') == Count(s, '\n')
  {
    if s != [] {
      EscapeKeepsNewlines(s[1..]);
      var e := EscapeChar(s[0]);
      CountConcat(e, Escape(s[1..]), '\n');
      assert Count(e, '\n') == (if s[0] == '\n' then 1 else 0) by {
        if HasSpecial([s[0]]) {
          CountAbsent(e, '\n');
        } else {
          assert e == [s[0]] && e[1..] == [];
        }
      }
    }
  }

  // ---------------------------------------------------------------------------
  // RE_SPACE = "　{2,}|\s{2,}" with `replace_all(_, " ")`

  const IDEO_SPACE: char := '\U{3000}'

  /** The length of the run of characters equal to `c` at the start of `s`. */
  function RunOf(s: string, c: char): (n: nat)
    ensures n <= |s| && (forall i :: 0 <= i < n ==> s[i] == c) && (n == |s| || s[n] != c)
  {
    if s != [] && s[0] == c then 1 + RunOf(s[1..], c) else 0
  }

  /** The length of the run of whitespace at the start of `s`. */
  function SpaceRun(s: string): (n: nat)
    ensures n <= |s| && (forall i :: 0 <= i < n ==> IsSpace(s[i])) && (n == |s| || !IsSpace(s[n]))
  {
    if s != [] && IsSpace(s[0]) then 1 + SpaceRun(s[1..]) else 0
  }

  /**
   * The length of the `RE_SPACE` match at the start of `s`, or 0. The first
   * alternative wins when it matches (leftmost-first), and both are greedy.
   */
  function SpaceMatch(s: string): (n: nat)
    ensures n == 0 || 2 <= n <= |s|
    ensures n > 0 ==> forall i :: 0 <= i < n ==> IsSpace(s[i])
  {
    if |s| >= 2 && s[0] == IDEO_SPACE && s[1] == IDEO_SPACE then RunOf(s, IDEO_SPACE)
    else if |s| >= 2 && IsSpace(s[0]) && IsSpace(s[1]) then SpaceRun(s)
    else 0
  }

  /** `RE_SPACE.replace_all(s, " ")`. */
  function CollapseSpaces(s: string): (r: string)
    ensures |r| <= |s|
    decreases |s|
  {
    if s == [] then []
    else if SpaceMatch(s) > 0 then " " + CollapseSpaces(s[SpaceMatch(s)..])
    else [s[0]] + CollapseSpaces(s[1..])
  }

  /** The characters of `s` that are not whitespace, in order. */
  function Visible(s: string): string
  {
    if s == [] then [] else (if IsSpace(s[0]) then [] else [s[0]]) + Visible(s[1..])
  }

  lemma {:induction false} VisibleOfSpaces(s: string, n: nat)
    requires n <= |s| && forall i :: 0 <= i < n ==> IsSpace(s[i])
    ensures Visible(s) == Visible(s[n..])
  {
    if n > 0 {
      VisibleOfSpaces(s[1..], n - 1);
      assert s[1..][n - 1..] == s[n..];
    }
  }

  /** Collapsing keeps every visible character, in order. */
  lemma {:induction false} CollapseKeepsVisible(s: string)
    ensures Visible(CollapseSpaces(s)) == Visible(s)
    decreases |s|
  {
    if s != [] {
      var n := SpaceMatch(s);
      if n > 0 {
        CollapseKeepsVisible(s[n..]);
        VisibleOfSpaces(s, n);
        assert (" " + CollapseSpaces(s[n..]))[1..] == CollapseSpaces(s[n..]);
      } else {
        CollapseKeepsVisible(s[1..]);
        assert ([s[0]] + CollapseSpaces(s[1..]))[1..] == CollapseSpaces(s[1..]);
      }
    }
  }

  /** A string is all whitespace exactly when it has no visible character. */
  lemma {:induction false} AllSpaceInvisible(s: string)
    ensures AllSpace(s) <==> Visible(s) == []
  {
    if s != [] {
      AllSpaceInvisible(s[1..]);
      if AllSpace(s) {
        assert AllSpace(s[1..]);
      } else if IsSpace(s[0]) {
        assert !AllSpace(s[1..]) by {
          if AllSpace(s[1..]) {
            forall i | 0 <= i < |s| ensures IsSpace(s[i]) {
              if i > 0 { assert s[i] == s[1..][i - 1]; }
            }
          }
        }
      }
    }
  }

  /** Collapsing never turns a blank line into a non-blank one or back. */
  lemma CollapseKeepsBlank(s: string)
    ensures AllSpace(CollapseSpaces(s)) <==> AllSpace(s)
  {
    CollapseKeepsVisible(s);
    AllSpaceInvisible(s);
    AllSpaceInvisible(CollapseSpaces(s));
  }

  /** Text without two adjacent whitespace characters is left as it is. */
  lemma {:induction false} CollapseNoRuns(s: string)
    requires forall i :: 0 <= i < |s| - 1 ==> !(IsSpace(s[i]) && IsSpace(s[i + 1]))
    ensures CollapseSpaces(s) == s
  {
    if s != [] {
      CollapseNoRuns(s[1..]);
    }
  }

  // ---------------------------------------------------------------------------
  // Paragraphs

  function Wrap(line: string): string { "<p>" + line + "</p>" }

  /** Each line wrapped in `<p>…</p>`, in order. */
  function WrapAll(lines: seq<string>): string
  {
    if lines == [] then "" else WrapAll(lines[..|lines| - 1]) + Wrap(lines[|lines| - 1])
  }

  /** `str_to_p`: one paragraph per line of the text, blank lines and markup kept as they are. */
  method StrToP(txt: string) returns (out: string)
    ensures out == WrapAll(Lines(txt))
  {
    var lines := Lines(txt);
    out := "";
    var i := 0;
    while i < |lines|
      invariant 0 <= i <= |lines|
      invariant out == WrapAll(lines[..i])
    {
      WrapAllStep(lines, i);
      out := out + "<p>";
      out := out + lines[i];
      out := out + "</p>";
      i := i + 1;
    }
    assert lines[..i] == lines;
  }

  /** Every wrapped line adds at least the seven characters of "<p></p>". */
  lemma {:induction false} WrapAllLength(lines: seq<string>)
    ensures |WrapAll(lines)| >= 7 * |lines|
    ensures lines != [] ==> |WrapAll(lines)| > 0
  {
    if lines != [] {
      WrapAllLength(lines[..|lines| - 1]);
    }
  }

  /** Wrapping read from the front: the first line's paragraph, then the rest. */
  lemma {:induction false} WrapAllCons(x: string, rest: seq<string>)
    ensures WrapAll([x] + rest) == Wrap(x) + WrapAll(rest)
    decreases |rest|
  {
    if rest == [] {
      assert [x] + rest == [x];
      assert [x][..0] == [];
    } else {
      var init := rest[..|rest| - 1];
      assert ([x] + rest)[..|rest|] == [x] + init;
      WrapAllCons(x, init);
    }
  }

  /** The length of the longest prefix without a '<'. */
  function LtFreeLen(s: string): nat
  {
    if s == [] || s[0] == '<' then 0 else 1 + LtFreeLen(s[1..])
  }

  lemma {:induction false} LtFreeLenOf(x: string, rest: string)
    requires '<' !in x
    ensures LtFreeLen(x + "<" + rest) == |x|
  {
    if x != [] {
      assert (x + "<" + rest)[1..] == x[1..] + "<" + rest;
      assert forall c :: c in x[1..] ==> c in x;
      LtFreeLenOf(x[1..], rest);
    }
  }

  /**
   * Wrapping keeps the lines apart: when no line holds a '<', the wrapped
   * text determines the lines, so two texts with different lines never give
   * the same paragraphs.
   */
  lemma {:induction false} WrapAllInjective(a: seq<string>, b: seq<string>)
    requires forall i :: 0 <= i < |a| ==> '<' !in a[i]
    requires forall i :: 0 <= i < |b| ==> '<' !in b[i]
    requires WrapAll(a) == WrapAll(b)
    ensures a == b
    decreases |a|
  {
    WrapAllLength(a);
    WrapAllLength(b);
    if a != [] && b != [] {
      WrapAllFirst(a);
      WrapAllFirst(b);
      ConcatCancel(Wrap(a[0]), WrapAll(a[1..]), Wrap(b[0]), WrapAll(b[1..]));
      assert Wrap(a[0])[3..3 + |a[0]|] == a[0];
      assert Wrap(b[0])[3..3 + |b[0]|] == b[0];
      WrapAllInjective(a[1..], b[1..]);
      assert a == [a[0]] + a[1..];
      assert b == [b[0]] + b[1..];
    }
  }

  /** The wrapping of a non-empty list read from the front, and where its first paragraph's text ends. */
  lemma WrapAllFirst(a: seq<string>)
    requires a != [] && '<' !in a[0]
    ensures WrapAll(a) == Wrap(a[0]) + WrapAll(a[1..])
    ensures |WrapAll(a)| >= 3 && LtFreeLen(WrapAll(a)[3..]) == |a[0]|
  {
    assert a == [a[0]] + a[1..];
    WrapAllCons(a[0], a[1..]);
    WrapHead(a[0], WrapAll(a[1..]));
  }

  /** The text of a first paragraph runs up to its closing tag's '<'. */
  lemma WrapHead(x: string, w: string)
    requires '<' !in x
    ensures |Wrap(x) + w| >= 3 && LtFreeLen((Wrap(x) + w)[3..]) == |x|
  {
    var tail := x + "<" + ("/p>" + w);
    assert Wrap(x) + w == "<p>" + tail;
    assert (Wrap(x) + w)[3..] == tail;
    LtFreeLenOf(x, "/p>" + w);
  }

  /** Two splits of one string at the same length give the same parts. */
  lemma ConcatCancel(x1: string, y1: string, x2: string, y2: string)
    requires x1 + y1 == x2 + y2 && |x1| == |x2|
    ensures x1 == x2 && y1 == y2
  {
    assert x1 == (x1 + y1)[..|x1|];
    assert x2 == (x2 + y2)[..|x2|];
    assert y1 == (x1 + y1)[|x1|..];
    assert y2 == (x2 + y2)[|x2|..];
  }

  /** The cleaning step of `str_arr_to_p`: RE_SPACE only runs when the line holds "  ", a tab or "　　". */
  function CleanLine(line: string): string
  {
    if Contains(line, "  ") || '\t' in line || Contains(line, [IDEO_SPACE, IDEO_SPACE])
    then CollapseSpaces(line)
    else line
  }

  /** The paragraphs `str_arr_to_p` keeps: cleaned lines that are not blank. */
  function Paragraphs(lines: seq<string>): (ps: seq<string>)
    ensures |ps| <= |lines|
    ensures forall i :: 0 <= i < |ps| ==> !AllSpace(ps[i])
  {
    if lines == [] then []
    else
      var c := CleanLine(lines[|lines| - 1]);
      Paragraphs(lines[..|lines| - 1]) + (if AllSpace(c) then [] else [c])
  }

  /** `str_arr_to_p`. */
  method StrArrToP(lines: seq<string>) returns (result: string)
    ensures result == WrapAll(Paragraphs(lines))
  {
    result := "";
    var i := 0;
    while i < |lines|
      invariant 0 <= i <= |lines|
      invariant result == WrapAll(Paragraphs(lines[..i]))
    {
      var line := lines[i];
      var cleaned := line;
      if Contains(line, "  ") || '\t' in line || Contains(line, [IDEO_SPACE, IDEO_SPACE]) {
        cleaned := CollapseSpaces(line);
      }
      ParagraphsStep(lines, i);
      ghost var ps := Paragraphs(lines[..i]);
      TrimEmpty(cleaned);
      if Trim(cleaned) == [] {
        assert ps + [] == ps;
        i := i + 1;
        continue;
      }
      WrapAllSnoc(ps, cleaned);
      result := result + "<p>";
      result := result + cleaned;
      result := result + "</p>";
      i := i + 1;
    }
    assert lines[..i] == lines;
  }

  lemma ParagraphsStep(lines: seq<string>, i: nat)
    requires i < |lines|
    ensures var c := CleanLine(lines[i]);
            Paragraphs(lines[..i + 1]) == Paragraphs(lines[..i]) + (if AllSpace(c) then [] else [c])
  {
    assert lines[..i + 1][..i] == lines[..i];
  }

  lemma WrapAllStep(lines: seq<string>, i: nat)
    requires i < |lines|
    ensures WrapAll(lines[..i + 1]) == WrapAll(lines[..i]) + "<p>" + lines[i] + "</p>"
  {
    assert lines[..i + 1] == lines[..i] + [lines[i]];
    WrapAllSnoc(lines[..i], lines[i]);
  }

  lemma WrapAllSnoc(ps: seq<string>, c: string)
    ensures WrapAll(ps + [c]) == WrapAll(ps) + "<p>" + c + "</p>"
  {
    assert (ps + [c])[..|ps|] == ps;
  }

  /** A line is kept exactly when it is not blank, whatever cleaning does to it. */
  lemma {:induction false} ParagraphsKeepNonBlank(lines: seq<string>)
    ensures |Paragraphs(lines)| == |NonBlank(lines)|
  {
    if lines != [] {
      ParagraphsKeepNonBlank(lines[..|lines| - 1]);
      var l := lines[|lines| - 1];
      if CleanLine(l) != l {
        CollapseKeepsBlank(l);
      }
    }
  }

  function NonBlank(lines: seq<string>): seq<string>
  {
    if lines == [] then []
    else NonBlank(lines[..|lines| - 1]) + (if AllSpace(lines[|lines| - 1]) then [] else [lines[|lines| - 1]])
  }

  /** A line without double spaces, tabs or double ideographic spaces is kept verbatim unless blank. */
  lemma PlainLineKept(line: string)
    requires !Contains(line, "  ") && '\t' !in line && !Contains(line, [IDEO_SPACE, IDEO_SPACE])
    ensures Paragraphs([line]) == if AllSpace(line) then [] else [line]
  {
    assert [line][..0] == [];
  }

  // ---------------------------------------------------------------------------
  // read_page_split

  /** The lines of page `page` (one-based) when pages hold `lpp` lines each. */
  function PageSlice<T>(all: seq<T>, lpp: nat, page: nat): (r: seq<T>)
    requires lpp > 0 && 1 <= page <= DivCeil(|all|, lpp)
    ensures |r| <= lpp && r == all[(page - 1) * lpp..Min((page - 1) * lpp + lpp, |all|)]
  {
    DivCeilBound(|all|, lpp, page);
    all[(page - 1) * lpp..Min((page - 1) * lpp + lpp, |all|)]
  }

  /** Pages 1..k one after the other. */
  function Pages<T>(all: seq<T>, lpp: nat, k: nat): seq<T>
    requires lpp > 0 && k <= DivCeil(|all|, lpp)
  {
    if k == 0 then [] else Pages(all, lpp, k - 1) + PageSlice(all, lpp, k)
  }

  lemma ConcatPrefix<T>(all: seq<T>, x: seq<T>, y: seq<T>, a: nat, b: nat)
    requires a <= b <= |all| && x == all[..a] && y == all[a..b]
    ensures x + y == all[..b]
  {
    assert all[..b] == all[..a] + all[a..b];
  }

  lemma MulPred(k: nat, lpp: nat)
    requires k > 0
    ensures (k - 1) * lpp + lpp == k * lpp
  {
  }

  /** The first k pages are the first k * lpp elements. */
  lemma {:induction false} PagesPrefix<T>(all: seq<T>, lpp: nat, k: nat)
    requires lpp > 0 && k <= DivCeil(|all|, lpp)
    ensures Pages(all, lpp, k) == all[..Min(k * lpp, |all|)]
  {
    if k > 0 {
      PagesPrefix(all, lpp, k - 1);
      DivCeilBound(|all|, lpp, k);
      MulPred(k, lpp);
      ConcatPrefix(all, Pages(all, lpp, k - 1), PageSlice(all, lpp, k), (k - 1) * lpp, Min(k * lpp, |all|));
    }
  }

  /** The pages, read in order, give back the whole sequence: nothing is lost or repeated. */
  lemma PagesCoverAll<T>(all: seq<T>, lpp: nat)
    requires lpp > 0
    ensures Pages(all, lpp, DivCeil(|all|, lpp)) == all
  {
    PagesPrefix(all, lpp, DivCeil(|all|, lpp));
    assert all[..|all|] == all;
  }

  /** A page within `DivCeil` starts before the end of the sequence. */
  lemma DivCeilBound(n: nat, d: nat, page: nat)
    requires d > 0 && 1 <= page <= DivCeil(n, d)
    ensures (page - 1) * d < n
  {
    var q := DivCeil(n, d);
    assert (q - 1) * d < n;
    assert (page - 1) * d <= (q - 1) * d by {
      MulMono(page - 1, q - 1, d);
    }
  }

  lemma MulMono(a: nat, b: nat, d: nat)
    requires a <= b
    ensures a * d <= b * d
  {
  }

  /** The escaped text cut at every '\n'. */
  function EscapedLines(txt: string): seq<string>
  {
    Split(Escape(txt), '\n')
  }

  /**
   * `read_page_split(txt, line, page)`: the paragraphs of one page of
   * escaped lines and the number of pages, or ("", 0) for a zero page
   * size, page 0 or a page past the end.
   */
  method ReadPageSplit(txt: string, line: Option<nat>, page: Option<nat>) returns (html: string, total: nat)
    ensures var lpp := if line.Some? then line.value else 20;
            var p := if page.Some? then page.value else 1;
            if lpp == 0 || p == 0 || p > DivCeil(|EscapedLines(txt)|, lpp) then html == "" && total == 0
            else total == DivCeil(|EscapedLines(txt)|, lpp) && html == WrapAll(Paragraphs(PageSlice(EscapedLines(txt), lpp, p)))
  {
    var lpp := if line.Some? then line.value else 20;
    if lpp == 0 {
      return "", 0;
    }
    var p := if page.Some? then page.value else 1;
    if p == 0 {
      return "", 0;
    }
    var escaped := HtmlSpecialCharsNoQuotes(txt);
    var allLines := Split(escaped, '\n');
    assert allLines == EscapedLines(txt);
    var totalPages := DivCeil(|allLines|, lpp);
    if p > totalPages {
      return "", 0;
    }
    var pageLines := PageSlice(allLines, lpp, p);
    html := StrArrToP(pageLines);
    total := totalPages;
  }

  /** The page count is the count of lines of the original text, divided by the page size and rounded up. */
  lemma PageCountOfOriginal(txt: string, lpp: nat)
    requires lpp > 0
    ensures DivCeil(|Split(Escape(txt), '\n')|, lpp) == DivCeil(Count(txt, '\n') + 1, lpp)
  {
    SplitCount(Escape(txt), '\n');
    EscapeKeepsNewlines(txt);
  }

  /** Every line lies on exactly one page, the page numbered `i / lpp + 1`. */
  lemma LineOnPage<T>(all: seq<T>, lpp: nat, i: nat)
    requires lpp > 0 && i < |all|
    ensures 1 <= i / lpp + 1 <= DivCeil(|all|, lpp)
    ensures (i / lpp) * lpp <= i < Min((i / lpp + 1) * lpp, |all|)
  {
    var q := DivCeil(|all|, lpp);
    var p := i / lpp;
    assert p * lpp <= i;
    if p + 1 > q {
      assert q * lpp >= |all|;
      MulMono(q, p, lpp);
    }
  }

  // ---------------------------------------------------------------------------
  // txt_200_des and time_to_cn

  /** `txt_200_des`: the first 200 characters of the escaped, collapsed text. */
  function Txt200Des(txt: string): (r: string)
    ensures |r| == Min(200, |CollapseSpaces(Escape(txt))|)
    ensures r <= CollapseSpaces(Escape(txt))
  {
    var collapsed := CollapseSpaces(Escape(txt));
    if |collapsed| <= 200 then collapsed else collapsed[..200]
  }

  /** A short plain excerpt comes back unchanged. */
  lemma Txt200DesShortPlain(txt: string)
    requires |txt| <= 200 && !HasSpecial(txt)
    requires forall i :: 0 <= i < |txt| - 1 ==> !(IsSpace(txt[i]) && IsSpace(txt[i + 1]))
    ensures Txt200Des(txt) == txt
  {
    EscapePlain(txt);
    CollapseNoRuns(txt);
  }

  const MINUTE: nat := 60
  const HOUR: nat := 60 * 60
  const DAY: nat := 60 * 60 * 24
  const MONTH: nat := 60 * 60 * 24 * 30
  const YEAR: nat := 60 * 60 * 24 * 365

  /** The age shown by `time_to_cn`: a future time counts as now; `saturating_sub` on i64. */
  function Age(time: i64, now: i64): (d: nat)
    ensures time >= now ==> d == 0
    ensures time < now && now - time <= 0x7FFF_FFFF_FFFF_FFFF ==> d == now - time
  {
    var t := if time > now then now else time;
    Min(now - t, 0x7FFF_FFFF_FFFF_FFFF)
  }

  /**
   * `time_to_cn(time)` with the clock reading `now` as a parameter; `date`
   * is chrono's "%Y-%m-%d" rendering of a timestamp (None out of its
   * range) and `today` that of the current instant.
   */
  function TimeToCn(time: i64, now: i64, date: i64 -> Option<string>, today: string): string
  {
    var t := if time > now then now else time;
    var d := Age(time, now);
    if d < 2 * MINUTE then "刚刚"
    else if d < HOUR then Dec(d / MINUTE) + "分钟前"
    else if d < DAY then Dec(d / HOUR) + "小时前"
    else if d < MONTH then Dec(d / DAY) + "天前"
    else if d < YEAR then Dec(d / MONTH) + "个月前"
    else if date(t).Some? then date(t).value
    else today
  }

  /** The unit chosen by `time_to_cn` and the number shown with it. */
  datatype Ago = JustNow | Minutes(n: nat) | Hours(n: nat) | Days(n: nat) | Months(n: nat) | Date

  function AgoOf(d: nat): (a: Ago)
    ensures a.Minutes? ==> 2 <= a.n <= 59
    ensures a.Hours? ==> 1 <= a.n <= 23
    ensures a.Days? ==> 1 <= a.n <= 29
    ensures a.Months? ==> 1 <= a.n <= 12
  {
    if d < 2 * MINUTE then JustNow
    else if d < HOUR then Minutes(d / MINUTE)
    else if d < DAY then Hours(d / HOUR)
    else if d < MONTH then Days(d / DAY)
    else if d < YEAR then Months(d / MONTH)
    else Date
  }

  /**
   * The relative time reads as the unit and count of `AgoOf`; a time in the
   * future reads "刚刚".
   */
  lemma TimeToCnReads(time: i64, now: i64, date: i64 -> Option<string>, today: string)
    ensures var a := AgoOf(Age(time, now));
            TimeToCn(time, now, date, today) ==
              match a
              case JustNow => "刚刚"
              case Minutes(n) => Dec(n) + "分钟前"
              case Hours(n) => Dec(n) + "小时前"
              case Days(n) => Dec(n) + "天前"
              case Months(n) => Dec(n) + "个月前"
              case Date => var t := if time > now then now else time;
                           if date(t).Some? then date(t).value else today
    ensures time >= now ==> TimeToCn(time, now, date, today) == "刚刚"
  {
  }
}
