# novel-rust core, modelled in Dafny

novel-rust is a novel-reading web site built on axum, Tera, MySQL and Redis, with a little browser JavaScript. This project models the parts of it that decide things:

- public/internal id obfuscation and the URL templates of the site configuration;
- the row mappings that turn database rows into public records;
- the Redis read-through cache;
- pagination of chapter text, chapter indexes and category pages;
- the text helpers: HTML escaping, paragraph wrapping, excerpts and relative times;
- the SQL builder behind the `db` template tag;
- the user, bookcase, search, rank, book-page and admin handlers;
- the long-tail keyword service and the HTTP fetcher's retry loop;
- the template functions and the route patterns;
- the browser reading history (`history.js`) and the client-side form checks (`user.js`).

There is one Dafny module per source file. `Wrappers`, `Ints`, `Strings` and `Placeholders` are shared helpers.

Pure code is written as functions with lemmas. Code that loops or updates state is written as methods proved against those functions:
- the row-mapping loops;
- the cache (`Cache.Redis`), the long-tail dedup set (`LangTailService.Running`) and the bookcase table (`BookcaseHandler.BookcaseDb`);
- the configuration holder (`AdminHandler.Settings`) and the reading history (`History.LastRead`);
- the attempt loop of `get_text` and the navigation and page-link loops.

The database (including how it compares a bound text with a column: the collation of `uname` and `email`, and the text-to-number conversion against the numeric `uid`), Redis, the network, the clock, md5, percent-encoding, serde, grapheme segmentation, the charset table and the template engine do not appear as code. They are parameters of the operations that use them: a query result, a function value or a flag.

Arithmetic on `u64` follows the source. A release build wraps on `+`, `-` and `*` (`new_id`, `source_id`, the pagination window, the admin token expiry). Where a debug build would panic instead, the model says which build it describes. Division by zero and unwrapping a missing value are error results, not preconditions. `Config.SourceId` itself requires a divisor that is not zero; every handler that calls `source_id` checks that first and returns the division panic as its error.

Each bug listed under "## Findings" is modelled twice: once as written, with a lemma that exhibits it, and once corrected. The handlers compose the corrected definitions, so their rows are marked "(corrected)": the chapter handler pages graphemes with `ChapterHandler.GraphemesPage`, the sort handler reads categories with `SortHandler.SortId`, the long-tail run builds its VALUES clause with `LangTailService.ValuesRows` and reads the newest uptime as intended, and the rank handler orders with `RankHandler.RankQuery`.

Otherwise, where the source and its documentation disagree, the model follows the code:
- The jump-page window holds up to 11 pages, not the 10 its doc comment promises (`NovelService.PaginationWindow`).
- `substr` panics when the byte cut falls inside a character. The model returns an error there rather than assuming the cut is safe.
- `get_lang_tail` unwraps a missing error when no row matches. The model makes that a panic result.
- When every collected name is "" or the book's own name, the long-tail run still issues its upsert, with an empty VALUES clause that the server refuses (`LangTailService.EmptyValuesUpsert`).

## Model

| member | source | states |
|---|---|---|
| Config.IdsUnchangedWhenSingle | src/models/config.rs:63-77 | Without `is_multiple`, `new_id` and `source_id` both return the id unchanged. |
| Config.IdsRoundTrip | src/models/config.rs:67-82 | Under xor, and under "+" with u64 wrap-around, `source_id(new_id(x)) == x` and `new_id(source_id(x)) == x` for every x. |
| Config.AddWithoutOverflow | src/models/config.rs:68-79 | Under "+", an id whose sum with the offset fits in u64 maps to that sum, and `source_id` maps the sum back. |
| Config.AddUnderflowWraps | src/models/config.rs:79 | Under "+", a public id below the offset underflows: `source_id` yields `y + 2^64 - v`, which is larger than y. |
| Config.MulRoundTrip | src/models/config.rs:69-80 | Under "*" with a non-zero factor, an id whose product fits is recovered by `source_id`. |
| Config.MulOnlyMultiples | src/models/config.rs:69-80 | Under "*", `new_id(source_id(y)) == y` holds exactly when the factor divides y. |
| Config.ShortId | src/models/config.rs:103-105 | `short_id(id)` is the block r with `r * 1000 <= id < (r + 1) * 1000`. |
| Config.UrlsWithoutPlaceholders | src/models/config.rs:85-101 | A chapter or info template without any of its placeholders comes back unchanged. |
| Config.RankUrlFills | src/models/config.rs:37-39 | `rank_url` fills every `{code}` of the template with the code. |
| Config.SortUrlFills | src/models/config.rs:41-43 | `sort_url` fills `{code}`, then `{id}` and `{page}` with their decimal texts. |
| Config.InfoUrlFills | src/models/config.rs:85-90 | `info_url` fills `{id}` with the id and `{sid}` with `id / 1000`. |
| Config.ReadUrlFills | src/models/config.rs:92-101 | `read_url` fills `{id}`, `{sid}` (always `id / 1000`), `{cid}`, `{s_cid}` (cid on page 1, "cid_page" otherwise) and `{page}`. |
| Config.IndexUrlFills | src/models/config.rs:107-113 | `index_url` fills `{id}`, `{page}` and `{sid}`. |
| Config.AuthorUrlFills | src/models/config.rs:115-119 | `author_url` fills `{name}` with the encoded name. |
| Config.GetSortName | src/models/config.rs:121-124 | A caption is found exactly when `max(sort_id, 1) <= len(sort_arr)`: ids 0 and 1 both give the first category, and larger ids give None. |
| Config.GetImgUrl | src/models/config.rs:126-136 | With the image flag, the URL starts with "remote/{id/1000}/" and ends with "{id}s.jpg"; without it, the URL is "/static/{theme}/nocover.jpg", whatever the id. |
| Config.ImgUrlSegments | src/models/config.rs:126-131 | After "remote/", a cover URL has exactly the three segments `{id/1000}`, `{id}` and `{id}s.jpg`, and the middle one parses back to the id. |
| Config.ChapterTableShared | src/models/config.rs:44-49 | Two books share a chapter table exactly when the tables are not sharded or their ids lie in the same block of 10000. |
| NovelService.LastNonEmpty | src/services/novel.rs:35-37 | The last non-empty segment is None exactly when every piece is empty; otherwise it is a non-empty piece of the split. |
| NovelService.ExtractStr | src/services/novel.rs:42-49 | The extracted segment never holds a '/'. |
| NovelService.ExtractId | src/services/novel.rs:34-40 | An id is found only when `extract_str` finds a segment. |
| NovelService.ExtractIdParsesStr | src/services/novel.rs:34-49 | `extract_id(p)` is `extract_str(p)` parsed as a u64, None when there is no segment. |
| NovelService.SplitAllEmpty | src/services/novel.rs:35-37 | Every piece of a split is empty exactly when the text is made of separators only. |
| NovelService.ExtractNone | src/services/novel.rs:34-49 | No segment is found exactly when the path is made of slashes only, and then no id either. |
| NovelService.ExtractOfSegment | src/services/novel.rs:42-49 | The segment of ".../name.ext" and of ".../name" is `name`, whatever precedes it. |
| NovelService.ExtractIdOfNumber | src/services/novel.rs:34-40 | A path ending in a decimal number, with or without an extension, gives that number back. |
| NovelService.ExtractIdOfDec | src/services/novel.rs:34-40 | A bare decimal number gives that number back. |
| NovelService.Run | src/services/novel.rs:120 | `start..=end` holds `end - start + 1` consecutive numbers from `start`, and none when `start > end`. |
| NovelService.GeneratePaginationNumbers | src/services/novel.rs:107-121 | Every page of the window lies in [1, max_page]. |
| NovelService.PaginationEmpty | src/services/novel.rs:109-111 | With `max_page == 0` the window is empty. |
| NovelService.PaginationWindow | src/services/novel.rs:103-121 | The window is a run of consecutive ascending pages inside [1, max_page], at most 11 long; the doc comment's "at most 10" is not what the code does. |
| NovelService.PaginationContainsPage | src/services/novel.rs:112-120 | For 1 <= page <= max_page the window contains the page and holds min(11, max_page) pages. |
| NovelService.PaginationFirstOfThree | src/services/novel.rs:112-120 | Page 1 of 3 gives [1, 2, 3]. |
| NovelService.PaginationMiddle | src/services/novel.rs:112-120 | Page 50 of 100 gives [45..55]. |
| NovelService.PaginationWrapsNearMax | src/services/novel.rs:114 | Near the top of the u64 range `start + 10` wraps in a release build and the window comes out empty. |
| NovelService.DefaultChapter | src/models/novel.rs:22-34 | The placeholder chapter is named "暂无章节", links to the given info URL and has all ids 0. |
| NovelService.MapChapterIds | src/services/novel.rs:179-189 | A mapped chapter keeps its original chapter id in `source_id`, its public ids decode back to the originals, and its `read_url` is the page-1 link built from the public ids. |
| NovelService.NovelChapterMapping | src/services/novel.rs:179-189 | The in-place loop keeps the number and order of the rows and maps each row as one chapter mapping does. |
| NovelService.MapNovelIds | src/services/novel.rs:192-215 | A mapped book keeps its original id in `source_id`, and its public id decodes back to it; the cover uses the original id, the info and index links use the public id, and `last_url` uses the unmapped `lastchapterid`. |
| NovelService.MapNovelLabels | src/services/novel.rs:199-212 | The mapped labels follow the stored fields: `sortname` falls back to "其它类型", `sortname_2` holds its first two characters, `isfull` follows `fullflag`, `words_w = words / 10000` and the excerpt holds at most 200 characters; the stored fields stay. |
| NovelService.NovelMapping | src/services/novel.rs:192-218 | The in-place loop keeps the number and order of the rows and maps each row as one book mapping does. |
| Text.EscapeConcat | src/utils/text.rs:81-88 | Escaping works character by character: the escape of a concatenation is the concatenation of the escapes. |
| Text.EscapePlain | src/utils/text.rs:75-78 | Text without `&`, `<` or `>` is its own escape, quotes included. |
| Text.HtmlSpecialCharsNoQuotes | src/utils/text.rs:73-90 | The early return and the copying loop both give the character-by-character escape of `&`, `<` and `>`. |
| Text.UnescapeEscape | src/utils/text.rs:81-88 | Escaping loses nothing: decoding the three entities gives the original text back. |
| Text.EscapeNoAngle | src/utils/text.rs:81-88 | Escaped text holds no '<' and no '>'. |
| Text.EscapeKeepsNewlines | src/utils/text.rs:59-64 | Escaping keeps the number of '\n', so the escaped text has as many lines as the original. |
| Text.CollapseSpaces | src/utils/text.rs:8-10 | Replacing every `RE_SPACE` match by one space never makes the text longer. |
| Text.CollapseKeepsVisible | src/utils/text.rs:8-10 | Collapsing keeps every non-whitespace character, in order. |
| Text.AllSpaceInvisible | src/utils/text.rs:36 | A line is blank after trimming exactly when it has no visible character. |
| Text.CollapseKeepsBlank | src/utils/text.rs:26-38 | Collapsing never turns a blank line into a non-blank one, or back. |
| Text.CollapseNoRuns | src/utils/text.rs:8-10 | Text with no two adjacent whitespace characters is left as it is. |
| Text.StrToP | src/utils/text.rs:12-20 | `str_to_p` emits one "<p>line</p>" per line of the text, in order, with no escaping and no dropped blank lines. |
| Text.WrapAllLength | src/utils/text.rs:15-17 | Every wrapped line adds at least the seven characters of "<p></p>". |
| Text.WrapAllInjective | src/utils/text.rs:12-20 | When no line holds a '<', two line lists with the same `str_to_p` wrapping are the same lists: the paragraphs determine the lines. |
| Text.Paragraphs | src/utils/text.rs:25-38 | The kept paragraphs are no more than the lines, and none of them is blank. |
| Text.StrArrToP | src/utils/text.rs:22-45 | `str_arr_to_p` wraps, in order, the cleaned lines that are not blank. |
| Text.ParagraphsKeepNonBlank | src/utils/text.rs:26-38 | A line is kept exactly when it is not blank, whatever the cleaning does to it. |
| Text.PlainLineKept | src/utils/text.rs:26-33 | A line without "  ", a tab or "　　" is kept verbatim unless it is blank. |
| Text.PageSlice | src/utils/text.rs:68-70 | Page p holds the lines [(p-1)·lpp, min(p·lpp, n)), at most lpp of them. |
| Text.PagesPrefix | src/utils/text.rs:68-70 | The first k pages together are the first min(k·lpp, n) lines. |
| Text.PagesCoverAll | src/utils/text.rs:64-70 | The pages 1..total_pages, read in order, give back every line exactly once. |
| Text.ReadPageSplit | src/utils/text.rs:50-71 | ("", 0) for a zero page size, page 0 or a page past `ceil(n / lpp)`; otherwise the page's lines through `str_arr_to_p`, with `ceil(n / lpp)` pages. |
| Text.PageCountOfOriginal | src/utils/text.rs:59-64 | The page count equals `ceil(lines of the original text / lpp)`, because escaping adds no '\n'. |
| Text.LineOnPage | src/utils/text.rs:64-69 | Line i lies on page `i / lpp + 1`, which is a valid page, and inside that page's slice. |
| Text.Txt200Des | src/utils/text.rs:92-96 | The excerpt is the first min(200, n) characters of the escaped and collapsed text. |
| Text.Txt200DesShortPlain | src/utils/text.rs:92-96 | A short text without `& < >` and without whitespace runs comes back unchanged. |
| Text.Age | src/utils/text.rs:104-105 | A future time counts as now (age 0); otherwise the age is `now - time`, saturating on i64. |
| Text.AgoOf | src/utils/text.rs:106-116 | The number shown lies in 2..59 for minutes, 1..23 for hours, 1..29 for days and 1..12 for months. |
| Text.TimeToCnReads | src/utils/text.rs:98-123 | The text is "刚刚", "{n}分钟前", "{n}小时前", "{n}天前", "{n}个月前" or the date, for the unit the age falls in; a future time reads "刚刚". |
| Cache.CacheKey | src/utils/redis/conn.rs:106-107 | A key starts with its kind's prefix ("novel:count:", "novel:rows:" or "novel:chapters:"). |
| Cache.KeysOfKindsDiffer | src/utils/redis/conn.rs:100-172 | Count, book-row and chapter-row keys never coincide, whatever the digests. |
| Cache.GetJson | src/utils/redis/conn.rs:87-98 | Without a connection the read is `Ok(None)`; a value read comes from the stored text under the key and decodes to it. |
| Cache.SetJson | src/utils/redis/conn.rs:67-85 | The write fails exactly when there is a connection, the value encodes and `SETEX` fails; the cache changes only when the value encodes and `SETEX` succeeds, and then holds the encoding with its ttl under the key. |
| Cache.SetThenGet | src/utils/redis/conn.rs:67-98 | A stored value reads back when its encoding decodes to it. |
| Cache.RowsHitSkipsQuery | src/utils/redis/conn.rs:133-137 | A cache hit returns the decoded rows, queries nothing and writes nothing. |
| Cache.RowsMiss | src/utils/redis/conn.rs:138-146 | On a miss the database is queried, an error gives no rows, and the cache changes only by storing the loaded rows' encoding under the key. |
| Cache.RowsEmptyNeverCached | src/utils/redis/conn.rs:141-145 | A call that returns no rows leaves the cache as it was. |
| Cache.RowsWriteFailureIgnored | src/utils/redis/conn.rs:143 | A failed cache write changes neither the rows returned nor the cache. |
| Cache.RowsSecondCallHits | src/utils/redis/conn.rs:124-147 | Rows stored on a miss are served by the next call with the same key without a query. |
| Cache.CountAlwaysStored | src/utils/redis/conn.rs:114-119 | On a miss the count is stored even when it is 0, including the 0 of a failed query. |
| Cache.NoConnection | src/utils/redis/conn.rs:100-147 | Without a connection every call queries the database and nothing is stored. |
| Cache.Redis.CacheGetJson | src/utils/redis/conn.rs:87-98 | The command's outcome is `GetJson` of the connection's contents. |
| Cache.Redis.CacheSetJson | src/utils/redis/conn.rs:67-85 | The new contents and the outcome are those of `SetJson`. |
| Cache.Redis.ReadThroughRows | src/utils/redis/conn.rs:132-146 | Rows, new contents and whether the database was queried are those of `RowsFlow`. |
| Cache.Redis.GetCacheRows | src/utils/redis/conn.rs:124-147 | `RowsFlow` under the "novel:rows:" key of the url, sql and parameters. |
| Cache.Redis.GetChapterRows | src/utils/redis/conn.rs:149-172 | `RowsFlow` under the "novel:chapters:" key. |
| Cache.Redis.GetCacheCount | src/utils/redis/conn.rs:100-121 | `CountFlow` under the "novel:count:" key. |
| Cache.Redis.constructor | src/utils/redis/conn.rs:24-42 | a connected cache starts with an empty store; a failed connection leaves no store at all |
| DbTag.ValidateIdent | src/utils/templates/db.rs:296-308 | An identifier is accepted exactly when it is non-empty ASCII letters, digits and '_'; a rejection names the use. |
| DbTag.ValidateKeys | src/utils/templates/db.rs:310-317 | A condition object is accepted exactly when all of its keys are safe identifiers. |
| DbTag.ValidateCondKeys | src/utils/templates/db.rs:310-317 | An absent clause is accepted; a present one exactly when its keys are safe. |
| DbTag.TrimmedFields | src/utils/templates/db.rs:324-327 | Trimming the comma-separated pieces and dropping empty ones leaves only non-empty, comma-free fields without surrounding whitespace. |
| DbTag.ParseSelectList | src/utils/templates/db.rs:319-328 | "*" (after trimming) gives ["*"]; anything else gives trimmed, non-empty, comma-free fields. |
| DbTag.SelectListRoundTrip | src/utils/templates/db.rs:319-328 | Joining any list of such fields with ',' and parsing it gives the list back. |
| DbTag.Words | src/utils/templates/db.rs:331 | `split_whitespace` yields non-empty words without whitespace. |
| DbTag.ParseOrder | src/utils/templates/db.rs:330-344 | Accepted exactly when there are two words, a safe field and "asc"/"desc" in any case; the result is the field and the lower-cased direction; the error says which check failed first. |
| DbTag.OrderRoundTrip | src/utils/templates/db.rs:330-344 | "field dir" parses back to the field and the lower-cased direction. |
| DbTag.NormalizeMysqlType | src/utils/templates/db.rs:346-351 | The normalised type name is no longer than the input and has no '(' or ' '. |
| DbTag.NormalizeStopsAtSeparator | src/utils/templates/db.rs:346-351 | The name is cut at the first '(' or ' ' and upper-cased. |
| DbTag.ParseConditions | src/utils/templates/db.rs:107-123 | An error exactly when the key is present with a non-object value; otherwise the object's entries, or None when absent. |
| DbTag.ValidateSelect | src/utils/templates/db.rs:57-61 | The select list passes exactly when it is ["*"] or all of its fields are safe identifiers. |
| DbTag.ParseTable | src/utils/templates/db.rs:39-45 | `table` must be a string and a safe identifier; a missing or non-string table and a bad name are told apart. |
| DbTag.ParseSelectArg | src/utils/templates/db.rs:47-61 | A missing select means ["*"]; a non-string select is an error; an accepted list is ["*"] or safe identifiers. |
| DbTag.ParseClauses | src/utils/templates/db.rs:63-70 | When accepted, each of where/and/or is absent or the given object's entries with safe keys. |
| DbTag.ParseOrderArg | src/utils/templates/db.rs:86-93 | An accepted order is a safe field with "asc" or "desc". |
| DbTag.ParseArgs | src/utils/templates/db.rs:38-105 | Every accepted configuration is valid: safe table, select fields, condition keys and order field. |
| DbTag.TableChecksFirst | src/utils/templates/db.rs:39-45 | A missing or bad table is the error whatever the other arguments are, and an accepted table is the one given. |
| DbTag.LimitAndOffset | src/utils/templates/db.rs:72-84 | limit and offset are present exactly when given, limit is the given u64 truncated to 32 bits and offset the given value. |
| DbTag.ConditionsChecked | src/utils/templates/db.rs:63-70 | An accepted configuration holds exactly the given where/and/or objects, with safe keys. |
| DbTag.ValToSeaLossless | src/utils/templates/db.rs:244-264 | Binding a JSON value loses nothing: it reads back as the same value (integers within i64/u64). |
| DbTag.EqClauses | src/utils/templates/db.rs:146 | One "`key` = ?" clause per condition entry. |
| DbTag.Values | src/utils/templates/db.rs:147 | One bound value per condition entry. |
| DbTag.PushConds | src/utils/templates/db.rs:144-156 | The loop appends, in entry order, a clause and a bound value per entry. |
| DbTag.BuildWhere | src/utils/templates/db.rs:142-167 | The where clauses and the parameters are those of the where, and, or conditions, the or-group wrapped in parentheses when non-empty. |
| DbTag.BuildSql | src/utils/templates/db.rs:125-184 | The statement and parameters are `Sql(cfg)` and `Params(cfg)`, which the lemmas below characterise. |
| DbTag.SqlOnlySafeChars | src/utils/templates/db.rs:125-184 | For a valid configuration the SQL text contains no quote, ';', '-', '#' or backslash: no value reaches the text. |
| DbTag.PlaceholdersMatchParams | src/utils/templates/db.rs:125-184 | For a valid configuration the number of '?' equals the number of bound parameters. |
| DbTag.ParamsInClauseOrder | src/utils/templates/db.rs:142-167 | Parameters are the where values first and the or values last, one per entry. |
| DbTag.ClausesPresent | src/utils/templates/db.rs:169-182 | WHERE appears exactly when some condition is given; OFFSET appears only after LIMIT. |
| DbTag.OrderEmitted | src/utils/templates/db.rs:173-175 | The order clause is "ORDER BY `field` ASC" or "... DESC". |
| DbTag.ValidateAll | src/utils/templates/db.rs:57-61 | the select list passes exactly when every field is a safe identifier |
| ChapterHandler.Decode | src/handlers/chapter.rs:46-73 | With `{s_cid}` in the chapter URL a missing `s_cid` is refused, and one without '_' means page 1; without it a missing `cid` is refused, and a missing page means page 1. |
| ChapterHandler.Ids | src/handlers/chapter.rs:74-81 | Ids are returned exactly when decoding succeeds with a non-zero cid; page 0 becomes page 1, so both are at least 1. |
| ChapterHandler.SplitPair | src/handlers/chapter.rs:50-53 | "cid_page" splits at its one '_' into the two numbers. |
| ChapterHandler.SCidRoundTrip | src/handlers/chapter.rs:47-57 | The `{s_cid}` segment written for (cid, page) decodes back to (cid, page). |
| ChapterHandler.ExtractIdWithExt | src/handlers/chapter.rs:64 | `extract_id` of "n.ext" is n. |
| ChapterHandler.PlainRoundTrip | src/handlers/chapter.rs:61-73 | Without `{s_cid}`, a numeric cid (with or without an extension) and page decode back; no page means page 1. |
| ChapterHandler.FindChapter | src/handlers/chapter.rs:97-104 | The index of the first chapter with the id, and None exactly when no chapter has it. |
| ChapterHandler.Neighbours | src/handlers/chapter.rs:105-120 | The next link is the following chapter's first page, or the landing page after the last chapter; the previous link likewise. |
| ChapterHandler.NeighboursMutual | src/handlers/chapter.rs:110-120 | Neighbouring chapters link to each other's first page. |
| ChapterHandler.FirstGt | src/handlers/chapter.rs:16-17 | The position of the first '>', and None exactly when there is none. |
| ChapterHandler.BrToNewline | src/handlers/chapter.rs:133 | Rewriting `<br ...>` tags never makes the text longer. |
| ChapterHandler.BrFreeUnchanged | src/handlers/chapter.rs:133 | Text without '<' is left as it is. |
| ChapterHandler.BrTagBreaks | src/handlers/chapter.rs:16-17 | A "<br />" tag becomes one line break. |
| ChapterHandler.NotBrKept | src/handlers/chapter.rs:16-17 | A tag without whitespace after its third character is copied unchanged. |
| ChapterHandler.BareBrKept | src/handlers/chapter.rs:16-17 | "<br>" and "<br/>" need whitespace after "br" to match, so they are kept as written. |
| ChapterHandler.LinesPage | src/handlers/chapter.rs:135-158 | A chapter with no more lines than configured is shown whole on one page; otherwise a page beyond `ceil(lines / n)`, or n = 0, is not found, and a found page holds that page's lines, with links that agree with the page count. |
| ChapterHandler.SkipTakePage | src/handlers/chapter.rs:167-172 | Skipping `(page-1)·per` clusters and taking `per` is the page's slice. |
| ChapterHandler.GraphemesPage | src/handlers/chapter.rs:160-188 | (corrected) Zero per page is the `div_ceil` panic; a page past `ceil(clusters / per)` is not found; a found page reports that count, holds its slice of clusters, and its links agree with the count. |
| ChapterHandler.GraphemesPageAsWritten | src/handlers/chapter.rs:163 | As written, the shadowing `let max_pid` leaves the reported page count at 1 while accepting the same pages. |
| ChapterHandler.MaxPageShadowed | src/handlers/chapter.rs:160-202 | With two clusters at one per page, page 1 links to page 2 but reports a single page as written; the corrected page reports two. |
| ChapterHandler.Content | src/handlers/chapter.rs:129-193 | (corrected) An empty file shows the "pending" text on one page; an unknown split mode wraps every line of the `<br>`-rewritten text on one page. |
| ChapterHandler.PageLinksAgree | src/handlers/chapter.rs:134-192 | In every mode the previous and next page links agree with the page count the page reports. |
| ChapterHandler.ChapterAt | src/handlers/chapter.rs:97-204 | A shown chapter is the one with the requested id, from the book's list, with the requested page; an id not in the list is not found. |
| ChapterHandler.View | src/handlers/chapter.rs:28-211 | (corrected) Without the template or for ids that do not decode the page is not found; then a "*" confusion of 0 is the `source_id` division panic; a page is shown only when the book exists, its chapter has the decoded id and its page is at least 1; an unknown chapter is not found. |
| ChapterHandler.DecodeIds | src/handlers/chapter.rs:40-81 | The handler's mutable `cid`/`page` decoding computes `Ids`. |
| ChapterHandler.SplitByLines | src/handlers/chapter.rs:135-158 | The mode-1 branch computes `LinesPage`. |
| ChapterHandler.SplitByGraphemes | src/handlers/chapter.rs:160-188 | (corrected) The mode-2 branch computes `GraphemesPage`. |
| ChapterHandler.PageContent | src/handlers/chapter.rs:129-193 | (corrected) The content computation gives `Content`. |
| ChapterHandler.ShowChapter | src/handlers/chapter.rs:88-204 | (corrected) After the book row is loaded, the handler gives `ChapterAt` of the content. |
| ChapterHandler.GetChapter | src/handlers/chapter.rs:28-211 | (corrected) The whole handler gives `View`. |
| IndexList.TotalPageIsDivCeil | src/handlers/index_list.rs:63-64 | Without wrap-around the page count `(len + n - 1) / n` is the ceiling of len / n. |
| IndexList.TotalPageEmpty | src/handlers/index_list.rs:64 | No chapters make no pages. |
| IndexList.LastTwelve | src/handlers/index_list.rs:52 | The last min(12, len) chapters, as a suffix of the list. |
| IndexList.Ends | src/handlers/index_list.rs:53-62 | The first and last chapter, or the default chapter pointing at the info page for an empty list. |
| IndexList.PageUrls | src/handlers/index_list.rs:77-84 | One entry per page 1..total, numbered in order, linking to that page, selected exactly when it is the current page. |
| IndexList.SelectedIsCurrent | src/handlers/index_list.rs:78-84 | Exactly the current page is selected when it is one of the pages, and none otherwise. |
| IndexList.BuildPageUrls | src/handlers/index_list.rs:77-84 | The loop builds `PageUrls`. |
| IndexList.Cut | src/handlers/index_list.rs:68-73 | The slice never holds more than n chapters; a start past the end is the slicing panic. |
| IndexList.CutChapters | src/handlers/index_list.rs:68-73 | The slicing statements compute `Cut`. |
| IndexList.IndexAt | src/handlers/index_list.rs:45-95 | A zero `index_list_num` is the division panic; a shown page lies in 1..total, with the page list, neighbour links, last twelve chapters and end chapters the handler inserts. |
| IndexList.LinksFollowPageList | src/handlers/index_list.rs:75-84 | The previous and next links are the neighbouring entries of the page list, or the info page before the first and after the last page; only the current page is selected. |
| IndexList.EmptyRowsNotFound | src/handlers/index_list.rs:64-67 | A book without chapters has no page to show. |
| IndexList.EmptyListNotFound | src/handlers/index_list.rs:28-67 | The handler never shows an empty chapter list. |
| IndexList.SliceBounds | src/handlers/index_list.rs:69-70 | Without wrap-around the slice starts at (page-1)·n, inside the list, and ends n later. |
| IndexList.ShownSlice | src/handlers/index_list.rs:63-73 | With no wrap-around, a page is shown exactly when it is one of the ceil(len / n) pages, and shows the chapters [(page-1)·n, min(page·n, len)). |
| IndexList.Index | src/handlers/index_list.rs:28-103 | Without the template, for a page that does not parse or page 0 the page is not found; then a "*" confusion of 0 is the `source_id` division panic; then a missing book is not found; a shown page is the parsed page of the first book row, under the book's source id. |
| IndexList.ShowIndex | src/handlers/index_list.rs:51-95 | The part after the book row is loaded computes `IndexAt`. |
| IndexList.GetIndexList | src/handlers/index_list.rs:28-103 | The whole handler computes `Index`. |
| SortHandler.Position | src/handlers/sort.rs:41-43 | The first index whose code matches, and None exactly when no category has the code. |
| SortHandler.SortIdAsWritten | src/handlers/sort.rs:37-44 | As written, with an `{id}` sort URL the number in the path is used directly as the zero-based index. |
| SortHandler.SortId | src/handlers/sort.rs:37-47 | (corrected) With `{id}` the category is found exactly when the number is 1..len, and is number - 1; otherwise exactly when the code segment names a category, which is then the first one with that code. |
| SortHandler.SortIdRoundTrip | src/handlers/sort.rs:37-85 | The link written for category i reads back as i when corrected, and as i + 1 as written. |
| SortHandler.LastCategoryNotFound | src/handlers/sort.rs:37-47 | With a single category its own link reads as index 1 as written, which is past the list, so the page is not found. |
| SortHandler.SortIdByCode | src/handlers/sort.rs:40-43 | Without `{id}`, ".../code" names the first category with that code. |
| SortHandler.OffsetSkipsPages | src/handlers/sort.rs:53 | The offset is (page-1)·per, saturating at u64::MAX, and page 0 wraps to the saturated offset. |
| SortHandler.MaxPage | src/handlers/sort.rs:60 | There is always at least one page. |
| SortHandler.MaxPageCovers | src/handlers/sort.rs:60 | The pages hold every counted book, and the last page is not empty unless it is the only one. |
| SortHandler.JumpPages | src/handlers/sort.rs:80-88 | One entry per page of the window, in order, each linking to its own page and selected exactly when it is the current page. |
| SortHandler.BuildJumpPages | src/handlers/sort.rs:80-88 | The loop builds `JumpPages`. |
| SortHandler.SortPage | src/handlers/sort.rs:52-98 | A zero page size is the `div_ceil` panic; the page is shown exactly when it is at most the page count; it shows the rows at the page's offset, the neighbour links and the pagination window. |
| SortHandler.Category | src/handlers/sort.rs:21-105 | (corrected) No template, no code, an unparsable page or a code that names no category is not found; a missing page is page 1. |
| SortHandler.PageZeroShown | src/handlers/sort.rs:33-79 | Page 0 is not refused: its offset saturates, there is no previous link, and the next link is page 1. |
| SortHandler.JumpSelectsCurrent | src/handlers/sort.rs:80-88 | The window holds the current page, selected; every entry is selected exactly when it is the current page. |
| SortHandler.GetSort | src/handlers/sort.rs:21-105 | (corrected) The handler, with its mutable `page` and `sort_id`, computes `Category`. |
| SortHandler.ShowSort | src/handlers/sort.rs:52-98 | The paging part computes `SortPage`. |
| Conf.WithSortUrls | src/utils/conf.rs:19-23 | Every category keeps its fields except its link, which becomes `sort_url(code, position + 1, 1)`; nothing else in the configuration changes. |
| Conf.WithSortUrlsIdempotent | src/utils/conf.rs:19-23 | Filling the links twice is filling them once. |
| Conf.FillSortUrls | src/utils/conf.rs:19-23 | The loop over `sort_arr` computes `WithSortUrls`. |
| Conf.LoadConfigSync | src/utils/conf.rs:11-25 | An unreadable file and undecodable JSON are errors and nothing else is; a decoded configuration comes back with its category links filled. |
| Routes.TrimSuffix | src/routes/app.rs:61-69 | The route is a prefix of the template; without "}." it is the template, otherwise the template cut at its last '.'. |
| Routes.SortRouteWithoutId | src/routes/app.rs:44 | A sort template without `{id}` is registered as trimmed, with nothing replaced. |
| Routes.SortRouteRenamesId | src/routes/app.rs:44 | With `{id}` in a template of literal text and placeholders without `{code}`, the route is the trimmed template with `{id}` renamed `{code}`: no `{id}` is left, and the segment the route binds as `code` is the text a link wrote for `{id}`. |
| ApiJson.Success | src/services/json.rs:21-29 | A success carries the message and data and no errors. |
| ApiJson.Fail | src/services/json.rs:31-39 | A failure carries the message and errors and no data. |
| ApiJson.IntoResponse | src/services/json.rs:43-50 | Every envelope, failures included, goes out as status 200 with a JSON content type and the envelope as body. |
| LangTailService.MapLangTail | src/services/lang_tail.rs:193-198 | The two URLs become those of the keyword's public id (the index at page 1); no other field changes. |
| LangTailService.MapLangTailIdempotent | src/services/lang_tail.rs:193-198 | Mapping a mapped row changes nothing more. |
| LangTailService.MapLangTails | src/services/lang_tail.rs:200-202 | Every row mapped, in order, none added or dropped. |
| LangTailService.Running.Insert | src/services/lang_tail.rs:115-118 | The id is inserted, and `true` is returned exactly when it was not already running. |
| LangTailService.Running.Remove | src/services/lang_tail.rs:15-22 | The guard's drop removes exactly the id. |
| LangTailService.Running.GenLangTail | src/services/lang_tail.rs:113-127 | A run for an id already running does nothing; otherwise it runs `gen_lang_tail_impl`, and afterwards the running set is as before. |
| LangTailService.FreshMeansRecent | src/services/lang_tail.rs:137-143 | (corrected) Given the newest uptime, without wrap-around, a run is skipped exactly when the newest keyword is at most a week old; a book without keywords is never skipped. |
| LangTailService.LatestDecoded | src/services/lang_tail.rs:131-137 | As written, the newest uptime reaches the freshness test exactly when a row exists and the query returns every column `LangTail` decodes (langid, langname, sourceid, uptime). |
| LangTailService.FreshnessNeverSkips | src/services/lang_tail.rs:131-143 | As written, `SELECT uptime` never decodes as a `LangTail`, so no uptime reaches the test and a run is never skipped as fresh. |
| LangTailService.RecentKeywordsRegenerated | src/services/lang_tail.rs:131-143 | Keywords stored a minute ago: the intended test skips the run, the query as written regenerates them. |
| LangTailService.EngineNamesAre | src/services/lang_tail.rs:148-158 | An engine contributes a name exactly when one of its captures does. |
| LangTailService.NamesAre | src/services/lang_tail.rs:144-160 | The set collects a name exactly when some engine contributes it. |
| LangTailService.InsertCapture | src/services/lang_tail.rs:149-158 | One capture adds its names: Baidu's list without quotes, cut at ','; any other engine's capture as one name. |
| LangTailService.CollectNames | src/services/lang_tail.rs:144-160 | The nested loops collect `Names(engines)`. |
| LangTailService.KeptNames | src/services/lang_tail.rs:173-176 | A name is written exactly when it is enumerated, non-empty and not the book's own name; none is written exactly when every enumerated name is "" or the book's name. |
| LangTailService.Bound | src/services/lang_tail.rs:179-181 | Three values per written name: the book id, the name, the time. |
| LangTailService.ValuesRows | src/services/lang_tail.rs:171-182 | (corrected) The VALUES clause has one "(?, ?, ?)" row per kept name, separated by ',', and the values are `Bound` of the kept names in order. |
| LangTailService.TuplesPlaceholders | src/services/lang_tail.rs:177-178 | k rows hold 3k placeholders. |
| LangTailService.PlaceholdersMatchValues | src/services/lang_tail.rs:171-189 | The statement binds exactly one value per placeholder. |
| LangTailService.AsWrittenWhenFirstKept | src/services/lang_tail.rs:173-178 | When the first enumerated name is written, the clause as written equals the corrected one. |
| LangTailService.LeadingComma | src/services/lang_tail.rs:177 | A skipped first name leaves ",(?, ?, ?)" as written, where "(?, ?, ?)" is intended. |
| LangTailService.BatchUpsertLangtail | src/services/lang_tail.rs:168-191 | (corrected) The loop builds the corrected clause and values, with the ',' placed between written rows. |
| LangTailService.GenLangTailImpl | src/services/lang_tail.rs:129-166 | (corrected) A run is skipped exactly when the newest keyword is fresh; no upsert exactly when it is not fresh and no name was collected. |
| LangTailService.EmptyValuesUpsert | src/services/lang_tail.rs:161-189 | When every collected name is "" or the book's own name, the run still upserts, with an empty VALUES clause and no bound value. |
| LangTailService.UpsertBindsKeptNames | src/services/lang_tail.rs:161-189 | An upsert binds each kept name with the book and the time, and these are exactly the collected names other than "" and the book's own name. |
| LangTailService.CheckFresh | src/services/lang_tail.rs:137-143 | (corrected) Given the newest uptime, the freshness test computes `StillFreshAt`. |
| LangTailService.RunImpl | src/services/lang_tail.rs:129-166 | (corrected) The step-by-step run computes `GenLangTailImpl`. |
| LangTailService.LangTailFlow | src/services/lang_tail.rs:56-80 | A hit answers unmapped, without a query; on a miss a query error is returned, no row is the unwrap panic, and a found row is stored unmapped and returned mapped. |
| LangTailService.LangTailsFlow | src/services/lang_tail.rs:82-110 | Nothing when long tails are off; otherwise the shared read-through flow, with the rows mapped only when they were queried. |
| LangTailService.LangTailsCacheRaw | src/services/lang_tail.rs:100-109 | An empty or failed result is not cached; loaded rows are cached unmapped and returned mapped. |
| LangTailService.LangKeysDiffer | src/services/lang_tail.rs:60-91 | The single-row and row-list keys never coincide when digests are hex. |
| LangTailService.GetLangTail | src/services/lang_tail.rs:56-80 | The handler on the shared connection computes `LangTailFlow` under its key. |
| LangTailService.GetLangTailArray | src/services/lang_tail.rs:82-110 | The handler on the shared connection computes `LangTailsFlow` under its key. |
| LangTailService.Running.constructor | src/services/lang_tail.rs:14 | the set of books whose long tails are being generated starts empty |
| UserService.ErrorTextInjective | src/services/user.rs:10-29 | The messages tell the errors apart: two errors have the same text exactly when they are the same error. |
| UserService.MapShelf | src/services/user.rs:208-218 | Only the link changes; an entry without a chapter gets an empty link. |
| UserService.ShelfLinkDecodes | src/services/user.rs:210-216 | With a reversible id obfuscation, the link names the entry's book and chapter by public ids that decode back to them. |
| UserService.BookshelfMapping | src/services/user.rs:208-218 | The in-place loop maps every entry of the slice. |
| UserService.Marks | src/services/user.rs:185-187 | n copies of "?". |
| UserService.PlaceholdersCount | src/services/user.rs:185-189 | The IN list has exactly n placeholders and splits at ',' back into them. |
| UserService.ArticleIds | src/services/user.rs:181-184 | One bound value per entry. |
| UserService.CollectVals | src/services/user.rs:181-184 | The push loop binds each entry's book id, in order. |
| UserService.FindNovel | src/services/user.rs:197-200 | The first loaded book with that source id, and None exactly when there is none. |
| UserService.Joined | src/services/user.rs:194-203 | The join keeps at most the bookcase's entries. |
| UserService.JoinedSound | src/services/user.rs:194-203 | Every joined pair is a bookcase entry with a loaded book of the same source id. |
| UserService.JoinedKeepsFound | src/services/user.rs:196-202 | An entry whose book was loaded is kept, paired with that book. |
| UserService.JoinedAllFound | src/services/user.rs:194-203 | When every book was loaded the join keeps every entry, in order. |
| UserService.BookcaseList | src/services/user.rs:166-205 | A query error propagates, an empty bookcase loads nothing, and a loader error propagates. |
| UserService.MapShelves | src/services/user.rs:208-218 | Every entry mapped, in order. |
| UserService.BookcaseListJoins | src/services/user.rs:180-204 | The list holds, in bookcase order, the mapped entries whose book was loaded, each with its book; every entry with a loaded book appears. |
| UserService.GetBookcaseList | src/services/user.rs:166-205 | The in-place mapping, the push loop and the join compute `BookcaseList`. |
| UserService.Salt | src/services/user.rs:67-69 | The salt is the last 16 characters of the UUID's md5 text. |
| UserService.FindByName | src/services/user.rs:134-144 | A row whose name collates equal to the given one under the table's collation, and None exactly when no row's name does. |
| UserService.FindByUid | src/services/user.rs:101-117 | A row whose id the database's text-to-number conversion reads from the given text, and None exactly when there is none. |
| UserService.GetUser | src/services/user.rs:124-158 | A query error propagates; a name that collates equal to no row's name is `UserNotExist`; for a known name the result is the row as read exactly when its stored hash equals the password's hash under the row's salt, and `PasswordError` otherwise. |
| UserService.IsUserLogin | src/services/user.rs:97-122 | Success exactly when a row whose id the text converts to exists and its stored hash equals the given text, compared without hashing; every other outcome is `LoginAuthFailed` or the query error. |
| UserService.CreateUser | src/services/user.rs:31-95 | The table grows by at most the new row, and only when no row's name or e-mail collates equal to the given ones and the insert took; a taken name and then a taken e-mail (under the collation, so "Alice" beside "alice" under a case-insensitive one) fail first. |
| UserService.FindByNameAppend | src/services/user.rs:94 | A name that collates equal to no row's name is found at the appended row. |
| UserService.CreatedUserIsInserted | src/services/user.rs:50-94 | A created account is the inserted row read back, and its password checks. |
| UserService.FindByConvertedUid | src/services/user.rs:101-117 | With unique ids, any text the database converts to a user's id ("5", and "05" or "5abc" when the conversion reads them so) finds that user. |
| UserService.LoginCookiesAuthenticate | src/services/user.rs:97-158 | When the database reads decimal id texts as their ids, the id text and stored hash of a logged-in user pass `is_user_login`. |
| BookcaseHandler.EntryCount | src/handlers/user/bookcase.rs:74-78 | The count is zero exactly when the user has no row for the book. |
| BookcaseHandler.UpdateEntries | src/handlers/user/bookcase.rs:79-89 | Every row of the user for the book gets the new chapter id and name; every other row is unchanged. |
| BookcaseHandler.Vote | src/handlers/user/bookcase.rs:91-97 | The book's `goodnum` goes up by one; no other book changes, and an unknown book changes nothing. |
| BookcaseHandler.Add | src/handlers/user/bookcase.rs:61-115 | No template is the error page; a zero id, an empty name or no user cookie fails with no write; a success means a write happened or the user already had the book. |
| BookcaseHandler.AddExistingUpdates | src/handlers/user/bookcase.rs:79-114 | A book the user already has gets, on every one of the user's rows for it, the request's chapter id and chapter name (0 and "" when absent), and no other row or vote changes; it succeeds exactly when the update does, and a failed update changes nothing. |
| BookcaseHandler.AddNewInserts | src/handlers/user/bookcase.rs:72-114 | A new book gets one vote and one appended row holding the new row id, the user, the internal book id, the book name, and the chapter id and name as given (0 and "" when absent). |
| BookcaseHandler.CountFailureDuplicates | src/handlers/user/bookcase.rs:75-110 | A failed count (read as 0) takes the insert path, adding a second row for a book the user already has. |
| BookcaseHandler.DeleteEntries | src/handlers/user/bookcase.rs:128-131 | A row is kept exactly when it is not the user's row with that case id. |
| BookcaseHandler.Del | src/handlers/user/bookcase.rs:117-141 | No template is the error page; a zero case id or no user fails with no write; success exactly when the delete ran, removing only the user's row with that id; votes never change. |
| BookcaseHandler.DelKeepsOthers | src/handlers/user/bookcase.rs:128-131 | Deleting never removes another user's row. |
| BookcaseHandler.BookcaseDb.AddBookcase | src/handlers/user/bookcase.rs:61-115 | The response and the new tables are those of `Add`. |
| BookcaseHandler.BookcaseDb.DelBookcase | src/handlers/user/bookcase.rs:117-141 | The response and the new tables are those of `Del`. |
| BookcaseHandler.LoginAuth | src/handlers/user/bookcase.rs:143-168 | Without both cookies the request is redirected without clearing; it passes exactly when `is_user_login` accepts the cookies; with both cookies present, any other outcome redirects and clears them. |
| BookcaseHandler.LoginCookiesPass | src/handlers/user/bookcase.rs:151-158 | When the database reads decimal id texts as their ids, the cookies a login sets pass the middleware. |
| RegisterHandler.IndexOf | src/handlers/user/register.rs:20-22 | the result is the first position holding the character, or none when no position holds it |
| RegisterHandler.LastIndexOf | src/handlers/user/register.rs:20-22 | the result is the last position holding the character, or none when no position holds it |
| RegisterHandler.MatchEmailIff | src/handlers/user/register.rs:20-22 | trying only the first '@' and the last '.' accepts exactly the addresses the e-mail pattern matches |
| RegisterHandler.FieldMessage | src/handlers/user/register.rs:59-63 | an empty field yields the "empty" message; a non-empty one yields the pattern message exactly when it fails its pattern; at most one message per field |
| RegisterHandler.RegisterMessages | src/handlers/user/register.rs:57-75 | at most three messages; none exactly when username, password and e-mail all match their patterns; the username's message comes first |
| RegisterHandler.PushFieldMessage | src/handlers/user/register.rs:59-63 | pushing one field's check appends exactly that field's message to the list |
| RegisterHandler.ValidateRegister | src/handlers/user/register.rs:57-75 | the pushed message list, with the e-mail tested by the direct check, equals the messages of the three field patterns |
| RegisterHandler.LoginCookies | src/handlers/user/register.rs:80-84 | the jar holds the user's id, name and password hash under the three cookie names, each kept a year, only the password HTTP-only, every other cookie unchanged |
| RegisterHandler.PostRegister | src/handlers/user/register.rs:50-90 | a missing template is an error; any message fails the form with the table untouched; success happens only when create_user succeeds and then sets the login cookies; a failure leaves the jar as it was |
| RegisterHandler.RegisteredCookiesAuthenticate | src/handlers/user/register.rs:79-84 | after a successful registration the cookies it set pass the login check against the new user table |
| RegisterHandler.Logout | src/handlers/user/register.rs:92-98 | the three login cookies are gone and every other cookie is kept |
| LoginHandler.LoginMessages | src/handlers/user/login.rs:47-59 | at most two messages; none exactly when username and password match their patterns; an empty username's message comes first and an empty password's last |
| LoginHandler.ValidateLogin | src/handlers/user/login.rs:47-59 | the pushed message list equals the messages of the two field patterns |
| LoginHandler.PostLogin | src/handlers/user/login.rs:39-75 | a missing template is exactly the error case; any message fails the form; success holds exactly when the form passes and get_user finds the user, and then sets that user's cookies; a get_user error is reported by its text with the jar unchanged |
| LoginHandler.LoginFailureReasons | src/handlers/user/login.rs:63-73 | a failed lookup reports "user does not exist" exactly when no row's name collates equal to the given one, and otherwise the wrong-password message |
| LoginHandler.LoginThenLogout | src/handlers/user/login.rs:63-68 | the cookies a successful login sets pass the login check, and after logout neither the id nor the password cookie is found |
| Cookies.GetCookieValue | src/utils/cookie.rs:5-7 | a value is found exactly when the jar holds the name, and it is that cookie's value |
| Cookies.SetCookieValue | src/utils/cookie.rs:9-18 | the named cookie now holds the value on path "/" with SameSite Lax and the given age and flags; the names are the old ones plus this one; every other cookie is unchanged |
| Cookies.RemoveCookie | src/utils/cookie.rs:20-23 | the named cookie is absent afterwards; every other cookie is kept unchanged |
| Cookies.RemoveAfterSet | src/utils/cookie.rs:9-23 | removing a cookie right after setting it on a jar that lacked it gives back the original jar |
| SearchHandler.Limit | src/handlers/search.rs:63 | the number of results shown is the configured limit capped at 100 |
| SearchHandler.SearchQuery | src/handlers/search.rs:75-90 | on a version above 6.0 the full-text statement binds the keyword once; otherwise the LIKE statement binds it twice |
| SearchHandler.SearchGates | src/handlers/search.rs:56-74 | a delay of -1 closes the search first; then a throttle cookie refuses it; then a non-empty keyword shorter than the minimum in grapheme clusters; the page is rendered exactly when no gate applies |
| SearchHandler.RenderedSearch | src/handlers/search.rs:63-102 | an empty keyword runs no query; the throttle cookie (HTTP-only, secure, for the delay) is set exactly when the keyword is non-empty and the delay positive; the random fallback list is loaded exactly when nothing matched |
| SearchHandler.RunSearch | src/handlers/search.rs:48-107 | the step-by-step handler, with its early returns and reassigned rows, cookie jar and fallback list, gives the same response as the gated search definition |
| RankHandler.FindTitle | src/handlers/rank.rs:28-30 | a title is found exactly when some entry has the code, and then the table holds that code with that title |
| RankHandler.RankItems | src/handlers/rank.rs:16-26 | every entry of the table has one of the nine rank codes and a non-empty title |
| RankHandler.RankNavCodes | src/handlers/rank.rs:28-30 | the table gives a title for exactly the nine rank codes, and that title is non-empty |
| RankHandler.RankCodesDistinct | src/handlers/rank.rs:16-26 | no code appears twice in the table |
| RankHandler.BuildRankNav | src/handlers/rank.rs:68-75 | one link per table entry, in table order, each with the entry's title and rank URL and selected when its code is the page's code |
| RankHandler.NavSelection | src/handlers/rank.rs:69-74 | for a code of the table exactly one link is selected, the code's own; for no code (the top page) none is |
| RankHandler.RankQueryAsWritten | src/handlers/rank.rs:61-66 | the rank statement as written has a '?' as its order column and binds the raw path text to it |
| RankHandler.RankOrderIgnoresCode | src/handlers/rank.rs:62 | the statement text as written is the same for every code, so the code cannot choose the order column |
| RankHandler.RankQuery | src/handlers/rank.rs:61-66 | (corrected) the statement splices a code of the table into the ORDER BY and binds nothing |
| RankHandler.RankQueryOrdersByKey | src/handlers/rank.rs:61-66 | two codes of the table give the same corrected statement exactly when they are the same code |
| RankHandler.GetRank | src/handlers/rank.rs:39-87 | (corrected) an error exactly when the template is missing, the path has no code or the code is outside the table; otherwise the code's title, the rows of its statement and the navigation with that code selected |
| RankHandler.TopRows | src/handlers/rank.rs:104-135 | one row per category, in order, mapping its caption to the three lists by all, month and week visits of the 1-based category id |
| RankHandler.GetTop | src/handlers/rank.rs:89-154 | an error exactly when the template is missing; otherwise the rows of every category and a navigation of all nine links with none selected |
| InfoHandler.Route | src/handlers/info.rs:29-34 | on a 3-in-1 site a book id leads to the first page of its chapter index (the long-tail index for a long-tail path); otherwise to the info or long-tail page |
| InfoHandler.Info3in1 | src/handlers/info.rs:22-50 | a path without an id is exactly the not-found case; otherwise the route of the extracted id |
| InfoHandler.View | src/handlers/info.rs:63-90 | the view keeps the row, chapters and ids; the last chapters are the last twelve (or all when fewer); first and last chapter are the list's ends, or the placeholder pointing at the book page when there are none |
| InfoHandler.GetInfo | src/handlers/info.rs:52-97 | a zero confusion value under "*" is exactly the division-by-zero case; otherwise not found exactly when the book has no row, else the view of its first row, with long-tail generation started for the book exactly when long tails are on |
| InfoHandler.GetLang | src/handlers/info.rs:99-146 | a zero source id is not found; a query error is not found and a missing long-tail row panics; otherwise the book of the row's source id, not found when it has no row, shown under the long tail's name and links |
| InfoHandler.LangOverrides | src/handlers/info.rs:115-130 | the long-tail page shows the long tail's name and links while keeping the book's id, and placeholder chapters still point at the book's own page |
| Request.ParseHttpUrl | src/utils/request.rs:40-47 | the URL passes exactly when its trimmed text parses with the http or https scheme; a parse failure is an invalid-URL error and any other scheme an unsupported-scheme error naming it |
| Request.TrimQuotes | src/utils/request.rs:51 | the result is no longer than the label and neither starts nor ends with a double quote |
| Request.EncodingFromLabel | src/utils/request.rs:50-59 | gb2312 and gbk give GBK and gb18030 gives GB18030; any other label gives the label table's encoding for it, or UTF-8 when the table does not know it. |
| Request.NormalizeLower | src/utils/request.rs:51 | lower-casing commutes with trimming and unquoting, so the compared label ignores ASCII case |
| Request.LabelCaseInsensitive | src/utils/request.rs:50-59 | the encoding chosen for a label does not depend on its ASCII case |
| Request.Exp | src/utils/request.rs:138-139 | the shift exponent is capped at ten, so the factor is 2 to that power, between 1 and 1024, and never overflows |
| Request.BackoffMs | src/utils/request.rs:140 | the back-off before jitter never exceeds the fetcher's maximum |
| Request.BackoffMonotone | src/utils/request.rs:138-140 | the back-off never shrinks from one attempt to a later one, and is constant from the tenth attempt on |
| Request.SleepMs | src/utils/request.rs:140-143 | the sleep is the back-off plus a jitter of at most half of it plus one, so at most one and a half times the maximum plus one |
| Request.BackoffSleep | src/utils/request.rs:137-144 | the step-by-step computation with its reassigned millisecond count gives the specified sleep |
| Request.DefaultBackoff | src/utils/request.rs:121-123 | with the default settings the first two back-offs are 80 and 160 ms and none exceeds 1500 ms before jitter |
| Request.Attempts | src/utils/request.rs:149-160 | at least one attempt is made from the starting one |
| Request.AttemptsCount | src/utils/request.rs:149-160 | at most retry_times + 1 attempts are made, with exactly one sleep between two consecutive attempts |
| Request.AttemptsRetried | src/utils/request.rs:151-157 | every attempt but the last received a retryable non-success status and was followed by its back-off sleep |
| Request.AttemptsLast | src/utils/request.rs:150-159 | the last attempt decides: a transport error, the body of a success, or its non-success status, which was either not retryable or on the final attempt |
| Request.DefaultAttempts | src/utils/request.rs:121-123 | with the default settings a fetch makes at most three attempts and at most two sleeps, and none exactly when the URL is refused |
| Request.GetText | src/utils/request.rs:146-162 | the retry loop, with its early returns and continue, gives the result, attempt count and sleeps of the URL check followed by the specified attempts; the loop never falls through |
| TemplateFunctions.AsStr | src/utils/templates/str.rs:13 | a string is found exactly when the value is a string |
| TemplateFunctions.AsU64 | src/utils/templates/str.rs:72 | a number is found exactly when the value is a non-negative integer below 2^64 |
| TemplateFunctions.RequiredStr | src/utils/templates/str.rs:10-14 | a missing argument and a non-string argument are two distinct errors; otherwise the argument's string |
| TemplateFunctions.GetConfigFn | src/utils/templates/str.rs:8-20 | succeeds exactly when the key argument is a string; "is_lang" gives the long-tail switch and every other key the empty string |
| TemplateFunctions.RewriterFn | src/utils/templates/str.rs:26-45 | succeeds exactly for the types search, rank, top and history, always with a string; any other string type is an error naming it |
| TemplateFunctions.RewriterRankCode | src/utils/templates/str.rs:34-40 | a rank link with a string code is that code's rank URL; without a usable code it is the link of "allvisit" |
| TemplateFunctions.Utf8Len | src/utils/templates/str.rs:76 | a character takes one to four bytes in UTF-8 |
| TemplateFunctions.CutIndexSpec | src/utils/templates/str.rs:77 | the cut index found is the prefix of exactly the requested number of bytes, and none is found exactly when no prefix has that many bytes |
| TemplateFunctions.SubstrCases | src/utils/templates/str.rs:64-82 | a title within the byte limit (20 by default) is returned unchanged; a longer one panics exactly when the limit falls inside a character, and otherwise is its prefix of exactly that many bytes followed by "..." |
| TemplateFunctions.SubstrBadLength | src/utils/templates/str.rs:70-74 | a length that is present but not a non-negative integer is an error whatever the title |
| AdminHandler.EnvToken | src/handlers/admin/index.rs:24 | the key is the variable's value, or the empty string when it is unset |
| AdminHandler.DefaultKeyRefused | src/handlers/admin/index.rs:25-30 | a release build refuses with the default-key message exactly when the key is empty or "admin_token" |
| AdminHandler.CheckPasses | src/handlers/admin/index.rs:24-35 | a request passes exactly when the key is usable, the token is the MD5 of the key and the time (0 when absent), the debug build does not overflow on time + 300, and that (wrapped) expiry is not before now |
| AdminHandler.FutureNotExpired | src/handlers/admin/index.rs:31-35 | a matching token whose time plus 300 seconds is not before now passes |
| AdminHandler.WrappedExpiry | src/handlers/admin/index.rs:33 | a matching token whose expiry passes 2^64 wraps and counts as expired in a release build once now is past the wrapped value, and panics a debug build |
| AdminHandler.Refusal | src/handlers/admin/index.rs:28-34 | a refusal is a failure with the message "token error" carrying the one reason |
| AdminHandler.ConfGet | src/handlers/admin/index.rs:49-72 | an overflow panic is the only error; success exactly when the check passes and the configuration serialises, and then the data is that serialisation |
| AdminHandler.Settings.constructor | src/utils/conf.rs:6-8 | the settings hold the given conf.json contents and the configuration loaded from it |
| AdminHandler.Settings.ConfEdit | src/handlers/admin/index.rs:20-47 | the answer is the specified response; on success conf.json holds the serialised body and the body becomes the configuration; otherwise neither changes |
| AdminHandler.ConfEditResponse | src/handlers/admin/index.rs:20-47 | an overflow panic is the only error; success exactly when the check passes, the body serialises and the file write succeeds; after a passed check a failure is a serialise or a save error |
| AdminHandler.Index | src/handlers/admin/index.rs:74-103 | the page is served exactly when the key is set, the request carries it, and a release build finds it not the default; the page carries the template folders, the current time and the MD5 of key and time |
| AdminHandler.IssuedTokenAccepted | src/handlers/admin/index.rs:74-103 | the token the admin page issues is accepted by the configuration endpoints, sent back with its time, at any moment up to 300 seconds later |
| History.GetItem | public/common/js/history.js:77-91 | the stored string under the key, or the empty string when nothing is stored |
| History.UnmatchedRendered | public/common/js/history.js:30-35 | the search for the id at the start or after a "#" finds nothing in a list none of whose ids starts with the id |
| History.HashedHit | public/common/js/history.js:30 | a '#' followed by the id is a match, and the replacement takes the '#' and the id |
| History.RemoveLed | public/common/js/history.js:55-63 | removing an id from a '#'-led list removes that '#' and the id |
| History.RemoveFirst | public/common/js/history.js:55-63 | removing the first id of a list without a leading '#' leaves the '#' that followed it at the front |
| History.RemoveLater | public/common/js/history.js:55-63 | removing a later id of a list without a leading '#' removes the '#' before it |
| History.RemoveBookRendered | public/common/js/history.js:55-66 | on ids that the removed id is not a proper prefix of, removeBook removes exactly the first occurrence of the id from the list and changes nothing when it is unlisted |
| History.SetBookRendered | public/common/js/history.js:29-43 | setBook appends an id that no listed id starts with, after a '#' unless the list was empty |
| History.ItemFields | public/common/js/history.js:7 | a stored item splits into at least six fields starting with the id, and into exactly the six fields when none holds a '#' |
| History.Get | public/common/js/history.js:22-24 | get finds nothing exactly when the stored string is empty |
| History.Entries | public/common/js/history.js:44-54 | every book getBook returns has more than three fields |
| History.SplitRendered | public/common/js/history.js:45 | the list string splits into the ids, after one empty piece when it has a leading '#' |
| History.BooksOfValid | public/common/js/history.js:44-54 | on a valid history getBook returns one item per listed id, in list order |
| History.TracksOfValid | public/common/js/history.js:44-54 | on a valid history the books getBook returns are those of the listed ids, each starting with its id |
| History.Evicted | public/common/js/history.js:14-17 | the eviction loop removes no more books than are listed and leaves fewer than 200 |
| History.LastRead.constructor | public/common/js/history.js:3 | a new history over empty storage is valid and lists no ids |
| History.LastRead.SetItem | public/common/js/history.js:67-76 | the key now holds the value and no other key changes |
| History.LastRead.RemoveItem | public/common/js/history.js:92-100 | the key is gone and no other key changes |
| History.LastRead.SetBook | public/common/js/history.js:29-43 | only the list string changes, to the setBook rewrite of the old one |
| History.LastRead.RemoveBook | public/common/js/history.js:55-66 | only the list string changes, to the removeBook rewrite of the old one |
| History.LastRead.GetBook | public/common/js/history.js:44-54 | the books are the items of the pieces of the list string that have more than three fields |
| History.LastRead.Remove | public/common/js/history.js:25-28 | the item and the first occurrence of its id go, every other item is unchanged and the history stays valid |
| History.LastRead.DropOldest | public/common/js/history.js:14-17 | one round of the eviction loop removes the oldest book's item and id, re-reads the list and keeps the history valid |
| History.LastRead.MakeRoom | public/common/js/history.js:14-17 | the eviction loop removes exactly the oldest books beyond 199, their items included, leaving fewer than 200 and a valid history |
| History.LastRead.Set | public/common/js/history.js:5-21 | with a field missing nothing changes; otherwise the book's item is stored, its id ends the list after a listed id is moved or the oldest books are evicted, and no other item changes except the evicted ones |
| History.LastRead.Append | public/common/js/history.js:19-20 | storing the item and appending the id keeps the history valid and changes no other item |
| History.LastRead.GetFields | public/common/js/history.js:22-24 | get finds nothing exactly when the stored string is empty |
| History.LastRead.RemoveAll | public/common/js/history.js:101-104 | storage is cleared and the history lists no ids |
| History.AdmissibleAfter | public/common/js/history.js:11-18 | whatever set keeps of the list, an id it may add stays admissible and unlisted |
| History.RemoveKeepsValid | public/common/js/history.js:25-28 | removing a listed id's item and the id keeps the history valid |
| History.AddKeepsValid | public/common/js/history.js:19-20 | storing a new book's item and appending its id keeps the history valid |
| History.AppendWellFormed | public/common/js/history.js:19-20 | appending an id that is neither a prefix nor an extension of a listed id keeps the ids well formed |
| History.WithoutKeeps | public/common/js/history.js:25-28 | removing an id keeps the list well formed and leaves only other listed ids |
| UserForms.JsTrim | public/common/js/user.js:4-5 | the trimmed field neither starts nor ends with ECMAScript whitespace |
| UserForms.JsTrimSlice | public/common/js/user.js:4-5 | the trimmed field is a slice of the field with only whitespace cut off on either side |
| UserForms.JsTrimEmpty | public/common/js/user.js:6 | a trimmed field is empty exactly when the field is all whitespace |
| UserForms.JsTrimFixed | public/common/js/user.js:4-5 | a field with no whitespace at either end is its own trim |
| UserForms.Utf16LenBounds | public/common/js/user.js:92 | the length in UTF-16 code units counts each character once or twice |
| UserForms.UsernameCharsAt | public/common/js/user.js:86 | the character check of the client username pattern holds at every index exactly when it holds for the whole string |
| UserForms.ScanSound | public/common/js/user.js:80 | every state the e-mail scan reaches describes the text read so far, with the '@' and a usable dot where the state says |
| UserForms.ScanPrefix | public/common/js/user.js:80 | reading a matching address prefix by prefix passes through the expected scan states |
| UserForms.MatchClientEmailIff | public/common/js/user.js:80 | the scan accepts exactly the addresses the client e-mail pattern matches |
| UserForms.ValidateLogin | public/common/js/user.js:3-11 | the login check either passes or raises the empty-credentials alert |
| UserForms.LoginRefusesBlank | public/common/js/user.js:3-11 | the login form is refused exactly when the username or the password is only whitespace |
| UserForms.CheckRegister | public/common/js/user.js:71-96 | the cascade on trimmed fields passes exactly when every check passes |
| UserForms.ValidateRegister | public/common/js/user.js:68-97 | the register check passes exactly when all trimmed fields are valid |
| UserForms.RegisterAlertOrder | public/common/js/user.js:68-97 | each alert (empty credentials, empty e-mail, bad e-mail, bad username, short password) is raised exactly when every earlier check passed and its own failed |
| UserForms.RegisterPassesLogin | public/common/js/user.js:3-97 | a registration form the client accepts also passes the login check |
| UserForms.EmptyEmailUnmatched | public/common/js/user.js:80 | the client e-mail pattern does not match the empty string |
| UserForms.ServerUsernamePassesClient | src/handlers/user/register.rs:18 | every username the server pattern accepts passes the client pattern |
| UserForms.ClientUsernameLooser | public/common/js/user.js:86 | the client pattern accepts "user_01", which the server pattern refuses |
| UserForms.ServerEmailPassesClient | src/handlers/user/register.rs:20-22 | every address the server pattern accepts passes the client pattern |
| UserForms.ServerAcceptedPassesClient | public/common/js/user.js:68-97 | a form the server accepts as sent passes the client check when the password has no whitespace at its ends |
| UserForms.ServerUsernameTrimmed | src/handlers/user/register.rs:18 | a server-valid username is its own trim and passes the client pattern |
| UserForms.ServerPasswordTrimmed | src/handlers/user/register.rs:19 | a server-valid password without whitespace at its ends is its own trim and has at least six code units |
| UserForms.ServerEmailTrimmed | src/handlers/user/register.rs:20-22 | a server-valid address is its own trim and passes the client pattern |
| UserForms.BookshelfForm | public/common/js/user.js:102-117 | four fields in order; a falsy chapter id is sent as "0" with an empty chapter name, otherwise both are sent as given |
| UserForms.ChapterIdNeverEmpty | public/common/js/user.js:109-116 | the posted chapter id is never the empty string |
| UserForms.ChapterIdNumber | public/common/js/user.js:109-116 | an integer chapter id is sent as its decimal text, 0 included |

## Left out

- UserService.Comparison: MySQL's collation rules (case and accent folding, trailing-space padding) and its text-to-number conversion are not written out. The lookups take them as a parameter, and the lemmas that need it assume only that a decimal id text converts to its id.
- Database I/O: `execute_sql`, the `query_*`/`exec_sql` helpers and connection setup are not modelled. Query results and affected-row counts are parameters, and column decoding in the `db` tag is not modelled.
- Redis connection setup: `init_redis` is modelled only by its outcome, a connected empty store or none (`Cache.Redis.constructor`). The unused helpers `cache_set` and `get_cache` are not modelled.
- Hashing and encodings are function parameters: md5, percent-encoding, serde JSON, Unicode grapheme segmentation and the WHATWG charset label table. Only their determinism is used; collision resistance cannot be stated. `html_escape::encode_text` is not a parameter: it is written out as `Text.Escape`.
- Cache.RowsSecondCallHits: holds in the source only while the entry's `SETEX` ttl has not run out. The model has no clock and never expires an entry, so this and the other cache-hit lemmas (`Cache.SetThenGet`, `Cache.RowsHitSkipsQuery`) say nothing about expiry.
- DbTag.NormalizeMysqlType: upper-cases ASCII letters only, where Rust's `to_uppercase` is Unicode-aware. MySQL type names are ASCII, so the two agree on them.
- Concurrency: the `RUNNING` mutex, `spawn_blocking`, the fetcher's semaphore and the Redis mutex are not modelled. The long-tail dedup set keeps only its sequential insert-or-skip and remove steps.
- Network: sending a request, sleeping and the random jitter draw are parameters (`send`, `read`, `random`).
- Body decoding: `get_response_encoding`, `decode_bytes` and `read_response_text` are folded into the `read` parameter of `get_text`.
- `post_json_text` repeats the attempt loop of `get_text` with a POST request and is not modelled separately.
- Rendering: Tera rendering, `process_tera_tag`, `render_template` and template-file checks are not modelled. The checks are the `templateExists` flag, and the page data handed to the template is the result.
- `TimeFunction` (chrono local time) is not modelled.
- `SortArrayFunction` is not modelled: it only serialises `sort_arr`.
- Page-only handlers that just render are not modelled: `get_bookcase`, `get_register` and `get_login`.
- Framework glue is not modelled: axum extraction, src/main.rs and the error-to-status mapping.
- Routes: router assembly in src/routes/app.rs is not modelled, beyond `trim_suffix` and the sort route rewrite.
- Floating point: the `sys_ver` comparisons are the booleans `sharded`, `legacyUser` and `fulltext`. The f64 branch of `val_to_sea` and FLOAT/DOUBLE column decoding are not modelled.
- Long-tail URLs: the long-tail URL builders (`lang_info_url`, `lang_index_url`) are function fields of the configuration. src/models/config.rs does not define them.
- Admin: the admin page's template folder list (`get_folders`) is a parameter, and so is writing conf.json. The environment variable and the clock are parameters too.
- AdminHandler.FutureNotExpired: requires `time + 300` to fit in a `u64`. The wrapped case is stated separately by `AdminHandler.WrappedExpiry`.
- Browser JavaScript: alerts are verdicts and are not displayed. The `fetch` calls of user.js (`post_login`, `post_register` and the request of `add_bookshelf`) are not modelled, and neither are the page reloads of `removebook`/`removeall`.
- UserForms.BookshelfForm: JavaScript values are undefined, null, booleans, integers, NaN and strings. Fractional numbers and objects are not modelled.
- UserForms.ServerAcceptedPassesClient: requires the password to have no whitespace at either end, because the client trims fields and the server does not.
- History storage: history.js is modelled over localStorage only. Its cookie fallback in `setItem`, `getItem`, `removeItem` and `removeAll` is not modelled.
- History ids: ids are matched as literal text. An id holding regular-expression metacharacters would be read as a pattern by `new RegExp` in the source.
- History.LastRead.Set: requires the new id to be neither a prefix nor an extension of a listed id. The source's regular expression also matches prefixes, and the list it leaves for such ids is not specified.
- History.LastRead.Remove: requires that no listed id other than `k` itself starts with `k`, for the same reason.
- History.RemoveBookRendered: requires that no listed id other than `v` itself starts with `v`, for the same reason.

## Findings

| source | as written | input that shows it | evidently intended | confidence | as-written member | corrected member |
|---|---|---|---|---|---|---|
| src/handlers/chapter.rs:163 | in the grapheme branch `let max_pid` declares a new variable, so the page count passed to the template stays 1 | two grapheme clusters at one per page: page 1 links to page 2 but reports one page | the branch assigns the outer `max_pid`, so the reported count is `ceil(clusters / per_page)` | not executed | ChapterHandler.MaxPageShadowed | ChapterHandler.GraphemesPage |
| src/handlers/sort.rs:38 | with an `{id}` sort template the number in the path is used directly as the zero-based category index, while `sort_url` writes index + 1 | one category: its link carries 1, which reads back as index 1, past the list, so its own page is not found | the number is read back as index number - 1, so every written link finds its category | not executed | SortHandler.LastCategoryNotFound | SortHandler.SortIdRoundTrip |
| src/services/lang_tail.rs:177 | the ',' separator is tested on the enumeration index, not on the number of rows already written | a first name that is empty or equal to the book name is skipped, and the next one writes ",(?, ?, ?)" | a separator only between written rows, giving "(?, ?, ?)" | not executed | LangTailService.LeadingComma | LangTailService.ValuesRows |
| src/handlers/rank.rs:62 | the order column is a bound '?', so the statement orders by a string constant and is the same for every rank code | codes "allvisit" and "dayvote" give identical statement text | `ORDER BY` names the code's column, which is safe because only the nine codes of the table get this far | not executed | RankHandler.RankOrderIgnoresCode | RankHandler.RankQueryOrdersByKey |
| src/services/lang_tail.rs:131 | the freshness query selects only `uptime` but decodes the row as a `LangTail`, whose derived `FromQueryResult` also reads langid, langname and sourceid; the decode fails and `if let Ok(Some(row))` never matches | keywords stored a minute ago: the run regenerates them instead of skipping | the decode reads the uptime (select all four columns, or decode only `uptime`), so a run within a week of the last one is skipped | not executed | LangTailService.RecentKeywordsRegenerated | LangTailService.FreshMeansRecent |
