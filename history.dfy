/**
 * The browser reading history of public/common/js/history.js. `LastRead`
 * keeps one item per book, the book's six fields joined by '#', under the
 * book id, and the ids themselves, joined by '#', under "bookList". The
 * id list is edited with the regular expression `(^|#)id`, which matches
 * the id wherever it starts the list or follows a '#'.
 *
 * Storage is modelled as localStorage, a map from keys to strings; the
 * cookie fallback is left out. Ids are matched literally.
 */
module History {
  import opened Wrappers
  import opened Strings

  type Store = map<string, string>

  /** `bookmax`: the most books the history keeps. */
  const BOOK_MAX: nat := 200
  /** The key of the id list. */
  const BOOK_LIST: string := "bookList"

  /** `getItem`: the stored string, or "" when there is none. */
  function GetItem(store: Store, k: string): (r: string)
    ensures k in store ==> r == store[k]
    ensures k !in store ==> r == ""
  {
    if k in store then store[k] else ""
  }

  // ---------------------------------------------------------------------------
  // The regular expression `(^|#)v`

  /**
   * `b.replace(/(^|#)v/, rep)`, or None when `b.search(/(^|#)v/)` is -1:
   * the leftmost position where `v` starts `b` (`atStart`) or follows a
   * '#' has that match replaced by `rep`.
   */
  function ReplaceFirst(b: string, v: string, rep: string, atStart: bool): (r: Option<string>)
    decreases |b|
  {
    if atStart && v <= b then Some(rep + b[|v|..])
    else if b == [] then None
    else if b[0] == '#' && v <= b[1..] then Some(rep + b[1 + |v|..])
    else match ReplaceFirst(b[1..], v, rep, false)
      case None => None
      case Some(t) => Some([b[0]] + t)
  }

  function Prepend(x: string, r: Option<string>): Option<string>
  {
    match r
    case None => None
    case Some(t) => Some(x + t)
  }

  /** Text without a '#' cannot hold a match that is not at the very start. */
  lemma {:induction false} ReplaceSkip(x: string, y: string, v: string, rep: string)
    requires '#' !in x
    ensures ReplaceFirst(x + y, v, rep, false) == Prepend(x, ReplaceFirst(y, v, rep, false))
  {
    if x == [] {
      assert x + y == y;
      match ReplaceFirst(y, v, rep, false) {
        case None =>
        case Some(t) => assert x + t == t;
      }
    } else {
      assert (x + y)[0] == x[0] && (x + y)[1..] == x[1..] + y;
      ReplaceSkip(x[1..], y, v, rep);
      assert [x[0]] + (x[1..] + y) == x + y;
      match ReplaceFirst(y, v, rep, false) {
        case None =>
        case Some(t) => assert [x[0]] + (x[1..] + t) == x + t;
      }
    }
  }

  /** A '#'-free `v` is a prefix of `a` followed by a '#'-led rest exactly when it is a prefix of `a`. */
  lemma PrefixBeforeHash(v: string, a: string, h: string)
    requires '#' !in v && '#' !in a
    requires h == [] || h[0] == '#'
    ensures v <= a + h <==> v <= a
  {
    if |v| > |a| && |v| <= |a + h| {
      assert (a + h)[|a|] == h[0] == '#';
      assert v[|a|] != '#';
      assert (a + h)[..|v|][|a|] != v[|a|];
    }
    if v <= a {
      assert (a + h)[..|v|] == a[..|v|];
    }
  }

  // ---------------------------------------------------------------------------
  // The id list

  /** An id: not empty, without '#', and not the key of the list itself. */
  predicate PlainId(s: string)
  {
    s != "" && '#' !in s && s != BOOK_LIST
  }

  predicate AllPlain(ids: seq<string>)
  {
    forall i :: 0 <= i < |ids| ==> PlainId(ids[i])
  }

  /** `v` is a prefix of no listed id other than itself. */
  predicate NoLongerMatch(v: string, ids: seq<string>)
  {
    forall i :: 0 <= i < |ids| && v <= ids[i] ==> ids[i] == v
  }

  /** `v` is a prefix of no listed id at all. */
  predicate Unmatched(v: string, ids: seq<string>)
  {
    forall i :: 0 <= i < |ids| ==> !(v <= ids[i])
  }

  /** Plain ids none of which is a prefix of another; such ids are distinct. */
  predicate WellFormed(ids: seq<string>)
  {
    AllPlain(ids) &&
    (forall i, j :: 0 <= i < |ids| && 0 <= j < |ids| && i != j ==> !(ids[i] <= ids[j]))
  }

  /** The ids, each preceded by '#'. */
  function Hashed(ids: seq<string>): string
  {
    if ids == [] then "" else "#" + ids[0] + Hashed(ids[1..])
  }

  /**
   * The list string: the ids joined by '#', with a leading '#' when `lead`
   * (removing the first id leaves one behind).
   */
  function Render(lead: bool, ids: seq<string>): string
  {
    if lead || ids == [] then Hashed(ids) else ids[0] + Hashed(ids[1..])
  }

  lemma {:induction false} HashedConcat(a: seq<string>, b: seq<string>)
    ensures Hashed(a + b) == Hashed(a) + Hashed(b)
  {
    if a != [] {
      assert (a + b)[0] == a[0] && (a + b)[1..] == a[1..] + b;
      HashedConcat(a[1..], b);
    } else {
      assert a + b == b;
    }
  }

  /** The '#'-led text of `pre`, then `v`, then `post`. */
  lemma HashedAround(pre: seq<string>, v: string, post: seq<string>)
    ensures Hashed(pre + [v] + post) == Hashed(pre) + ("#" + v + Hashed(post))
  {
    HashedConcat(pre, [v] + post);
    assert pre + [v] + post == pre + ([v] + post);
    assert ([v] + post)[0] == v && ([v] + post)[1..] == post;
  }

  /** The first position of `v` in the list. */
  function Position(ids: seq<string>, v: string): (k: nat)
    requires v in ids
    ensures k < |ids| && ids[k] == v && v !in ids[..k]
  {
    if ids[0] == v then 0
    else
      var k := Position(ids[1..], v);
      assert ids[..k + 1] == [ids[0]] + ids[1..][..k];
      k + 1
  }

  /** The list without the first occurrence of `v`. */
  function Without(ids: seq<string>, v: string): (r: seq<string>)
  {
    if v in ids then ids[..Position(ids, v)] + ids[Position(ids, v) + 1..] else ids
  }

  /** A listed id splits the list into the ids before it and after it. */
  lemma SplitAtPosition(ids: seq<string>, v: string)
    requires v in ids
    ensures var k := Position(ids, v);
      ids == ids[..k] + [v] + ids[k + 1..] && Without(ids, v) == ids[..k] + ids[k + 1..]
  {
  }

  /** '#'-led ids that `v` does not start are skipped by the search. */
  lemma {:induction false} HashedSkip(pre: seq<string>, y: string, v: string, rep: string)
    requires AllPlain(pre) && PlainId(v) && Unmatched(v, pre)
    requires y == [] || y[0] == '#'
    ensures ReplaceFirst(Hashed(pre) + y, v, rep, false) == Prepend(Hashed(pre), ReplaceFirst(y, v, rep, false))
  {
    if pre == [] {
      assert Hashed(pre) + y == y;
      match ReplaceFirst(y, v, rep, false) {
        case None =>
        case Some(t) => assert Hashed(pre) + t == t;
      }
    } else {
      var a, rest := pre[0], pre[1..];
      var hr := Hashed(rest);
      var h := hr + y;
      assert AllPlain(rest) && Unmatched(v, rest) by {
        forall i | 0 <= i < |rest|
          ensures PlainId(rest[i]) && !(v <= rest[i])
        {
          assert rest[i] == pre[i + 1];
        }
      }
      assert HashLed(h) by {
        if hr != [] {
          assert hr[0] == '#';
        } else {
          assert h == y;
        }
      }
      var ry := ReplaceFirst(y, v, rep, false);
      var inner := ReplaceFirst(h, v, rep, false);
      var ra := ReplaceFirst(a + h, v, rep, false);
      var hp := Hashed(pre);
      assert ra == Prepend(a, inner) by {
        ReplaceSkip(a, h, v, rep);
      }
      assert inner == Prepend(hr, ry) by {
        HashedSkip(rest, y, v, rep);
      }
      assert hp == "#" + (a + hr);
      assert hp + y == "#" + (a + h);
      assert ReplaceFirst("#" + (a + h), v, rep, false) == Prepend("#", ra) by {
        assert !(v <= a) by {
          assert pre[0] == a;
        }
        assert !(v <= a + h) by {
          PrefixBeforeHash(v, a, h);
        }
        HashStep(a + h, v, rep);
      }
      PrependChain(a, hr, ry, inner, ra);
    }
  }

  lemma PrependChain(a: string, hr: string, ry: Option<string>, inner: Option<string>, ra: Option<string>)
    requires inner == Prepend(hr, ry) && ra == Prepend(a, inner)
    ensures Prepend("#", ra) == Prepend("#" + (a + hr), ry)
  {
    if ry.Some? {
      assert "#" + (a + (hr + ry.value)) == ("#" + (a + hr)) + ry.value;
    }
  }

  /** Text that is empty or starts with '#'. */
  predicate HashLed(h: string)
  {
    h == [] || h[0] == '#'
  }

  /** A '#' that `v` does not follow is passed over. */
  lemma HashStep(x: string, v: string, rep: string)
    requires !(v <= x)
    ensures ReplaceFirst("#" + x, v, rep, false) == Prepend("#", ReplaceFirst(x, v, rep, false))
  {
    var b := "#" + x;
    assert b[0] == '#' && b[1..] == x;
  }

  /** A '#' followed by `v` is a match. */
  lemma HashedHit(v: string, post: seq<string>, rep: string)
    requires PlainId(v)
    ensures ReplaceFirst("#" + v + Hashed(post), v, rep, false) == Some(rep + Hashed(post))
  {
    var b := "#" + v + Hashed(post);
    assert b[0] == '#' && b[1..] == v + Hashed(post);
    assert v <= b[1..];
    assert b[1 + |v|..] == Hashed(post);
  }

  /** When `v` does not start the text, `(^|#)v` behaves as `#v`. */
  lemma NotAtStart(b: string, v: string, rep: string)
    requires !(v <= b)
    ensures ReplaceFirst(b, v, rep, true) == ReplaceFirst(b, v, rep, false)
  {
  }

  /** Text led by '#' never starts with an id. */
  lemma HashLedNoStart(b: string, v: string)
    requires PlainId(v) && (b == [] || b[0] == '#')
    ensures !(v <= b)
  {
    if b != [] && |v| <= |b| {
      assert v[0] in v;
      assert b[..|v|][0] == '#' != v[0];
    }
  }

  /** The search finds nothing in a list none of whose ids `v` starts. */
  lemma UnmatchedRendered(lead: bool, ids: seq<string>, v: string, rep: string)
    requires AllPlain(ids) && PlainId(v) && Unmatched(v, ids)
    ensures ReplaceFirst(Render(lead, ids), v, rep, true) == None
  {
    if lead || ids == [] {
      var b := Hashed(ids);
      assert b == [] || b[0] == '#';
      HashLedNoStart(b, v);
      NotAtStart(b, v, rep);
      assert b + [] == b;
      HashedSkip(ids, [], v, rep);
    } else {
      var a, rest := ids[0], ids[1..];
      var h := Hashed(rest);
      assert h == [] || h[0] == '#';
      assert !(v <= a) by {
        assert ids[0] == a;
      }
      PrefixBeforeHash(v, a, h);
      NotAtStart(a + h, v, rep);
      ReplaceSkip(a, h, v, rep);
      assert AllPlain(rest) && Unmatched(v, rest) by {
        forall i | 0 <= i < |rest|
          ensures PlainId(rest[i]) && !(v <= rest[i])
        {
          assert rest[i] == ids[i + 1];
        }
      }
      assert h + [] == h;
      HashedSkip(rest, [], v, rep);
    }
  }

  /** `removeBook` on the list string. */
  function RemoveBookText(books: string, v: string): string
  {
    if books == "" then ""
    else match ReplaceFirst(books, v, "", true)
      case None => books
      case Some(t) => t
  }

  /** `setBook` on the list string: an unmatched id is appended after a '#'. */
  function SetBookText(books: string, v: string): string
  {
    if books == "" then v
    else match ReplaceFirst(books, v, "#" + v, true)
      case None => books + "#" + v
      case Some(t) => t
  }

  /** Whether the list string starts with '#' after `v` is removed. */
  function LeadAfterRemove(lead: bool, ids: seq<string>, v: string): bool
  {
    lead || (v in ids && Position(ids, v) == 0)
  }

  /** A list string with ids in it is not empty. */
  lemma NonEmptyRender(lead: bool, ids: seq<string>)
    requires ids != [] && PlainId(ids[0])
    ensures Render(lead, ids) != ""
  {
    if lead {
      assert Hashed(ids)[0] == '#';
    } else {
      assert |Render(lead, ids)| >= |ids[0]| > 0;
    }
  }

  /** Removing from a '#'-led list removes the '#' and the id. */
  lemma RemoveLed(pre: seq<string>, v: string, post: seq<string>)
    requires AllPlain(pre) && PlainId(v) && Unmatched(v, pre)
    ensures RemoveBookText(Hashed(pre + [v] + post), v) == Hashed(pre + post)
  {
    var hp, hq := Hashed(pre), Hashed(post);
    var tail := "#" + v + hq;
    var b := hp + tail;
    assert Hashed(pre + [v] + post) == b by {
      HashedAround(pre, v, post);
    }
    assert Hashed(pre + post) == hp + hq by {
      HashedConcat(pre, post);
    }
    assert b != "" && HashLed(b) by {
      assert |b| > 0;
      if pre != [] {
        assert hp[0] == '#';
      }
    }
    assert ReplaceFirst(b, v, "", true) == Some(hp + hq) by {
      HashLedNoStart(b, v);
      NotAtStart(b, v, "");
      HashedSkip(pre, tail, v, "");
      HashedHit(v, post, "");
      assert hp + ("" + hq) == hp + hq;
    }
  }

  /** Removing the first id of a list without a leading '#' leaves one. */
  lemma RemoveFirst(v: string, post: seq<string>)
    requires PlainId(v)
    ensures RemoveBookText(Render(false, [v] + post), v) == Hashed(post)
  {
    var ids := [v] + post;
    assert ids[0] == v && ids[1..] == post;
    var b := v + Hashed(post);
    assert Render(false, ids) == b;
    assert v <= b;
    assert b[|v|..] == Hashed(post);
    assert "" + Hashed(post) == Hashed(post);
  }

  /** Removing a later id of a list without a leading '#' removes the '#' before it. */
  lemma RemoveLater(a: string, pre: seq<string>, v: string, post: seq<string>)
    requires PlainId(a) && AllPlain(pre) && PlainId(v) && !(v <= a) && Unmatched(v, pre)
    ensures RemoveBookText(Render(false, [a] + pre + [v] + post), v) == Render(false, [a] + pre + post)
  {
    var hp, hq := Hashed(pre), Hashed(post);
    var tail := "#" + v + hq;
    var h := hp + tail;
    var b := a + h;
    assert Render(false, [a] + pre + [v] + post) == b by {
      var ids := [a] + pre + [v] + post;
      assert ids[0] == a && ids[1..] == pre + [v] + post;
      HashedAround(pre, v, post);
    }
    assert Render(false, [a] + pre + post) == a + (hp + hq) by {
      var w := [a] + pre + post;
      assert w[0] == a && w[1..] == pre + post;
      HashedConcat(pre, post);
    }
    assert HashLed(h) by {
      if pre != [] {
        assert hp[0] == '#';
      }
    }
    assert b != "" by {
      assert |b| >= |a| > 0;
    }
    assert ReplaceFirst(b, v, "", true) == ReplaceFirst(b, v, "", false) by {
      PrefixBeforeHash(v, a, h);
      NotAtStart(b, v, "");
    }
    assert ReplaceFirst(b, v, "", false) == Prepend(a, ReplaceFirst(h, v, "", false)) by {
      ReplaceSkip(a, h, v, "");
    }
    assert ReplaceFirst(h, v, "", false) == Some(hp + hq) by {
      HashedSkip(pre, tail, v, "");
      HashedHit(v, post, "");
      assert hp + ("" + hq) == hp + hq;
    }
  }

  /**
   * Removing a listed id removes it, and only it, from the list; removing
   * an unlisted one changes nothing. Removing the first id of a list
   * without a leading '#' leaves one.
   */
  lemma RemoveBookRendered(lead: bool, ids: seq<string>, v: string)
    requires AllPlain(ids) && PlainId(v) && NoLongerMatch(v, ids)
    ensures RemoveBookText(Render(lead, ids), v) == Render(LeadAfterRemove(lead, ids, v), Without(ids, v))
  {
    if v !in ids {
      UnmatchedRendered(lead, ids, v, "");
    } else {
      var k := Position(ids, v);
      SplitAtPosition(ids, v);
      var pre, post := ids[..k], ids[k + 1..];
      assert AllPlain(pre) && Unmatched(v, pre) by {
        forall i | 0 <= i < |pre|
          ensures PlainId(pre[i]) && !(v <= pre[i])
        {
          assert pre[i] == ids[i];
        }
      }
      if lead {
        RemoveLed(pre, v, post);
      } else if k == 0 {
        assert pre == [];
        assert ids == [v] + post;
        assert Without(ids, v) == post;
        RemoveFirst(v, post);
      } else {
        var a, pre' := pre[0], pre[1..];
        assert pre == [a] + pre';
        assert ids == [a] + pre' + [v] + post;
        assert AllPlain(pre') && Unmatched(v, pre') by {
          forall i | 0 <= i < |pre'|
            ensures PlainId(pre'[i]) && !(v <= pre'[i])
          {
            assert pre'[i] == pre[i + 1];
          }
        }
        assert !(v <= a) && PlainId(a) by {
          assert a == pre[0];
        }
        RemoveLater(a, pre', v, post);
        assert pre + post == [a] + pre' + post;
      }
    }
  }

  /** Adding an id no listed id starts with appends it. */
  lemma SetBookRendered(lead: bool, ids: seq<string>, v: string)
    requires AllPlain(ids) && PlainId(v) && Unmatched(v, ids)
    ensures SetBookText(Render(lead, ids), v) == Render(lead && ids != [], ids + [v])
  {
    var h := Hashed([v]);
    assert h == "#" + v by {
      assert [v][0] == v && [v][1..] == [];
      assert Hashed([v][1..]) == "";
    }
    if ids == [] {
      assert Render(lead, ids) == "";
      assert Render(false, [v]) == v by {
        assert [v][0] == v && [v][1..] == [];
      }
    } else {
      SetBookNonEmpty(lead, ids, v, h);
    }
  }

  lemma SetBookNonEmpty(lead: bool, ids: seq<string>, v: string, h: string)
    requires AllPlain(ids) && PlainId(v) && Unmatched(v, ids) && ids != [] && h == "#" + v
    requires Hashed([v]) == h
    ensures SetBookText(Render(lead, ids), v) == Render(lead, ids + [v])
  {
    var r := Render(lead, ids);
    assert r != "" by {
      NonEmptyRender(lead, ids);
    }
    assert SetBookText(r, v) == r + h by {
      UnmatchedRendered(lead, ids, v, "#" + v);
      assert r + "#" + v == r + h;
    }
    assert Render(lead, ids + [v]) == r + h by {
      if lead {
        HashedConcat(ids, [v]);
      } else {
        var t := Hashed(ids[1..]);
        HashedConcat(ids[1..], [v]);
        assert (ids + [v])[0] == ids[0] && (ids + [v])[1..] == ids[1..] + [v];
        assert ids[0] + (t + h) == (ids[0] + t) + h;
      }
    }
  }

  // ---------------------------------------------------------------------------
  // Items

  /** The stored item of a book: its six fields joined by '#'. */
  function ItemText(bid: string, uri: string, bookname: string, chaptername: string, author: string, imgUrl: string): string
  {
    Join([bid, uri, bookname, chaptername, author, imgUrl], '#')
  }

  /** Joined fields split into at least as many pieces, the first piece coming from the first field. */
  lemma {:induction false} SplitJoinedPieces(ps: seq<string>)
    requires ps != []
    ensures |Split(Join(ps, '#'), '#')| >= |ps|
    ensures Split(Join(ps, '#'), '#')[0] == Split(ps[0], '#')[0]
  {
    if |ps| > 1 {
      SplitJoinedPieces(ps[1..]);
      SplitAt(ps[0], Join(ps[1..], '#'), '#');
    }
  }

  /** An item splits into at least the six fields and starts with the id; without '#' in the fields, into exactly them. */
  lemma ItemFields(bid: string, uri: string, bookname: string, chaptername: string, author: string, imgUrl: string)
    requires '#' !in bid
    ensures var p := Split(ItemText(bid, uri, bookname, chaptername, author, imgUrl), '#');
      |p| >= 6 && p[0] == bid
    ensures '#' !in uri && '#' !in bookname && '#' !in chaptername && '#' !in author && '#' !in imgUrl ==>
      Split(ItemText(bid, uri, bookname, chaptername, author, imgUrl), '#') == [bid, uri, bookname, chaptername, author, imgUrl]
  {
    var ps := [bid, uri, bookname, chaptername, author, imgUrl];
    SplitJoinedPieces(ps);
    SplitWithout(bid, '#');
    if '#' !in uri && '#' !in bookname && '#' !in chaptername && '#' !in author && '#' !in imgUrl {
      SplitJoin(ps, '#');
    }
  }

  /** The fields of the item stored under `k`. */
  function ItemOf(store: Store, k: string): seq<string>
  {
    Split(GetItem(store, k), '#')
  }

  /** `get`: the fields of the item, or nothing (the source's "") when there is none. */
  function Get(store: Store, k: string): (r: Option<seq<string>>)
    ensures r.None? <==> GetItem(store, k) == ""
  {
    if GetItem(store, k) == "" then None else Some(ItemOf(store, k))
  }

  /** The pieces of the list string; an empty list has none. */
  function BookPieces(store: Store): seq<string>
  {
    if GetItem(store, BOOK_LIST) == "" then [] else Split(GetItem(store, BOOK_LIST), '#')
  }

  /** The items of the given ids, skipping those of three fields or fewer (`getBook`). */
  function Entries(store: Store, pieces: seq<string>): (r: seq<seq<string>>)
    ensures forall j :: 0 <= j < |r| ==> |r[j]| > 3
  {
    if pieces == [] then []
    else
      var item := ItemOf(store, pieces[|pieces| - 1]);
      Entries(store, pieces[..|pieces| - 1]) + (if |item| > 3 then [item] else [])
  }

  lemma {:induction false} EntriesConcat(store: Store, a: seq<string>, b: seq<string>)
    ensures Entries(store, a + b) == Entries(store, a) + Entries(store, b)
    decreases |b|
  {
    if b == [] {
      assert a + b == a;
    } else {
      var ab := a + b;
      assert ab[..|ab| - 1] == a + b[..|b| - 1];
      assert ab[|ab| - 1] == b[|b| - 1];
      EntriesConcat(store, a, b[..|b| - 1]);
    }
  }

  lemma {:induction false} EntriesOfIds(store: Store, ids: seq<string>)
    requires forall i :: 0 <= i < |ids| ==> |ItemOf(store, ids[i])| > 3
    ensures |Entries(store, ids)| == |ids|
    ensures forall i :: 0 <= i < |ids| ==> Entries(store, ids)[i] == ItemOf(store, ids[i])
  {
    if ids != [] {
      EntriesOfIds(store, ids[..|ids| - 1]);
    }
  }

  /** The list string splits into the ids, after an empty piece when it has a leading '#'. */
  lemma {:induction false} SplitRendered(lead: bool, ids: seq<string>)
    requires ids != [] && forall i :: 0 <= i < |ids| ==> PlainId(ids[i])
    ensures Split(Render(lead, ids), '#') == (if lead then [""] else []) + ids
  {
    RenderedJoin(ids);
    SplitJoin(ids, '#');
    if lead {
      assert Render(lead, ids) == [] + ['#'] + Join(ids, '#');
      SplitAt([], Join(ids, '#'), '#');
    }
  }

  lemma {:induction false} RenderedJoin(ids: seq<string>)
    requires ids != []
    ensures Render(false, ids) == Join(ids, '#')
    ensures Hashed(ids) == "#" + Join(ids, '#')
  {
    if |ids| > 1 {
      RenderedJoin(ids[1..]);
      assert ids[1..][0] == ids[1] && ids[1..][1..] == ids[2..];
    }
  }

  // ---------------------------------------------------------------------------
  // The stored state

  /** What the history keeps: a list string for well-formed ids, each with an item that starts with it. */
  ghost predicate ValidState(store: Store, lead: bool, ids: seq<string>)
  {
    WellFormed(ids) && |ids| <= BOOK_MAX &&
    GetItem(store, BOOK_LIST) == Render(lead, ids) &&
    "" !in store && ItemsStored(store, ids)
  }

  /** Every listed id has an item of more than three fields that starts with the id. */
  predicate ItemsStored(store: Store, ids: seq<string>)
  {
    forall i :: 0 <= i < |ids| ==> ids[i] in store && |ItemOf(store, ids[i])| > 3 && ItemOf(store, ids[i])[0] == ids[i]
  }

  /** `getBook` on a valid state gives one item per listed id, in list order. */
  lemma BooksOfValid(store: Store, lead: bool, ids: seq<string>)
    requires ValidState(store, lead, ids)
    ensures |Entries(store, BookPieces(store))| == |ids|
    ensures forall i :: 0 <= i < |ids| ==> Entries(store, BookPieces(store))[i] == ItemOf(store, ids[i])
  {
    EntriesOfIds(store, ids);
    if ids == [] {
      assert BookPieces(store) == [];
    } else {
      SplitRendered(lead, ids);
      assert Render(lead, ids) != "" by {
        assert Hashed(ids) == "#" + ids[0] + Hashed(ids[1..]);
      }
      if lead {
        assert ItemOf(store, "") == [""];
        assert Entries(store, [""]) == [] by {
          assert [""][..0] == [];
        }
        EntriesConcat(store, [""], ids);
      } else {
        assert [] + ids == ids;
      }
    }
  }

  /** The books read by `getBook` are those of the listed ids, each starting with its id. */
  predicate Tracks(books: seq<seq<string>>, ids: seq<string>)
  {
    |books| == |ids| && forall j :: 0 <= j < |books| ==> |books[j]| > 3 && books[j][0] == ids[j]
  }

  lemma TracksOfValid(store: Store, lead: bool, ids: seq<string>)
    requires ValidState(store, lead, ids)
    ensures Tracks(Entries(store, BookPieces(store)), ids)
  {
    BooksOfValid(store, lead, ids);
  }

  /** The books `set` drops to make room for a new one. */
  function Evicted(ids: seq<string>): (n: nat)
    ensures n <= |ids| && |ids| - n < BOOK_MAX
  {
    if |ids| >= BOOK_MAX then |ids| - BOOK_MAX + 1 else 0
  }

  class LastRead {
    var store: Store
    ghost var lead: bool
    ghost var ids: seq<string>

    ghost predicate Valid()
      reads this
    {
      ValidState(store, lead, ids)
    }

    /** A history over an empty storage. */
    constructor ()
      ensures Valid() && store == map[] && ids == []
    {
      store := map[];
      lead := false;
      ids := [];
    }

    method SetItem(k: string, v: string)
      modifies this
      ensures store == old(store)[k := v] && lead == old(lead) && ids == old(ids)
    {
      store := store[k := v];
    }

    method RemoveItem(k: string)
      modifies this
      ensures store == old(store) - {k} && lead == old(lead) && ids == old(ids)
    {
      store := store - {k};
    }

    /** `setBook`. */
    method SetBook(v: string)
      modifies this
      ensures store == old(store)[BOOK_LIST := SetBookText(GetItem(old(store), BOOK_LIST), v)]
      ensures lead == old(lead) && ids == old(ids)
    {
      var books := GetItem(store, BOOK_LIST);
      books := SetBookText(books, v);
      SetItem(BOOK_LIST, books);
    }

    /** `removeBook`. */
    method RemoveBook(v: string)
      modifies this
      ensures store == old(store)[BOOK_LIST := RemoveBookText(GetItem(old(store), BOOK_LIST), v)]
      ensures lead == old(lead) && ids == old(ids)
    {
      var books := GetItem(store, BOOK_LIST);
      books := RemoveBookText(books, v);
      SetItem(BOOK_LIST, books);
    }

    /** `getBook`: the items of the listed ids that have more than three fields. */
    method GetBook() returns (books: seq<seq<string>>)
      ensures books == Entries(store, BookPieces(store))
    {
      var list := GetItem(store, BOOK_LIST);
      var v := if list != "" then Split(list, '#') else [];
      books := [];
      for i := 0 to |v|
        invariant books == Entries(store, v[..i])
      {
        var tem := Split(GetItem(store, v[i]), '#');
        assert Entries(store, v[..i + 1]) == books + (if |tem| > 3 then [tem] else []) by {
          assert v[..i + 1][..i] == v[..i];
          assert v[..i + 1][i] == v[i];
        }
        if |tem| > 3 {
          books := books + [tem];
        }
      }
      assert v[..|v|] == v;
    }

    /** `remove`: the item and its id both go. */
    method Remove(k: string)
      requires Valid() && PlainId(k) && NoLongerMatch(k, ids)
      modifies this
      ensures Valid()
      ensures ids == Without(old(ids), k)
      ensures store == (old(store) - {k})[BOOK_LIST := Render(lead, ids)]
      ensures forall x :: x != BOOK_LIST ==> Lookup(store, x) == (if x == k then None else Lookup(old(store), x))
    {
      RemoveBookRendered(lead, ids, k);
      RemoveKeepsValid(store, lead, ids, k);
      assert GetItem(store - {k}, BOOK_LIST) == Render(lead, ids);
      RemoveItem(k);
      RemoveBook(k);
      lead := LeadAfterRemove(lead, ids, k);
      ids := Without(ids, k);
    }

    /** One round of the eviction loop: the oldest book is removed and the list read again. */
    method DropOldest(aBooks: seq<seq<string>>) returns (next: seq<seq<string>>)
      requires Valid() && Tracks(aBooks, ids) && aBooks != []
      modifies this
      ensures Valid() && Tracks(next, ids) && ids == old(ids)[1..]
      ensures forall x :: x != BOOK_LIST ==> Lookup(store, x) == (if x == old(ids)[0] then None else Lookup(old(store), x))
    {
      assert NoLongerMatch(ids[0], ids);
      WithoutFirst(ids);
      Remove(aBooks[0][0]);
      next := GetBook();
      TracksOfValid(store, lead, ids);
    }

    /**
     * The eviction loop of `set`: while 200 or more books are listed, the
     * oldest is removed and the list is read again.
     */
    method MakeRoom(aBooks0: seq<seq<string>>)
      requires Valid() && Tracks(aBooks0, ids)
      modifies this
      ensures Valid() && |ids| < BOOK_MAX
      ensures ids == old(ids)[Evicted(old(ids))..]
      ensures forall x :: x != BOOK_LIST ==>
                Lookup(store, x) == (if x in old(ids)[..Evicted(old(ids))] then None else Lookup(old(store), x))
    {
      var aBooks := aBooks0;
      ghost var ids0 := ids;
      ghost var d := 0;
      while |aBooks| >= BOOK_MAX
        invariant Valid() && Tracks(aBooks, ids)
        invariant 0 <= d <= |ids0| && ids == ids0[d..]
        invariant |ids0| >= BOOK_MAX ==> d <= |ids0| - BOOK_MAX + 1
        invariant |ids0| < BOOK_MAX ==> d == 0
        invariant forall x :: x != BOOK_LIST ==>
                    Lookup(store, x) == (if x in ids0[..d] then None else Lookup(old(store), x))
        decreases |aBooks|
      {
        ghost var s1 := store;
        aBooks := DropOldest(aBooks);
        assert ids0[..d + 1] == ids0[..d] + [ids0[d]];
        DropStep(old(store), s1, store, ids0[..d], ids0[d]);
        d := d + 1;
      }
      assert d == Evicted(ids0);
    }

    /**
     * `set`: with all six fields present, an already listed book is moved
     * to the end; otherwise the oldest books are removed until fewer than
     * 200 remain and the book is appended. Its item is stored either way,
     * and no other item changes.
     */
    method Set(bid: string, uri: string, bookname: string, chaptername: string, author: string, imgUrl: string)
      requires Valid() && (bid != "" ==> Admissible(bid, ids))
      modifies this
      ensures Valid()
      ensures !(bid != "" && uri != "" && bookname != "" && chaptername != "" && author != "" && imgUrl != "") ==>
                store == old(store) && ids == old(ids)
      ensures bid != "" && uri != "" && bookname != "" && chaptername != "" && author != "" && imgUrl != "" ==>
                Lookup(store, bid) == Some(ItemText(bid, uri, bookname, chaptername, author, imgUrl)) &&
                ids == Kept(old(ids), bid) + [bid] &&
                forall x :: x != bid && x != BOOK_LIST ==>
                  Lookup(store, x) == (if x in Dropped(old(ids), bid) then None else Lookup(old(store), x))
    {
      if !(bid != "" && uri != "" && bookname != "" && chaptername != "" && author != "" && imgUrl != "") {
        return;
      }
      var v := ItemText(bid, uri, bookname, chaptername, author, imgUrl);
      var aBooks := GetBook();
      TracksOfValid(store, lead, ids);
      var aBid: seq<string> := [];
      for i := 0 to |aBooks|
        invariant aBid == ids[..i]
      {
        aBid := aBid + [aBooks[i][0]];
      }
      assert aBid == ids;
      if bid in aBid {
        Remove(bid);
        WithoutKeeps(old(ids), bid);
      } else {
        MakeRoom(aBooks);
      }
      AdmissibleAfter(old(ids), ids, bid);
      ItemFields(bid, uri, bookname, chaptername, author, imgUrl);
      Append(bid, v);
    }

    /** The last two steps of `set`: the item is stored and the id appended to the list. */
    method Append(bid: string, item: string)
      requires Valid() && |ids| < BOOK_MAX && Admissible(bid, ids) && bid !in ids
      requires |Split(item, '#')| > 3 && Split(item, '#')[0] == bid
      modifies this
      ensures Valid() && ids == old(ids) + [bid] && Lookup(store, bid) == Some(item)
      ensures forall x :: x != bid && x != BOOK_LIST ==> Lookup(store, x) == Lookup(old(store), x)
    {
      assert Unmatched(bid, ids) by {
        forall i | 0 <= i < |ids|
          ensures !(bid <= ids[i])
        {
          assert ids[i] != bid;
        }
      }
      SetBookRendered(lead, ids, bid);
      AddKeepsValid(store, lead, ids, bid, item);
      SetItem(bid, item);
      SetBook(bid);
      lead := lead && ids != [];
      ids := ids + [bid];
    }

    /** `get`. */
    function GetFields(k: string): (r: Option<seq<string>>)
      reads this
      ensures r.None? <==> GetItem(store, k) == ""
    {
      Get(store, k)
    }

    /** `removeAll`: localStorage is cleared. */
    method RemoveAll()
      modifies this
      ensures Valid() && store == map[] && ids == []
    {
      store := map[];
      lead := false;
      ids := [];
    }
  }

  /** An id `set` can add: plain, and neither a prefix nor an extension of another listed id. */
  predicate Admissible(bid: string, ids: seq<string>)
  {
    PlainId(bid) && forall i :: 0 <= i < |ids| ==> ids[i] == bid || (!(bid <= ids[i]) && !(ids[i] <= bid))
  }

  /** The stored string, if any. */
  function Lookup(store: Store, k: string): Option<string>
  {
    if k in store then Some(store[k]) else None
  }

  /** The ids `set` keeps, before it appends `bid`. */
  function Kept(ids: seq<string>, bid: string): seq<string>
  {
    if bid in ids then Without(ids, bid) else ids[Evicted(ids)..]
  }

  /** The ids whose items `set` removes for good. */
  function Dropped(ids: seq<string>, bid: string): seq<string>
  {
    if bid in ids then [] else ids[..Evicted(ids)]
  }

  /** One more removal extends the removed keys by one. */
  lemma DropStep(s0: Store, s1: Store, s2: Store, d: seq<string>, k: string)
    requires forall x :: x != BOOK_LIST ==> Lookup(s1, x) == (if x in d then None else Lookup(s0, x))
    requires forall x :: x != BOOK_LIST ==> Lookup(s2, x) == (if x == k then None else Lookup(s1, x))
    ensures forall x :: x != BOOK_LIST ==> Lookup(s2, x) == (if x in d + [k] then None else Lookup(s0, x))
  {
  }

  /** Whatever `set` keeps of an admissible id's list, the id stays admissible and unlisted. */
  lemma AdmissibleAfter(ids: seq<string>, kept: seq<string>, bid: string)
    requires Admissible(bid, ids)
    requires forall i :: 0 <= i < |kept| ==> kept[i] in ids && kept[i] != bid
    ensures Admissible(bid, kept) && bid !in kept
  {
    forall i | 0 <= i < |kept|
      ensures !(bid <= kept[i]) && !(kept[i] <= bid)
    {
      assert kept[i] in ids;
      var j :| 0 <= j < |ids| && ids[j] == kept[i];
      assert ids[j] != bid;
    }
  }

  /** Removing a listed id's item and the id keeps the state valid. */
  lemma RemoveKeepsValid(store: Store, lead: bool, ids: seq<string>, k: string)
    requires ValidState(store, lead, ids) && PlainId(k) && NoLongerMatch(k, ids)
    ensures var w := Without(ids, k); var l := LeadAfterRemove(lead, ids, k);
      ValidState((store - {k})[BOOK_LIST := Render(l, w)], l, w)
  {
    WithoutKeeps(ids, k);
    var w := Without(ids, k);
    var l := LeadAfterRemove(lead, ids, k);
    var s := (store - {k})[BOOK_LIST := Render(l, w)];
    assert ItemsStored(s, w) by {
      forall i | 0 <= i < |w|
        ensures w[i] in s && |ItemOf(s, w[i])| > 3 && ItemOf(s, w[i])[0] == w[i]
      {
        var j :| 0 <= j < |ids| && ids[j] == w[i];
        assert ItemOf(s, w[i]) == ItemOf(store, ids[j]);
      }
    }
  }

  /** Storing a new book's item and appending its id keeps the state valid. */
  lemma AddKeepsValid(store: Store, lead: bool, ids: seq<string>, bid: string, item: string)
    requires ValidState(store, lead, ids) && |ids| < BOOK_MAX && PlainId(bid) && bid !in ids
    requires forall i :: 0 <= i < |ids| ==> !(bid <= ids[i]) && !(ids[i] <= bid)
    requires |Split(item, '#')| > 3 && Split(item, '#')[0] == bid
    ensures var n := ids + [bid]; var l := lead && ids != [];
      ValidState(store[bid := item][BOOK_LIST := Render(l, n)], l, n)
  {
    var n := ids + [bid];
    var l := lead && ids != [];
    var s := store[bid := item][BOOK_LIST := Render(l, n)];
    assert WellFormed(n) by {
      AppendWellFormed(ids, bid);
    }
    assert ItemsStored(s, n) by {
      forall i | 0 <= i < |n|
        ensures n[i] in s && |ItemOf(s, n[i])| > 3 && ItemOf(s, n[i])[0] == n[i]
      {
        if i < |ids| {
          assert n[i] == ids[i] != bid;
          assert ItemOf(s, n[i]) == ItemOf(store, ids[i]);
        } else {
          assert ItemOf(s, n[i]) == Split(item, '#');
        }
      }
    }
  }

  lemma AppendWellFormed(ids: seq<string>, bid: string)
    requires WellFormed(ids) && PlainId(bid)
    requires forall i :: 0 <= i < |ids| ==> !(bid <= ids[i]) && !(ids[i] <= bid)
    ensures WellFormed(ids + [bid])
  {
    var n := ids + [bid];
    forall i, j | 0 <= i < |n| && 0 <= j < |n| && i != j
      ensures !(n[i] <= n[j])
    {
      if i < |ids| && j < |ids| {
        assert n[i] == ids[i] && n[j] == ids[j];
      }
    }
  }

  lemma WithoutFirst(ids: seq<string>)
    requires ids != []
    ensures Without(ids, ids[0]) == ids[1..]
  {
    assert Position(ids, ids[0]) == 0;
    assert ids[..0] + ids[1..] == ids[1..];
  }

  /** Removing an id from a well-formed list keeps it well formed. */
  lemma WithoutKeeps(ids: seq<string>, v: string)
    requires WellFormed(ids)
    ensures WellFormed(Without(ids, v)) && |Without(ids, v)| <= |ids|
    ensures forall i :: 0 <= i < |Without(ids, v)| ==> Without(ids, v)[i] in ids && Without(ids, v)[i] != v
  {
  }
}
