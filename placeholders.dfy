/**
 * URL templates of the site configuration ("/book/{sid}/{id}/") seen as a
 * sequence of literal text and `{name}` placeholders. Filling a placeholder
 * with `String::replace` is then the same as substituting the segment, as long
 * as the literal text and the inserted values carry no '{'.
 */
module Placeholders {
  import opened Strings

  datatype Segment = Lit(text: string) | Hole(name: string)
  type Template = seq<Segment>

  /** The placeholder text `{name}`. */
  function Key(name: string): (k: string)
    ensures |k| == |name| + 2 && k[0] == '{' && k[|k| - 1] == '}' && k[1..|k| - 1] == name
  {
    "{" + name + "}"
  }

  function SegText(g: Segment): string
  {
    match g
    case Lit(t) => t
    case Hole(n) => Key(n)
  }

  /** The template as the configuration string that holds it. */
  function Text(t: Template): string
  {
    if t == [] then "" else SegText(t[0]) + Text(t[1..])
  }

  predicate BraceFree(s: string) { '{' !in s && '}' !in s }

  /** Literal text holds no '{' and placeholder names hold no braces. */
  predicate WellFormed(t: Template)
  {
    forall i :: 0 <= i < |t| ==>
      (t[i].Lit? ==> '{' !in t[i].text) && (t[i].Hole? ==> BraceFree(t[i].name))
  }

  /** Every `{name}` placeholder of `t` replaced by the literal `v`. */
  function Fill(t: Template, name: string, v: string): (r: Template)
    ensures |r| == |t|
    ensures forall i :: 0 <= i < |t| ==> r[i] == if t[i] == Hole(name) then Lit(v) else t[i]
  {
    if t == [] then [] else [if t[0] == Hole(name) then Lit(v) else t[0]] + Fill(t[1..], name, v)
  }

  lemma FillWellFormed(t: Template, name: string, v: string)
    requires WellFormed(t) && '{' !in v
    ensures WellFormed(Fill(t, name, v))
  {
  }

  lemma WellFormedTail(t: Template)
    requires WellFormed(t) && t != []
    ensures WellFormed(t[1..])
  {
    forall i | 0 <= i < |t[1..]|
      ensures (t[1..][i].Lit? ==> '{' !in t[1..][i].text) && (t[1..][i].Hole? ==> BraceFree(t[1..][i].name))
    {
      assert t[1..][i] == t[i + 1];
    }
  }

  /** Every `{from}` placeholder of `t` renamed `{to}`. */
  function Rename(t: Template, from: string, to: string): (r: Template)
    ensures |r| == |t|
    ensures forall i :: 0 <= i < |t| ==> r[i] == if t[i] == Hole(from) then Hole(to) else t[i]
  {
    if t == [] then [] else [if t[0] == Hole(from) then Hole(to) else t[0]] + Rename(t[1..], from, to)
  }

  lemma RenameWellFormed(t: Template, from: string, to: string)
    requires WellFormed(t) && BraceFree(to)
    ensures WellFormed(Rename(t, from, to))
  {
    var r := Rename(t, from, to);
    forall i | 0 <= i < |r|
      ensures (r[i].Lit? ==> '{' !in r[i].text) && (r[i].Hole? ==> BraceFree(r[i].name))
    {
      assert r[i] == t[i] || r[i] == Hole(to);
    }
  }

  /** After renaming, no `{from}` placeholder is left. */
  lemma RenameRemoves(t: Template, from: string, to: string)
    requires from != to
    ensures Hole(from) !in Rename(t, from, to)
  {
    var r := Rename(t, from, to);
    forall i | 0 <= i < |r|
      ensures r[i] != Hole(from)
    {
    }
  }

  /** Filling a renamed placeholder is filling the original one, when the new name was not in use. */
  lemma FillRenamed(t: Template, from: string, to: string, v: string)
    requires Hole(to) !in t
    ensures Fill(Rename(t, from, to), to, v) == Fill(t, from, v)
  {
    var r := Rename(t, from, to);
    assert forall i :: 0 <= i < |t| ==> Fill(r, to, v)[i] == Fill(t, from, v)[i];
  }

  /**
   * Replacing `{from}` by the text `{to}`: the template renamed, with no
   * `{from}` left, and replacing `{to}` afterwards is replacing `{from}`.
   */
  lemma RenameByReplace(t: Template, from: string, to: string, v: string)
    requires WellFormed(t) && BraceFree(from) && BraceFree(to) && from != to && Hole(to) !in t
    ensures Replace(Text(t), Key(from), Key(to)) == Text(Rename(t, from, to))
    ensures !Contains(Text(Rename(t, from, to)), Key(from))
    ensures Replace(Text(Rename(t, from, to)), Key(to), v) == Replace(Text(t), Key(from), v)
  {
    var r := Rename(t, from, to);
    ReplaceHole(t, from, Key(to));
    FillKey(t, from, to);
    RenameWellFormed(t, from, to);
    RenameRemoves(t, from, to);
    TextWithoutHole(r, from);
    ReplaceHole(r, to, v);
    ReplaceHole(t, from, v);
    FillRenamed(t, from, to, v);
  }

  /** Filling `{from}` with the text `{to}` is renaming the placeholder. */
  lemma {:induction false} FillKey(t: Template, from: string, to: string)
    ensures Text(Fill(t, from, Key(to))) == Text(Rename(t, from, to))
  {
    if t != [] {
      FillKey(t[1..], from, to);
      assert Fill(t, from, Key(to))[1..] == Fill(t[1..], from, Key(to));
      assert Rename(t, from, to)[1..] == Rename(t[1..], from, to);
    }
  }

  /** A well-formed template without a `{name}` placeholder holds no `{name}` text. */
  lemma {:induction false} TextWithoutHole(t: Template, name: string)
    requires WellFormed(t) && BraceFree(name) && Hole(name) !in t
    ensures !Contains(Text(t), Key(name))
  {
    if t == [] {
      NotContainsWithoutHead("", Key(name));
    } else {
      WellFormedTail(t);
      assert Hole(name) !in t[1..] by {
        forall i | 0 <= i < |t[1..]|
          ensures t[1..][i] != Hole(name)
        {
          assert t[1..][i] == t[i + 1];
        }
      }
      TextWithoutHole(t[1..], name);
      match t[0]
      case Lit(s) =>
        NoPartialMatchWithoutHead(s, Key(name));
        NotContainsWithoutHead(s, Key(name));
        NotContainsConcat(s, Text(t[1..]), Key(name));
      case Hole(m) =>
        KeyNoPartialMatch(m, name);
        KeyNotContains(m, name);
        NotContainsConcat(Key(m), Text(t[1..]), Key(name));
    }
  }

  /** `{m}` contains no `{n}` unless the names are equal. */
  lemma KeyNotContains(m: string, n: string)
    requires BraceFree(m) && BraceFree(n) && m != n
    ensures !Contains(Key(m), Key(n))
  {
    var km, kn := Key(m), Key(n);
    assert km[1..] == m + "}";
    assert '{' !in km[1..];
    NotContainsWithoutHead(km[1..], kn);
  }

  /** No `{n}` starts inside `{m}` and runs past its end. */
  lemma KeyNoPartialMatch(m: string, n: string)
    requires BraceFree(m) && BraceFree(n)
    ensures NoPartialMatch(Key(m), Key(n))
  {
    var km, kn := Key(m), Key(n);
    forall k | 0 < k < |kn| && k <= |km|
      ensures km[|km| - k..] != kn[..k]
    {
      if k < |km| {
        assert km[|km| - k..][0] == km[|km| - k];
        assert km[|km| - k] != '{' by {
          assert km[|km| - k] == '}' || km[|km| - k] == m[|km| - k - 1];
        }
      } else {
        assert km[|km| - k..][k - 1] == '}';
        assert kn[..k][k - 1] != '}' by {
          assert kn[k - 1] == '{' || kn[k - 1] == n[k - 2];
        }
      }
    }
  }

  /** `String::replace` of `{name}` by `v` is the same as filling that placeholder. */
  lemma {:induction false} ReplaceHole(t: Template, name: string, v: string)
    requires WellFormed(t) && BraceFree(name)
    ensures Replace(Text(t), Key(name), v) == Text(Fill(t, name, v))
  {
    if t != [] {
      WellFormedTail(t);
      ReplaceHole(t[1..], name, v);
      match t[0]
      case Lit(s) =>
        NoPartialMatchWithoutHead(s, Key(name));
        NotContainsWithoutHead(s, Key(name));
        ReplaceAbsent(s, Key(name), v);
        ReplaceConcat(s, Text(t[1..]), Key(name), v);
      case Hole(m) =>
        KeyNoPartialMatch(m, name);
        ReplaceConcat(Key(m), Text(t[1..]), Key(name), v);
        if m == name {
          assert Key(m)[|Key(name)|..] == [];
          assert Replace(Key(m), Key(name), v) == v;
        } else {
          KeyNotContains(m, name);
          ReplaceAbsent(Key(m), Key(name), v);
        }
    }
  }
}
