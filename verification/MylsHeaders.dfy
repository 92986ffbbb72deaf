/**
 * What a recursive listing prints. When every directory it comes to can be read, the headers are the visible
 * directories in preorder, each once, and each header denotes the directory that is listed under it.
 */
module MylsHeaders {
  import opened Wrappers
  import opened MylsOrder
  import opened MylsListing
  import opened MylsFiles
  import opened MylsTraversal

  /** The entries that `-R` descends into. */
  predicate Descends(opts: Options, e: Entry) {
    opts.R && e.Child? && e.tree.Dir? && !Skipped(opts, e.name)
  }

  /** The directory and all that the listing comes to below it can be read. */
  ghost predicate Readable(opts: Options, t: Tree)
    requires t.Dir?
  {
    t.readable && AllReadable(opts, t.entries)
  }

  ghost predicate AllReadable(opts: Options, es: seq<Entry>) {
    forall i :: 0 <= i < |es| && Descends(opts, es[i]) ==> Readable(opts, es[i].tree)
  }

  /** The frames that the call stack needs. */
  function Height(opts: Options, t: Tree): nat
    requires t.Dir?
  {
    1 + HeightOf(opts, t.entries)
  }

  function HeightOf(opts: Options, es: seq<Entry>): nat {
    if es == [] then 0
    else
      var h := if Descends(opts, es[0]) then Height(opts, es[0].tree) else 0;
      var r := HeightOf(opts, es[1..]);
      if h > r then h else r
  }

  /** The directories to be listed from `t` down, in preorder: `at` is where `t` is, `text` its header. */
  function Preorder(fs: Tree, opts: Options, t: Tree, at: Path, text: string): seq<Line>
    requires t.Dir?
    decreases t
  {
    [Section(text, at, Listed(opts, Stats(fs, at), Names(t.entries), true))]
    + Below(fs, opts, t.entries, at, NextPath(text))
  }

  function Below(fs: Tree, opts: Options, es: seq<Entry>, at: Path, path: string): seq<Line>
    decreases es
  {
    if es == [] then []
    else
      (if Descends(opts, es[0])
       then Preorder(fs, opts, es[0].tree, at + [es[0].name], path + es[0].name) else [])
      + Below(fs, opts, es[1..], at, path)
  }

  /** `es` is the rest of the entries of the directory `at`. */
  ghost predicate RestOf(fs: Tree, at: Path, es: seq<Entry>) {
    && IsDir(fs, at)
    && (forall i :: 0 <= i < |es| && es[i].Child? ==>
          && Plain(es[i].name) && WellFormed(es[i].tree)
          && Find(Lookup(fs, at).value.entries, es[i].name) == Some(es[i].tree))
  }

  lemma {:induction false} FindChild(es: seq<Entry>, k: nat)
    requires k < |es| && es[k].Child?
    requires forall i :: 0 <= i < k && es[i].Child? ==> es[i].name != es[k].name
    ensures Find(es, es[k].name) == Some(es[k].tree)
    decreases |es|
  {
    if k > 0 { FindChild(es[1..], k - 1); }
  }

  lemma RestOfAll(fs: Tree, at: Path)
    requires IsDir(fs, at) && WellFormed(Lookup(fs, at).value)
    ensures RestOf(fs, at, Lookup(fs, at).value.entries)
  {
    var es := Lookup(fs, at).value.entries;
    forall i | 0 <= i < |es| && es[i].Child?
      ensures Find(es, es[i].name) == Some(es[i].tree)
    {
      FindChild(es, i);
    }
  }

  lemma ChildIsThere(fs: Tree, at: Path, es: seq<Entry>)
    requires RestOf(fs, at, es) && es != [] && es[0].Child?
    ensures Lookup(fs, at + [es[0].name]) == Some(es[0].tree)
  {
    assert (at + [es[0].name])[..|at|] == at;
  }

  // ---- Readable trees.

  lemma {:induction false} VisitReadable(
      fs: Tree, opts: Options, stack: nat, w: World, name: string, path: string, at: Path)
    requires OpenDir(fs, w.cwd, name) == Some(at) && WellFormed(Lookup(fs, at).value)
    requires Readable(opts, Lookup(fs, at).value) && stack >= Height(opts, Lookup(fs, at).value)
    ensures Visit(fs, opts, stack, w, name, path)
         == Some(World(at, w.out + Preorder(fs, opts, Lookup(fs, at).value, at, path + name)))
    decreases stack, 0
  {
    hide Go, Lookup, Listed, Stats, Names, HeightOf, AllReadable, VisitEach, Below, DirNames, WellFormed, RestOf;
    var t := Lookup(fs, at).value;
    var text := path + name;
    var v := World(at, w.out + [SectionAt(fs, opts, at, text)]);
    RestOfAll(fs, at);
    assert Preorder(fs, opts, t, at, text)
        == [SectionAt(fs, opts, at, text)] + Below(fs, opts, t.entries, at, NextPath(text));
    if opts.R {
      VisitEachReadable(fs, opts, stack - 1, v, t.entries, NextPath(text));
      assert v.out + Below(fs, opts, t.entries, at, NextPath(text)) == w.out + Preorder(fs, opts, t, at, text);
    } else {
      NothingBelow(fs, opts, t.entries, at, NextPath(text));
      assert v.out == w.out + Preorder(fs, opts, t, at, text);
    }
  }

  lemma {:induction false} NothingBelow(fs: Tree, opts: Options, es: seq<Entry>, at: Path, path: string)
    requires !opts.R
    ensures Below(fs, opts, es, at, path) == []
    decreases |es|
  {
    if es != [] { NothingBelow(fs, opts, es[1..], at, path); }
  }

  lemma {:induction false} VisitEachReadable(
      fs: Tree, opts: Options, stack: nat, w: World, es: seq<Entry>, path: string)
    requires opts.R && RestOf(fs, w.cwd, es) && stack >= HeightOf(opts, es)
    requires AllReadable(opts, es)
    ensures VisitEach(fs, opts, stack, w, DirNames(es), path)
         == Some(World(w.cwd, w.out + Below(fs, opts, es, w.cwd, path)))
    decreases stack, |es| + 1
  {
    hide *;
    if es == [] {
      NoNames(fs, opts, stack, w, es, path);
      return;
    }
    Tail(fs, opts, w.cwd, es);
    BelowFirst(fs, opts, es, w, path);
    if Descends(opts, es[0]) {
      var first := Preorder(fs, opts, es[0].tree, w.cwd + [es[0].name], path + es[0].name);
      VisitChild(fs, opts, stack, w, es, path);
      VisitsFirst(fs, opts, stack, w, es, path);
      ParentOfChild(w.cwd, es[0].name);
      VisitEachReadable(fs, opts, stack, World(w.cwd, w.out + first), es[1..], path);
    } else {
      VisitEachReadable(fs, opts, stack, w, es[1..], path);
      SkipsOver(fs, opts, stack, w, es, path);
    }
  }

  lemma ParentOfChild(p: Path, n: string)
    ensures Parent(p + [n]) == p
  {
  }

  lemma BelowFirst(fs: Tree, opts: Options, es: seq<Entry>, w: World, path: string)
    requires es != []
    ensures var rest := Below(fs, opts, es[1..], w.cwd, path);
            if Descends(opts, es[0]) then
              es[0].Child? && es[0].tree.Dir?
              && w.out + Below(fs, opts, es, w.cwd, path)
              == (w.out + Preorder(fs, opts, es[0].tree, w.cwd + [es[0].name], path + es[0].name)) + rest
            else
              Below(fs, opts, es, w.cwd, path) == rest
  {
    hide Preorder, Skipped;
  }

  lemma Tail(fs: Tree, opts: Options, at: Path, es: seq<Entry>)
    requires RestOf(fs, at, es) && es != []
    ensures RestOf(fs, at, es[1..]) && HeightOf(opts, es[1..]) <= HeightOf(opts, es)
    ensures AllReadable(opts, es) ==> AllReadable(opts, es[1..])
    ensures Descends(opts, es[0]) ==> es[0].Child? && es[0].tree.Dir? && Height(opts, es[0].tree) <= HeightOf(opts, es)
    ensures AllReadable(opts, es) && Descends(opts, es[0]) ==> Readable(opts, es[0].tree)
  {
    hide Lookup, Find, WellFormed, Plain, Readable;
  }

  lemma NoNames(fs: Tree, opts: Options, stack: nat, w: World, es: seq<Entry>, path: string)
    requires es == []
    ensures VisitEach(fs, opts, stack, w, DirNames(es), path)
         == Some(World(w.cwd, w.out + Below(fs, opts, es, w.cwd, path)))
  {
    assert w.out + [] == w.out;
  }

  /** A readable subdirectory is opened from its parent, listed, and left again. */
  lemma VisitChild(fs: Tree, opts: Options, stack: nat, w: World, es: seq<Entry>, path: string)
    requires RestOf(fs, w.cwd, es) && es != [] && Descends(opts, es[0]) && Readable(opts, es[0].tree)
    requires stack >= Height(opts, es[0].tree)
    ensures var at := w.cwd + [es[0].name];
            Visit(fs, opts, stack, w, es[0].name, path)
            == Some(World(at, w.out + Preorder(fs, opts, es[0].tree, at, path + es[0].name)))
    decreases stack, 1
  {
    hide Visit, Preorder, Go, Lookup, Find, WellFormed;
    ChildIsThere(fs, w.cwd, es);
    OpenChild(fs, w.cwd, es[0].name, es[0].tree);
    ReadableIsReadable(opts, es[0].tree);
    VisitReadable(fs, opts, stack, w, es[0].name, path, w.cwd + [es[0].name]);
  }

  /** An entry that the listing descends into is visited, and then the current directory is left upwards. */
  lemma VisitsFirst(fs: Tree, opts: Options, stack: nat, w: World, es: seq<Entry>, path: string)
    requires es != [] && Descends(opts, es[0])
    ensures var v := Visit(fs, opts, stack, w, es[0].name, path);
            VisitEach(fs, opts, stack, w, DirNames(es), path)
            == if v.None? then None
               else VisitEach(fs, opts, stack, World(Parent(v.value.cwd), v.value.out), DirNames(es[1..]), path)
  {
    hide Visit;
    assert DirNames(es)[1..] == DirNames(es[1..]);
  }

  lemma ReadableIsReadable(opts: Options, t: Tree)
    requires t.Dir? && Readable(opts, t)
    ensures t.readable
  {
  }

  lemma OpenChild(fs: Tree, at: Path, n: string, t: Tree)
    requires Plain(n) && t.Dir? && Lookup(fs, at + [n]) == Some(t)
    ensures OpenDir(fs, at, n) == if t.readable then Some(at + [n]) else None
  {
    GoPlain(fs, at, n);
  }

  /** An entry that the listing does not descend into has no effect on the last loop. */
  lemma SkipsOver(fs: Tree, opts: Options, stack: nat, w: World, es: seq<Entry>, path: string)
    requires opts.R && es != [] && !Descends(opts, es[0])
    ensures VisitEach(fs, opts, stack, w, DirNames(es), path) == VisitEach(fs, opts, stack, w, DirNames(es[1..]), path)
  {
    var names := DirNames(es);
    if IsDirEntry(es[0]) {
      assert names == [NameOf(es[0])] + DirNames(es[1..]);
      assert names[1..] == DirNames(es[1..]);
    } else {
      assert names == DirNames(es[1..]);
    }
  }

  // ---- Headers denote the current directory.

  ghost predicate Denoted(fs: Tree, start: Path, lines: seq<Line>) {
    forall k :: 0 <= k < |lines| && lines[k].Section? ==> Go(fs, start, lines[k].text) == Some(lines[k].at)
  }

  lemma {:induction false} HeadersDenote(fs: Tree, opts: Options, start: Path, t: Tree, at: Path, text: string)
    requires Lookup(fs, at) == Some(t) && t.Dir? && WellFormed(t) && Go(fs, start, text) == Some(at)
    ensures Denoted(fs, start, Preorder(fs, opts, t, at, text))
    decreases t
  {
    hide Go, Lookup, Listed, Below;
    RestOfAll(fs, at);
    HeadersBelowDenote(fs, opts, start, t.entries, at, text);
  }

  lemma {:induction false} HeadersBelowDenote(
      fs: Tree, opts: Options, start: Path, es: seq<Entry>, at: Path, text: string)
    requires RestOf(fs, at, es) && Go(fs, start, text) == Some(at)
    ensures Denoted(fs, start, Below(fs, opts, es, at, NextPath(text)))
    decreases es
  {
    hide Go, Lookup, Preorder, Find;
    if es == [] { return; }
    var e := es[0];
    if Descends(opts, e) {
      ChildIsThere(fs, at, es);
      GoChild(fs, start, text, at, e.name);
      HeadersDenote(fs, opts, start, e.tree, at + [e.name], NextPath(text) + e.name);
    }
    HeadersBelowDenote(fs, opts, start, es[1..], at, text);
  }

  // ---- Every visible directory once.

  /** The path `rel` leads from `t` through directories that the listing descends into. */
  predicate Visited(opts: Options, t: Tree, rel: Path) {
    if rel == [] then t.Dir?
    else t.Dir? && VisitedBelow(opts, t.entries, rel)
  }

  predicate VisitedBelow(opts: Options, es: seq<Entry>, rel: Path)
    requires rel != []
  {
    exists i :: 0 <= i < |es| && Descends(opts, es[i]) && es[i].name == rel[0] && Visited(opts, es[i].tree, rel[1..])
  }

  /** How often the directory `p` is listed. */
  function Times(lines: seq<Line>, p: Path): nat {
    if lines == [] then 0 else (if lines[0].Section? && lines[0].at == p then 1 else 0) + Times(lines[1..], p)
  }

  lemma {:induction false} TimesConcat(a: seq<Line>, b: seq<Line>, p: Path)
    ensures Times(a + b, p) == Times(a, p) + Times(b, p)
    decreases |a|
  {
    if a == [] {
      assert a + b == b;
    } else {
      TimesConcat(a[1..], b, p);
      assert (a + b)[1..] == a[1..] + b;
    }
  }

  ghost predicate DistinctChildren(es: seq<Entry>) {
    && (forall i :: 0 <= i < |es| && es[i].Child? ==> WellFormed(es[i].tree))
    && (forall i, j :: 0 <= i < j < |es| && es[i].Child? && es[j].Child? ==> es[i].name != es[j].name)
  }

  /** A directory is listed once when it can be reached through directories that are not skipped, otherwise never. */
  lemma {:induction false} ListedOnce(fs: Tree, opts: Options, t: Tree, at: Path, text: string, p: Path)
    requires t.Dir? && WellFormed(t)
    ensures Times(Preorder(fs, opts, t, at, text), p) == if at <= p && Visited(opts, t, p[|at|..]) then 1 else 0
    decreases t
  {
    hide Listed, Stats, Names, Below, VisitedBelow, Descends;
    var top := [Section(text, at, Listed(opts, Stats(fs, at), Names(t.entries), true))];
    BelowOnce(fs, opts, t.entries, at, NextPath(text), p);
    TimesConcat(top, Below(fs, opts, t.entries, at, NextPath(text)), p);
    assert top[1..] == [];
    assert at <= p ==> (p[|at|..] == [] <==> p == at);
  }

  lemma {:induction false} BelowOnce(fs: Tree, opts: Options, es: seq<Entry>, at: Path, path: string, p: Path)
    requires DistinctChildren(es)
    ensures Times(Below(fs, opts, es, at, path), p) == if at < p && VisitedBelow(opts, es, p[|at|..]) then 1 else 0
    decreases es
  {
    hide Preorder, Visited, VisitedBelow, Descends, Times, WellFormed;
    if es == [] {
      OnceInFirst(opts, es, at, p);
      return;
    }
    BelowOnce(fs, opts, es[1..], at, path, p);
    OnceInFirst(opts, es, at, p);
    if Descends(opts, es[0]) {
      var first := Preorder(fs, opts, es[0].tree, at + [es[0].name], path + es[0].name);
      ListedOnce(fs, opts, es[0].tree, at + [es[0].name], path + es[0].name, p);
      TimesConcat(first, Below(fs, opts, es[1..], at, path), p);
    } else {
      assert [] + Below(fs, opts, es[1..], at, path) == Below(fs, opts, es[1..], at, path);
    }
  }

  /** A path is visited through the first entry or through a later one, never both. */
  lemma OnceInFirst(opts: Options, es: seq<Entry>, at: Path, p: Path)
    requires DistinctChildren(es)
    ensures es == [] ==> Times([], p) == 0 && (at < p ==> !VisitedBelow(opts, es, p[|at|..]))
    ensures es != [] ==> (Descends(opts, es[0]) ==> es[0].Child? && es[0].tree.Dir? && WellFormed(es[0].tree))
    ensures es != [] ==>
              var here := Descends(opts, es[0]) && at + [es[0].name] <= p
                          && Visited(opts, es[0].tree, p[|at + [es[0].name]|..]);
              var later := at < p && VisitedBelow(opts, es[1..], p[|at|..]);
              !(here && later) && ((at < p && VisitedBelow(opts, es, p[|at|..])) <==> here || later)
  {
    hide Visited, WellFormed, Skipped;
    if es == [] { return; }
    if at + [NameOf(es[0])] <= p {
      assert (at + [NameOf(es[0])])[..|at|] == at && p[..|at| + 1][..|at|] == p[..|at|];
    }
    if !(at < p) { return; }
    var rel := p[|at|..];
    assert es[0].Child? ==> (at + [es[0].name] <= p <==> es[0].name == rel[0]);
    assert es[0].Child? ==> rel[1..] == p[|at + [es[0].name]|..];
    var here := Descends(opts, es[0]) && es[0].name == rel[0] && Visited(opts, es[0].tree, rel[1..]);
    if VisitedBelow(opts, es, rel) {
      var i :| 0 <= i < |es| && Descends(opts, es[i]) && es[i].name == rel[0] && Visited(opts, es[i].tree, rel[1..]);
      assert i > 0 ==> es[1..][i - 1] == es[i];
      assert here || VisitedBelow(opts, es[1..], rel);
    }
    if VisitedBelow(opts, es[1..], rel) {
      var i :| 0 <= i < |es| - 1 && Descends(opts, es[1..][i]) && es[1..][i].name == rel[0]
               && Visited(opts, es[1..][i].tree, rel[1..]);
      assert es[i + 1] == es[1..][i];
      assert VisitedBelow(opts, es, rel) && !here;
    }
    if here {
      assert VisitedBelow(opts, es, rel);
    }
  }

  // ---- Visible directories that are not descended into.

  /** `-R` descends into a subdirectory exactly when it is visible and its name does not start with "..". */
  lemma DescendsIff(opts: Options, e: Entry)
    requires opts.R && e.Child? && e.tree.Dir? && Plain(e.name)
    ensures Descends(opts, e) <==> Visible(opts, e.name) && !LeadingDots(e.name)
  {
    assert e.name == "." <==> |e.name| == 1 && e.name[0] == '.';
    assert e.name == ".." <==> |e.name| == 2 && e.name[0] == '.' && e.name[1] == '.';
  }

  /** A subdirectory is listed under a header, once, exactly when it is visible and does not start with "..". */
  lemma SubdirectoryListedIff(fs: Tree, opts: Options, t: Tree, k: nat, at: Path, text: string)
    requires opts.R && t.Dir? && WellFormed(t) && k < |t.entries| && t.entries[k].Child? && t.entries[k].tree.Dir?
    ensures var n := t.entries[k].name;
            Times(Preorder(fs, opts, t, at, text), at + [n]) == if Visible(opts, n) && !LeadingDots(n) then 1 else 0
  {
    hide Preorder, Times, Skipped, Visible, LeadingDots, Plain;
    var e := t.entries[k];
    var p := at + [e.name];
    ListedOnce(fs, opts, t, at, text, p);
    DescendsIff(opts, e);
    assert p[..|at|] == at && p[|at|..] == [e.name] && [e.name][1..] == [];
    if Descends(opts, e) {
      assert Visited(opts, e.tree, [e.name][1..]);
    }
  }

  /** With `-aR` the directory "..x" is shown in the listing of its parent, and never listed itself. */
  lemma ShownButNotListed(fs: Tree, opts: Options, s: Stat, x: Tree, at: Path, text: string)
    requires opts.R && opts.a && x.Dir? && WellFormed(x)
    ensures var t := Dir(s, true, [Child("..x", x)]);
            && Shown(opts, Names(t.entries)) == ["..x"]
            && Times(Preorder(fs, opts, t, at, text), at + ["..x"]) == 0
  {
    hide Preorder, Times;
    var t := Dir(s, true, [Child("..x", x)]);
    assert Names(t.entries)[..0] == [];
    assert WellFormed(t);
    SubdirectoryListedIff(fs, opts, t, 0, at, text);
  }
}
