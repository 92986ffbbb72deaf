/**
 * When `chdir("..")` undoes the `chdir` into a subdirectory. `list_content_dir` returns before its `chdir` when the
 * directory cannot be opened, and its caller goes up all the same; so the current directory comes back exactly when
 * everything could be opened, and otherwise the rest of the listing is looked for in the wrong place.
 */
module MylsRestore {
  import opened Wrappers
  import opened MylsOrder
  import opened MylsListing
  import opened MylsFiles
  import opened MylsTraversal
  import opened MylsHeaders

  /** No directory failed to open while the lines from `n` on were printed. */
  ghost predicate AllOpened(lines: seq<Line>, n: nat) {
    forall k :: n <= k < |lines| ==> lines[k].Section?
  }

  ghost predicate Extends(before: seq<Line>, lines: seq<Line>) {
    |before| <= |lines| && lines[..|before|] == before
  }

  ghost predicate PlainNames(opts: Options, names: seq<Name>) {
    forall i :: 0 <= i < |names| ==> Skipped(opts, names[i]) || Plain(names[i])
  }

  /** Every directory of the tree is well formed, wherever a walk may end up. */
  lemma {:induction false} WellFormedBelow(fs: Tree, p: Path)
    requires WellFormed(fs) && Lookup(fs, p).Some?
    ensures WellFormed(Lookup(fs, p).value)
    decreases |p|
  {
    if p != [] {
      WellFormedBelow(fs, p[..|p| - 1]);
      FoundIsWellFormed(Lookup(fs, p[..|p| - 1]).value.entries, p[|p| - 1]);
    }
  }

  lemma {:induction false} FoundIsWellFormed(es: seq<Entry>, n: string)
    requires Find(es, n).Some?
    requires forall i :: 0 <= i < |es| && es[i].Child? ==> WellFormed(es[i].tree)
    ensures WellFormed(Find(es, n).value)
    decreases |es|
  {
    hide WellFormed;
    if !(es[0].Child? && es[0].name == n) { FoundIsWellFormed(es[1..], n); }
  }

  lemma {:induction false} DirNamesArePlain(opts: Options, es: seq<Entry>)
    requires forall i :: 0 <= i < |es| && es[i].Child? ==> Plain(es[i].name)
    ensures PlainNames(opts, DirNames(es))
    decreases |es|
  {
    hide Plain;
    if es != [] { DirNamesArePlain(opts, es[1..]); }
  }

  // ---- The current directory after a visit, for every tree.

  /** A visit ends at or above the directory it opened, and exactly there when all was opened. */
  lemma {:induction false} VisitEndsAbove(
      fs: Tree, opts: Options, stack: nat, w: World, name: string, path: string)
    requires WellFormed(fs) && Visit(fs, opts, stack, w, name, path).Some?
    ensures var v := Visit(fs, opts, stack, w, name, path).value;
            var at := OpenDir(fs, w.cwd, name);
            && Extends(w.out, v.out)
            && (if at.None? then v.cwd == w.cwd && !AllOpened(v.out, |w.out|)
                else v.cwd <= at.value && (v.cwd == at.value <==> at.value == [] || AllOpened(v.out, |w.out|)))
    decreases stack, 0
  {
    hide OpenDir, WellFormed, Lookup, Listed, Stats, Names;
    var at := OpenDir(fs, w.cwd, name);
    if at.None? {
      assert Visit(fs, opts, stack, w, name, path).value.out[|w.out|].Failed?;
    } else {
      OpenedIsDir(fs, w.cwd, name);
      var v := World(at.value, w.out + [SectionAt(fs, opts, at.value, path + name)]);
      if opts.R {
        var es := Lookup(fs, at.value).value.entries;
        WellFormedBelow(fs, at.value);
        ChildrenArePlain(Lookup(fs, at.value).value);
        DirNamesArePlain(opts, es);
        VisitEachEndsAbove(fs, opts, stack - 1, v, DirNames(es), NextPath(path + name));
      }
    }
  }

  lemma ChildrenArePlain(t: Tree)
    requires t.Dir? && WellFormed(t)
    ensures forall i :: 0 <= i < |t.entries| && t.entries[i].Child? ==> Plain(t.entries[i].name)
  {
  }

  lemma {:induction false} VisitEachEndsAbove(
      fs: Tree, opts: Options, stack: nat, w: World, names: seq<Name>, path: string)
    requires WellFormed(fs) && PlainNames(opts, names) && VisitEach(fs, opts, stack, w, names, path).Some?
    ensures var v := VisitEach(fs, opts, stack, w, names, path).value;
            && Extends(w.out, v.out)
            && v.cwd <= w.cwd && (v.cwd == w.cwd <==> w.cwd == [] || AllOpened(v.out, |w.out|))
    decreases stack, |names| + 1
  {
    hide WellFormed, Visit, Plain, Skipped;
    if names == [] {
    } else if Skipped(opts, names[0]) {
      VisitEachEndsAbove(fs, opts, stack, w, names[1..], path);
    } else {
      DescendEndsAbove(fs, opts, stack, w, names[0], path);
      var u := Visit(fs, opts, stack, w, names[0], path).value;
      VisitEachEndsAbove(fs, opts, stack, World(Parent(u.cwd), u.out), names[1..], path);
    }
  }

  /** A visit of a name in the current directory, followed by `chdir("..")`. */
  lemma DescendEndsAbove(fs: Tree, opts: Options, stack: nat, w: World, n: string, path: string)
    requires WellFormed(fs) && Plain(n) && Visit(fs, opts, stack, w, n, path).Some?
    ensures var v := Visit(fs, opts, stack, w, n, path).value;
            && Extends(w.out, v.out) && Parent(v.cwd) <= w.cwd
            && (Parent(v.cwd) == w.cwd <==> w.cwd == [] || AllOpened(v.out, |w.out|))
    decreases stack, 1
  {
    hide WellFormed, Visit, Plain, IsDir, Go, AllOpened, Extends;
    VisitEndsAbove(fs, opts, stack, w, n, path);
    GoPlain(fs, w.cwd, n);
  }

  // ---- What was opened could be read.

  lemma {:induction false} OpenedIsReadable(
      fs: Tree, opts: Options, stack: nat, w: World, name: string, path: string, at: Path)
    requires WellFormed(fs) && Visit(fs, opts, stack, w, name, path).Some? && OpenDir(fs, w.cwd, name) == Some(at)
    requires AllOpened(Visit(fs, opts, stack, w, name, path).value.out, |w.out|)
    ensures Readable(opts, Lookup(fs, at).value)
    decreases stack, 0
  {
    hide OpenDir, WellFormed, Lookup, Listed, Stats, Names, AllReadable;
    OpenedIsDir(fs, w.cwd, name);
    var es := Lookup(fs, at).value.entries;
    if opts.R {
      var v := World(at, w.out + [SectionAt(fs, opts, at, path + name)]);
      WellFormedBelow(fs, at);
      RestOfAll(fs, at);
      EachOpenedIsReadable(fs, opts, stack - 1, v, es, NextPath(path + name));
    } else {
      NoneDescended(opts, es);
    }
  }

  lemma NoneDescended(opts: Options, es: seq<Entry>)
    requires !opts.R
    ensures AllReadable(opts, es)
  {
  }

  lemma {:induction false} EachOpenedIsReadable(
      fs: Tree, opts: Options, stack: nat, w: World, es: seq<Entry>, path: string)
    requires WellFormed(fs) && opts.R && RestOf(fs, w.cwd, es)
    requires VisitEach(fs, opts, stack, w, DirNames(es), path).Some?
    requires AllOpened(VisitEach(fs, opts, stack, w, DirNames(es), path).value.out, |w.out|)
    ensures AllReadable(opts, es)
    decreases stack, |es| + 1
  {
    hide *;
    if es == [] {
      NoneToRead(opts, es);
      return;
    }
    Tail(fs, opts, w.cwd, es);
    if Descends(opts, es[0]) {
      VisitsFirst(fs, opts, stack, w, es, path);
      var u := Visit(fs, opts, stack, w, es[0].name, path).value;
      FirstOpened(fs, opts, stack, w, es, path);
      OpenedIsReadable(fs, opts, stack, w, es[0].name, path, w.cwd + [es[0].name]);
      EachOpenedIsReadable(fs, opts, stack, World(w.cwd, u.out), es[1..], path);
    } else {
      SkipsOver(fs, opts, stack, w, es, path);
      EachOpenedIsReadable(fs, opts, stack, w, es[1..], path);
    }
    OneMoreReadable(fs, opts, w.cwd, es);
  }

  lemma NoneToRead(opts: Options, es: seq<Entry>)
    requires es == []
    ensures AllReadable(opts, es)
  {
  }

  lemma OneMoreReadable(fs: Tree, opts: Options, at: Path, es: seq<Entry>)
    requires RestOf(fs, at, es) && es != [] && AllReadable(opts, es[1..])
    requires Descends(opts, es[0]) ==>
               Lookup(fs, at + [es[0].name]) == Some(es[0].tree) && Readable(opts, es[0].tree)
    ensures AllReadable(opts, es)
  {
    hide Readable, Skipped, RestOf;
    forall i | 0 <= i < |es| && Descends(opts, es[i])
      ensures es[i].Child? && es[i].tree.Dir? && Readable(opts, es[i].tree)
    {
      if i > 0 { assert es[1..][i - 1] == es[i]; }
    }
  }

  /** The first subdirectory that is descended into was opened, and left to where it was entered from. */
  lemma FirstOpened(fs: Tree, opts: Options, stack: nat, w: World, es: seq<Entry>, path: string)
    requires WellFormed(fs) && RestOf(fs, w.cwd, es) && es != [] && Descends(opts, es[0])
    requires VisitEach(fs, opts, stack, w, DirNames(es), path).Some?
    requires AllOpened(VisitEach(fs, opts, stack, w, DirNames(es), path).value.out, |w.out|)
    ensures var v := VisitEach(fs, opts, stack, w, DirNames(es), path).value;
            var u := Visit(fs, opts, stack, w, es[0].name, path);
            && Lookup(fs, w.cwd + [es[0].name]) == Some(es[0].tree)
            && OpenDir(fs, w.cwd, es[0].name) == Some(w.cwd + [es[0].name])
            && u.Some? && Parent(u.value.cwd) == w.cwd
            && AllOpened(u.value.out, |w.out|) && AllOpened(v.out, |u.value.out|)
  {
    hide WellFormed, Visit, VisitEach, Lookup, OpenDir, Find, Skipped, DirNames;
    VisitsFirst(fs, opts, stack, w, es, path);
    ChildIsThere(fs, w.cwd, es);
    var u := Visit(fs, opts, stack, w, es[0].name, path).value;
    VisitEndsAbove(fs, opts, stack, w, es[0].name, path);
    DescendEndsAbove(fs, opts, stack, w, es[0].name, path);
    RestIsPlain(fs, opts, w.cwd, es);
    VisitEachEndsAbove(fs, opts, stack, World(Parent(u.cwd), u.out), DirNames(es[1..]), path);
    OpenChild(fs, w.cwd, es[0].name, es[0].tree);
  }

  lemma RestIsPlain(fs: Tree, opts: Options, at: Path, es: seq<Entry>)
    requires RestOf(fs, at, es) && es != []
    ensures PlainNames(opts, DirNames(es[1..]))
  {
    hide Plain, WellFormed, Lookup, Find;
    DirNamesArePlain(opts, es[1..]);
  }

  // ---- More stack changes nothing.

  lemma {:induction false} MoreStack(
      fs: Tree, opts: Options, stack: nat, more: nat, w: World, name: string, path: string)
    requires Visit(fs, opts, stack, w, name, path).Some? && stack <= more
    ensures Visit(fs, opts, more, w, name, path) == Visit(fs, opts, stack, w, name, path)
    decreases stack, 0
  {
    hide Lookup, Listed, Stats, Names, Go;
    var at := OpenDir(fs, w.cwd, name);
    if at.Some? && opts.R {
      var v := World(at.value, w.out + [SectionAt(fs, opts, at.value, path + name)]);
      MoreStackEach(
        fs, opts, stack - 1, more - 1, v, DirNames(Lookup(fs, at.value).value.entries), NextPath(path + name));
    }
  }

  lemma {:induction false} MoreStackEach(
      fs: Tree, opts: Options, stack: nat, more: nat, w: World, names: seq<Name>, path: string)
    requires VisitEach(fs, opts, stack, w, names, path).Some? && stack <= more
    ensures VisitEach(fs, opts, more, w, names, path) == VisitEach(fs, opts, stack, w, names, path)
    decreases stack, |names| + 1
  {
    hide Visit, Skipped;
    if names != [] {
      if Skipped(opts, names[0]) {
        MoreStackEach(fs, opts, stack, more, w, names[1..], path);
      } else {
        MoreStack(fs, opts, stack, more, w, names[0], path);
        var v := Visit(fs, opts, stack, w, names[0], path).value;
        MoreStackEach(fs, opts, stack, more, World(Parent(v.cwd), v.out), names[1..], path);
      }
    }
  }

  // ---- The two exact results.

  lemma {:induction false} PreorderIsOpened(fs: Tree, opts: Options, t: Tree, at: Path, text: string)
    requires t.Dir?
    ensures AllOpened(Preorder(fs, opts, t, at, text), 0)
    decreases t
  {
    hide Listed, Stats, Names, Below;
    BelowIsOpened(fs, opts, t.entries, at, NextPath(text));
  }

  lemma {:induction false} BelowIsOpened(fs: Tree, opts: Options, es: seq<Entry>, at: Path, path: string)
    ensures AllOpened(Below(fs, opts, es, at, path), 0)
    decreases es
  {
    hide Preorder, Skipped;
    if es != [] {
      BelowIsOpened(fs, opts, es[1..], at, path);
      if Descends(opts, es[0]) {
        PreorderIsOpened(fs, opts, es[0].tree, at + [es[0].name], path + es[0].name);
      }
    }
  }

  /**
   * A listing of a directory that can be opened, if it ends, prints the preorder of the visible directories exactly
   * when all of them can be read; and then it ends in the directory it opened.
   */
  lemma ListsAllIff(fs: Tree, opts: Options, stack: nat, w: World, name: string, path: string, at: Path)
    requires WellFormed(fs) && OpenDir(fs, w.cwd, name) == Some(at) && Visit(fs, opts, stack, w, name, path).Some?
    ensures var t := Lookup(fs, at).value;
            var v := Visit(fs, opts, stack, w, name, path).value;
            && (Readable(opts, t) <==> v.out == w.out + Preorder(fs, opts, t, at, path + name))
            && (Readable(opts, t) <==> AllOpened(v.out, |w.out|))
            && (Readable(opts, t) ==> v.cwd == at)
  {
    hide WellFormed, Visit, OpenDir, Readable, Preorder, Lookup, Height;
    OpenedIsDir(fs, w.cwd, name);
    WellFormedBelow(fs, at);
    var t := Lookup(fs, at).value;
    var v := Visit(fs, opts, stack, w, name, path).value;
    var lines := Preorder(fs, opts, t, at, path + name);
    PreorderIsOpened(fs, opts, t, at, path + name);
    if Readable(opts, t) {
      var more := stack + Height(opts, t);
      MoreStack(fs, opts, stack, more, w, name, path);
      VisitReadable(fs, opts, more, w, name, path, at);
    }
    if v.out == w.out + lines {
      assert forall k :: |w.out| <= k < |v.out| ==> v.out[k] == lines[k - |w.out|];
    }
    if AllOpened(v.out, |w.out|) {
      OpenedIsReadable(fs, opts, stack, w, name, path, at);
    }
  }

  /**
   * The call for a subdirectory, if it ends, followed by `chdir("..")`, restores the current directory exactly when
   * the subdirectory and all that is visible below it can be read, or the current directory is the root.
   */
  lemma RestoredIff(fs: Tree, opts: Options, stack: nat, w: World, n: string, t: Tree, path: string)
    requires WellFormed(fs) && Plain(n) && Lookup(fs, w.cwd + [n]) == Some(t) && t.Dir?
    requires Visit(fs, opts, stack, w, n, path).Some?
    ensures Parent(Visit(fs, opts, stack, w, n, path).value.cwd) == w.cwd <==> w.cwd == [] || Readable(opts, t)
  {
    hide WellFormed, Visit, OpenDir, Preorder, Lookup, AllReadable, Plain;
    DescendEndsAbove(fs, opts, stack, w, n, path);
    OpenChild(fs, w.cwd, n, t);
    if t.readable {
      ListsAllIff(fs, opts, stack, w, n, path, w.cwd + [n]);
    } else {
      VisitEndsAbove(fs, opts, stack, w, n, path);
    }
  }
}
