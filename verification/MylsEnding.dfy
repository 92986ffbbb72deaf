/**
 * When a recursive listing ends: when it ends on a call stack with one frame more than there are directories. A deeper
 * stack would have to open a directory while it is being listed already, and would then do so again and again.
 */
module MylsEnding {
  import opened Wrappers
  import opened MylsOrder
  import opened MylsListing
  import opened MylsFiles
  import opened MylsTraversal
  import opened MylsHeaders
  import opened MylsRestore

  // ---- Only the current directory and the name matter.

  lemma {:induction false} OnlyCwdMatters(
      fs: Tree, opts: Options, stack: nat, w: World, w': World, name: string, path: string, path': string)
    requires w.cwd == w'.cwd
    ensures var v, v' := Visit(fs, opts, stack, w, name, path), Visit(fs, opts, stack, w', name, path');
            (v.Some? <==> v'.Some?) && (v.Some? ==> v.value.cwd == v'.value.cwd)
    decreases stack, 0
  {
    hide OpenDir, Lookup, Listed, Stats, Names, DirNames, NextPath;
    var at := OpenDir(fs, w.cwd, name);
    if stack > 0 && at.Some? && opts.R {
      OpenedIsDir(fs, w.cwd, name);
      OnlyCwdMattersEach(fs, opts, stack - 1,
        World(at.value, w.out + [SectionAt(fs, opts, at.value, path + name)]),
        World(at.value, w'.out + [SectionAt(fs, opts, at.value, path' + name)]),
        DirNames(Lookup(fs, at.value).value.entries), NextPath(path + name), NextPath(path' + name));
    }
  }

  lemma {:induction false} OnlyCwdMattersEach(
      fs: Tree, opts: Options, stack: nat, w: World, w': World, names: seq<Name>, path: string, path': string)
    requires w.cwd == w'.cwd
    ensures var v, v' := VisitEach(fs, opts, stack, w, names, path), VisitEach(fs, opts, stack, w', names, path');
            (v.Some? <==> v'.Some?) && (v.Some? ==> v.value.cwd == v'.value.cwd)
    decreases stack, |names| + 1
  {
    hide Visit, Skipped;
    if names != [] {
      if Skipped(opts, names[0]) {
        OnlyCwdMattersEach(fs, opts, stack, w, w', names[1..], path, path');
      } else {
        OnlyCwdMatters(fs, opts, stack, w, w', names[0], path, path');
        var v, v' := Visit(fs, opts, stack, w, names[0], path), Visit(fs, opts, stack, w', names[0], path');
        if v.Some? {
          OnlyCwdMattersEach(fs, opts, stack, World(Parent(v.value.cwd), v.value.out),
            World(Parent(v'.value.cwd), v'.value.out), names[1..], path, path');
        }
      }
    }
  }

  /** Once the directory `at` has been opened, its listing ends on `stack` more frames. */
  ghost predicate EndsIn(fs: Tree, opts: Options, stack: nat, at: Path)
    requires IsDir(fs, at)
  {
    opts.R ==> VisitEach(fs, opts, stack, World(at, []), DirNames(Lookup(fs, at).value.entries), "").Some?
  }

  lemma VisitEndsIn(fs: Tree, opts: Options, stack: nat, w: World, name: string, path: string, at: Path)
    requires stack > 0 && OpenDir(fs, w.cwd, name) == Some(at)
    ensures IsDir(fs, at) && (Visit(fs, opts, stack, w, name, path).Some? <==> EndsIn(fs, opts, stack - 1, at))
  {
    hide OpenDir, Listed, Stats, Names, DirNames, NextPath, VisitEach;
    OpenedIsDir(fs, w.cwd, name);
    OnlyCwdMattersEach(fs, opts, stack - 1, World(at, w.out + [SectionAt(fs, opts, at, path + name)]),
      World(at, []), DirNames(Lookup(fs, at).value.entries), NextPath(path + name), "");
  }

  lemma EndsInMore(fs: Tree, opts: Options, stack: nat, more: nat, at: Path)
    requires IsDir(fs, at) && EndsIn(fs, opts, stack, at) && stack <= more
    ensures EndsIn(fs, opts, more, at)
  {
    hide VisitEach, DirNames;
    if opts.R {
      MoreStackEach(fs, opts, stack, more, World(at, []), DirNames(Lookup(fs, at).value.entries), "");
    }
  }

  // ---- What needs a deep stack opens a directory that needs one frame less.

  /** The listing of `at` ends on `stack` more frames and not on fewer. */
  ghost predicate Needs(fs: Tree, opts: Options, stack: nat, at: Path) {
    IsDir(fs, at) && EndsIn(fs, opts, stack, at) && (stack == 0 || !EndsIn(fs, opts, stack - 1, at))
  }

  /** The visit on which the shorter stack fails. */
  lemma {:induction false} WhereItFails(
      fs: Tree, opts: Options, stack: nat, w: World, names: seq<Name>, path: string) returns (u: World, n: Name)
    requires stack > 0 && IsDir(fs, w.cwd)
    requires VisitEach(fs, opts, stack, w, names, path).Some? && VisitEach(fs, opts, stack - 1, w, names, path).None?
    ensures Visit(fs, opts, stack, u, n, path).Some? && Visit(fs, opts, stack - 1, u, n, path).None?
    decreases |names|
  {
    hide Visit, Skipped, Lookup;
    if Skipped(opts, names[0]) {
      u, n := WhereItFails(fs, opts, stack, w, names[1..], path);
    } else if Visit(fs, opts, stack - 1, w, names[0], path).None? {
      u, n := w, names[0];
    } else {
      MoreStack(fs, opts, stack - 1, stack, w, names[0], path);
      VisitStaysInDirs(fs, opts, stack, w, names[0], path);
      var v := Visit(fs, opts, stack, w, names[0], path).value;
      ParentIsDir(fs, v.cwd);
      u, n := WhereItFails(fs, opts, stack, World(Parent(v.cwd), v.out), names[1..], path);
    }
  }

  lemma NeedsOneLess(fs: Tree, opts: Options, stack: nat, at: Path) returns (below: Path)
    requires stack >= 2 && Needs(fs, opts, stack, at)
    ensures Needs(fs, opts, stack - 1, below)
  {
    hide VisitEach, DirNames, OpenDir, Lookup;
    var u, n := WhereItFails(fs, opts, stack, World(at, []), DirNames(Lookup(fs, at).value.entries), "");
    var target := OpenDir(fs, u.cwd, n);
    assert target.Some?;
    below := target.value;
    VisitEndsIn(fs, opts, stack, u, n, "", below);
    VisitEndsIn(fs, opts, stack - 1, u, n, "", below);
  }

  /** Directories that need `stack` frames, one less, and so on down to one. */
  lemma {:induction false} NeedsChain(fs: Tree, opts: Options, stack: nat, at: Path) returns (chain: seq<Path>)
    requires Needs(fs, opts, stack, at)
    ensures |chain| == stack && forall i :: 0 <= i < stack ==> Needs(fs, opts, i + 1, chain[i])
    decreases stack
  {
    hide Needs;
    if stack == 0 {
      chain := [];
    } else if stack == 1 {
      chain := [at];
    } else {
      var below := NeedsOneLess(fs, opts, stack, at);
      chain := NeedsChain(fs, opts, stack - 1, below);
      chain := chain + [at];
    }
  }

  lemma NeedsIsUnique(fs: Tree, opts: Options, i: nat, j: nat, at: Path)
    requires Needs(fs, opts, i, at) && Needs(fs, opts, j, at)
    ensures i == j
  {
    hide EndsIn, IsDir;
    if i < j {
      EndsInMore(fs, opts, i, j - 1, at);
    } else if j < i {
      EndsInMore(fs, opts, j, i - 1, at);
    }
  }

  // ---- Counting directories.

  function Under(n: string, paths: seq<Path>): (r: seq<Path>)
    ensures |r| == |paths| && forall p :: p in paths ==> [n] + p in r
  {
    if paths == [] then [] else [[n] + paths[0]] + Under(n, paths[1..])
  }

  /** The directories of a tree. */
  function Directories(t: Tree): seq<Path>
    decreases t
  {
    if t.Dir? then [[]] + DirectoriesIn(t.entries) else []
  }

  function DirectoriesIn(es: seq<Entry>): seq<Path>
    decreases es
  {
    if es == [] then []
    else
      (if es[0].Child? then Under(es[0].name, Directories(es[0].tree)) else []) + DirectoriesIn(es[1..])
  }

  lemma {:induction false} FoundIsIn(es: seq<Entry>, n: string, p: Path)
    requires Find(es, n).Some? && p in Directories(Find(es, n).value)
    ensures [n] + p in DirectoriesIn(es)
    decreases |es|
  {
    hide Directories, Under;
    if !(es[0].Child? && es[0].name == n) { FoundIsIn(es[1..], n, p); }
  }

  lemma {:induction false} LookupFirst(fs: Tree, n: string, p: Path)
    requires fs.Dir?
    ensures Lookup(fs, [n] + p) == if Find(fs.entries, n).Some? then Lookup(Find(fs.entries, n).value, p) else None
    decreases |p|
  {
    var q := [n] + p;
    if p == [] {
      assert q[..0] == [] && q[0] == n && |q| == 1;
      assert Lookup(fs, []) == Some(fs);
    } else {
      assert q[..|q| - 1] == [n] + p[..|p| - 1] && q[|q| - 1] == p[|p| - 1];
      LookupFirst(fs, n, p[..|p| - 1]);
    }
  }

  lemma {:induction false} DirectoryIsIn(fs: Tree, p: Path)
    requires IsDir(fs, p)
    ensures p in Directories(fs)
    decreases |p|
  {
    hide DirectoriesIn;
    RootIsDir(fs, p);
    if p != [] {
      assert p == [p[0]] + p[1..];
      LookupFirst(fs, p[0], p[1..]);
      DirectoryIsIn(Find(fs.entries, p[0]).value, p[1..]);
      FoundIsIn(fs.entries, p[0], p[1..]);
    }
  }

  lemma {:induction false} RootIsDir(fs: Tree, p: Path)
    requires IsDir(fs, p)
    ensures fs.Dir?
    decreases |p|
  {
    if p != [] {
      ParentIsDir(fs, p);
      RootIsDir(fs, Parent(p));
    }
  }

  lemma {:induction false} Pigeonhole<T>(a: seq<T>, b: seq<T>)
    requires forall i, j :: 0 <= i < j < |a| ==> a[i] != a[j]
    requires forall x :: x in a ==> x in b
    ensures |a| <= |b|
    decreases |a|
  {
    if a != [] {
      var x := a[|a| - 1];
      assert x in a && x in b;
      var k :| 0 <= k < |b| && b[k] == x;
      var rest := b[..k] + b[k + 1..];
      forall y | y in a[..|a| - 1]
        ensures y in rest
      {
        assert y in a;
        var m :| 0 <= m < |b| && b[m] == y;
        assert rest[if m < k then m else m - 1] == y;
      }
      Pigeonhole(a[..|a| - 1], rest);
    }
  }

  // ---- The exact results.

  lemma NeedsFewFrames(fs: Tree, opts: Options, stack: nat, at: Path)
    requires Needs(fs, opts, stack, at)
    ensures stack <= |Directories(fs)|
  {
    hide Needs, Directories;
    var chain := NeedsChain(fs, opts, stack, at);
    forall i, j | 0 <= i < j < |chain|
      ensures chain[i] != chain[j]
    {
      if chain[i] == chain[j] { NeedsIsUnique(fs, opts, i + 1, j + 1, chain[i]); }
    }
    forall p | p in chain
      ensures p in Directories(fs)
    {
      var i :| 0 <= i < |chain| && chain[i] == p;
      NeedsDir(fs, opts, i + 1, p);
      DirectoryIsIn(fs, p);
    }
    Pigeonhole(chain, Directories(fs));
  }

  lemma NeedsDir(fs: Tree, opts: Options, stack: nat, at: Path)
    requires Needs(fs, opts, stack, at)
    ensures IsDir(fs, at)
  {
  }

  lemma {:induction false} LeastFrames(fs: Tree, opts: Options, stack: nat, at: Path) returns (least: nat)
    requires IsDir(fs, at) && EndsIn(fs, opts, stack, at)
    ensures least <= stack && Needs(fs, opts, least, at)
    decreases stack
  {
    hide EndsIn, IsDir;
    if stack > 0 && EndsIn(fs, opts, stack - 1, at) {
      least := LeastFrames(fs, opts, stack - 1, at);
    } else {
      least := stack;
    }
  }

  /** A call, on any tree, ends on some call stack exactly when it ends on one frame more than there are directories. */
  lemma EndsIff(fs: Tree, opts: Options, w: World, name: string, path: string)
    ensures (exists stack: nat :: Visit(fs, opts, stack, w, name, path).Some?)
       <==> Visit(fs, opts, |Directories(fs)| + 1, w, name, path).Some?
  {
    hide Needs, Directories, Visit, EndsIn, OpenDir;
    if stack: nat :| Visit(fs, opts, stack, w, name, path).Some? {
      EndsOnBound(fs, opts, stack, w, name, path);
    }
  }

  lemma EndsOnBound(fs: Tree, opts: Options, stack: nat, w: World, name: string, path: string)
    requires Visit(fs, opts, stack, w, name, path).Some?
    ensures Visit(fs, opts, |Directories(fs)| + 1, w, name, path).Some?
  {
    hide Needs, Directories, VisitEach, EndsIn, OpenDir;
    var at := OpenDir(fs, w.cwd, name);
    if at.Some? {
      VisitEndsIn(fs, opts, stack, w, name, path, at.value);
      var least := LeastFrames(fs, opts, stack - 1, at.value);
      NeedsFewFrames(fs, opts, least, at.value);
      NeedsEnds(fs, opts, least, at.value);
      EndsInMore(fs, opts, least, |Directories(fs)|, at.value);
      VisitEndsIn(fs, opts, |Directories(fs)| + 1, w, name, path, at.value);
    }
  }

  lemma SameOnBound(fs: Tree, opts: Options, stack: nat, w: World, name: string, path: string)
    requires Visit(fs, opts, stack, w, name, path).Some?
    ensures Visit(fs, opts, |Directories(fs)| + 1, w, name, path) == Visit(fs, opts, stack, w, name, path)
  {
    hide *;
    var bound := |Directories(fs)| + 1;
    EndsOnBound(fs, opts, stack, w, name, path);
    if stack <= bound {
      MoreStack(fs, opts, stack, bound, w, name, path);
    } else {
      MoreStack(fs, opts, bound, stack, w, name, path);
    }
  }

  lemma NeedsEnds(fs: Tree, opts: Options, stack: nat, at: Path)
    requires Needs(fs, opts, stack, at)
    ensures IsDir(fs, at) && EndsIn(fs, opts, stack, at)
  {
  }

  /**
   * Whether or not the listing ends: all visible directories can be read exactly when, on some call stack, and then on
   * one frame more than there are directories, the listing of a directory that can be opened prints their preorder and
   * ends in the directory it opened.
   */
  lemma ListsAllOnSomeStackIff(fs: Tree, opts: Options, w: World, name: string, path: string, at: Path)
    requires WellFormed(fs) && OpenDir(fs, w.cwd, name) == Some(at)
    ensures var t := Lookup(fs, at).value;
            Readable(opts, t)
            <==> exists stack: nat :: Visit(fs, opts, stack, w, name, path)
                                      == Some(World(at, w.out + Preorder(fs, opts, t, at, path + name)))
    ensures var t := Lookup(fs, at).value;
            Readable(opts, t)
            <==> Visit(fs, opts, |Directories(fs)| + 1, w, name, path)
                 == Some(World(at, w.out + Preorder(fs, opts, t, at, path + name)))
  {
    hide WellFormed, Visit, OpenDir, Readable, Preorder, Lookup, Height, Directories;
    OpenedIsDir(fs, w.cwd, name);
    WellFormedBelow(fs, at);
    var t := Lookup(fs, at).value;
    if Readable(opts, t) {
      VisitReadable(fs, opts, Height(opts, t), w, name, path, at);
      SameOnBound(fs, opts, Height(opts, t), w, name, path);
    }
    if stack: nat :| Visit(fs, opts, stack, w, name, path)
                     == Some(World(at, w.out + Preorder(fs, opts, t, at, path + name))) {
      ListsAllIff(fs, opts, stack, w, name, path, at);
    }
  }

  /**
   * Whether or not the call for a subdirectory ends: on some call stack it ends and `chdir("..")` restores the current
   * directory, exactly when all that is visible in the subdirectory can be read, or at the root when it ends at all.
   */
  lemma RestoredOnSomeStackIff(fs: Tree, opts: Options, w: World, n: string, t: Tree, path: string)
    requires WellFormed(fs) && Plain(n) && Lookup(fs, w.cwd + [n]) == Some(t) && t.Dir?
    ensures (exists stack: nat :: var v := Visit(fs, opts, stack, w, n, path); v.Some? && Parent(v.value.cwd) == w.cwd)
       <==> Readable(opts, t) || (w.cwd == [] && Visit(fs, opts, |Directories(fs)| + 1, w, n, path).Some?)
  {
    hide WellFormed, Visit, OpenDir, Readable, Preorder, Lookup, Height, Directories, Plain;
    OpenChild(fs, w.cwd, n, t);
    WellFormedBelow(fs, w.cwd + [n]);
    if Readable(opts, t) {
      ReadableIsReadable(opts, t);
      VisitReadable(fs, opts, Height(opts, t), w, n, path, w.cwd + [n]);
      RestoredIff(fs, opts, Height(opts, t), w, n, t, path);
    }
    if w.cwd == [] && Visit(fs, opts, |Directories(fs)| + 1, w, n, path).Some? {
      RestoredIff(fs, opts, |Directories(fs)| + 1, w, n, t, path);
    }
    if stack: nat :| Visit(fs, opts, stack, w, n, path).Some?
                     && Parent(Visit(fs, opts, stack, w, n, path).value.cwd) == w.cwd {
      RestoredIff(fs, opts, stack, w, n, t, path);
      EndsOnBound(fs, opts, stack, w, n, path);
    }
  }
}
