/**
 * The recursive listing: `list_content_dir` with the two things it keeps in step, the current directory of the
 * process and the path that it prints.
 */
module MylsTraversal {
  import opened Wrappers
  import opened MylsOrder
  import opened MylsListing
  import opened MylsFiles

  /** What is printed: a directory's header, made in the directory `at`, and its listing; or an error. */
  datatype Line = Section(text: string, at: Path, listing: Option<Listing>) | Failed(path: string, name: string)

  datatype World = World(cwd: Path, out: seq<Line>)

  /** The test of the last loop of `list_content_dir`: no listing of "." and of names that start with "..". */
  predicate Skipped(opts: Options, n: Name) {
    n != "" && n[0] == '.' && (|n| == 1 || n[1] == '.' || (!opts.a && !opts.A))
  }

  function Names(es: seq<Entry>): (r: seq<Name>)
    ensures |r| == |es| && forall i :: 0 <= i < |es| ==> r[i] == NameOf(es[i])
  {
    seq(|es|, i requires 0 <= i < |es| => NameOf(es[i]))
  }

  /** `lstat` says that the entry is a directory. */
  predicate IsDirEntry(e: Entry) {
    e.Child? ==> e.tree.Dir?
  }

  function DirNames(es: seq<Entry>): seq<Name> {
    if es == [] then []
    else (if IsDirEntry(es[0]) then [NameOf(es[0])] else []) + DirNames(es[1..])
  }

  function SectionAt(fs: Tree, opts: Options, at: Path, text: string): Line
    requires IsDir(fs, at)
  {
    Section(text, at, Listed(opts, Stats(fs, at), Names(Lookup(fs, at).value.entries), true))
  }

  /**
   * The effect of `list_content_dir(name, path)` when `stack` more frames fit on the call stack; `None` when they do
   * not suffice.
   */
  function Visit(fs: Tree, opts: Options, stack: nat, w: World, name: string, path: string): Option<World>
    decreases stack, 0
  {
    if stack == 0 then None
    else
      var at := OpenDir(fs, w.cwd, name);
      if at.None? then Some(World(w.cwd, w.out + [Failed(path, name)]))
      else
        var v := World(at.value, w.out + [SectionAt(fs, opts, at.value, path + name)]);
        if opts.R then
          VisitEach(fs, opts, stack - 1, v, DirNames(Lookup(fs, at.value).value.entries), NextPath(path + name))
        else
          Some(v)
  }

  /** The last loop: each name that is not skipped is visited and followed by `chdir("..")`. */
  function VisitEach(fs: Tree, opts: Options, stack: nat, w: World, names: seq<Name>, path: string): Option<World>
    decreases stack, |names| + 1
  {
    if names == [] then Some(w)
    else if Skipped(opts, names[0]) then VisitEach(fs, opts, stack, w, names[1..], path)
    else
      var v := Visit(fs, opts, stack, w, names[0], path);
      if v.None? then None
      else VisitEach(fs, opts, stack, World(Parent(v.value.cwd), v.value.out), names[1..], path)
  }

  /** The main loop over the directories given on the command line; each starts again in `start`. */
  function VisitAll(fs: Tree, opts: Options, stack: nat, w: World, params: seq<string>, start: Path): Option<World>
    decreases |params|
  {
    if params == [] then Some(w)
    else
      var v := Visit(fs, opts, stack, w, params[0], "");
      if v.None? then None
      else VisitAll(fs, opts, stack, World(start, v.value.out), params[1..], start)
  }

  lemma {:induction false} VisitStaysInDirs(
      fs: Tree, opts: Options, stack: nat, w: World, name: string, path: string)
    requires IsDir(fs, w.cwd) && Visit(fs, opts, stack, w, name, path).Some?
    ensures IsDir(fs, Visit(fs, opts, stack, w, name, path).value.cwd)
    decreases stack, 0
  {
    hide OpenDir, Listed, Stats, Names, Lookup, DirNames, NextPath;
    var at := OpenDir(fs, w.cwd, name);
    if at.Some? { OpenedIsDir(fs, w.cwd, name); }
    if at.Some? && opts.R {
      var v := World(at.value, w.out + [SectionAt(fs, opts, at.value, path + name)]);
      VisitEachStaysInDirs(
        fs, opts, stack - 1, v, DirNames(Lookup(fs, at.value).value.entries), NextPath(path + name));
    }
  }

  lemma {:induction false} VisitEachStaysInDirs(
      fs: Tree, opts: Options, stack: nat, w: World, names: seq<Name>, path: string)
    requires IsDir(fs, w.cwd) && VisitEach(fs, opts, stack, w, names, path).Some?
    ensures IsDir(fs, VisitEach(fs, opts, stack, w, names, path).value.cwd)
    decreases stack, |names| + 1
  {
    if names != [] {
      if Skipped(opts, names[0]) {
        VisitEachStaysInDirs(fs, opts, stack, w, names[1..], path);
      } else {
        VisitStaysInDirs(fs, opts, stack, w, names[0], path);
        var v := Visit(fs, opts, stack, w, names[0], path).value;
        ParentIsDir(fs, v.cwd);
        VisitEachStaysInDirs(fs, opts, stack, World(Parent(v.cwd), v.out), names[1..], path);
      }
    }
  }

  // ---- The code.

  class Lister {
    const fs: Tree
    const opts: Options
    var cwd: Path
    var out: seq<Line>

    constructor (fs: Tree, opts: Options, cwd: Path)
      requires IsDir(fs, cwd)
      ensures this.fs == fs && this.opts == opts && this.cwd == cwd && out == []
    {
      this.fs, this.opts, this.cwd, this.out := fs, opts, cwd, [];
    }

    ghost function State(): World
      reads this
    {
      World(cwd, out)
    }

    ghost predicate Valid()
      reads this
    {
      IsDir(fs, cwd)
    }

    /** `list_content_dir`; false when the call stack is exhausted. */
    method ListContentDir(dirname: string, path: string, stack: nat) returns (ok: bool)
      requires Valid()
      modifies this
      ensures ok <==> Visit(fs, opts, stack, old(State()), dirname, path).Some?
      ensures ok ==> Valid() && State() == Visit(fs, opts, stack, old(State()), dirname, path).value
      decreases stack, 0
    {
      hide Listed, Stats, Go, DirNames;
      if stack == 0 {
        return false;
      }
      var dp := OpenDir(fs, cwd, dirname);
      if dp.None? {
        out := out + [Failed(path, dirname)];
        return true;
      }
      OpenedIsDir(fs, cwd, dirname);
      cwd := dp.value;
      var entries := Lookup(fs, cwd).value.entries;
      var filename := ReadDir(entries);
      var listing := ListFile(opts, Stats(fs, cwd), filename, true);
      out := out + [Section(path + dirname, cwd, listing)];
      var dirRev := [];
      if opts.R {
        dirRev := SelectDirs(entries);
      }
      var path' := path;
      if |dirRev| != 0 {
        path' := path' + dirname;
        if path'[|path'| - 1] != '/' {
          path' := path' + "/";
        }
      }
      ok := Descend(dirRev, path', stack - 1);
    }

    /** The loop over `readdir`. */
    static method ReadDir(entries: seq<Entry>) returns (filename: seq<Name>)
      ensures filename == Names(entries)
    {
      filename := [];
      for i := 0 to |entries|
        invariant filename == Names(entries[..i])
      {
        filename := filename + [NameOf(entries[i])];
      }
    }

    /** The loop that picks the entries that are directories. */
    static method SelectDirs(entries: seq<Entry>) returns (dirRev: seq<Name>)
      ensures dirRev == DirNames(entries)
    {
      dirRev := [];
      for i := 0 to |entries|
        invariant dirRev + DirNames(entries[i..]) == DirNames(entries)
      {
        if IsDirEntry(entries[i]) {
          dirRev := dirRev + [NameOf(entries[i])];
        }
      }
    }

    /** The last loop of `list_content_dir`. */
    method Descend(dirRev: seq<Name>, path: string, stack: nat) returns (ok: bool)
      requires Valid()
      modifies this
      ensures ok <==> VisitEach(fs, opts, stack, old(State()), dirRev, path).Some?
      ensures ok ==> Valid() && State() == VisitEach(fs, opts, stack, old(State()), dirRev, path).value
      decreases stack, 1
    {
      ghost var goal := VisitEach(fs, opts, stack, State(), dirRev, path);
      var i := 0;
      while i < |dirRev|
        invariant 0 <= i <= |dirRev| && Valid()
        invariant VisitEach(fs, opts, stack, State(), dirRev[i..], path) == goal
      {
        if dirRev[i] != "" && dirRev[i][0] == '.' {
          if |dirRev[i]| == 1 || dirRev[i][1] == '.' {
            i := i + 1;
            continue;
          }
          if !opts.a && !opts.A {
            i := i + 1;
            continue;
          }
        }
        ok := ListContentDir(dirRev[i], path, stack);
        if !ok {
          return;
        }
        ParentIsDir(fs, cwd);
        cwd := Parent(cwd);
        i := i + 1;
      }
      ok := true;
    }

    /** `list_dir`: the directories of the command line, each from the directory the program was started in. */
    method ListDir(params: seq<string>, stack: nat) returns (ok: bool)
      requires Valid()
      modifies this
      ensures ok <==> VisitAll(fs, opts, stack, old(State()), params, old(cwd)).Some?
      ensures ok ==> State() == VisitAll(fs, opts, stack, old(State()), params, old(cwd)).value
      ensures ok ==> cwd == old(cwd)
    {
      var start := cwd;
      ghost var goal := VisitAll(fs, opts, stack, State(), params, start);
      for i := 0 to |params|
        invariant cwd == start
        invariant VisitAll(fs, opts, stack, State(), params[i..], start) == goal
      {
        ok := ListContentDir(params[i], "", stack);
        if !ok {
          return;
        }
        cwd := start;
      }
      ok := true;
    }
  }
}
