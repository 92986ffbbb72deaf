/** Whole runs of a recursive listing: all is listed when all can be read, and two trees on which that fails. */
module MylsRuns {
  import opened Wrappers
  import opened MylsOrder
  import opened MylsListing
  import opened MylsFiles
  import opened MylsTraversal
  import opened MylsHeaders
  import opened MylsRestore

  /** The directory named on the command line is there, can be read with all that is visible in it, and fits the stack. */
  ghost predicate Listable(fs: Tree, opts: Options, stack: nat, start: Path, param: string) {
    var at := OpenDir(fs, start, param);
    at.Some? && Readable(opts, Lookup(fs, at.value).value) && Height(opts, Lookup(fs, at.value).value) <= stack
  }

  /** What is to be printed for the directories of the command line. */
  ghost function Expected(fs: Tree, opts: Options, stack: nat, start: Path, params: seq<string>): seq<Line>
    requires forall i :: 0 <= i < |params| ==> Listable(fs, opts, stack, start, params[i])
    decreases |params|
  {
    if params == [] then []
    else
      assert Listable(fs, opts, stack, start, params[0]);
      var at := OpenDir(fs, start, params[0]).value;
      Preorder(fs, opts, Lookup(fs, at).value, at, params[0]) + Expected(fs, opts, stack, start, params[1..])
  }

  /** A whole run prints the preorder of each directory given, and every header denotes the directory listed under it. */
  lemma {:induction false} WholeRun(fs: Tree, opts: Options, stack: nat, w: World, params: seq<string>)
    requires WellFormed(fs) && forall i :: 0 <= i < |params| ==> Listable(fs, opts, stack, w.cwd, params[i])
    ensures VisitAll(fs, opts, stack, w, params, w.cwd)
         == Some(World(w.cwd, w.out + Expected(fs, opts, stack, w.cwd, params)))
    ensures Denoted(fs, w.cwd, Expected(fs, opts, stack, w.cwd, params))
    decreases |params|
  {
    hide WellFormed, Visit, Lookup, Preorder, Readable, Height, Go;
    if params == [] {
      assert w.out + [] == w.out;
      return;
    }
    assert Listable(fs, opts, stack, w.cwd, params[0]);
    var at := OpenDir(fs, w.cwd, params[0]).value;
    OpenedIsDir(fs, w.cwd, params[0]);
    WellFormedBelow(fs, at);
    assert "" + params[0] == params[0];
    VisitReadable(fs, opts, stack, w, params[0], "", at);
    var first := Preorder(fs, opts, Lookup(fs, at).value, at, params[0]);
    HeadersDenote(fs, opts, w.cwd, Lookup(fs, at).value, at, params[0]);
    WholeRun(fs, opts, stack, World(w.cwd, w.out + first), params[1..]);
    assert (w.out + first) + Expected(fs, opts, stack, w.cwd, params[1..])
        == w.out + Expected(fs, opts, stack, w.cwd, params);
  }

  /** On every tree: as long as every directory could be opened, every header denotes the directory listed under it. */
  lemma OpenedHeadersDenote(
      fs: Tree, opts: Options, stack: nat, start: Path, w: World, name: string, path: string)
    requires OpenDir(fs, w.cwd, name).Some? ==> Go(fs, start, path + name) == OpenDir(fs, w.cwd, name)
    requires WellFormed(fs) && Visit(fs, opts, stack, w, name, path).Some?
    requires AllOpened(Visit(fs, opts, stack, w, name, path).value.out, |w.out|)
    ensures var v := Visit(fs, opts, stack, w, name, path).value;
            |w.out| <= |v.out| && Denoted(fs, start, v.out[|w.out|..])
  {
    hide WellFormed, Visit, OpenDir, Readable, Preorder, Lookup, Go;
    VisitEndsAbove(fs, opts, stack, w, name, path);
    var at := OpenDir(fs, w.cwd, name).value;
    OpenedIsDir(fs, w.cwd, name);
    WellFormedBelow(fs, at);
    ListsAllIff(fs, opts, stack, w, name, path, at);
    HeadersDenote(fs, opts, start, Lookup(fs, at).value, at, path + name);
    var lines := Preorder(fs, opts, Lookup(fs, at).value, at, path + name);
    assert (w.out + lines)[|w.out|..] == lines;
  }

  // ---- Trees with a directory that cannot be read.

  function Locked(s: Stat): Tree {
    Dir(s, false, [])
  }

  /** A directory holding the locked "b" and then the directory `t` under the name `n`. */
  function Guarded(s: Stat, n: Name, t: Tree): Tree {
    Dir(s, true, [Child("b", Locked(s)), Child(n, t)])
  }

  /** A root directory whose one entry is the directory `t` under the name `n`. */
  function Root(s: Stat, n: Name, t: Tree): Tree {
    Dir(s, true, [Child(n, t)])
  }

  lemma InRoot(s: Stat, n: Name, t: Tree, m: string)
    requires t.Dir? && t.readable && Plain(n) && Plain(m)
    ensures Lookup(Root(s, n, t), [m]) == if m == n then Some(t) else None
    ensures OpenDir(Root(s, n, t), [], m) == if m == n then Some([n]) else None
  {
    var fs := Root(s, n, t);
    assert [m][..0] == [];
    assert Lookup(fs, []) == Some(fs);
    assert fs.entries[1..] == [] && Find(fs.entries[1..], m) == None;
    assert Find(fs.entries, m) == if m == n then Some(t) else None;
    GoPlain(fs, [], m);
    assert [] + [m] == [m];
  }

  lemma InGuarded(s: Stat, n: Name, t: Tree, m: Name)
    requires t.Dir? && t.readable && Plain(n) && Plain(m) && m != "b"
    ensures var fs := Root(s, n, Guarded(s, m, t));
            OpenDir(fs, [n], "b") == None && OpenDir(fs, [n], m) == Some([n, m])
  {
    hide Plain, Go;
    var top := Guarded(s, m, t);
    var fs := Root(s, n, top);
    InRoot(s, n, top, n);
    assert [n, "b"][..1] == [n] && [n, m][..1] == [n];
    assert top.entries[1..] == [Child(m, t)];
    assert [n] + ["b"] == [n, "b"] && [n] + [m] == [n, m];
    assert Find(top.entries[1..], m) == Some(t);
    BIsPlain();
    OpenChild(fs, [n], "b", Locked(s));
    OpenChild(fs, [n], m, t);
  }

  lemma BIsPlain()
    ensures Plain("b")
  {
  }

  /** A name that cannot be opened is reported, and then the current directory is left upwards. */
  lemma FailsAndGoesUp(fs: Tree, opts: Options, stack: nat, w: World, names: seq<Name>, path: string)
    requires stack >= 1 && names != [] && !Skipped(opts, names[0]) && OpenDir(fs, w.cwd, names[0]).None?
    ensures VisitEach(fs, opts, stack, w, names, path)
         == VisitEach(fs, opts, stack, World(Parent(w.cwd), w.out + [Failed(path, names[0])]), names[1..], path)
  {
    hide OpenDir, Skipped;
  }

  lemma OpensAndGoesOn(fs: Tree, opts: Options, stack: nat, w: World, name: string, path: string, at: Path)
    requires opts.R && stack >= 1 && OpenDir(fs, w.cwd, name) == Some(at) && IsDir(fs, at)
    ensures var v := World(at, w.out + [SectionAt(fs, opts, at, path + name)]);
            Visit(fs, opts, stack, w, name, path)
            == VisitEach(fs, opts, stack - 1, v, DirNames(Lookup(fs, at).value.entries), NextPath(path + name))
  {
    hide OpenDir, VisitEach, DirNames, NextPath;
  }

  lemma NeverGetsFurther(fs: Tree, opts: Options, stack: nat, w: World, names: seq<Name>, path: string)
    requires names != [] && !Skipped(opts, names[0]) && Visit(fs, opts, stack, w, names[0], path) == None
    ensures VisitEach(fs, opts, stack, w, names, path) == None
  {
    hide Visit, Skipped;
  }

  /** The directory "t" of the root holds the locked "b", then "g", which can be read: "g" is not listed. */
  lemma SiblingIsLost(s: Stat, opts: Options, stack: nat, out: seq<Line>, g: Tree)
    requires opts.R && stack >= 2 && g.Dir? && g.readable
    ensures var fs := Root(s, "t", Guarded(s, "g", g));
            && IsDir(fs, ["t"]) && OpenDir(fs, ["t"], "g") == Some(["t", "g"])
            && Visit(fs, opts, stack, World([], out), "t", "")
            == Some(World([], out + [SectionAt(fs, opts, ["t"], "t"), Failed("t/", "b"), Failed("t/", "g")]))
  {
    hide *;
    var top := Guarded(s, "g", g);
    var fs := Root(s, "t", top);
    InRootT(s, opts, g);
    var section := SectionAt(fs, opts, ["t"], "t");
    var names := GuardedNames(s, "g", g);
    var w0 := World(["t"], out + [section]);
    var w1 := World([], w0.out + [Failed("t/", "b")]);
    var w2 := World([], w1.out + [Failed("t/", "g")]);
    assert "" + "t" == "t";
    OpensAndGoesOn(fs, opts, stack, World([], out), "t", "", ["t"]);
    FailsAndGoesUp(fs, opts, stack - 1, w0, names, "t/");
    FailsAndGoesUp(fs, opts, stack - 1, w1, names[1..], "t/");
    EndsHere(fs, opts, stack - 1, w2, "t/");
    assert w2.out == out + [section, Failed("t/", "b"), Failed("t/", "g")];
  }

  lemma EndsHere(fs: Tree, opts: Options, stack: nat, w: World, path: string)
    ensures VisitEach(fs, opts, stack, w, [], path) == Some(w)
  {
  }

  lemma InRootT(s: Stat, opts: Options, g: Tree)
    requires g.Dir? && g.readable
    ensures var top := Guarded(s, "g", g);
            var fs := Root(s, "t", top);
            && top.Dir? && Lookup(fs, ["t"]) == Some(top) && IsDir(fs, ["t"])
            && OpenDir(fs, [], "t") == Some(["t"]) && OpenDir(fs, [], "g") == None
            && OpenDir(fs, ["t"], "b") == None && OpenDir(fs, ["t"], "g") == Some(["t", "g"])
    ensures !Skipped(opts, "b") && !Skipped(opts, "g") && Parent(["t"]) == [] && Parent([]) == []
    ensures NextPath("t") == "t/"
  {
    hide OpenDir;
    InRoot(s, "t", Guarded(s, "g", g), "t");
    InRoot(s, "t", Guarded(s, "g", g), "g");
    InGuarded(s, "t", g, "g");
  }

  /** A root directory with two entries, the directory `t` and the empty directory "g". */
  function RootWithG(s: Stat, t: Tree): Tree {
    Dir(s, true, [Child("t", t), Child("g", Dir(s, true, []))])
  }

  /** If the root, too, holds a "g", that one is listed, under the header "t/g", which denotes the other. */
  lemma WrongSiblingIsListed(s: Stat, opts: Options, stack: nat, out: seq<Line>, g: Tree)
    requires opts.R && stack >= 3 && g.Dir? && g.readable
    ensures var fs := RootWithG(s, Guarded(s, "g", g));
            && IsDir(fs, ["t"]) && IsDir(fs, ["g"]) && Go(fs, [], "t/g") == Some(["t", "g"])
            && Visit(fs, opts, stack, World([], out), "t", "")
            == Some(World([], out + [SectionAt(fs, opts, ["t"], "t"), Failed("t/", "b"),
                                     SectionAt(fs, opts, ["g"], "t/g")]))
  {
    hide *;
    var top := Guarded(s, "g", g);
    var fs := RootWithG(s, top);
    InRootWithG(s, opts, g);
    var names := GuardedNames(s, "g", g);
    var w0 := World(["t"], out + [SectionAt(fs, opts, ["t"], "t")]);
    var w1 := World([], w0.out + [Failed("t/", "b")]);
    var w2 := World(["g"], w1.out + [SectionAt(fs, opts, ["g"], "t/g")]);
    assert "" + "t" == "t" && "t/" + "g" == "t/g";
    OpensAndGoesOn(fs, opts, stack, World([], out), "t", "", ["t"]);
    FailsAndGoesUp(fs, opts, stack - 1, w0, names, "t/");
    OpensAndGoesOn(fs, opts, stack - 1, w1, "g", "t/", ["g"]);
    EndsHere(fs, opts, stack - 2, w2, NextPath("t/g"));
    LastReturns(fs, opts, stack - 1, w1, names[1..], "t/", w2);
    assert w2.out == out + [SectionAt(fs, opts, ["t"], "t"), Failed("t/", "b"), SectionAt(fs, opts, ["g"], "t/g")];
  }

  lemma LastReturns(fs: Tree, opts: Options, stack: nat, w: World, names: seq<Name>, path: string, v: World)
    requires |names| == 1 && !Skipped(opts, names[0]) && Visit(fs, opts, stack, w, names[0], path) == Some(v)
    ensures VisitEach(fs, opts, stack, w, names, path) == Some(World(Parent(v.cwd), v.out))
  {
    hide Visit, Skipped;
  }

  lemma InRootWithG(s: Stat, opts: Options, g: Tree)
    requires g.Dir? && g.readable
    ensures var top := Guarded(s, "g", g);
            var fs := RootWithG(s, top);
            && top.Dir? && Lookup(fs, ["t"]) == Some(top) && IsDir(fs, ["t"])
            && IsDir(fs, ["g"]) && DirNames(Lookup(fs, ["g"]).value.entries) == []
            && OpenDir(fs, [], "t") == Some(["t"]) && OpenDir(fs, [], "g") == Some(["g"])
            && OpenDir(fs, ["t"], "b") == None && Go(fs, [], "t/g") == Some(["t", "g"])
    ensures !Skipped(opts, "b") && !Skipped(opts, "g") && Parent(["t"]) == Parent(["g"]) == Parent([]) == []
    ensures NextPath("t") == "t/"
  {
    hide OpenDir, Go, Split, Find, Lookup;
    var top := Guarded(s, "g", g);
    var fs := RootWithG(s, top);
    LookInRootWithG(s, g);
    assert [] + ["t"] == ["t"] && [] + ["g"] == ["g"] && ["t"] + ["g"] == ["t", "g"];
    OpenChild(fs, [], "t", top);
    OpenChild(fs, [], "g", Dir(s, true, []));
    OpenChild(fs, ["t"], "b", Locked(s));
    GoPlain(fs, [], "t");
    GoChild(fs, [], "t", ["t"], "g");
    assert NextPath("t") == "t/" && "t/" + "g" == "t/g";
  }

  lemma LookInRootWithG(s: Stat, g: Tree)
    requires g.Dir?
    ensures var top := Guarded(s, "g", g);
            var fs := RootWithG(s, top);
            && Lookup(fs, [] + ["t"]) == Lookup(fs, ["t"]) == Some(top)
            && Lookup(fs, [] + ["g"]) == Lookup(fs, ["g"]) == Some(Dir(s, true, []))
            && Lookup(fs, ["t"] + ["b"]) == Some(Locked(s)) && Lookup(fs, ["t"] + ["g"]) == Some(g)
  {
    var top := Guarded(s, "g", g);
    var fs := RootWithG(s, top);
    FindTwo("t", top, "g", Dir(s, true, []));
    FindTwo("b", Locked(s), "g", g);
    hide Find;
    assert ["t"][..0] == [] && ["g"][..0] == [] && [] + ["t"] == ["t"] && [] + ["g"] == ["g"];
    assert Lookup(fs, []) == Some(fs);
    assert (["t"] + ["b"])[..1] == ["t"] && (["t"] + ["g"])[..1] == ["t"];
  }

  lemma FindTwo(m: Name, t: Tree, n: Name, u: Tree)
    requires m != n
    ensures Find([Child(m, t), Child(n, u)], m) == Some(t) && Find([Child(m, t), Child(n, u)], n) == Some(u)
  {
    assert [Child(m, t), Child(n, u)][1..] == [Child(n, u)];
  }

  lemma GuardedNames(s: Stat, n: Name, t: Tree) returns (names: seq<Name>)
    requires t.Dir?
    ensures names == DirNames(Guarded(s, n, t).entries) && names == ["b", n]
    ensures names[1..] == [n] && names[1..][1..] == []
  {
    var es := Guarded(s, n, t).entries;
    assert es[1..] == [Child(n, t)] && es[1..][1..] == [];
    assert DirNames(es[1..]) == [n];
    names := DirNames(es);
  }

  /** The directory "a" of the root holds the locked "b", then a directory "a": the listing of "a" never ends. */
  lemma {:induction false} EndlessListing(s: Stat, opts: Options, stack: nat, out: seq<Line>, path: string, a: Tree)
    requires opts.R && a.Dir? && a.readable
    ensures Visit(Root(s, "a", Guarded(s, "a", a)), opts, stack, World([], out), "a", path) == None
    decreases stack
  {
    hide *;
    var top := Guarded(s, "a", a);
    var fs := Root(s, "a", top);
    var next := NextPath(path + "a");
    if stack <= 1 {
      TooDeep(s, opts, stack, out, path, a);
      return;
    }
    InRootA(s, opts, a);
    var names := GuardedNames(s, "a", a);
    var w0 := World(["a"], out + [SectionAt(fs, opts, ["a"], path + "a")]);
    var w1 := World([], w0.out + [Failed(next, "b")]);
    OpensAndGoesOn(fs, opts, stack, World([], out), "a", path, ["a"]);
    FailsAndGoesUp(fs, opts, stack - 1, w0, names, next);
    EndlessListing(s, opts, stack - 1, w1.out, next, a);
    NeverGetsFurther(fs, opts, stack - 1, w1, names[1..], next);
  }

  lemma InRootA(s: Stat, opts: Options, a: Tree)
    requires a.Dir? && a.readable
    ensures var top := Guarded(s, "a", a);
            var fs := Root(s, "a", top);
            && top.Dir? && Lookup(fs, ["a"]) == Some(top) && IsDir(fs, ["a"])
            && OpenDir(fs, [], "a") == Some(["a"]) && OpenDir(fs, ["a"], "b") == None
    ensures !Skipped(opts, "a") && !Skipped(opts, "b") && Parent(["a"]) == []
  {
    hide OpenDir;
    InRoot(s, "a", Guarded(s, "a", a), "a");
    InGuarded(s, "a", a, "a");
  }

  lemma TooDeep(s: Stat, opts: Options, stack: nat, out: seq<Line>, path: string, a: Tree)
    requires opts.R && a.Dir? && a.readable && stack <= 1
    ensures Visit(Root(s, "a", Guarded(s, "a", a)), opts, stack, World([], out), "a", path) == None
  {
    hide OpenDir, Listed, Stats, Names;
    if stack == 1 {
      var fs := Root(s, "a", Guarded(s, "a", a));
      InRootA(s, opts, a);
      var names := GuardedNames(s, "a", a);
      OpensAndGoesOn(fs, opts, stack, World([], out), "a", path, ["a"]);
    }
  }
}
