/** The directories given on the command line: each is listed as if it were the only one. */
module MylsParameters {
  import opened Wrappers
  import opened MylsOrder
  import opened MylsListing
  import opened MylsFiles
  import opened MylsTraversal
  import opened MylsHeaders
  import opened MylsRestore
  import opened MylsRuns

  // ---- What is printed does not depend on what was printed before.

  lemma {:induction false} VisitAdds(
      fs: Tree, opts: Options, stack: nat, a: seq<Line>, w: World, name: string, path: string)
    ensures var v, v' := Visit(fs, opts, stack, w, name, path), Visit(fs, opts, stack, World(w.cwd, a + w.out), name, path);
            v' == if v.Some? then Some(World(v.value.cwd, a + v.value.out)) else None
    decreases stack, 0
  {
    hide OpenDir, Lookup, Listed, Stats, Names, DirNames, NextPath;
    var at := OpenDir(fs, w.cwd, name);
    if stack == 0 {
    } else if at.None? {
      assert a + w.out + [Failed(path, name)] == a + (w.out + [Failed(path, name)]);
    } else {
      OpenedIsDir(fs, w.cwd, name);
      var section := SectionAt(fs, opts, at.value, path + name);
      assert a + w.out + [section] == a + (w.out + [section]);
      if opts.R {
        VisitEachAdds(fs, opts, stack - 1, a, World(at.value, w.out + [section]),
          DirNames(Lookup(fs, at.value).value.entries), NextPath(path + name));
      }
    }
  }

  lemma {:induction false} VisitEachAdds(
      fs: Tree, opts: Options, stack: nat, a: seq<Line>, w: World, names: seq<Name>, path: string)
    ensures var v := VisitEach(fs, opts, stack, w, names, path);
            VisitEach(fs, opts, stack, World(w.cwd, a + w.out), names, path)
            == if v.Some? then Some(World(v.value.cwd, a + v.value.out)) else None
    decreases stack, |names| + 1
  {
    hide Visit, Skipped;
    if names != [] {
      if Skipped(opts, names[0]) {
        VisitEachAdds(fs, opts, stack, a, w, names[1..], path);
      } else {
        VisitAdds(fs, opts, stack, a, w, names[0], path);
        var v := Visit(fs, opts, stack, w, names[0], path);
        if v.Some? {
          VisitEachAdds(fs, opts, stack, a, World(Parent(v.value.cwd), v.value.out), names[1..], path);
        }
      }
    }
  }

  // ---- Each parameter on its own.

  /** The listing of `param` alone, by a process that starts in `start`. */
  function Alone(fs: Tree, opts: Options, stack: nat, start: Path, param: string): Option<World> {
    Visit(fs, opts, stack, World(start, []), param, "")
  }

  ghost predicate AllEnd(fs: Tree, opts: Options, stack: nat, start: Path, params: seq<string>) {
    forall i :: 0 <= i < |params| ==> Alone(fs, opts, stack, start, params[i]).Some?
  }

  /** The lines that the parameters give on their own, one after the other. */
  ghost function Lines(fs: Tree, opts: Options, stack: nat, start: Path, params: seq<string>): seq<Line>
    requires AllEnd(fs, opts, stack, start, params)
    decreases |params|
  {
    if params == [] then []
    else
      assert Alone(fs, opts, stack, start, params[0]).Some?;
      Alone(fs, opts, stack, start, params[0]).value.out + Lines(fs, opts, stack, start, params[1..])
  }

  lemma VisitIsAlone(fs: Tree, opts: Options, stack: nat, w: World, param: string)
    ensures var v, u := Visit(fs, opts, stack, w, param, ""), Alone(fs, opts, stack, w.cwd, param);
            (v.Some? <==> u.Some?) && (v.Some? ==> v.value.out == w.out + u.value.out)
  {
    hide Visit;
    VisitAdds(fs, opts, stack, w.out, World(w.cwd, []), param, "");
    assert w.out + [] == w.out;
  }

  lemma AllEndTail(fs: Tree, opts: Options, stack: nat, start: Path, params: seq<string>)
    requires params != []
    ensures AllEnd(fs, opts, stack, start, params)
       <==> Alone(fs, opts, stack, start, params[0]).Some? && AllEnd(fs, opts, stack, start, params[1..])
  {
    hide Alone;
    if Alone(fs, opts, stack, start, params[0]).Some? && AllEnd(fs, opts, stack, start, params[1..]) {
      forall i | 0 <= i < |params| ensures Alone(fs, opts, stack, start, params[i]).Some? {
        if i > 0 { assert params[1..][i - 1] == params[i]; }
      }
    }
  }

  /**
   * A run ends exactly when each parameter's listing would end on its own; and then it prints what these would print,
   * in the order of the parameters, and ends where it started.
   */
  lemma {:induction false} RunIsEach(fs: Tree, opts: Options, stack: nat, w: World, params: seq<string>)
    ensures VisitAll(fs, opts, stack, w, params, w.cwd).Some? <==> AllEnd(fs, opts, stack, w.cwd, params)
    ensures AllEnd(fs, opts, stack, w.cwd, params) ==>
              VisitAll(fs, opts, stack, w, params, w.cwd)
              == Some(World(w.cwd, w.out + Lines(fs, opts, stack, w.cwd, params)))
    decreases |params|
  {
    hide Visit, AllEnd, Alone;
    if params == [] {
      NothingToEnd(fs, opts, stack, w.cwd, params);
      assert w.out + [] == w.out;
      return;
    }
    AllEndTail(fs, opts, stack, w.cwd, params);
    VisitIsAlone(fs, opts, stack, w, params[0]);
    var v := Visit(fs, opts, stack, w, params[0], "");
    if v.Some? {
      RunIsEach(fs, opts, stack, World(w.cwd, v.value.out), params[1..]);
      if AllEnd(fs, opts, stack, w.cwd, params) {
        var first := Alone(fs, opts, stack, w.cwd, params[0]).value.out;
        var rest := Lines(fs, opts, stack, w.cwd, params[1..]);
        assert w.out + first + rest == w.out + (first + rest);
      }
    }
  }

  lemma NothingToEnd(fs: Tree, opts: Options, stack: nat, start: Path, params: seq<string>)
    requires params == []
    ensures AllEnd(fs, opts, stack, start, params) && Lines(fs, opts, stack, start, params) == []
  {
  }

  lemma {:induction false} LinesAt(fs: Tree, opts: Options, stack: nat, start: Path, params: seq<string>, i: nat)
    requires AllEnd(fs, opts, stack, start, params) && i < |params|
    ensures AllEnd(fs, opts, stack, start, params[..i]) && AllEnd(fs, opts, stack, start, params[i + 1..])
    ensures Alone(fs, opts, stack, start, params[i]).Some?
    ensures Lines(fs, opts, stack, start, params)
         == Lines(fs, opts, stack, start, params[..i]) + Alone(fs, opts, stack, start, params[i]).value.out
            + Lines(fs, opts, stack, start, params[i + 1..])
    decreases i
  {
    hide Alone;
    if i > 0 {
      LinesAt(fs, opts, stack, start, params[1..], i - 1);
      assert params[1..][..i - 1] == params[..i][1..] && params[1..][i..] == params[i + 1..];
      assert params[..i][0] == params[0];
    }
  }

  /**
   * On a run that ends, a parameter that is `Listable` gives the preorder of its directory, and one that cannot be
   * opened gives its error line, between what the parameters before it and after it give, whatever these are.
   */
  lemma ParameterPrinted(fs: Tree, opts: Options, stack: nat, w: World, params: seq<string>, i: nat)
    requires WellFormed(fs) && VisitAll(fs, opts, stack, w, params, w.cwd).Some? && i < |params|
    ensures AllEnd(fs, opts, stack, w.cwd, params[..i]) && AllEnd(fs, opts, stack, w.cwd, params[i + 1..])
    ensures var out := VisitAll(fs, opts, stack, w, params, w.cwd).value.out;
            var before := w.out + Lines(fs, opts, stack, w.cwd, params[..i]);
            var after := Lines(fs, opts, stack, w.cwd, params[i + 1..]);
            var at := OpenDir(fs, w.cwd, params[i]);
            && (at.None? ==> out == before + [Failed("", params[i])] + after)
            && (Listable(fs, opts, stack, w.cwd, params[i]) ==>
                  out == before + Preorder(fs, opts, Lookup(fs, at.value).value, at.value, params[i]) + after)
  {
    hide VisitAll, AllEnd, Alone, Lines, Visit, Preorder, Lookup, Readable, Height, OpenDir, WellFormed;
    RunIsEach(fs, opts, stack, w, params);
    LinesAt(fs, opts, stack, w.cwd, params, i);
    AloneIs(fs, opts, stack, w.cwd, params[i]);
    var a, b, c := Lines(fs, opts, stack, w.cwd, params[..i]), Alone(fs, opts, stack, w.cwd, params[i]).value.out,
                   Lines(fs, opts, stack, w.cwd, params[i + 1..]);
    assert w.out + (a + b + c) == w.out + a + b + c;
  }

  lemma AloneIs(fs: Tree, opts: Options, stack: nat, start: Path, param: string)
    requires WellFormed(fs) && Alone(fs, opts, stack, start, param).Some?
    ensures var at := OpenDir(fs, start, param);
            var lines := Alone(fs, opts, stack, start, param).value.out;
            && (at.None? ==> lines == [Failed("", param)])
            && (Listable(fs, opts, stack, start, param) ==>
                  lines == Preorder(fs, opts, Lookup(fs, at.value).value, at.value, param))
  {
    hide Preorder, Lookup, Readable, Height, WellFormed, Go, Listed, VisitEach;
    var at := OpenDir(fs, start, param);
    if Listable(fs, opts, stack, start, param) {
      OpenedIsDir(fs, start, param);
      WellFormedBelow(fs, at.value);
      assert "" + param == param;
      VisitReadable(fs, opts, stack, World(start, []), param, "", at.value);
    }
  }
}
