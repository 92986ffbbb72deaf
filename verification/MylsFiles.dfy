/** The file tree that a recursive listing walks, and how a path string is followed in it. */
module MylsFiles {
  import opened Wrappers
  import opened MylsOrder

  /** Entries are in the order in which `readdir` gives them. */
  datatype Tree = File(stat: Stat) | Dir(stat: Stat, readable: bool, entries: seq<Entry>)

  datatype Entry = Dot | DotDot | Child(name: Name, tree: Tree)

  /** The names from the root directory down. */
  type Path = seq<string>

  function NameOf(e: Entry): Name {
    match e
    case Dot => "."
    case DotDot => ".."
    case Child(name, _) => name
  }

  function Parent(p: Path): Path {
    if p == [] then [] else p[..|p| - 1]
  }

  function Find(es: seq<Entry>, n: string): Option<Tree> {
    if es == [] then None
    else if es[0].Child? && es[0].name == n then Some(es[0].tree)
    else Find(es[1..], n)
  }

  function Lookup(fs: Tree, p: Path): Option<Tree> {
    if p == [] then Some(fs)
    else
      var up := Lookup(fs, p[..|p| - 1]);
      if up.Some? && up.value.Dir? then Find(up.value.entries, p[|p| - 1]) else None
  }

  predicate IsDir(fs: Tree, p: Path) {
    Lookup(fs, p).Some? && Lookup(fs, p).value.Dir?
  }

  predicate Plain(n: string) {
    n != "" && '/' !in n && n != "." && n != ".."
  }

  /** The names in a directory are distinct and plain. */
  ghost predicate WellFormed(t: Tree) {
    t.Dir? ==>
      && (forall i :: 0 <= i < |t.entries| && t.entries[i].Child? ==>
            Plain(t.entries[i].name) && WellFormed(t.entries[i].tree))
      && (forall i, j :: 0 <= i < j < |t.entries| && t.entries[i].Child? && t.entries[j].Child? ==>
            t.entries[i].name != t.entries[j].name)
  }

  // ---- Following a path string.

  /** The components of a path string: the pieces between slashes, some perhaps empty. */
  function Split(text: string): (r: seq<string>)
    ensures |r| >= 1
  {
    if text == "" then [""]
    else
      var r := Split(text[..|text| - 1]);
      if text[|text| - 1] == '/' then r + [""] else r[..|r| - 1] + [r[|r| - 1] + [text[|text| - 1]]]
  }

  /** One component, as `chdir` follows it: empty and "." stay, ".." goes up, a name goes down into a directory. */
  function Step(fs: Tree, at: Path, c: string): Option<Path> {
    if c == "" || c == "." then Some(at)
    else if c == ".." then Some(Parent(at))
    else if IsDir(fs, at + [c]) then Some(at + [c])
    else None
  }

  function Walk(fs: Tree, at: Path, components: seq<string>): Option<Path> {
    if components == [] then Some(at)
    else
      var p := Walk(fs, at, components[..|components| - 1]);
      if p.Some? then Step(fs, p.value, components[|components| - 1]) else None
  }

  /** The directory that a path string denotes for a process in `at`. */
  function Go(fs: Tree, at: Path, text: string): Option<Path> {
    if text == "" then None else Walk(fs, if text[0] == '/' then [] else at, Split(text))
  }

  /** `opendir`: fails when the string denotes no directory, or one that may not be read. */
  function OpenDir(fs: Tree, at: Path, text: string): Option<Path> {
    var p := Go(fs, at, text);
    if p.Some? && IsDir(fs, p.value) && Lookup(fs, p.value).value.readable then p else None
  }

  lemma OpenedIsDir(fs: Tree, at: Path, name: string)
    requires OpenDir(fs, at, name).Some?
    ensures name != "" && IsDir(fs, OpenDir(fs, at, name).value) && Lookup(fs, OpenDir(fs, at, name).value).value.readable
  {
  }

  /** What `lstat` reports for a name in the directory `at`. */
  function StatAt(fs: Tree, at: Path, n: Name): Stat
    requires IsDir(fs, at)
  {
    ParentIsDir(fs, at);
    if n == "." then Lookup(fs, at).value.stat
    else if n == ".." then Lookup(fs, Parent(at)).value.stat
    else
      var t := Find(Lookup(fs, at).value.entries, n);
      if t.Some? then t.value.stat else Stat(0, 0, 0, 0, 0)
  }

  function Stats(fs: Tree, at: Path): Name -> Stat {
    (n: Name) => if IsDir(fs, at) then StatAt(fs, at, n) else Stat(0, 0, 0, 0, 0)
  }

  lemma ParentIsDir(fs: Tree, p: Path)
    requires IsDir(fs, p)
    ensures IsDir(fs, Parent(p))
  {
  }

  lemma {:induction false} WalkStaysInDirs(fs: Tree, at: Path, components: seq<string>)
    requires IsDir(fs, at) && Walk(fs, at, components).Some?
    ensures IsDir(fs, Walk(fs, at, components).value)
    decreases |components|
  {
    hide Lookup;
    if components != [] {
      WalkStaysInDirs(fs, at, components[..|components| - 1]);
      ParentIsDir(fs, Walk(fs, at, components[..|components| - 1]).value);
    }
  }

  lemma {:induction false} SplitJoin(p: string, n: string)
    requires p != "" && p[|p| - 1] == '/' && '/' !in n
    ensures Split(p + n) == Split(p)[..|Split(p)| - 1] + [n]
    decreases |n|
  {
    if n == "" {
      assert p + n == p;
    } else {
      SplitJoin(p, n[..|n| - 1]);
      assert (p + n)[..|p + n| - 1] == p + n[..|n| - 1];
      assert n[..|n| - 1] + [n[|n| - 1]] == n;
    }
  }

  lemma {:induction false} SplitPlain(n: string)
    requires '/' !in n
    ensures Split(n) == [n]
    decreases |n|
  {
    if n != "" {
      SplitPlain(n[..|n| - 1]);
      assert n[..|n| - 1] + [n[|n| - 1]] == n;
    }
  }

  /** A plain name is followed in the current directory. */
  lemma GoPlain(fs: Tree, at: Path, n: string)
    requires Plain(n)
    ensures Go(fs, at, n) == if IsDir(fs, at + [n]) then Some(at + [n]) else None
  {
    hide IsDir, Split;
    SplitPlain(n);
    assert [n][..0] == [];
    assert Walk(fs, at, []) == Some(at);
  }

  /** The prefix printed before the names of the subdirectories. */
  function NextPath(text: string): string {
    if text != "" && text[|text| - 1] == '/' then text else text + "/"
  }

  /** The prefix with a name appended denotes the subdirectory of that name, wherever the process then is. */
  lemma GoChild(fs: Tree, start: Path, text: string, at: Path, n: string)
    requires Go(fs, start, text) == Some(at) && Plain(n) && IsDir(fs, at + [n])
    ensures Go(fs, start, NextPath(text) + n) == Some(at + [n])
  {
    hide IsDir, Split;
    var q, from := NextPath(text), if text[0] == '/' then [] else start;
    var parts := Split(q);
    var r := parts[..|parts| - 1];
    SplitJoin(q, "");
    assert q + "" == q;
    assert Walk(fs, from, parts) == Some(at) by {
      if q != text { SplitSlash(text); }
    }
    assert Walk(fs, from, r) == Some(at);
    SplitJoin(q, n);
    assert (r + [n])[..|r|] == r;
  }

  lemma SplitSlash(text: string)
    ensures Split(text + "/") == Split(text) + [""]
    ensures (Split(text) + [""])[..|Split(text)|] == Split(text)
  {
    assert (text + "/")[..|text|] == text;
  }
}
