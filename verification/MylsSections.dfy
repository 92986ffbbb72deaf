/** The listing under one header, in terms of the directory that is listed. */
module MylsSections {
  import opened Wrappers
  import opened MylsOrder
  import opened MylsListing
  import opened MylsOptions
  import opened MylsFiles
  import opened MylsTraversal
  import opened MylsHeaders

  /** `lstat` reports the attributes of the file of that name; "." is the directory and ".." the one above it. */
  lemma StatsAreOfEntries(fs: Tree, at: Path, k: nat)
    requires IsDir(fs, at) && WellFormed(Lookup(fs, at).value) && k < |Lookup(fs, at).value.entries|
    ensures IsDir(fs, Parent(at))
    ensures var e := Lookup(fs, at).value.entries[k];
            match e
            case Dot => NameOf(e) == "." && Stats(fs, at)(NameOf(e)) == Lookup(fs, at).value.stat
            case DotDot => NameOf(e) == ".." && Stats(fs, at)(NameOf(e)) == Lookup(fs, Parent(at)).value.stat
            case Child(name, tree) => NameOf(e) == name && Stats(fs, at)(name) == tree.stat
  {
    hide Lookup, Find;
    ParentIsDir(fs, at);
    RestOfAll(fs, at);
    var e := Lookup(fs, at).value.entries[k];
    if e.Child? { PlainIsNoDot(e.name); }
  }

  lemma PlainIsNoDot(n: string)
    requires Plain(n)
    ensures n != "." && n != ".."
  {
  }

  function ShownAt(fs: Tree, opts: Options, at: Path): seq<Name>
    requires IsDir(fs, at) && Lookup(fs, at).value.entries != []
  {
    Listed(opts, Stats(fs, at), Names(Lookup(fs, at).value.entries), true).value.shown
  }

  /** Under a header the visible entries of the directory are shown, and in the long format a total. */
  lemma SectionShows(fs: Tree, opts: Options, at: Path, text: string, n: Name)
    requires IsDir(fs, at) && Lookup(fs, at).value.entries != []
    ensures var es := Lookup(fs, at).value.entries;
            var section := SectionAt(fs, opts, at, text);
            && section.text == text && section.at == at
            && section.listing.Some? && section.listing.value.shown == ShownAt(fs, opts, at)
            && (n in ShownAt(fs, opts, at) <==> Visible(opts, n) && exists k :: 0 <= k < |es| && NameOf(es[k]) == n)
            && (section.listing.value.total.Some? <==> opts.long)
  {
    hide Visible, Sort, Blocks, Lookup;
    var es := Lookup(fs, at).value.entries;
    ListingIsSorted(opts, Stats(fs, at), Names(es), true);
    var shown := ShownAt(fs, opts, at);
    assert n in shown <==> n in multiset(shown);
    assert n in Names(es) <==> n in multiset(Names(es));
    if k :| 0 <= k < |es| && NameOf(es[k]) == n { assert Names(es)[k] == n; }
  }

  /** With `-t`, of two files of a directory the one changed later stands first under the header, or last with `-r`. */
  lemma FilesByMtime(fs: Tree, opts: Options, at: Path, i: nat, j: nat, k: nat, l: nat)
    requires IsDir(fs, at) && WellFormed(Lookup(fs, at).value) && ByMtime(opts)
    requires KeepsSign((n: Name) => Stats(fs, at)(n).mtime, Names(Lookup(fs, at).value.entries))
    requires k < |Lookup(fs, at).value.entries| && l < |Lookup(fs, at).value.entries|
    requires var e, e' := Lookup(fs, at).value.entries[k], Lookup(fs, at).value.entries[l];
             e.Child? && e'.Child? && i < j < |ShownAt(fs, opts, at)|
             && ShownAt(fs, opts, at)[i] == e.name && ShownAt(fs, opts, at)[j] == e'.name
    ensures var e, e' := Lookup(fs, at).value.entries[k], Lookup(fs, at).value.entries[l];
            if opts.r then e.tree.stat.mtime <= e'.tree.stat.mtime else e.tree.stat.mtime >= e'.tree.stat.mtime
  {
    hide Lookup, Stats, Sort, Shown, Blocks, Names, WellFormed;
    StatsAreOfEntries(fs, at, k);
    StatsAreOfEntries(fs, at, l);
    ListedByMtime(opts, Stats(fs, at), Names(Lookup(fs, at).value.entries), true);
  }

  // ---- Path strings.

  /** "./", the directory listed when none is given, is the current directory, and ".." the one above it. */
  lemma GoDots(fs: Tree, at: Path)
    requires IsDir(fs, at)
    ensures Go(fs, at, "./") == Go(fs, at, ".") == Some(at) && Go(fs, at, "..") == Some(Parent(at))
    ensures NextPath("./") == "./"
  {
    hide IsDir, Split;
    SplitPlain(".");
    SplitPlain("..");
    SplitSlash(".");
    assert "." + "/" == "./";
    assert [".", ""][..1] == ["."] && ["."][..0] == [] && [".."][..0] == [];
    assert ["."] + [""] == [".", ""];
    var here: seq<string>, up: seq<string> := ["."], [".."];
    assert here[..0] == [] && up[..0] == [] && (here + [""])[..1] == here;
    assert Walk(fs, at, []) == Some(at);
    assert Walk(fs, at, here) == Some(at) && Walk(fs, at, up) == Some(Parent(at));
    assert Walk(fs, at, here + [""]) == Some(at);
  }

  /** A path string that starts with a slash is followed from the root. */
  lemma GoFromRoot(fs: Tree, at: Path, text: string)
    requires text != "" && text[0] == '/'
    ensures Go(fs, at, text) == Go(fs, [], text)
  {
  }
}
