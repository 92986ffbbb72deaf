/** One listing: which entries are shown, in which order, and the block total printed above them. */
module MylsListing {
  import opened Wrappers
  import opened MylsOrder
  import opened MylsStability

  /** The options that choose, order or descend; `long` is the long format, set by `-l`, `-g` and `-o`. */
  datatype Options = Options(a: bool, A: bool, c: bool, l: bool, r: bool, R: bool, S: bool, t: bool, u: bool, long: bool)

  datatype Listing = Listing(total: Option<int>, shown: seq<Name>)

  /** The test of `list_single` and, again, of the loop that adds up the blocks. */
  predicate Visible(opts: Options, name: Name) {
    if name != "" && name[0] == '.' then opts.a || (opts.A && |name| > 1 && name[1] != '.') else true
  }

  /** The attribute that a listing is ordered by. */
  function OrderOf(opts: Options): OrderBy {
    if opts.S then 4
    else if opts.t then (if opts.c then 1 else if opts.u then 2 else 3)
    else if opts.l then 0
    else if opts.c then 1 else if opts.u then 2 else 0
  }

  function Shown(opts: Options, s: seq<Name>): seq<Name> {
    if s == [] then []
    else Shown(opts, s[..|s| - 1]) + if Visible(opts, s[|s| - 1]) then [s[|s| - 1]] else []
  }

  function Blocks(lstat: Name -> Stat, s: seq<Name>): nat {
    if s == [] then 0 else Blocks(lstat, s[..|s| - 1]) + lstat(s[|s| - 1]).blocks
  }

  function Ordered(opts: Options, lstat: Name -> Stat, s: seq<Name>): seq<Name> {
    Sort(By(OrderOf(opts), lstat, opts.r), s)
  }

  /** The listing of the names `s`: nothing for no names, else those shown, under the total of exactly their blocks. */
  function Listed(opts: Options, lstat: Name -> Stat, s: seq<Name>, ofDirectory: bool): Option<Listing> {
    var shown := Shown(opts, Ordered(opts, lstat, s));
    if s == [] then None
    else Some(Listing(if ofDirectory && opts.long then Some(ToInt(Blocks(lstat, shown))) else None, shown))
  }

  // ---- Sorting changes neither what is shown nor the total.

  lemma {:induction false} ShownConcat(opts: Options, a: seq<Name>, b: seq<Name>)
    ensures Shown(opts, a + b) == Shown(opts, a) + Shown(opts, b)
    decreases |b|
  {
    if b == [] {
      assert a + b == a;
    } else {
      ShownConcat(opts, a, b[..|b| - 1]);
      assert (a + b)[..|a + b| - 1] == a + b[..|b| - 1];
    }
  }

  lemma {:induction false} BlocksConcat(lstat: Name -> Stat, a: seq<Name>, b: seq<Name>)
    ensures Blocks(lstat, a + b) == Blocks(lstat, a) + Blocks(lstat, b)
    decreases |b|
  {
    if b == [] {
      assert a + b == a;
    } else {
      BlocksConcat(lstat, a, b[..|b| - 1]);
      assert (a + b)[..|a + b| - 1] == a + b[..|b| - 1];
    }
  }

  lemma {:induction false} ShownElements(opts: Options, s: seq<Name>, n: Name)
    ensures multiset(Shown(opts, s))[n] == if Visible(opts, n) then multiset(s)[n] else 0
    decreases |s|
  {
    if s != [] {
      ShownElements(opts, s[..|s| - 1], n);
      assert s == s[..|s| - 1] + [s[|s| - 1]];
    }
  }

  /** Moving an element past others changes no total of the shown ones. */
  lemma InsertKeepsBlocks(opts: Options, lstat: Name -> Stat, out: (Name, Name) -> bool, s: seq<Name>, x: Name)
    ensures Blocks(lstat, Shown(opts, Insert(out, s, x))) == Blocks(lstat, Shown(opts, s + [x]))
  {
    hide Shown, Blocks, Insert, Visible;
    var j := InsertPlace(out, s, x);
    var low, high := s[..j], s[j..];
    assert s == low + high && s[..j] + [x] + s[j..] == low + [x] + high;
    ShownConcat(opts, low + [x], high);
    ShownConcat(opts, low, [x]);
    ShownConcat(opts, low + high, [x]);
    ShownConcat(opts, low, high);
    var l, m, h := Shown(opts, low), Shown(opts, [x]), Shown(opts, high);
    BlocksConcat(lstat, l + m, h);
    BlocksConcat(lstat, l, m);
    BlocksConcat(lstat, l + h, m);
    BlocksConcat(lstat, l, h);
  }

  lemma BlocksOfNone(opts: Options, lstat: Name -> Stat)
    ensures Blocks(lstat, Shown(opts, [])) == 0
  {
  }

  lemma BlocksOfOneMore(opts: Options, lstat: Name -> Stat, s: seq<Name>, x: Name)
    ensures Blocks(lstat, Shown(opts, s + [x]))
         == Blocks(lstat, Shown(opts, s)) + if Visible(opts, x) then lstat(x).blocks else 0
  {
    assert (s + [x])[..|s + [x]| - 1] == s;
    var t := Shown(opts, s);
    assert t + [] == t;
    if Visible(opts, x) {
      assert (t + [x])[..|t + [x]| - 1] == t;
    }
  }

  lemma {:induction false} SortKeepsBlocks(opts: Options, lstat: Name -> Stat, out: (Name, Name) -> bool, s: seq<Name>)
    ensures Blocks(lstat, Shown(opts, Sort(out, s))) == Blocks(lstat, Shown(opts, s))
    decreases |s|
  {
    hide Shown, Blocks, Insert, Visible;
    if s != [] {
      var t, x := s[..|s| - 1], s[|s| - 1];
      assert s == t + [x];
      SortKeepsBlocks(opts, lstat, out, t);
      InsertKeepsBlocks(opts, lstat, out, Sort(out, t), x);
      BlocksOfOneMore(opts, lstat, Sort(out, t), x);
      BlocksOfOneMore(opts, lstat, t, x);
    }
  }

  lemma ToIntAdd(a: int, b: int)
    ensures ToInt(ToInt(a) + b) == ToInt(a + b)
  {
  }

  // ---- What is listed.

  lemma {:induction false} ShownAreThere(opts: Options, s: seq<Name>, n: Name)
    ensures n in Shown(opts, s) <==> n in s && Visible(opts, n)
    decreases |s|
  {
    if s != [] { ShownAreThere(opts, s[..|s| - 1], n); }
  }

  lemma {:induction false} ShownAreSorted(opts: Options, out: (Name, Name) -> bool, s: seq<Name>)
    requires Sorted(out, s)
    ensures Sorted(out, Shown(opts, s))
    decreases |s|
  {
    if s != [] {
      var t, x := s[..|s| - 1], s[|s| - 1];
      ShownAreSorted(opts, out, t);
      forall y | y in Shown(opts, t)
        ensures !out(y, x)
      {
        ShownAreThere(opts, t, y);
      }
    }
  }

  lemma {:induction false} ShownTies(opts: Options, out: (Name, Name) -> bool, s: seq<Name>, e: Name)
    ensures Ties(out, Shown(opts, s), e) == Shown(opts, Ties(out, s, e))
    decreases |s|
  {
    if s != [] {
      var t, x := s[..|s| - 1], s[|s| - 1];
      ShownTies(opts, out, t, e);
      TiesConcat(out, Shown(opts, t), Shown(opts, [x]), e);
      ShownConcat(opts, Ties(out, t, e), if Tied(out, x, e) then [x] else []);
    }
  }

  /**
   * A listing holds every visible entry as often as the directory does and no other; and it is the stable sort of
   * the visible entries, as if the hidden ones had never been there.
   */
  lemma ListingIsSorted(opts: Options, lstat: Name -> Stat, s: seq<Name>, ofDirectory: bool)
    requires s != []
    ensures var shown := Listed(opts, lstat, s, ofDirectory).value.shown;
            forall n :: multiset(shown)[n] == if Visible(opts, n) then multiset(s)[n] else 0
    ensures WeakOrder(By(OrderOf(opts), lstat, opts.r), s) ==>
              Listed(opts, lstat, s, ofDirectory).value.shown == Ordered(opts, lstat, Shown(opts, s))
  {
    hide Shown, Sort, Blocks, Ties, By;
    var out := By(OrderOf(opts), lstat, opts.r);
    var r := Sort(out, s);
    SortKeepsElements(out, s);
    forall n
      ensures multiset(Shown(opts, r))[n] == if Visible(opts, n) then multiset(s)[n] else 0
      ensures multiset(Shown(opts, r))[n] == multiset(Shown(opts, s))[n]
      ensures n in Shown(opts, s) ==> n in s
    {
      ShownElements(opts, r, n);
      ShownElements(opts, s, n);
      ShownAreThere(opts, s, n);
    }
    if WeakOrder(out, s) {
      SortIsStable(out, s);
      ShownAreSorted(opts, out, r);
      forall e | e in Shown(opts, s)
        ensures Ties(out, Shown(opts, r), e) == Ties(out, Shown(opts, s), e)
      {
        ShownTies(opts, out, r, e);
        ShownTies(opts, out, s, e);
      }
      WeakOrderOfFewer(out, s, Shown(opts, s));
      StableSortIsUnique(out, Shown(opts, s), Shown(opts, r));
    }
  }

  lemma WeakOrderOfFewer<T(!new)>(out: (T, T) -> bool, s: seq<T>, t: seq<T>)
    requires WeakOrder(out, s) && forall y :: y in t ==> y in s
    ensures WeakOrder(out, t)
  {
  }

  // ---- What `-A` hides.

  /** A name that only starts like "..". */
  predicate LeadingDots(n: Name) {
    |n| > 2 && n[0] == '.' && n[1] == '.'
  }

  /** `-A` hides "." and ".." and shows the rest, exactly as far as no name starts with ".." and goes on. */
  lemma AlmostAllIff(opts: Options, n: Name)
    requires opts.A && !opts.a && n != ""
    ensures (Visible(opts, n) <==> n != "." && n != "..") <==> !LeadingDots(n)
  {
    assert n == "." <==> |n| == 1 && n[0] == '.';
    assert n == ".." <==> |n| == 2 && n[0] == '.' && n[1] == '.';
  }

  /** A listing with `-A` shows all but "." and ".." exactly when no name starts with ".." and goes on. */
  lemma AlmostAllListsIff(opts: Options, s: seq<Name>)
    requires opts.A && !opts.a && "" !in s
    ensures (forall n :: n in Shown(opts, s) <==> n in s && n != "." && n != "..")
       <==> forall n :: n in s ==> !LeadingDots(n)
  {
    hide Visible, LeadingDots, Shown;
    forall n
      ensures n in Shown(opts, s) <==> n in s && Visible(opts, n)
      ensures n in s ==> ((Visible(opts, n) <==> n != "." && n != "..") <==> !LeadingDots(n))
    {
      ShownAreThere(opts, s, n);
      if n in s { AlmostAllIff(opts, n); }
    }
  }

  /** The name "..x" is hidden by `-A`. */
  lemma AlmostAllHides(opts: Options, lstat: Name -> Stat)
    requires opts.A && !opts.a
    ensures LeadingDots("..x") && Shown(opts, ["..x"]) == [] == Listed(opts, lstat, ["..x"], true).value.shown
  {
    var s: seq<Name> := ["..x"];
    assert s[..0] == [] && |s| == 1;
    assert Shown(opts, s) == [];
    assert Ordered(opts, lstat, s) == s by {
      InsertAt(By(OrderOf(opts), lstat, opts.r), [], s[0], 0);
    }
  }

  // ---- The code.

  /** The loop over the unsorted names that adds up, in an `int`, the blocks of those to be shown. */
  method TotalBlocks(opts: Options, lstat: Name -> Stat, filename: array<Name>) returns (totalblk: int)
    ensures totalblk == ToInt(Blocks(lstat, Shown(opts, filename[..])))
  {
    hide Shown, Blocks, ToInt;
    BlocksOfNone(opts, lstat);
    ToIntSmall(0);
    totalblk := 0;
    assert filename[..0] == [];
    for i := 0 to filename.Length
      invariant totalblk == ToInt(Blocks(lstat, Shown(opts, filename[..i])))
    {
      var fstat := lstat(filename[i]);
      assert filename[..i + 1] == filename[..i] + [filename[i]];
      BlocksOfOneMore(opts, lstat, filename[..i], filename[i]);
      if filename[i] != "" && filename[i][0] == '.' {
        if !opts.a {
          if !opts.A {
            continue;
          } else if |filename[i]| == 1 || filename[i][1] == '.' {
            continue;
          }
        }
      }
      ToIntAdd(Blocks(lstat, Shown(opts, filename[..i])), fstat.blocks);
      totalblk := ToInt(totalblk + fstat.blocks);
    }
    assert filename[..filename.Length] == filename[..];
  }

  lemma ToIntSmall(d: int)
    requires -0x8000_0000 <= d < 0x8000_0000
    ensures ToInt(d) == d
  {
  }

  /** `list_single`, as far as it decides whether the entry is printed: 0 when it is. */
  method ListSingle(opts: Options, name: Name) returns (code: int)
    ensures code == if Visible(opts, name) then 0 else 1
  {
    if name != "" && name[0] == '.' {
      if !opts.a {
        if !opts.A {
          return 1;
        } else if |name| == 1 || name[1] == '.' {
          return 1;
        }
      }
    }
    return 0;
  }

  /** `info`: the entries printed, in order. */
  method Info(opts: Options, filename: array<Name>) returns (printed: seq<Name>)
    ensures printed == Shown(opts, filename[..])
  {
    hide Visible;
    printed := [];
    for i := 0 to filename.Length
      invariant printed == Shown(opts, filename[..i])
    {
      var code := ListSingle(opts, filename[i]);
      assert filename[..i + 1][..i] == filename[..i];
      if code == 0 {
        printed := printed + [filename[i]];
      }
    }
    assert filename[..filename.Length] == filename[..];
  }

  /** `list_file`: copy the names, add up the blocks, sort the copy, print. */
  method ListFile(opts: Options, lstat: Name -> Stat, names: seq<Name>, ofDirectory: bool)
    returns (listing: Option<Listing>)
    ensures listing == Listed(opts, lstat, names, ofDirectory)
  {
    hide Shown, Blocks, Sort;
    if |names| == 0 {
      return None;
    }
    var filename := new Name[|names|](i requires 0 <= i < |names| => names[i]);
    assert filename[..] == names;
    var totalblk := TotalBlocks(opts, lstat, filename);
    SortKeepsBlocks(opts, lstat, By(OrderOf(opts), lstat, opts.r), names);
    if opts.S {
      Order(filename, 4, lstat, opts.r);
    } else if opts.t {
      if opts.c {
        Order(filename, 1, lstat, opts.r);
      } else if opts.u {
        Order(filename, 2, lstat, opts.r);
      } else {
        Order(filename, 3, lstat, opts.r);
      }
    } else if !opts.l {
      if opts.c {
        Order(filename, 1, lstat, opts.r);
      } else if opts.u {
        Order(filename, 2, lstat, opts.r);
      } else {
        Order(filename, 0, lstat, opts.r);
      }
    } else {
      Order(filename, 0, lstat, opts.r);
    }
    var printed := Info(opts, filename);
    return Some(Listing(if ofDirectory && opts.long then Some(totalblk) else None, printed));
  }
}
