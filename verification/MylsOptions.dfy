/** What a listing looks like for each combination of the options, in terms of names and attributes. */
module MylsOptions {
  import opened Totals
  import opened MylsOrder
  import opened MylsStability
  import opened MylsCompare
  import opened MylsListing

  // ---- Which entries are shown.

  lemma {:induction false} AllShown(opts: Options, s: seq<Name>)
    requires opts.a
    ensures Shown(opts, s) == s
    decreases |s|
  {
    if s != [] { AllShown(opts, s[..|s| - 1]); }
  }

  predicate IsDotName(n: Name) {
    n != "" && n[0] == '.'
  }

  /** Without `-a` and `-A` the names that start with a dot are hidden, and no others. */
  lemma DotNamesHidden(opts: Options, s: seq<Name>, n: Name)
    requires !opts.a && !opts.A
    ensures n in Shown(opts, s) <==> n in s && !IsDotName(n)
  {
    ShownAreThere(opts, s, n);
  }

  // ---- The total.

  /** The block counts of the entries, one by one. */
  function BlockCounts(lstat: Name -> Stat, s: seq<Name>): seq<nat> {
    seq(|s|, i requires 0 <= i < |s| => lstat(s[i]).blocks)
  }

  lemma {:induction false} BlocksIsSum(lstat: Name -> Stat, s: seq<Name>)
    ensures Blocks(lstat, s) == Sum(BlockCounts(lstat, s))
    decreases |s|
  {
    if s != [] {
      var t := s[..|s| - 1];
      BlocksIsSum(lstat, t);
      assert BlockCounts(lstat, s)[..|t|] == BlockCounts(lstat, t);
    }
  }

  /** A total is printed for a directory in the long format only; it is the sum of the blocks of the entries shown. */
  lemma TotalPrinted(opts: Options, lstat: Name -> Stat, s: seq<Name>, ofDirectory: bool)
    requires s != []
    ensures var l := Listed(opts, lstat, s, ofDirectory).value;
            && (l.total.Some? <==> ofDirectory && opts.long)
            && (l.total.Some? ==> l.total.value == ToInt(Sum(BlockCounts(lstat, l.shown))))
  {
    hide Shown, Blocks, Sort, ToInt, BlockCounts;
    BlocksIsSum(lstat, Listed(opts, lstat, s, ofDirectory).value.shown);
  }

  // ---- The order.

  predicate BySize(opts: Options) {
    opts.S
  }

  predicate ByMtime(opts: Options) {
    !opts.S && opts.t && !opts.c && !opts.u
  }

  predicate ByCtime(opts: Options) {
    !opts.S && opts.c && (opts.t || !opts.l)
  }

  predicate ByAtime(opts: Options) {
    !opts.S && opts.u && !opts.c && (opts.t || !opts.l)
  }

  predicate ByNames(opts: Options) {
    !opts.S && !opts.t && (opts.l || (!opts.c && !opts.u))
  }

  lemma OneOrder(opts: Options)
    ensures BySize(opts) || ByMtime(opts) || ByCtime(opts) || ByAtime(opts) || ByNames(opts)
    ensures !(BySize(opts) && (ByMtime(opts) || ByCtime(opts) || ByAtime(opts) || ByNames(opts)))
    ensures !(ByMtime(opts) && (ByCtime(opts) || ByAtime(opts) || ByNames(opts)))
    ensures !(ByCtime(opts) && (ByAtime(opts) || ByNames(opts))) && !(ByAtime(opts) && ByNames(opts))
  {
  }

  /** The differences of the attribute `f` keep their sign when they are returned as an `int`. */
  ghost predicate KeepsSign(f: Name -> int, s: seq<Name>) {
    forall a, b :: a in s && b in s ==> SignKept(f(a) - f(b))
  }

  /** `r` has the entries of `s`, the largest `f` first, or last with `reverse`. */
  ghost predicate Falls(f: Name -> int, reverse: bool, s: seq<Name>, r: seq<Name>) {
    && multiset(r) == multiset(s)
    && forall i, j :: 0 <= i < j < |r| ==> if reverse then f(r[i]) <= f(r[j]) else f(r[i]) >= f(r[j])
  }

  lemma ListedByKey(opts: Options, lstat: Name -> Stat, s: seq<Name>, ofDirectory: bool, f: Name -> int)
    requires s != [] && OrderOf(opts) != 0 && KeepsSign(f, s)
    requires forall n :: f(n) == Key(OrderOf(opts), lstat(n))
    ensures Falls(f, opts.r, Shown(opts, s), Listed(opts, lstat, s, ofDirectory).value.shown)
  {
    hide Sort, Shown, Blocks, Ties, Key, SignKept, ToInt, OrderOf;
    var op := OrderOf(opts);
    var all := Shown(opts, s);
    assert Comparable(op, lstat, s);
    ByKeyIsOrdered(op, lstat, opts.r, s);
    ListingIsSorted(opts, lstat, s, ofDirectory);
    forall a | a in all ensures a in s { ShownAreThere(opts, s, a); }
    ByKey(op, lstat, opts.r, all);
  }

  /** On comparable entries the comparison is an order. */
  lemma ByKeyIsOrdered(op: OrderBy, lstat: Name -> Stat, reverse: bool, s: seq<Name>)
    requires op != 0 && Comparable(op, lstat, s)
    ensures WeakOrder(By(op, lstat, reverse), s)
  {
    hide ToInt, SignKept, Key;
    forall a, b | a in s && b in s
      ensures By(op, lstat, reverse)(a, b) == Meant(op, lstat, reverse)(a, b)
    {
      SignKeptIff(Key(op, lstat(b)) - Key(op, lstat(a)));
    }
  }

  /** `-S`: the largest first, whatever else is asked for. */
  lemma ListedBySize(opts: Options, lstat: Name -> Stat, s: seq<Name>, ofDirectory: bool)
    requires s != [] && BySize(opts) && KeepsSign((n: Name) => lstat(n).size, s)
    ensures Falls((n: Name) => lstat(n).size, opts.r, Shown(opts, s), Listed(opts, lstat, s, ofDirectory).value.shown)
  {
    hide Sort, Shown, Blocks, SignKept;
    ListedByKey(opts, lstat, s, ofDirectory, (n: Name) => lstat(n).size);
  }

  /** `-t`: the file changed last comes first. */
  lemma ListedByMtime(opts: Options, lstat: Name -> Stat, s: seq<Name>, ofDirectory: bool)
    requires s != [] && ByMtime(opts) && KeepsSign((n: Name) => lstat(n).mtime, s)
    ensures Falls((n: Name) => lstat(n).mtime, opts.r, Shown(opts, s), Listed(opts, lstat, s, ofDirectory).value.shown)
  {
    hide Sort, Shown, Blocks, SignKept;
    ListedByKey(opts, lstat, s, ofDirectory, (n: Name) => lstat(n).mtime);
  }

  /** `-tc`, and `-c` without `-l`: by the change of the attributes, also when `-u` is given. */
  lemma ListedByCtime(opts: Options, lstat: Name -> Stat, s: seq<Name>, ofDirectory: bool)
    requires s != [] && ByCtime(opts) && KeepsSign((n: Name) => lstat(n).ctime, s)
    ensures Falls((n: Name) => lstat(n).ctime, opts.r, Shown(opts, s), Listed(opts, lstat, s, ofDirectory).value.shown)
  {
    hide Sort, Shown, Blocks, SignKept;
    ListedByKey(opts, lstat, s, ofDirectory, (n: Name) => lstat(n).ctime);
  }

  /** `-tu`, and `-u` without `-l`: by the last access. */
  lemma ListedByAtime(opts: Options, lstat: Name -> Stat, s: seq<Name>, ofDirectory: bool)
    requires s != [] && ByAtime(opts) && KeepsSign((n: Name) => lstat(n).atime, s)
    ensures Falls((n: Name) => lstat(n).atime, opts.r, Shown(opts, s), Listed(opts, lstat, s, ofDirectory).value.shown)
  {
    hide Sort, Shown, Blocks, SignKept;
    ListedByKey(opts, lstat, s, ofDirectory, (n: Name) => lstat(n).atime);
  }

  /** Otherwise the names are in the order of a dictionary, or in the opposite one. */
  lemma ListedByName(opts: Options, lstat: Name -> Stat, s: seq<Name>, ofDirectory: bool)
    requires s != [] && ByNames(opts)
    ensures var r := Listed(opts, lstat, s, ofDirectory).value.shown;
            && multiset(r) == multiset(Shown(opts, s))
            && forall i, j :: 0 <= i < j < |r| ==>
                 r[i] == r[j] || (if opts.r then Precedes(r[j], r[i]) else Precedes(r[i], r[j]))
  {
    hide Sort, Shown, Blocks, Ties, Precedes, By, Cmp;
    NamesBothWays(lstat, opts.r, s);
    ListingIsSorted(opts, lstat, s, ofDirectory);
    ByNameIsDictionary(lstat, Shown(opts, s), opts.r);
    SortKeepsElements(By(0, lstat, opts.r), Shown(opts, s));
  }

  lemma NamesBothWays(lstat: Name -> Stat, reverse: bool, s: seq<Name>)
    ensures WeakOrder(By(0, lstat, reverse), s)
  {
    hide StrCmp;
    NamesAreOrdered(lstat, s);
    forall x, y ensures By(0, lstat, true)(x, y) == By(0, lstat, false)(y, x) { StrCmpOpposite(x, y); }
  }
}
