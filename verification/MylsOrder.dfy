/** The order of a listing: the comparison of two entries and the insertion sort, in either direction. */
module MylsOrder {

  /** A file name: no NUL character. */
  type Name = s: string | '\0' !in s witness ""

  /** The attributes of a file that a listing can be ordered by, and its size on disk. */
  datatype Stat = Stat(ctime: int, atime: int, mtime: int, size: nat, blocks: nat)

  /** What to order by: 0 for the name, 1 to 3 for ctime, atime and mtime, 4 for the size. */
  type OrderBy = op: nat | op <= 4

  /** `strcmp`: the difference at the first place where the strings differ, the end counting as 0. */
  function StrCmp(a: Name, b: Name): int {
    if a == "" && b == "" then 0
    else if a == "" then -(b[0] as int)
    else if b == "" then a[0] as int
    else if a[0] != b[0] then a[0] as int - b[0] as int
    else StrCmp(a[1..], b[1..])
  }

  /** A 64-bit difference returned as a 32-bit `int`. */
  function ToInt(d: int): int {
    (d + 0x8000_0000) % 0x1_0000_0000 - 0x8000_0000
  }

  /** The attribute to order by, for all but the name. */
  function Key(op: OrderBy, s: Stat): int {
    if op == 1 then s.ctime else if op == 2 then s.atime else if op == 3 then s.mtime else s.size
  }

  /** `cmp`: by name ascending, by time or size descending. */
  function Cmp(op: OrderBy, lstat: Name -> Stat, a: Name, b: Name): int {
    if op == 0 then StrCmp(a, b) else ToInt(Key(op, lstat(b)) - Key(op, lstat(a)))
  }

  /** The comparison of the sort loops: `a`, standing before `b`, has to move behind it. */
  function By(op: OrderBy, lstat: Name -> Stat, reverse: bool): (Name, Name) -> bool {
    (a: Name, b: Name) => if reverse then Cmp(op, lstat, a, b) < 0 else Cmp(op, lstat, a, b) > 0
  }

  // ---- Insertion sort, for any comparison `out`.

  /** The inner loop: walk down from the end past the elements that have to move behind `x`. */
  function Insert<T>(out: (T, T) -> bool, s: seq<T>, x: T): (r: seq<T>)
    ensures |r| == |s| + 1
  {
    if s == [] || !out(s[|s| - 1], x) then s + [x]
    else Insert(out, s[..|s| - 1], x) + [s[|s| - 1]]
  }

  function Sort<T>(out: (T, T) -> bool, s: seq<T>): (r: seq<T>)
    ensures |r| == |s|
  {
    if s == [] then [] else Insert(out, Sort(out, s[..|s| - 1]), s[|s| - 1])
  }

  /** `x` goes behind the last element that may stand before it. */
  lemma {:induction false} InsertAt<T>(out: (T, T) -> bool, s: seq<T>, x: T, j: nat)
    requires j <= |s| && (j == 0 || !out(s[j - 1], x))
    requires forall k :: j <= k < |s| ==> out(s[k], x)
    ensures Insert(out, s, x) == s[..j] + [x] + s[j..]
  {
    if j < |s| {
      InsertAt(out, s[..|s| - 1], x, j);
      assert s[..|s| - 1][j..] + [s[|s| - 1]] == s[j..];
      assert s[..|s| - 1][..j] == s[..j];
    } else {
      assert s[..j] == s && s[j..] == [];
    }
  }

  lemma Spliced<T>(r: seq<T>, s: seq<T>, x: T, j: nat)
    requires |r| == |s| + 1 && j <= |s| && r[j] == x
    requires forall k :: 0 <= k < j ==> r[k] == s[k]
    requires forall k :: j <= k < |s| ==> r[k + 1] == s[k]
    ensures r == s[..j] + [x] + s[j..]
  {
    var t := s[..j] + [x] + s[j..];
    forall k | 0 <= k < |r|
      ensures r[k] == t[k]
    {
      if k > j { assert r[(k - 1) + 1] == s[k - 1]; }
    }
  }

  /** One round of the outer loop, in place. */
  method InsertInPlace(file: array<Name>, i: nat, out: (Name, Name) -> bool)
    requires 0 < i < file.Length
    modifies file
    ensures file[..i + 1] == Insert(out, old(file[..i]), old(file[i]))
    ensures forall k :: i < k < file.Length ==> file[k] == old(file[k])
  {
    hide *;
    ghost var s := file[..i];
    var tmp := file[i];
    var j := i;
    while j > 0 && out(file[j - 1], tmp)
      invariant 0 <= j <= i
      invariant forall k :: 0 <= k < j ==> file[k] == s[k]
      invariant forall k :: j <= k < i ==> file[k + 1] == s[k] && out(s[k], tmp)
      invariant forall k :: i < k < file.Length ==> file[k] == old(file[k])
    {
      file[j] := file[j - 1];
      j := j - 1;
    }
    file[j] := tmp;
    InsertAt(out, s, tmp, j);
    Spliced(file[..i + 1], s, tmp, j);
  }

  /** The sort loops of `order`, in place. */
  method Order(file: array<Name>, op: OrderBy, lstat: Name -> Stat, reverse: bool)
    modifies file
    ensures file[..] == Sort(By(op, lstat, reverse), old(file[..]))
  {
    hide Insert, By;
    ghost var was := file[..];
    var out := By(op, lstat, reverse);
    if file.Length > 0 {
      InsertAt(out, [], was[0], 0);
      assert was[..1][..0] == [] && was[..1] == [was[0]];
    }
    var i := 1;
    while i < file.Length
      invariant 1 <= i && (i <= file.Length || file.Length == 0)
      invariant i <= file.Length ==> file[..i] == Sort(out, was[..i])
      invariant forall k :: i <= k < file.Length ==> file[k] == was[k]
    {
      InsertInPlace(file, i, out);
      assert was[..i + 1][..i] == was[..i];
      i := i + 1;
    }
    assert file[..] == file[..file.Length] && was == was[..file.Length];
  }
}
