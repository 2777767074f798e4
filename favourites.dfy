/**
 * The favourites list: the `{name, path, type}` records, how a path becomes
 * one (`getFavouriteObj`, `getTruncatedFilename`), and the list edits the tray
 * menu triggers: adding a batch with duplicate rejection
 * (`addToFavourites`, `updateUserFavourites`), the duplicate notice, removing
 * one entry and replacing one in place (the relocation in `findFile`).
 * Whether a path is a directory is the caller's `isDir`, a total predicate:
 * the source's `isDir` answers false when the filesystem call fails.
 */
module Favourites {
  import opened Text
  import opened Paths

  /** The record's `type`: "file", "dir" or "app". */
  datatype Kind = File | Dir | App

  datatype Favourite = Favourite(name: string, path: string, kind: Kind)

  /** Names longer than this are shortened for display. */
  const MaxChars: int := 25

  /** ECMAScript ToIntegerOrInfinity of a finite number: truncation toward zero. */
  function TruncateToInt(x: real): (n: int)
    ensures 0.0 <= x ==> n as real <= x < n as real + 1.0
    ensures x < 0.0 ==> n as real - 1.0 < x <= n as real
  {
    if x >= 0.0 then x.Floor else -((-x).Floor)
  }

  function Clamp(n: int, len: nat): (c: nat)
    ensures c <= len
    ensures 0 <= n <= len ==> c == n
    ensures n < 0 ==> c == 0
    ensures n > len ==> c == len
  {
    if n < 0 then 0 else if n > len then len else n
  }

  /**
   * `s.substring(start, end)`: both arguments truncated toward zero, clamped
   * to the string, and swapped when the first exceeds the second.
   */
  function Substring(s: string, start: real, end: real): (r: string)
    ensures var a, b := TruncateToInt(start), TruncateToInt(end);
      0 <= a <= b <= |s| ==> r == s[a..b]
  {
    var a, b := Clamp(TruncateToInt(start), |s|), Clamp(TruncateToInt(end), |s|);
    if a <= b then s[a..b] else s[b..a]
  }

  /** How `substring` reads the fractional bounds `MaxChars / 2` and `len - MaxChars / 2`. */
  lemma HalfCut(len: nat)
    requires len > MaxChars
    ensures TruncateToInt(0.0) == 0
    ensures TruncateToInt(MaxChars as real / 2.0) == 12
    ensures TruncateToInt(len as real - MaxChars as real / 2.0) == len - 13
    ensures TruncateToInt(len as real) == len
  {
    var x := len as real - MaxChars as real / 2.0;
    assert x == (len - 13) as real + 0.5;
  }

  /**
   * `getTruncatedFilename(name, ext)`. Since `MaxChars / 2` is 12.5 and
   * `substring` truncates, the kept head is the first 12 characters and the
   * kept tail the last 13, each trimmed.
   */
  function TruncatedFilename(name: string, ext: string): (r: string)
    ensures |name| <= MaxChars ==> r == name + ext
    ensures |name| > MaxChars ==> r == Trim(name[..12]) + "..." + Trim(name[|name| - 13..]) + ext
  {
    if |name| > MaxChars then
      var half := MaxChars as real / 2.0;
      HalfCut(|name|);
      var head := Substring(name, 0.0, half);
      var tail := Substring(name, |name| as real - half, |name| as real);
      assert head == name[..12];
      assert tail == name[|name| - 13..];
      Trim(head) + "..." + Trim(tail) + ext
    else
      name + ext
  }

  /** A shortened name is at most 28 characters before the extension, holds "..." and ends with the extension. */
  lemma TruncatedBounds(name: string, ext: string)
    requires |name| > MaxChars
    ensures var r := TruncatedFilename(name, ext);
      |ext| + 3 <= |r| <= |ext| + 28 && r[|r| - |ext|..] == ext && Contains(r, "...")
  {
    JoinedPieces(Trim(name[..12]), Trim(name[|name| - 13..]), ext);
  }

  lemma JoinedPieces(head: string, tail: string, ext: string)
    requires |head| <= 12 && |tail| <= 13
    ensures var r := head + "..." + tail + ext;
      |ext| + 3 <= |r| <= |ext| + 28 && r[|r| - |ext|..] == ext && Contains(r, "...")
  {
    var r := head + "..." + tail + ext;
    assert r[|head|..|head| + 3] == "...";
    assert OccursAt(r, "...", |head|);
  }

  /** When the kept pieces have no surrounding whitespace, the shortened name is head, "...", tail and extension. */
  lemma TruncatedPlain(name: string, ext: string)
    requires |name| > MaxChars
    requires !IsWhitespace(name[0]) && !IsWhitespace(name[11])
    requires !IsWhitespace(name[|name| - 13]) && !IsWhitespace(name[|name| - 1])
    ensures TruncatedFilename(name, ext) == name[..12] + "..." + name[|name| - 13..] + ext
    ensures |TruncatedFilename(name, ext)| == 28 + |ext|
  {
    TrimUnchanged(name[..12]);
    TrimUnchanged(name[|name| - 13..]);
  }

  /**
   * `getFavouriteObj(p)`: the path is kept, the display name is the
   * truncated stem with the lower-cased extension, and the type is "app" for
   * a `.app` extension, else "dir" when `isDir(p)`, else "file".
   */
  function FavouriteFor(p: string, isDir: string -> bool): (f: Favourite)
    ensures f.path == p
    ensures f.name == TruncatedFilename(FileStem(p), Lower(ExtName(p)))
    ensures f.kind == App <==> Lower(ExtName(p)) == ".app"
    ensures f.kind == Dir <==> Lower(ExtName(p)) != ".app" && isDir(p)
    ensures f.kind == File <==> Lower(ExtName(p)) != ".app" && !isDir(p)
  {
    var ext := Lower(ExtName(p));
    var name := TruncatedFilename(FileStem(p), ext);
    Favourite(name, p, if ext == ".app" then App else if isDir(p) then Dir else File)
  }

  /** A favourite whose stem is short shows its whole base name, extension lower-cased. */
  lemma ShortNameShown(p: string, isDir: string -> bool)
    requires |FileStem(p)| <= MaxChars
    ensures FavouriteFor(p, isDir).name == FileStem(p) + Lower(ExtName(p))
    ensures |FavouriteFor(p, isDir).name| == |BaseName(p)|
  {
  }

  /** The paths of a list, in order: the keys duplicates are checked against. */
  function PathsOf(list: seq<Favourite>): (ps: seq<string>)
    ensures |ps| == |list|
    ensures forall k :: 0 <= k < |list| ==> ps[k] == list[k].path
  {
    seq(|list|, k requires 0 <= k < |list| => list[k].path)
  }

  /** No path occurs twice. */
  predicate Distinct(ps: seq<string>)
  {
    forall i, j :: 0 <= i < j < |ps| ==> ps[i] != ps[j]
  }

  /** The input paths already in the list, in input order. */
  function Rejected(current: seq<Favourite>, ps: seq<string>): (r: seq<string>)
    ensures forall x :: x in r <==> x in ps && x in PathsOf(current)
    ensures |r| <= |ps|
  {
    if ps == [] then []
    else
      var last := ps[|ps| - 1];
      assert ps == ps[..|ps| - 1] + [last];
      Rejected(current, ps[..|ps| - 1]) + (if last in PathsOf(current) then [last] else [])
  }

  /** The input paths not in the list, in input order; a repeated one stays repeated. */
  function NewPaths(current: seq<Favourite>, ps: seq<string>): (r: seq<string>)
    ensures forall x :: x in r <==> x in ps && x !in PathsOf(current)
    ensures |r| <= |ps|
  {
    if ps == [] then []
    else
      var last := ps[|ps| - 1];
      assert ps == ps[..|ps| - 1] + [last];
      NewPaths(current, ps[..|ps| - 1]) + (if last !in PathsOf(current) then [last] else [])
  }

  /** Every input path lands in exactly one of the two parts, as often as it occurs. */
  lemma {:induction false} PartitionComplete(current: seq<Favourite>, ps: seq<string>)
    ensures multiset(Rejected(current, ps)) + multiset(NewPaths(current, ps)) == multiset(ps)
    ensures |Rejected(current, ps)| + |NewPaths(current, ps)| == |ps|
  {
    if ps != [] {
      var init, last := ps[..|ps| - 1], ps[|ps| - 1];
      PartitionComplete(current, init);
      assert ps == init + [last];
    }
  }

  /** When every input path is already present, all of them are rejected and none is new. */
  lemma {:induction false} AllPresentRejected(current: seq<Favourite>, ps: seq<string>)
    requires forall k :: 0 <= k < |ps| ==> ps[k] in PathsOf(current)
    ensures Rejected(current, ps) == ps
    ensures NewPaths(current, ps) == []
  {
    if ps != [] {
      var init := ps[..|ps| - 1];
      AllPresentRejected(current, init);
      assert ps == init + [ps[|ps| - 1]];
    }
  }

  /** The new parts of a batch without repeats have no repeats. */
  lemma {:induction false} NewPathsDistinct(current: seq<Favourite>, ps: seq<string>)
    requires Distinct(ps)
    ensures Distinct(NewPaths(current, ps))
  {
    if ps != [] {
      var init, last := ps[..|ps| - 1], ps[|ps| - 1];
      assert Distinct(init);
      NewPathsDistinct(current, init);
      assert last !in init;
      assert last !in NewPaths(current, init);
    }
  }

  /** `s.map(f)`. */
  function MapSeq<A, B>(s: seq<A>, f: A -> B): (r: seq<B>)
    ensures |r| == |s|
    ensures forall k :: 0 <= k < |s| ==> r[k] == f(s[k])
  {
    seq(|s|, k requires 0 <= k < |s| => f(s[k]))
  }

  lemma MapSeqSnoc<A, B>(s: seq<A>, x: A, f: A -> B)
    ensures MapSeq(s + [x], f) == MapSeq(s, f) + [f(x)]
  {
    var a, b := MapSeq(s + [x], f), MapSeq(s, f) + [f(x)];
    forall k | 0 <= k < |a| ensures a[k] == b[k] {
      if k < |s| {
        assert (s + [x])[k] == s[k];
      }
    }
  }

  lemma MapSeqOne<A, B>(x: A, f: A -> B)
    ensures MapSeq([x], f) == [f(x)]
  {
  }

  lemma MapSeqTwice<A, B>(x: A, f: A -> B)
    ensures MapSeq([x, x], f) == [f(x), f(x)]
  {
  }

  /** `getFavouriteObj` as a value, for a fixed `isDir`. */
  function RecordFor(isDir: string -> bool): string -> Favourite
  {
    p => FavouriteFor(p, isDir)
  }

  /** The records for a sequence of paths, in the same order. */
  function Records(ps: seq<string>, isDir: string -> bool): (r: seq<Favourite>)
    ensures |r| == |ps|
    ensures PathsOf(r) == ps
  {
    MapSeq(ps, RecordFor(isDir))
  }

  /** One more path, one more record at the end. */
  lemma RecordsSnoc(ps: seq<string>, p: string, isDir: string -> bool)
    ensures Records(ps + [p], isDir) == Records(ps, isDir) + [FavouriteFor(p, isDir)]
  {
    MapSeqSnoc(ps, p, RecordFor(isDir));
  }

  /** The list after adding a batch: the old list, then a record per new path in input order. */
  function Added(current: seq<Favourite>, ps: seq<string>, isDir: string -> bool): seq<Favourite>
  {
    current + Records(NewPaths(current, ps), isDir)
  }

  /**
   * Adding keeps the old list as a prefix and appends exactly one record per
   * new input path, whose path is that input path.
   */
  lemma AddedExtends(current: seq<Favourite>, ps: seq<string>, isDir: string -> bool)
    ensures var r, n := Added(current, ps, isDir), NewPaths(current, ps);
      |r| == |current| + |n| && r[..|current|] == current
      && (forall k :: 0 <= k < |n| ==> r[|current| + k] == FavouriteFor(n[k], isDir))
      && PathsOf(r) == PathsOf(current) + n
  {
    var r, n := Added(current, ps, isDir), NewPaths(current, ps);
    assert PathsOf(r) == PathsOf(current) + PathsOf(Records(n, isDir));
  }

  /** One path not yet present grows the list by exactly its record. */
  lemma AddAbsent(current: seq<Favourite>, p: string, isDir: string -> bool)
    requires p !in PathsOf(current)
    ensures Added(current, [p], isDir) == current + [FavouriteFor(p, isDir)]
    ensures Rejected(current, [p]) == []
  {
    assert [p][..0] == [];
    assert NewPaths(current, [p]) == [p];
    MapSeqOne(p, RecordFor(isDir));
  }

  /** One path already present leaves the list as it is and is rejected. */
  lemma AddPresent(current: seq<Favourite>, p: string, isDir: string -> bool)
    requires p in PathsOf(current)
    ensures Added(current, [p], isDir) == current
    ensures Rejected(current, [p]) == [p]
  {
    assert [p][..0] == [];
  }

  /** Duplicates inside one batch are not detected: a new path given twice is appended twice. */
  lemma BatchRepeatAppendedTwice(current: seq<Favourite>, p: string, isDir: string -> bool)
    requires p !in PathsOf(current)
    ensures Added(current, [p, p], isDir) == current + [FavouriteFor(p, isDir), FavouriteFor(p, isDir)]
  {
    assert [p, p][..1] == [p];
    assert [p][..0] == [];
    assert NewPaths(current, [p]) == [p];
    assert NewPaths(current, [p, p]) == [p, p];
    MapSeqTwice(p, RecordFor(isDir));
  }

  /** A path already present is rejected each time the batch repeats it, and the list is left as it is. */
  lemma PresentRepeatRejectedTwice(current: seq<Favourite>, p: string, isDir: string -> bool)
    requires p in PathsOf(current)
    ensures Added(current, [p, p], isDir) == current
    ensures Rejected(current, [p, p]) == [p, p]
  {
    assert [p, p][..1] == [p];
    assert [p][..0] == [];
    assert NewPaths(current, [p, p]) == [];
  }

  /**
   * With distinct paths in the list and among the new paths of the batch, the
   * list stays free of repeated paths: a repeat of a path already present
   * is harmless, since it is rejected each time.
   */
  lemma AddedKeepsPathsDistinct(current: seq<Favourite>, ps: seq<string>, isDir: string -> bool)
    requires Distinct(PathsOf(current)) && Distinct(NewPaths(current, ps))
    ensures Distinct(PathsOf(Added(current, ps, isDir)))
  {
    var n := NewPaths(current, ps);
    AddedExtends(current, ps, isDir);
    var all := PathsOf(Added(current, ps, isDir));
    assert all == PathsOf(current) + n;
    forall i, j | 0 <= i < j < |all| ensures all[i] != all[j] {
      if i < |current| && j >= |current| {
        assert all[j] == n[j - |current|];
        assert all[j] in n;
        assert all[i] in PathsOf(current);
      }
    }
  }

  /** In particular a batch without repeats keeps a list without repeats free of them. */
  lemma DistinctBatchKeepsPathsDistinct(current: seq<Favourite>, ps: seq<string>, isDir: string -> bool)
    requires Distinct(PathsOf(current)) && Distinct(ps)
    ensures Distinct(PathsOf(Added(current, ps, isDir)))
  {
    NewPathsDistinct(current, ps);
    AddedKeepsPathsDistinct(current, ps, isDir);
  }

  /** Adding the same batch again changes nothing, and then every path of it is rejected. */
  lemma ReAddIsNoOp(current: seq<Favourite>, ps: seq<string>, isDir: string -> bool)
    ensures Added(Added(current, ps, isDir), ps, isDir) == Added(current, ps, isDir)
    ensures Rejected(Added(current, ps, isDir), ps) == ps
  {
    var once := Added(current, ps, isDir);
    AddedExtends(current, ps, isDir);
    forall k | 0 <= k < |ps| ensures ps[k] in PathsOf(once) {
      if ps[k] !in PathsOf(current) {
        assert ps[k] in NewPaths(current, ps);
      }
    }
    AllPresentRejected(once, ps);
  }

  /** The text of the duplicate notice for the rejected paths (there is at least one). */
  function RejectedMessage(rejected: seq<string>): (m: string)
    requires rejected != []
    ensures |rejected| == 1 ==> m == "The file/folder \"" + rejected[0] + "\" is already added"
    ensures |rejected| > 1 ==>
      m == "The files/folders \"" + Join(rejected[..|rejected| - 1], ",") + " and "
           + rejected[|rejected| - 1] + "\" are already added"
  {
    var n := |rejected|;
    var listing := if n > 1 then Join(rejected[..n - 1], ",") + " and " + Join(rejected[n - 1..], ",")
                   else Join(rejected, ",");
    if n > 1 then "The files/folders \"" + listing + "\" are already added"
    else "The file/folder \"" + listing + "\" is already added"
  }

  /** The notice names every rejected path. */
  lemma RejectedMessageNamesAll(rejected: seq<string>)
    requires rejected != []
    ensures forall k :: 0 <= k < |rejected| ==> Contains(RejectedMessage(rejected), rejected[k])
  {
    var n := |rejected|;
    var m := RejectedMessage(rejected);
    if n == 1 {
      ContainsWithin("The file/folder \"", rejected[0], "\" is already added", rejected[0]) by {
        assert OccursAt(rejected[0], rejected[0], 0);
      }
    } else {
      var init, last := rejected[..n - 1], rejected[n - 1];
      var pre := "The files/folders \"";
      var post := "\" are already added";
      forall k | 0 <= k < n ensures Contains(m, rejected[k]) {
        if k < n - 1 {
          JoinContainsParts(init, ",");
          assert rejected[k] == init[k];
          ContainsWithin(pre, Join(init, ","), " and " + last + post, rejected[k]);
          assert m == pre + Join(init, ",") + (" and " + last + post);
        } else {
          assert OccursAt(last, last, 0);
          ContainsWithin(pre + Join(init, ",") + " and ", last, post, last);
        }
      }
    }
  }

  /** Three rejected paths read `A,B and C`. */
  lemma RejectedMessageThree(a: string, b: string, c: string)
    ensures RejectedMessage([a, b, c]) == "The files/folders \"" + a + "," + b + " and " + c + "\" are already added"
  {
    assert [a, b, c][..2] == [a, b];
    assert [a, b][1..] == [b];
  }

  /** `arr.splice(start, 1)` on a copy: the element at `start` goes when there is one. */
  function SpliceOne(list: seq<Favourite>, start: nat): seq<Favourite>
  {
    if start < |list| then list[..start] + list[start + 1..] else list
  }

  /**
   * `removeFavourite(i)`: a valid index loses exactly its element, the others
   * keeping their order; any other index leaves the list as it is.
   */
  function Removed(list: seq<Favourite>, i: int): (r: seq<Favourite>)
    ensures 0 <= i < |list| ==>
      |r| == |list| - 1
      && (forall k :: 0 <= k < i ==> r[k] == list[k])
      && (forall k :: i <= k < |r| ==> r[k] == list[k + 1])
      && multiset(r) + multiset{list[i]} == multiset(list)
    ensures !(0 <= i < |list|) ==> r == list
  {
    if i > -1 then
      var r := SpliceOne(list, i);
      assert 0 <= i < |list| ==> list == list[..i] + [list[i]] + list[i + 1..];
      r
    else list
  }

  /**
   * The relocation in `findFile`, `copy[i] = f`: index `i` gets the new
   * record and every other index is untouched. An index inside the list
   * keeps the length; the index just past the end appends.
   */
  function Relocated(list: seq<Favourite>, i: nat, f: Favourite): (r: seq<Favourite>)
    requires i <= |list|
    ensures |r| == if i < |list| then |list| else |list| + 1
    ensures r[i] == f
    ensures forall k :: 0 <= k < |list| && k != i ==> r[k] == list[k]
  {
    if i < |list| then list[i := f] else list + [f]
  }

  /**
   * The loop of `addToFavourites`: each input path goes to the rejected or
   * to the new paths according to whether some favourite has that path.
   */
  method Partition(current: seq<Favourite>, ps: seq<string>) returns (rejected: seq<string>, newPaths: seq<string>)
    ensures rejected == Rejected(current, ps)
    ensures newPaths == NewPaths(current, ps)
  {
    rejected, newPaths := [], [];
    var known := PathsOf(current);
    for i := 0 to |ps|
      invariant rejected == Rejected(current, ps[..i])
      invariant newPaths == NewPaths(current, ps[..i])
    {
      assert ps[..i + 1][..i] == ps[..i];
      if ps[i] in known {
        rejected := rejected + [ps[i]];
      } else {
        newPaths := newPaths + [ps[i]];
      }
    }
    assert ps[..|ps|] == ps;
  }

  /** The loop of `updateUserFavourites`: a copy of the list with one record pushed per path. */
  method AppendRecords(current: seq<Favourite>, ps: seq<string>, isDir: string -> bool) returns (updated: seq<Favourite>)
    ensures updated == current + Records(ps, isDir)
  {
    var record := RecordFor(isDir);
    updated := current;
    for i := 0 to |ps|
      invariant updated == current + MapSeq(ps[..i], record)
    {
      assert ps[..i + 1] == ps[..i] + [ps[i]];
      MapSeqSnoc(ps[..i], ps[i], record);
      updated := updated + [record(ps[i])];
    }
    assert ps[..|ps|] == ps;
  }
}
