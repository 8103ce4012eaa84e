/**
  The program's state, `filesMap`: every file found by the walk, grouped by
  the CRC-32 checksum of its contents, each group in discovery order. The
  walk callback grows it one file at a time; `outputMap` sorts each group of
  two or more files by timestamp, prints its report lines and counts the
  duplicates; `moveDuplicates` selects every file of such a group but the
  first for moving into `REMOVED`.

  Go iterates a map in an unspecified order; both loops over the map take
  that order as a parameter, a sequence listing every key once, and the
  lemmas below show which results do not depend on it.
 */
module DuplicateIndex {
  import opened Wrappers
  import opened PathSort
  import opened ReportFormat
  import Paths

  type Bytes = seq<bv8>

  /** The message of an error `filepath.WalkDir` hands to the callback. */
  type WalkError = string

  /**
    One call of the walk callback: the path, whether the entry is a
    directory, the error WalkDir passes with it (if any), and the bytes
    `ioutil.ReadFile` returns for the path.
   */
  datatype Visit = Visit(path: string, isDir: bool, err: Option<WalkError>, content: Bytes)

  /** `map[uint32][]string`. */
  type Index = map<Checksum, seq<string>>

  /** The group of checksum `c`, empty when the map has no entry for it. */
  function GroupOf(files: Index, c: Checksum): seq<string> {
    if c in files then files[c] else []
  }

  // ---------------------------------------------------------------------
  // The walk

  /** The index after one call of the callback. */
  function AfterVisit(files: Index, v: Visit, checksum: Bytes -> Checksum): Index {
    if v.err.None? && !v.isDir then
      var c := checksum(v.content);
      files[c := GroupOf(files, c) + [v.path]]
    else files
  }

  /** The index after the callback has seen `vs`; the first error ends the walk. */
  function IndexOf(files: Index, vs: seq<Visit>, checksum: Bytes -> Checksum): Index
    decreases |vs|
  {
    if vs == [] || vs[0].err.Some? then files
    else IndexOf(AfterVisit(files, vs[0], checksum), vs[1..], checksum)
  }

  /** The visits the walk gets through: the longest prefix of `vs` without an error. */
  function Walked(vs: seq<Visit>): (r: seq<Visit>)
    ensures |r| <= |vs| && r == vs[..|r|]
    ensures forall k :: 0 <= k < |r| ==> vs[k].err.None?
    ensures |r| < |vs| ==> vs[|r|].err.Some?
  {
    if vs == [] || vs[0].err.Some? then []
    else
      var r := [vs[0]] + Walked(vs[1..]);
      assert forall k :: 1 <= k < |r| ==> vs[k] == vs[1..][k - 1];
      r
  }

  /** The paths of the files among `vs` whose contents have checksum `c`, in order. */
  function FilesWith(vs: seq<Visit>, checksum: Bytes -> Checksum, c: Checksum): seq<string> {
    if vs == [] then []
    else
      var mine := if !vs[0].isDir && checksum(vs[0].content) == c then [vs[0].path] else [];
      mine + FilesWith(vs[1..], checksum, c)
  }

  /**
    What the walk builds: each group is the old group followed by the files
    of that checksum the walk reached, in the order it reached them, and a
    checksum has a group exactly when it had one or some reached file has it.
   */
  lemma {:induction false} IndexGroups(files: Index, vs: seq<Visit>, checksum: Bytes -> Checksum, c: Checksum)
    ensures GroupOf(IndexOf(files, vs, checksum), c) == GroupOf(files, c) + FilesWith(Walked(vs), checksum, c)
    ensures c in IndexOf(files, vs, checksum) <==> c in files || FilesWith(Walked(vs), checksum, c) != []
    decreases |vs|
  {
    if vs == [] || vs[0].err.Some? {
      assert Walked(vs) == [];
    } else {
      var v, next := vs[0], AfterVisit(files, vs[0], checksum);
      IndexGroups(next, vs[1..], checksum, c);
      assert Walked(vs) == [v] + Walked(vs[1..]);
      var mine := if !v.isDir && checksum(v.content) == c then [v.path] else [];
      assert FilesWith(Walked(vs), checksum, c) == mine + FilesWith(Walked(vs[1..]), checksum, c) by {
        assert ([v] + Walked(vs[1..]))[1..] == Walked(vs[1..]);
      }
      assert GroupOf(next, c) == GroupOf(files, c) + mine;
      assert c in next <==> c in files || mine != [];
    }
  }

  /** No two visits share a path. */
  predicate DistinctPaths(vs: seq<Visit>) {
    forall i, j :: 0 <= i < j < |vs| ==> vs[i].path != vs[j].path
  }

  /** No path occurs twice in `g`. */
  predicate NoRepeats(g: seq<string>) {
    forall p :: p in g ==> multiset(g)[p] <= 1
  }

  /** A path is among the files with checksum `c` exactly when some non-directory visit of it has that checksum. */
  lemma {:induction false} FilesWithMembers(vs: seq<Visit>, checksum: Bytes -> Checksum, c: Checksum, p: string)
    ensures p in FilesWith(vs, checksum, c) <==>
      exists k :: 0 <= k < |vs| && vs[k].path == p && !vs[k].isDir && checksum(vs[k].content) == c
    decreases |vs|
  {
    if vs != [] {
      FilesWithMembers(vs[1..], checksum, c, p);
      if exists k :: 1 <= k < |vs| && vs[k].path == p && !vs[k].isDir && checksum(vs[k].content) == c {
        var k :| 1 <= k < |vs| && vs[k].path == p && !vs[k].isDir && checksum(vs[k].content) == c;
        assert vs[1..][k - 1] == vs[k];
      }
    }
  }

  /** With distinct visits, a path occurs at most once among the files of one checksum. */
  lemma {:induction false} FilesWithNoRepeats(vs: seq<Visit>, checksum: Bytes -> Checksum, c: Checksum)
    requires DistinctPaths(vs)
    ensures NoRepeats(FilesWith(vs, checksum, c))
    decreases |vs|
  {
    if vs != [] {
      var rest := vs[1..];
      assert DistinctPaths(rest) by {
        forall i, j | 0 <= i < j < |rest| ensures rest[i].path != rest[j].path {
          assert rest[i] == vs[i + 1] && rest[j] == vs[j + 1];
        }
      }
      FilesWithNoRepeats(rest, checksum, c);
      var v := vs[0];
      FilesWithMembers(rest, checksum, c, v.path);
      assert v.path !in FilesWith(rest, checksum, c) by {
        forall k | 0 <= k < |rest| ensures rest[k].path != v.path {
          assert rest[k] == vs[k + 1];
        }
      }
    }
  }

  /** With distinct visits, a path is among the files of at most one checksum. */
  lemma FilesWithOneChecksum(vs: seq<Visit>, checksum: Bytes -> Checksum, c1: Checksum, c2: Checksum, p: string)
    requires DistinctPaths(vs)
    requires p in FilesWith(vs, checksum, c1) && p in FilesWith(vs, checksum, c2)
    ensures c1 == c2
  {
    FilesWithMembers(vs, checksum, c1, p);
    FilesWithMembers(vs, checksum, c2, p);
  }

  /**
    `filepath.WalkDir` may call back twice with one directory's path: once
    before reading it, and once more with the error of reading it. The
    callback returns that error, so the second call ends the walk and the
    visits it gets through still have distinct paths.
   */
  lemma UnreadableDirectoryVisitedTwice(e: WalkError)
    ensures var vs := [Visit(".", true, None, []), Visit("a", false, None, [1]),
                       Visit("d", true, None, []), Visit("d", true, Some(e), [])];
      !DistinctPaths(vs) && DistinctPaths(Walked(vs))
  {
    var vs := [Visit(".", true, None, []), Visit("a", false, None, [1]),
               Visit("d", true, None, []), Visit("d", true, Some(e), [])];
    assert vs[2].path == vs[3].path;
    assert Walked(vs) == vs[..3] by {
      assert Walked(vs[3..]) == [];
      assert Walked(vs[2..]) == [vs[2]] + Walked(vs[3..]);
      assert Walked(vs[1..]) == [vs[1]] + Walked(vs[2..]);
    }
  }

  /**
    When the visits the walk gets through have distinct paths, the index it
    builds from an empty map holds each path in at most one group, and at most once in that group.
   */
  lemma PathInOneGroup(vs: seq<Visit>, checksum: Bytes -> Checksum, c1: Checksum, c2: Checksum, p: string)
    requires DistinctPaths(Walked(vs))
    ensures c1 in IndexOf(map[], vs, checksum) ==> NoRepeats(IndexOf(map[], vs, checksum)[c1])
    ensures var files := IndexOf(map[], vs, checksum);
      c1 in files && c2 in files && p in files[c1] && p in files[c2] ==> c1 == c2
  {
    var files := IndexOf(map[], vs, checksum);
    IndexGroups(map[], vs, checksum, c1);
    IndexGroups(map[], vs, checksum, c2);
    assert GroupOf(map[], c1) == [] && GroupOf(map[], c2) == [];
    FilesWithNoRepeats(Walked(vs), checksum, c1);
    if c1 in files && c2 in files && p in files[c1] && p in files[c2] {
      FilesWithOneChecksum(Walked(vs), checksum, c1, c2, p);
    }
  }

  /** Each path is in at most one group, and at most once in it. */
  predicate UniquePaths(files: Index) {
    && (forall c :: c in files ==> NoRepeats(files[c]))
    && (forall c1, c2, p :: c1 in files && c2 in files && p in files[c1] && p in files[c2] ==> c1 == c2)
  }

  /** The index a walk builds from an empty map keeps each path in one place when the visits the walk gets through have distinct paths. */
  lemma DiscoveredUnique(vs: seq<Visit>, checksum: Bytes -> Checksum)
    requires DistinctPaths(Walked(vs))
    ensures UniquePaths(IndexOf(map[], vs, checksum))
  {
    var files := IndexOf(map[], vs, checksum);
    forall c | c in files ensures NoRepeats(files[c]) {
      PathInOneGroup(vs, checksum, c, c, []);
    }
    forall c1, c2, p | c1 in files && c2 in files && p in files[c1] && p in files[c2] ensures c1 == c2 {
      PathInOneGroup(vs, checksum, c1, c2, p);
    }
  }

  // ---------------------------------------------------------------------
  // The report
  //
  // The specification functions take the sort key as a parameter `key`; the
  // program's key is `ConvertPathToTime`, which `FileIndex` passes.

  /** A group that `outputMap` reports: two or more files, sorted without error. */
  predicate Reported(key: TimeKey, g: seq<string>) {
    |g| > 1 && BubbleSort(key, g).err.None?
  }

  /**
    The order a group is left in by `outputMap`: groups of two or more are
    sorted in place, and since the sorted slice shares the map entry's
    storage, a failed sort leaves its partial swaps behind as well.
   */
  function Rearranged(key: TimeKey, g: seq<string>): seq<string> {
    if |g| > 1 then BubbleSort(key, g).paths else g
  }

  /** `filesMap` after `outputMap`; the same whatever the iteration order. */
  function SortedIndex(files: Index, key: TimeKey): (r: Index)
    ensures r.Keys == files.Keys
  {
    map c | c in files :: Rearranged(key, files[c])
  }

  /** The lines of a group listed in order `ps`, ranked from 1. */
  function RankedLines(c: Checksum, ps: seq<string>): (r: seq<ReportLine>)
    ensures |r| == |ps|
    ensures forall i :: 0 <= i < |ps| ==> r[i] == ReportLine(c, i + 1, ps[i])
  {
    if ps == [] then []
    else RankedLines(c, ps[..|ps| - 1]) + [ReportLine(c, |ps|, ps[|ps| - 1])]
  }

  /** The lines printed for group `g` of checksum `c`. */
  function GroupLines(key: TimeKey, c: Checksum, g: seq<string>): seq<ReportLine> {
    if Reported(key, g) then RankedLines(c, BubbleSort(key, g).paths) else []
  }

  /** The duplicates counted for group `g`: all its files but the first, if it is reported. */
  function GroupDuplicates(key: TimeKey, g: seq<string>): nat {
    if Reported(key, g) then |g| - 1 else 0
  }

  /** The text of each line, as `fmt.Printf` writes it. */
  function Printed(lines: seq<ReportLine>): (r: seq<string>)
    ensures |r| == |lines|
    ensures forall i :: 0 <= i < |lines| ==> r[i] == FormatLine(lines[i])
  {
    if lines == [] then []
    else Printed(lines[..|lines| - 1]) + [FormatLine(lines[|lines| - 1])]
  }

  /** Every checksum of `order` has a group in `files`. */
  predicate Covers(files: Index, order: seq<Checksum>) {
    forall k :: 0 <= k < |order| ==> order[k] in files
  }

  /** The lines `outputMap` prints when it visits the groups in `order`. */
  function ReportOf(files: Index, order: seq<Checksum>, key: TimeKey): seq<ReportLine>
    requires Covers(files, order)
  {
    if order == [] then []
    else
      var c := order[|order| - 1];
      ReportOf(files, order[..|order| - 1], key) + GroupLines(key, c, files[c])
  }

  /** The sum of `size` over the groups visited in `order`. */
  function SumOver(files: Index, order: seq<Checksum>, size: seq<string> -> nat): nat
    requires Covers(files, order)
  {
    if order == [] then 0
    else SumOver(files, order[..|order| - 1], size) + size(files[order[|order| - 1]])
  }

  function Duplicates(key: TimeKey): seq<string> -> nat {
    g => GroupDuplicates(key, g)
  }

  /** The number `outputMap` returns when it visits the groups in `order`. */
  function CountOf(files: Index, order: seq<Checksum>, key: TimeKey): nat
    requires Covers(files, order)
  {
    SumOver(files, order, Duplicates(key))
  }

  lemma SortedIndexCovers(files: Index, order: seq<Checksum>, key: TimeKey)
    requires Covers(files, order)
    ensures Covers(SortedIndex(files, key), order)
  {
  }

  /** `outputMap` keeps the keys, so an order for the map after it is one for the map before it. */
  lemma EnumeratesSortedIndex(order: seq<Checksum>, files: Index, key: TimeKey)
    requires EnumeratesKeys(order, SortedIndex(files, key))
    ensures EnumeratesKeys(order, files) && Covers(files, order)
  {
  }

  /** `files` with the groups of the checksums in `done` rearranged by `outputMap`, the others as they were. */
  function SortedOn(files: Index, done: seq<Checksum>, key: TimeKey): (r: Index)
    ensures r.Keys == files.Keys
  {
    map c | c in files :: if c in done then Rearranged(key, files[c]) else files[c]
  }

  lemma SortedOnStep(files: Index, order: seq<Checksum>, k: nat, key: TimeKey)
    requires EnumeratesKeys(order, files) && k < |order|
    ensures order[k] in files && order[k] !in order[..k]
    ensures SortedOn(files, order[..k], key)[order[k]] == files[order[k]]
    ensures SortedOn(files, order[..k + 1], key) == SortedOn(files, order[..k], key)[order[k] := Rearranged(key, files[order[k]])]
  {
    var c := order[k];
    assert order[..k + 1] == order[..k] + [c];
    assert forall j :: 0 <= j < k ==> order[..k][j] != c;
    var after := SortedOn(files, order[..k + 1], key);
    var updated := SortedOn(files, order[..k], key)[c := Rearranged(key, files[c])];
    assert after.Keys == updated.Keys;
    forall d | d in after
      ensures after[d] == updated[d]
    {
      assert d in order[..k + 1] <==> d in order[..k] || d == c;
    }
  }

  /** How one more round of `outputMap`'s loop extends the state, the count and the printed text. */
  lemma OutputStep(files: Index, order: seq<Checksum>, k: nat, key: TimeKey)
    requires EnumeratesKeys(order, files) && k < |order|
    ensures order[k] in files
    ensures SortedOn(files, order[..k], key)[order[k]] == files[order[k]]
    ensures SortedOn(files, order[..k + 1], key) == SortedOn(files, order[..k], key)[order[k] := Rearranged(key, files[order[k]])]
    ensures CountOf(files, order[..k + 1], key) == CountOf(files, order[..k], key) + GroupDuplicates(key, files[order[k]])
    ensures Printed(ReportOf(files, order[..k + 1], key))
      == Printed(ReportOf(files, order[..k], key)) + Printed(GroupLines(key, order[k], files[order[k]]))
  {
    SortedOnStep(files, order, k, key);
    CountStep(files, order, k, key);
    ReportStep(files, order, k, key);
  }

  lemma CountStep(files: Index, order: seq<Checksum>, k: nat, key: TimeKey)
    requires Covers(files, order) && k < |order|
    ensures Covers(files, order[..k]) && Covers(files, order[..k + 1])
    ensures CountOf(files, order[..k + 1], key) == CountOf(files, order[..k], key) + GroupDuplicates(key, files[order[k]])
  {
    assert order[..k + 1][..k] == order[..k];
  }

  lemma ReportStep(files: Index, order: seq<Checksum>, k: nat, key: TimeKey)
    requires Covers(files, order) && k < |order|
    ensures Covers(files, order[..k]) && Covers(files, order[..k + 1])
    ensures Printed(ReportOf(files, order[..k + 1], key))
      == Printed(ReportOf(files, order[..k], key)) + Printed(GroupLines(key, order[k], files[order[k]]))
  {
    assert order[..k + 1][..k] == order[..k];
    PrintedAppend(ReportOf(files, order[..k], key), GroupLines(key, order[k], files[order[k]]));
  }

  lemma SortedOnAll(files: Index, order: seq<Checksum>, key: TimeKey)
    requires EnumeratesKeys(order, files)
    ensures SortedOn(files, order, key) == SortedIndex(files, key)
  {
  }

  lemma {:induction false} PrintedAppend(a: seq<ReportLine>, b: seq<ReportLine>)
    ensures Printed(a + b) == Printed(a) + Printed(b)
  {
    if b == [] {
      assert a + b == a;
    } else {
      var init, l := b[..|b| - 1], b[|b| - 1];
      assert (a + b)[..|a + b| - 1] == a + init;
      PrintedAppend(a, init);
    }
  }

  /** `order` is one way of iterating `files`: every key exactly once. */
  predicate EnumeratesKeys(order: seq<Checksum>, files: Index) {
    && (forall i, j :: 0 <= i < j < |order| ==> order[i] != order[j])
    && (forall c :: c in files <==> c in order)
  }

  /**
    An order for `range` over a map: Go leaves it unspecified, so any
    listing of the keys, each once, may come out.
   */
  method MapOrder(files: Index) returns (order: seq<Checksum>)
    ensures EnumeratesKeys(order, files)
  {
    order := [];
    var rest := files.Keys;
    while rest != {}
      invariant rest <= files.Keys
      invariant forall c :: c in files <==> c in rest || c in order
      invariant forall c :: c in rest ==> c !in order
      invariant forall i, j :: 0 <= i < j < |order| ==> order[i] != order[j]
      decreases rest
    {
      var c :| c in rest;
      order := order + [c];
      rest := rest - {c};
    }
  }

  /**
    What `outputMap` does to one group: a group of one file, or one whose
    sort fails, prints nothing and adds nothing; a sorted group prints one
    line per file, ranked 1 to its size in the order of the reference stable
    sort, and adds its size less one. The sort fails exactly when some file
    of the group has no readable timestamp, and the group keeps its files.
   */
  lemma GroupReport(key: TimeKey, c: Checksum, g: seq<string>)
    ensures Reported(key, g) <==> |g| > 1 && AllParse(key, g)
    ensures !Reported(key, g) ==> GroupLines(key, c, g) == [] && GroupDuplicates(key, g) == 0
    ensures Reported(key, g) ==> |GroupLines(key, c, g)| == |g| && GroupDuplicates(key, g) == |g| - 1
    ensures Reported(key, g) ==>
      forall i :: 0 <= i < |g| ==> GroupLines(key, c, g)[i] == ReportLine(c, i + 1, StableSort(key, g)[i])
    ensures Reported(key, g) ==> Sorted(key, Rearranged(key, g))
    ensures multiset(Rearranged(key, g)) == multiset(g) && |Rearranged(key, g)| == |g|
  {
    BubbleSortSpec(key, g);
    assert |multiset(Rearranged(key, g))| == |multiset(g)|;
  }

  /**
    A line is printed exactly when its checksum is visited, that group is
    reported, and the line names the file at its rank in the sorted group.
   */
  lemma {:induction false} ReportMembers(files: Index, order: seq<Checksum>, key: TimeKey, line: ReportLine)
    requires Covers(files, order)
    ensures line in ReportOf(files, order, key) <==>
      && line.checksum in order
      && Reported(key, files[line.checksum])
      && 1 <= line.rank <= |files[line.checksum]|
      && line.path == BubbleSort(key, files[line.checksum]).paths[line.rank - 1]
  {
    if order != [] {
      var init, c := order[..|order| - 1], order[|order| - 1];
      assert order == init + [c];
      ReportMembers(files, init, key, line);
      GroupLinesMembers(key, c, files[c], line);
      assert ReportOf(files, order, key) == ReportOf(files, init, key) + GroupLines(key, c, files[c]);
    }
  }

  lemma GroupLinesMembers(key: TimeKey, c: Checksum, g: seq<string>, line: ReportLine)
    ensures line in GroupLines(key, c, g) <==>
      && line.checksum == c
      && Reported(key, g)
      && 1 <= line.rank <= |g|
      && line.path == BubbleSort(key, g).paths[line.rank - 1]
  {
    GroupReport(key, c, g);
    if Reported(key, g) {
      var lines := GroupLines(key, c, g);
      if line in lines {
        var i :| 0 <= i < |lines| && lines[i] == line;
        assert line.rank == i + 1;
      }
    }
  }

  /** `outputMap` only permutes each group, so it keeps every path in one place. */
  lemma SortedIndexKeepsUnique(files: Index, key: TimeKey)
    requires UniquePaths(files)
    ensures UniquePaths(SortedIndex(files, key))
  {
    var sorted := SortedIndex(files, key);
    forall c | c in sorted
      ensures multiset(sorted[c]) == multiset(files[c])
      ensures forall p :: p in sorted[c] <==> p in files[c]
    {
      GroupReport(key, c, files[c]);
      forall p ensures p in sorted[c] <==> p in files[c] {
        assert p in sorted[c] <==> p in multiset(sorted[c]);
        assert p in files[c] <==> p in multiset(files[c]);
      }
    }
  }

  /** Every iteration order prints the same set of lines. */
  lemma ReportLinesIndependentOfOrder(files: Index, o1: seq<Checksum>, o2: seq<Checksum>, key: TimeKey, line: ReportLine)
    requires EnumeratesKeys(o1, files) && EnumeratesKeys(o2, files)
    ensures line in ReportOf(files, o1, key) <==> line in ReportOf(files, o2, key)
  {
    ReportMembers(files, o1, key, line);
    ReportMembers(files, o2, key, line);
  }

  lemma {:induction false} SumRemove(files: Index, s: seq<Checksum>, size: seq<string> -> nat, i: nat)
    requires Covers(files, s) && i < |s|
    ensures SumOver(files, s, size) == SumOver(files, s[..i] + s[i + 1..], size) + size(files[s[i]])
  {
    var n := |s|;
    if i == n - 1 {
      assert s[..i] + s[i + 1..] == s[..n - 1];
    } else {
      var t := s[..i] + s[i + 1..];
      SumRemove(files, s[..n - 1], size, i);
      assert t[..|t| - 1] == s[..n - 1][..i] + s[..n - 1][i + 1..];
      assert t[|t| - 1] == s[n - 1];
    }
  }

  lemma MultisetRemove(init: seq<Checksum>, c: Checksum, u: seq<Checksum>, i: nat)
    requires i < |u| && u[i] == c
    requires multiset(init + [c]) == multiset(u)
    ensures multiset(init) == multiset(u[..i] + u[i + 1..])
  {
    var rest := u[..i] + u[i + 1..];
    assert multiset(u) == multiset(rest) + multiset{c} by {
      assert u == u[..i] + [c] + u[i + 1..];
      assert multiset(rest) == multiset(u[..i]) + multiset(u[i + 1..]);
    }
    calc {
      multiset(init);
      multiset(init + [c]) - multiset{c};
      multiset(u) - multiset{c};
      multiset(rest);
    }
  }

  /** A sum over the groups does not depend on the order they are visited in. */
  lemma {:induction false} SumPermutation(files: Index, s: seq<Checksum>, u: seq<Checksum>, size: seq<string> -> nat)
    requires Covers(files, s) && Covers(files, u)
    requires multiset(s) == multiset(u)
    ensures SumOver(files, s, size) == SumOver(files, u, size)
  {
    if s != [] {
      var n := |s|;
      var init, c := s[..n - 1], s[n - 1];
      assert s == init + [c];
      assert c in multiset(u) by {
        assert c in multiset(s);
      }
      var i :| 0 <= i < |u| && u[i] == c;
      var rest := u[..i] + u[i + 1..];
      MultisetRemove(init, c, u, i);
      SumRemove(files, u, size, i);
      SumPermutation(files, init, rest, size);
    } else {
      assert |u| == |multiset(u)|;
    }
  }

  lemma {:induction false} DistinctCount(s: seq<Checksum>, c: Checksum)
    requires forall i, j :: 0 <= i < j < |s| ==> s[i] != s[j]
    ensures multiset(s)[c] == if c in s then 1 else 0
  {
    if s != [] {
      var init, d := s[..|s| - 1], s[|s| - 1];
      assert s == init + [d];
      DistinctCount(init, c);
      assert d !in init;
    }
  }

  /** Two orders that list the same keys once each are permutations of each other. */
  lemma EnumerationsPermute(o1: seq<Checksum>, o2: seq<Checksum>, files: Index)
    requires EnumeratesKeys(o1, files) && EnumeratesKeys(o2, files)
    ensures multiset(o1) == multiset(o2)
  {
    forall c ensures multiset(o1)[c] == multiset(o2)[c] {
      DistinctCount(o1, c);
      DistinctCount(o2, c);
    }
  }

  /** The duplicates count `outputMap` returns does not depend on the map's iteration order. */
  lemma CountIndependentOfOrder(files: Index, o1: seq<Checksum>, o2: seq<Checksum>, key: TimeKey)
    requires EnumeratesKeys(o1, files) && EnumeratesKeys(o2, files)
    ensures CountOf(files, o1, key) == CountOf(files, o2, key)
  {
    EnumerationsPermute(o1, o2, files);
    SumPermutation(files, o1, o2, Duplicates(key));
  }

  // ---------------------------------------------------------------------
  // The moves
  //
  // Where a file is moved is a parameter `target`; the program's is
  // `MoveTarget(Join(root, "REMOVED"))`, which `FileIndex` passes.

  /** One `os.Rename(source, destination)`. */
  datatype Move = Move(source: string, destination: string)

  /** The name of the directory duplicates are moved into. */
  const RemovedName: string := "REMOVED"

  /**
    Where `moveDuplicates` sends the file `path`: its base name inside the
    directory `removed`. The file keeps its base name, so the directory
    structure above it is flattened away and two moved files with the same
    base name collide.
   */
  function MoveDestination(removed: string, path: string): (r: string)
    ensures Paths.IsProperName(Paths.Base(path)) ==> Paths.Base(r) == Paths.Base(path)
    ensures r != []
  {
    var r := Paths.Join(removed, Paths.Base(path));
    assert Paths.IsProperName(Paths.Base(path)) ==> Paths.Base(r) == Paths.Base(path) by {
      if Paths.IsProperName(Paths.Base(path)) {
        Paths.JoinKeepsName(removed, Paths.Base(path));
      }
    }
    r
  }

  /** `MoveDestination` for the directory `removed`, as a function of the path. */
  function MoveTarget(removed: string): string -> string {
    path => MoveDestination(removed, path)
  }

  /** The renames for one group, in group order: every file but the first, of a group of two or more. */
  function GroupMoves(g: seq<string>, target: string -> string): (r: seq<Move>)
    ensures |r| == if |g| > 1 then |g| - 1 else 0
    ensures forall i :: 0 <= i < |r| ==> r[i] == Move(g[i + 1], target(g[i + 1]))
  {
    if |g| <= 1 then []
    else
      var init, last := g[..|g| - 1], g[|g| - 1];
      var r := GroupMoves(init, target) + [Move(last, target(last))];
      assert forall i :: 0 <= i < |init| ==> g[i] == init[i];
      r
  }

  /** The renames `moveDuplicates` issues when it visits the groups in `order`. */
  function MovesOf(files: Index, order: seq<Checksum>, target: string -> string): seq<Move>
    requires Covers(files, order)
  {
    if order == [] then []
    else
      var c := order[|order| - 1];
      MovesOf(files, order[..|order| - 1], target) + GroupMoves(files[c], target)
  }

  /**
    A rename is issued exactly when its source is a file at position 1 or
    later of a visited group (never the first, which stays) and its
    destination is the target of that file.
   */
  lemma {:induction false} MovesMembers(files: Index, order: seq<Checksum>, target: string -> string, m: Move)
    requires Covers(files, order)
    ensures m in MovesOf(files, order, target) <==>
      && m.destination == target(m.source)
      && exists c, i :: c in order && 1 <= i < |files[c]| && files[c][i] == m.source
  {
    if order != [] {
      var init, d := order[..|order| - 1], order[|order| - 1];
      assert order == init + [d];
      MovesMembers(files, init, target, m);
      var g := files[d];
      var moves := GroupMoves(g, target);
      if m in moves {
        var k :| 0 <= k < |moves| && moves[k] == m;
        assert d in order && 1 <= k + 1 < |g| && g[k + 1] == m.source;
      }
      if m.destination == target(m.source) && exists i :: 1 <= i < |g| && g[i] == m.source {
        var i :| 1 <= i < |g| && g[i] == m.source;
        assert moves[i - 1] == m;
      }
    }
  }

  /** A path at two positions of a group is a repeat. */
  lemma RepeatedIndex(g: seq<string>, i: nat, j: nat)
    requires i < j < |g| && g[i] == g[j]
    ensures !NoRepeats(g)
  {
    assert g == g[..j] + [g[j]] + g[j + 1..];
    assert g[i] in g[..j];
    assert multiset(g)[g[j]] >= multiset(g[..j])[g[j]] + 1;
  }

  /**
    When every path is in one place, the first file of every group stays
    where it is: it is never the source of a rename.
   */
  lemma FirstFileStays(files: Index, order: seq<Checksum>, target: string -> string, d: Checksum, m: Move)
    requires Covers(files, order) && UniquePaths(files)
    requires d in files && files[d] != []
    requires m in MovesOf(files, order, target)
    ensures m.source != files[d][0]
  {
    MovesMembers(files, order, target, m);
    var c, i :| c in order && 1 <= i < |files[c]| && files[c][i] == m.source;
    if m.source == files[d][0] {
      assert files[d][0] in files[d] && files[c][i] in files[c];
      assert c == d;
      RepeatedIndex(files[c], 0, i);
      assert false;
    }
  }

  /** The files of a group `moveDuplicates` would move: all but the first, of a group of two or more. */
  function Surplus(g: seq<string>): nat {
    if |g| > 1 then |g| - 1 else 0
  }

  /** The number of files `moveDuplicates` would move when it visits the groups in `order`. */
  function Movable(files: Index, order: seq<Checksum>): nat
    requires Covers(files, order)
  {
    SumOver(files, order, Surplus)
  }

  /**
    After `outputMap`, `moveDuplicates` moves at least as many files as
    `outputMap` counted, and exactly as many only when no group of two or
    more failed to sort: the files of a group whose sort failed are moved
    although they were neither printed nor counted.
   */
  lemma {:induction false} MovesMatchCount(files: Index, order: seq<Checksum>, key: TimeKey, target: string -> string)
    requires Covers(files, order)
    ensures |MovesOf(SortedIndex(files, key), order, target)| == Movable(files, order) >= CountOf(files, order, key)
    ensures Movable(files, order) == CountOf(files, order, key) <==>
      forall c :: c in order && |files[c]| > 1 ==> Reported(key, files[c])
  {
    if order != [] {
      var init, c := order[..|order| - 1], order[|order| - 1];
      assert order == init + [c];
      MovesMatchCount(files, init, key, target);
      GroupReport(key, c, files[c]);
      assert SortedIndex(files, key)[c] == Rearranged(key, files[c]);
    }
  }

  // ---------------------------------------------------------------------
  // The state

  class FileIndex {
    /** `filesMap`. */
    var files: Index
    /** `crc32.Checksum(·, crc32q)`: the checksum of a file's contents. */
    const checksum: Bytes -> Checksum

    constructor (checksum: Bytes -> Checksum)
      ensures files == map[] && this.checksum == checksum
    {
      files := map[];
      this.checksum := checksum;
    }

    /**
      The walk callback `walk`: an error from WalkDir is handed back, which
      ends the walk, and the index is left alone; a directory is skipped; a
      file's path is appended to the group of its checksum, which is created
      if the checksum is new. No other group changes.
     */
    method Insert(v: Visit) returns (stop: Option<WalkError>)
      modifies this
      ensures stop == v.err
      ensures files == AfterVisit(old(files), v, checksum)
      ensures forall c :: c != checksum(v.content) ==> GroupOf(files, c) == GroupOf(old(files), c)
    {
      if v.err.Some? {
        return v.err;
      }
      if !v.isDir {
        var c := checksum(v.content);
        if c in files {
          files := files[c := files[c] + [v.path]];
        } else {
          assert GroupOf(files, c) + [v.path] == [v.path];
          files := files[c := [v.path]];
        }
      }
      return None;
    }

    /**
      `filepath.WalkDir` feeding the visits `vs` to the callback: it stops at
      the first error and returns it.
     */
    method Walk(vs: seq<Visit>) returns (stop: Option<WalkError>)
      modifies this
      ensures files == IndexOf(old(files), vs, checksum)
      ensures stop == if |Walked(vs)| < |vs| then vs[|Walked(vs)|].err else None
    {
      var k := 0;
      while k < |vs|
        invariant k <= |vs|
        invariant forall i :: 0 <= i < k ==> vs[i].err.None?
        invariant IndexOf(files, vs[k..], checksum) == IndexOf(old(files), vs, checksum)
      {
        assert vs[k..][1..] == vs[k + 1..];
        stop := Insert(vs[k]);
        if stop.Some? {
          assert |Walked(vs)| == k;
          return;
        }
        k := k + 1;
      }
      assert |Walked(vs)| == |vs|;
      return None;
    }

    /**
      `outputMap`, visiting the groups in `order`: the lines it prints and
      the duplicates it counts are those of `ReportOf` and `CountOf`, and it
      leaves every group as `SortedIndex` says. The sort key is `key`; the
      program's is `ConvertPathToTime`.
     */
    method OutputMap(order: seq<Checksum>, key: TimeKey) returns (duplicates: nat, printed: seq<string>)
      requires EnumeratesKeys(order, files)
      modifies this
      ensures files == SortedIndex(old(files), key)
      ensures duplicates == CountOf(old(files), order, key)
      ensures printed == Printed(ReportOf(old(files), order, key))
    {
      ghost var files0 := files;
      duplicates, printed := 0, [];
      var k := 0;
      while k < |order|
        invariant k <= |order|
        invariant files == SortedOn(files0, order[..k], key)
        invariant duplicates == CountOf(files0, order[..k], key)
        invariant printed == Printed(ReportOf(files0, order[..k], key))
      {
        duplicates, printed := OutputRound(files0, order, k, key, duplicates, printed);
        k := k + 1;
      }
      assert order[..|order|] == order;
      SortedOnAll(files0, order, key);
    }

    /**
      Round `k` of `outputMap`'s loop over `order`, starting from the state,
      count and text the first `k` rounds left: afterwards they are those of
      the first `k + 1` rounds.
     */
    method OutputRound(ghost files0: Index, order: seq<Checksum>, k: nat, key: TimeKey, duplicates0: nat, printed0: seq<string>)
      returns (duplicates: nat, printed: seq<string>)
      requires EnumeratesKeys(order, files0) && k < |order|
      requires files == SortedOn(files0, order[..k], key)
      requires duplicates0 == CountOf(files0, order[..k], key)
      requires printed0 == Printed(ReportOf(files0, order[..k], key))
      modifies this
      ensures files == SortedOn(files0, order[..k + 1], key)
      ensures duplicates == CountOf(files0, order[..k + 1], key)
      ensures printed == Printed(ReportOf(files0, order[..k + 1], key))
    {
      var c := order[k];
      OutputStep(files0, order, k, key);
      var lines, count := OutputGroup(c, key);
      printed := printed0 + lines;
      duplicates := duplicates0 + count;
    }

    /**
      One round of `outputMap`'s loop, for checksum `c`: a group of two or
      more files is sorted in an array holding its storage, and the map
      entry keeps whatever order the array is left in, sorted or not; if the
      sort succeeded the group's lines are printed and its files after the
      first are counted.
     */
    method OutputGroup(c: Checksum, key: TimeKey) returns (printed: seq<string>, duplicates: nat)
      requires c in files
      modifies this
      ensures files == old(files)[c := Rearranged(key, old(files)[c])]
      ensures printed == Printed(GroupLines(key, c, old(files)[c]))
      ensures duplicates == GroupDuplicates(key, old(files)[c])
    {
      var paths := files[c];
      printed, duplicates := [], 0;
      if |paths| > 1 {
        var a := new string[|paths|](i requires 0 <= i < |paths| => paths[i]);
        assert a[..] == paths;
        var err := BubbleSortPaths(key, a);
        assert a[..] == Rearranged(key, paths);
        files := files[c := a[..]];
        assert files == old(files)[c := Rearranged(key, paths)];
        if err.None? {
          assert Reported(key, paths);
          printed, duplicates := PrintGroup(c, a);
          assert GroupLines(key, c, paths) == RankedLines(c, a[..]);
        } else {
          assert !Reported(key, paths);
          assert GroupLines(key, c, paths) == [];
        }
      } else {
        assert Rearranged(key, paths) == paths;
        assert files == files[c := paths];
      }
    }

    /**
      The inner loop of `outputMap`: the lines printed for the sorted group
      `a` of checksum `c`, ranked from 1, and the number of files after the
      first.
     */
    method PrintGroup(c: Checksum, a: array<string>) returns (printed: seq<string>, duplicates: nat)
      ensures printed == Printed(RankedLines(c, a[..]))
      ensures duplicates == if a.Length > 0 then a.Length - 1 else 0
    {
      printed, duplicates := [], 0;
      var index := 0;
      while index < a.Length
        invariant index <= a.Length
        invariant |printed| == index
        invariant forall i :: 0 <= i < index ==> printed[i] == FormatLine(ReportLine(c, i + 1, a[i]))
        invariant duplicates == if index > 0 then index - 1 else 0
      {
        printed := printed + [FormatLine(ReportLine(c, index + 1, a[index]))];
        if index > 0 {
          duplicates := duplicates + 1;
        }
        index := index + 1;
      }
    }

    /**
      `moveDuplicates(root)`: every file but the first of every group of two
      or more is renamed to its base name inside `root/REMOVED`, whether or
      not the group was sorted. Creating the directory is not modelled.
     */
    method MoveDuplicates(root: string, order: seq<Checksum>) returns (moves: seq<Move>)
      requires EnumeratesKeys(order, files)
      ensures moves == MovesOf(files, order, MoveTarget(Paths.Join(root, RemovedName)))
    {
      var removedDirectory := Paths.Join(root, RemovedName);
      var target := MoveTarget(removedDirectory);
      moves := SelectMoves(order, target);
    }

    /**
      The loop of `moveDuplicates`, visiting the groups in `order` and
      renaming each selected file `path` to `target(path)`.
     */
    method SelectMoves(order: seq<Checksum>, target: string -> string) returns (moves: seq<Move>)
      requires EnumeratesKeys(order, files)
      ensures moves == MovesOf(files, order, target)
    {
      moves := [];
      var k := 0;
      while k < |order|
        invariant k <= |order|
        invariant moves == MovesOf(files, order[..k], target)
      {
        var c := order[k];
        assert order[..k + 1][..k] == order[..k];
        var groupMoves := MoveGroup(files[c], target);
        moves := moves + groupMoves;
        k := k + 1;
      }
      assert order[..|order|] == order;
    }
  }

  /**
    The body of `moveDuplicates`' loop for one group: only a group of two or
    more is touched, and then every file after the first is renamed.
   */
  method MoveGroup(paths: seq<string>, target: string -> string) returns (moves: seq<Move>)
    ensures moves == GroupMoves(paths, target)
  {
    moves := [];
    if |paths| > 1 {
      var index := 1;
      while index < |paths|
        invariant 1 <= index <= |paths|
        invariant moves == GroupMoves(paths[..index], target)
      {
        var path := paths[index];
        assert paths[..index + 1][..index] == paths[..index];
        moves := moves + [Move(path, target(path))];
        index := index + 1;
      }
      assert paths[..index] == paths;
    }
  }
}
