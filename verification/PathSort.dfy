/**
  `bubbleSortPaths`: an in-place bubble sort of one checksum group by the
  timestamp in each file's name, abandoned with the error of the first key
  that cannot be read. The key extraction is a parameter (`key`); the
  program always sorts with `Timestamp.ConvertPathToTime`. Beside the
  method: what "sorted" and "stable" mean for paths, a reference stable
  insertion sort, and the lemma that a sorted, stable arrangement of a group
  is unique, so the bubble sort and the reference agree.
 */
module PathSort {
  import opened Wrappers
  import opened Timestamp

  /** How a path is given its timestamp. */
  type TimeKey = string -> Result<Time, TimeError>

  predicate Parses(key: TimeKey, p: string) {
    key(p).Ok?
  }

  function TimeOf(key: TimeKey, p: string): Time
    requires Parses(key, p)
  {
    key(p).value
  }

  /** Every path in `s` carries a readable timestamp. */
  predicate AllParse(key: TimeKey, s: seq<string>) {
    forall k :: 0 <= k < |s| ==> Parses(key, s[k])
  }

  /** `p` is strictly later than `q`: the condition under which the bubble sort swaps them. */
  predicate OutOfOrder(key: TimeKey, p: string, q: string) {
    Parses(key, p) && Parses(key, q) && After(TimeOf(key, p), TimeOf(key, q))
  }

  /** Non-decreasing by timestamp. */
  predicate Sorted(key: TimeKey, s: seq<string>) {
    forall x, y :: 0 <= x < y < |s| ==> !OutOfOrder(key, s[x], s[y])
  }

  /** The members of `s` whose timestamp is `t`, in their order in `s`. */
  function WithTime(key: TimeKey, s: seq<string>, t: Time): (r: seq<string>)
    ensures |r| <= |s|
  {
    if s == [] then []
    else WithTime(key, s[..|s| - 1], t) + (if key(s[|s| - 1]) == Ok(t) then [s[|s| - 1]] else [])
  }

  /** `s` and `u` list the paths of each timestamp in the same relative order: the stability relation. */
  ghost predicate SameTimeClasses(key: TimeKey, s: seq<string>, u: seq<string>) {
    forall t :: WithTime(key, s, t) == WithTime(key, u, t)
  }

  lemma {:induction false} WithTimeAppend(key: TimeKey, s: seq<string>, u: seq<string>, t: Time)
    ensures WithTime(key, s + u, t) == WithTime(key, s, t) + WithTime(key, u, t)
  {
    if u == [] {
      assert s + u == s;
    } else {
      var n := |u|;
      assert (s + u)[..|s + u| - 1] == s + u[..n - 1];
      WithTimeAppend(key, s, u[..n - 1], t);
    }
  }

  lemma {:induction false} WithTimeMembers(key: TimeKey, s: seq<string>, t: Time, p: string)
    ensures p in WithTime(key, s, t) <==> p in s && key(p) == Ok(t)
  {
    if s != [] {
      var n := |s|;
      WithTimeMembers(key, s[..n - 1], t, p);
      assert s == s[..n - 1] + [s[n - 1]];
    }
  }

  lemma WithTimeOfTwo(key: TimeKey, p: string, q: string, t: Time)
    ensures WithTime(key, [p, q], t)
      == (if key(p) == Ok(t) then [p] else []) + (if key(q) == Ok(t) then [q] else [])
  {
    assert [p, q][..1] == [p];
    assert [p][..0] == [];
  }

  lemma SwapKeepsTimeClass(key: TimeKey, pre: seq<string>, p: string, q: string, post: seq<string>, t: Time)
    requires key(p) != key(q)
    ensures WithTime(key, pre + [q, p] + post, t) == WithTime(key, pre + [p, q] + post, t)
  {
    WithTimeAppend(key, pre + [p, q], post, t);
    WithTimeAppend(key, pre, [p, q], t);
    WithTimeAppend(key, pre + [q, p], post, t);
    WithTimeAppend(key, pre, [q, p], t);
    WithTimeOfTwo(key, p, q, t);
    WithTimeOfTwo(key, q, p, t);
  }

  /** Exchanging two neighbours with different timestamps changes no time class: such a swap is stable. */
  lemma SwapKeepsTimeClasses(key: TimeKey, s: seq<string>, j: nat)
    requires j + 1 < |s|
    requires key(s[j]) != key(s[j + 1])
    ensures SameTimeClasses(key, s[j := s[j + 1]][j + 1 := s[j]], s)
  {
    var u := s[j := s[j + 1]][j + 1 := s[j]];
    var pre, post := s[..j], s[j + 2..];
    assert s == pre + [s[j], s[j + 1]] + post;
    assert u == pre + [s[j + 1], s[j]] + post;
    forall t ensures WithTime(key, u, t) == WithTime(key, s, t) {
      SwapKeepsTimeClass(key, pre, s[j], s[j + 1], post, t);
    }
  }

  lemma AllParsePermutation(key: TimeKey, s: seq<string>, u: seq<string>)
    requires multiset(s) == multiset(u)
    ensures AllParse(key, s) <==> AllParse(key, u)
  {
    if AllParse(key, s) {
      forall k | 0 <= k < |u| ensures Parses(key, u[k]) {
        assert u[k] in multiset(u);
        var x :| 0 <= x < |s| && s[x] == u[k];
      }
    }
    if AllParse(key, u) {
      forall k | 0 <= k < |s| ensures Parses(key, s[k]) {
        assert s[k] in multiset(s);
        var x :| 0 <= x < |u| && u[x] == s[k];
      }
    }
  }

  /** Positions `m..` hold their final paths: sorted, and no earlier path is later than any of them. */
  predicate SuffixPlaced(key: TimeKey, s: seq<string>, m: nat)
    requires m <= |s|
  {
    && (forall x, y :: m <= x < y < |s| ==> !OutOfOrder(key, s[x], s[y]))
    && (forall x, y :: 0 <= x < m <= y < |s| ==> !OutOfOrder(key, s[x], s[y]))
  }

  /** No path before position `j` is later than `s[j]`. */
  predicate LatestAt(key: TimeKey, s: seq<string>, j: nat)
    requires j < |s|
  {
    forall x :: 0 <= x < j ==> !OutOfOrder(key, s[x], s[j])
  }

  /** One comparison of the inner loop: neighbours `j` and `j + 1` are swapped when the left one is strictly later. */
  function Compare(key: TimeKey, s: seq<string>, j: nat): (r: seq<string>)
    requires j + 1 < |s| && Parses(key, s[j]) && Parses(key, s[j + 1])
    ensures |r| == |s|
  {
    if After(TimeOf(key, s[j]), TimeOf(key, s[j + 1])) then s[j := s[j + 1]][j + 1 := s[j]] else s
  }

  lemma ComparePermutes(key: TimeKey, s: seq<string>, j: nat)
    requires j + 1 < |s| && Parses(key, s[j]) && Parses(key, s[j + 1])
    ensures multiset(Compare(key, s, j)) == multiset(s)
  {
  }

  /** A comparison carries the latest path one place right, leaves the placed suffix alone, and is a stable permutation. */
  lemma CompareStep(key: TimeKey, s: seq<string>, j: nat, m: nat)
    requires j + 1 < m <= |s|
    requires forall k :: 0 <= k <= j + 1 ==> Parses(key, s[k])
    requires LatestAt(key, s, j) && SuffixPlaced(key, s, m)
    ensures var r := Compare(key, s, j);
      && LatestAt(key, r, j + 1) && SuffixPlaced(key, r, m)
      && multiset(r) == multiset(s) && SameTimeClasses(key, r, s)
      && forall k :: 0 <= k <= j + 1 ==> Parses(key, r[k])
  {
    var r := Compare(key, s, j);
    if After(TimeOf(key, s[j]), TimeOf(key, s[j + 1])) {
      SwapKeepsTimeClasses(key, s, j);
      forall x | 0 <= x < j + 1 ensures !OutOfOrder(key, r[x], r[j + 1]) {
        if x < j {
          NotAfterTransitive(TimeOf(key, s[x]), TimeOf(key, s[j + 1]), TimeOf(key, s[j]));
        }
      }
    } else {
      forall x | 0 <= x < j + 1 ensures !OutOfOrder(key, r[x], r[j + 1]) {
        if x < j {
          NotAfterTransitive(TimeOf(key, s[x]), TimeOf(key, s[j]), TimeOf(key, s[j + 1]));
        }
      }
    }
  }

  /** At the end of a pass the latest path of the prefix joins the placed suffix. */
  lemma PassEnd(key: TimeKey, s: seq<string>, m: nat)
    requires 0 < m <= |s|
    requires SuffixPlaced(key, s, m) && LatestAt(key, s, m - 1)
    ensures SuffixPlaced(key, s, m - 1)
  {
  }

  lemma MemberOfPermutation(s: seq<string>, u: seq<string>, p: string)
    requires multiset(s) == multiset(u) && p in s
    ensures p in u
  {
    assert p in multiset(u);
  }

  /** An unreadable path stays unreadable under permutation: the group as given holds a path with that error. */
  lemma UnreadableInPermutation(key: TimeKey, s: seq<string>, u: seq<string>, k: nat)
    requires multiset(s) == multiset(u) && k < |s| && key(s[k]).Err?
    ensures exists p :: p in u && key(p) == key(s[k])
    ensures !AllParse(key, u)
  {
    assert s[k] in multiset(u);
    var x :| 0 <= x < |u| && u[x] == s[k];
  }

  /** What the sort leaves behind: the group's order and the error it stopped with, if any. */
  datatype SortOutcome = SortOutcome(paths: seq<string>, err: Option<TimeError>)

  /**
    The rest of one pass over the unplaced prefix `s[..m]`, from position `j`
    on: read the keys of neighbours `j` and `j + 1`, stop at the first
    unreadable one, and otherwise compare and move on.
   */
  function PassFrom(key: TimeKey, s: seq<string>, j: nat, m: nat): (r: SortOutcome)
    requires m <= |s|
    ensures |r.paths| == |s|
    decreases m - j
  {
    if j + 1 >= m then SortOutcome(s, None)
    else if key(s[j]).Err? then SortOutcome(s, Some(key(s[j]).error))
    else if key(s[j + 1]).Err? then SortOutcome(s, Some(key(s[j + 1]).error))
    else PassFrom(key, Compare(key, s, j), j + 1, m)
  }

  /** The passes `i, i + 1, ...` of the sort; pass `i` covers the prefix of length `|s| - i`. */
  function SortFrom(key: TimeKey, s: seq<string>, i: nat): (r: SortOutcome)
    ensures |r.paths| == |s|
    decreases |s| - i
  {
    if i + 1 >= |s| then SortOutcome(s, None)
    else
      var pass := PassFrom(key, s, 0, |s| - i);
      if pass.err.Some? then pass else SortFrom(key, pass.paths, i + 1)
  }

  /** The whole bubble sort of a group: the order it leaves and whether it was abandoned. */
  function BubbleSort(key: TimeKey, s: seq<string>): SortOutcome {
    SortFrom(key, s, 0)
  }

  /** One step of `SortFrom`: a pass over the unplaced prefix, then the remaining passes unless this one was abandoned. */
  lemma SortFromStep(key: TimeKey, s: seq<string>, i: nat)
    requires i + 1 < |s|
    ensures var pass := PassFrom(key, s, 0, |s| - i);
      SortFrom(key, s, i) == if pass.err.Some? then pass else SortFrom(key, pass.paths, i + 1)
  {
  }

  /** Once at most one path is left unplaced, `SortFrom` stops without error and changes nothing. */
  lemma SortFromDone(key: TimeKey, s: seq<string>, i: nat)
    requires i + 1 >= |s|
    ensures SortFrom(key, s, i) == SortOutcome(s, None)
  {
  }

  /** A pass only exchanges neighbours: it permutes the group. */
  lemma {:induction false} PassFromPermutes(key: TimeKey, s: seq<string>, j: nat, m: nat)
    requires m <= |s|
    ensures multiset(PassFrom(key, s, j, m).paths) == multiset(s)
    decreases m - j
  {
    if j + 1 < m && key(s[j]).Ok? && key(s[j + 1]).Ok? {
      ComparePermutes(key, s, j);
      PassFromPermutes(key, Compare(key, s, j), j + 1, m);
    }
  }

  /** A pass only exchanges neighbours with different timestamps: it keeps the group's time classes. */
  lemma {:induction false} PassFromStable(key: TimeKey, s: seq<string>, j: nat, m: nat)
    requires m <= |s|
    ensures SameTimeClasses(key, PassFrom(key, s, j, m).paths, s)
    decreases m - j
  {
    if j + 1 < m && key(s[j]).Ok? && key(s[j + 1]).Ok? {
      if After(TimeOf(key, s[j]), TimeOf(key, s[j + 1])) {
        SwapKeepsTimeClasses(key, s, j);
      }
      PassFromStable(key, Compare(key, s, j), j + 1, m);
    }
  }

  /** The passes, too, permute the group, whether or not the sort is abandoned. */
  lemma {:induction false} SortFromPermutes(key: TimeKey, s: seq<string>, i: nat)
    ensures multiset(SortFrom(key, s, i).paths) == multiset(s)
    decreases |s| - i
  {
    if i + 1 < |s| {
      var pass := PassFrom(key, s, 0, |s| - i);
      if pass.err.None? {
        calc {
          multiset(SortFrom(key, s, i).paths);
        == { SortFromStep(key, s, i); }
          multiset(SortFrom(key, pass.paths, i + 1).paths);
        == { SortFromPermutes(key, pass.paths, i + 1); }
          multiset(pass.paths);
        == { PassFromPermutes(key, s, 0, |s| - i); }
          multiset(s);
        }
      } else {
        calc {
          multiset(SortFrom(key, s, i).paths);
        == { SortFromStep(key, s, i); }
          multiset(pass.paths);
        == { PassFromPermutes(key, s, 0, |s| - i); }
          multiset(s);
        }
      }
    } else {
      SortFromDone(key, s, i);
    }
  }

  /** The passes keep the group's time classes, whether or not the sort is abandoned. */
  lemma {:induction false} SortFromStable(key: TimeKey, s: seq<string>, i: nat)
    ensures SameTimeClasses(key, SortFrom(key, s, i).paths, s)
    decreases |s| - i
  {
    if i + 1 < |s| {
      var pass := PassFrom(key, s, 0, |s| - i);
      var r := SortFrom(key, s, i).paths;
      if pass.err.None? {
        SortFromStable(key, pass.paths, i + 1);
      }
      forall t ensures WithTime(key, r, t) == WithTime(key, s, t) {
        calc {
          WithTime(key, r, t);
        == { SortFromStep(key, s, i); }
          WithTime(key, if pass.err.None? then SortFrom(key, pass.paths, i + 1).paths else pass.paths, t);
        == WithTime(key, pass.paths, t);
        == { PassFromStable(key, s, 0, |s| - i); }
          WithTime(key, s, t);
        }
      }
    } else {
      SortFromDone(key, s, i);
    }
  }

  /** A pass reports an unreadable path when it stops, and otherwise has read every key of the prefix. */
  lemma {:induction false} PassFromReads(key: TimeKey, s: seq<string>, j: nat, m: nat)
    requires m <= |s| && (j == 0 || j < m)
    requires j > 0 ==> forall k :: 0 <= k <= j ==> Parses(key, s[k])
    ensures var r := PassFrom(key, s, j, m);
      && (r.err.Some? ==> exists k :: 0 <= k < |s| && key(r.paths[k]) == Err(r.err.value))
      && (r.err.None? && 2 <= m ==> forall k :: 0 <= k < m ==> Parses(key, r.paths[k]))
    decreases m - j
  {
    if j + 1 >= m {
    } else if key(s[j]).Err? {
      assert key(s[j]) == Err(key(s[j]).error);
    } else if key(s[j + 1]).Err? {
      assert key(s[j + 1]) == Err(key(s[j + 1]).error);
    } else {
      PassFromReads(key, Compare(key, s, j), j + 1, m);
    }
  }

  /** A pass that is not abandoned places one more path. */
  lemma {:induction false} PassFromPlaces(key: TimeKey, s: seq<string>, j: nat, m: nat)
    requires 2 <= m <= |s| && j + 1 <= m
    requires j > 0 ==> forall k :: 0 <= k <= j ==> Parses(key, s[k])
    requires LatestAt(key, s, j) && SuffixPlaced(key, s, m)
    ensures var r := PassFrom(key, s, j, m);
      r.err.None? ==> SuffixPlaced(key, r.paths, m - 1)
    decreases m - j
  {
    if j + 1 >= m {
      PassEnd(key, s, m);
    } else if key(s[j]).Ok? && key(s[j + 1]).Ok? {
      CompareStep(key, s, j, m);
      PassFromPlaces(key, Compare(key, s, j), j + 1, m);
    }
  }

  /** With two or more paths the passes are abandoned exactly when some key is unreadable, and report that key's error. */
  lemma {:induction false} SortFromReads(key: TimeKey, s: seq<string>, i: nat)
    requires i == 0 || i < |s|
    requires i > 0 ==> AllParse(key, s)
    ensures var r := SortFrom(key, s, i);
      && (r.err.None? <==> |s| < 2 || AllParse(key, s))
      && (r.err.Some? ==> exists p :: p in s && key(p) == Err(r.err.value))
    decreases |s| - i
  {
    if i + 1 < |s| {
      var m := |s| - i;
      var pass := PassFrom(key, s, 0, m);
      PassFromPermutes(key, s, 0, m);
      PassFromReads(key, s, 0, m);
      SortFromStep(key, s, i);
      if pass.err.Some? {
        var k :| 0 <= k < |s| && key(pass.paths[k]) == Err(pass.err.value);
        UnreadableInPermutation(key, pass.paths, s, k);
      } else {
        assert AllParse(key, pass.paths) && AllParse(key, s) by {
          AllParsePermutation(key, pass.paths, s);
        }
        SortFromReads(key, pass.paths, i + 1);
      }
    }
  }

  /** The remaining passes, when not abandoned, sort a group whose suffix `s[|s| - i..]` is placed. */
  lemma {:induction false} SortFromSorts(key: TimeKey, s: seq<string>, i: nat)
    requires i == 0 || i < |s|
    requires SuffixPlaced(key, s, |s| - i)
    ensures var r := SortFrom(key, s, i);
      r.err.None? ==> Sorted(key, r.paths)
    decreases |s| - i
  {
    if i + 1 >= |s| {
      SortFromDone(key, s, i);
      if |s| >= 2 {
        assert SuffixPlaced(key, s, 1);
      }
    } else {
      var m := |s| - i;
      var pass := PassFrom(key, s, 0, m);
      PassFromPlaces(key, s, 0, m);
      SortFromStep(key, s, i);
      if pass.err.None? {
        SortFromSorts(key, pass.paths, i + 1);
      }
    }
  }

  /**
    What the bubble sort does to a group: it only permutes it; with two or
    more paths it fails exactly when some key is unreadable, reporting that
    key's error; a shorter group is left as it is; and on success the group
    is sorted, stable, and equal to the reference stable sort.
   */
  lemma BubbleSortSpec(key: TimeKey, s: seq<string>)
    ensures var r := BubbleSort(key, s);
      && multiset(r.paths) == multiset(s)
      && (r.err.None? <==> |s| < 2 || AllParse(key, s))
      && (r.err.Some? ==> exists p :: p in s && key(p) == Err(r.err.value))
      && (|s| < 2 ==> r.paths == s)
      && (r.err.None? ==> Sorted(key, r.paths) && SameTimeClasses(key, r.paths, s))
      && (r.err.None? ==> r.paths == StableSort(key, s))
  {
    SortFromReads(key, s, 0);
    SortFromSorts(key, s, 0);
    SortFromPermutes(key, s, 0);
    SortFromStable(key, s, 0);
    var r := BubbleSort(key, s);
    if r.err.None? {
      if |s| >= 2 {
        SortedStableIsStableSort(key, r.paths, s);
      } else {
        StableSortShort(key, s);
      }
    }
  }

  /** One pass of `bubbleSortPaths`'s outer loop, the inner `j` loop, over the unplaced prefix `a[..m]`. */
  method BubblePass(key: TimeKey, a: array<string>, m: nat) returns (err: Option<TimeError>)
    requires m <= a.Length
    modifies a
    ensures SortOutcome(a[..], err) == PassFrom(key, old(a[..]), 0, m)
  {
    var j := 0;
    while j + 1 < m
      invariant j == 0 || j < m
      invariant PassFrom(key, a[..], j, m) == PassFrom(key, old(a[..]), 0, m)
    {
      var timeJ := key(a[j]);
      if timeJ.Err? {
        return Some(timeJ.error);
      }
      var timeJ1 := key(a[j + 1]);
      if timeJ1.Err? {
        return Some(timeJ1.error);
      }
      ghost var before := a[..];
      if After(timeJ.value, timeJ1.value) {
        a[j], a[j + 1] := a[j + 1], a[j];
      }
      assert a[..] == Compare(key, before, j);
      j := j + 1;
    }
    return None;
  }

  /**
    `bubbleSortPaths`. Pass `i` bubbles the latest of `a[..n-i]` to position
    `n-i-1`, swapping neighbours only when the left one is strictly later,
    and the sort is abandoned at the first unreadable key. The array is the
    group's own storage, so the order it holds when the sort is abandoned is
    the order the group keeps. `BubbleSortSpec` states what this outcome is.
   */
  method BubbleSortPaths(key: TimeKey, a: array<string>) returns (err: Option<TimeError>)
    modifies a
    ensures SortOutcome(a[..], err) == BubbleSort(key, old(a[..]))
  {
    ghost var outcome := BubbleSort(key, a[..]);
    var n := a.Length;
    var i := 0;
    while i + 1 < n
      invariant i == 0 || i < n
      invariant SortFrom(key, a[..], i) == outcome
    {
      ghost var before := a[..];
      SortFromStep(key, before, i);
      err := BubblePass(key, a, n - i);
      if err.Some? {
        assert SortOutcome(a[..], err) == SortFrom(key, before, i);
        return;
      }
      assert SortFrom(key, a[..], i + 1) == SortFrom(key, before, i);
      i := i + 1;
    }
    SortFromDone(key, a[..], i);
    return None;
  }

  /** `s` with `p` inserted after every trailing member that is not strictly later than it. */
  function InsertByTime(key: TimeKey, s: seq<string>, p: string): (r: seq<string>)
    ensures |r| == |s| + 1
    ensures multiset(r) == multiset(s) + multiset{p}
  {
    if s == [] || !OutOfOrder(key, s[|s| - 1], p) then s + [p]
    else
      assert s == s[..|s| - 1] + [s[|s| - 1]];
      InsertByTime(key, s[..|s| - 1], p) + [s[|s| - 1]]
  }

  /** A reference stable sort: insertion of each path, in discovery order, into the sorted prefix. */
  function StableSort(key: TimeKey, s: seq<string>): (r: seq<string>)
    ensures |r| == |s|
    ensures multiset(r) == multiset(s)
  {
    if s == [] then []
    else
      assert s == s[..|s| - 1] + [s[|s| - 1]];
      InsertByTime(key, StableSort(key, s[..|s| - 1]), s[|s| - 1])
  }

  lemma StableSortShort(key: TimeKey, s: seq<string>)
    requires |s| < 2
    ensures StableSort(key, s) == s
  {
    if |s| == 1 {
      assert s[..0] == [];
    }
  }

  lemma {:induction false} InsertByTimeClasses(key: TimeKey, s: seq<string>, p: string, t: Time)
    ensures WithTime(key, InsertByTime(key, s, p), t) == WithTime(key, s + [p], t)
  {
    if s == [] || !OutOfOrder(key, s[|s| - 1], p) {
    } else {
      var init, last := s[..|s| - 1], s[|s| - 1];
      assert s == init + [last];
      InsertByTimeClasses(key, init, p, t);
      WithTimeAppend(key, InsertByTime(key, init, p), [last], t);
      WithTimeAppend(key, init + [p], [last], t);
      WithTimeAppend(key, init, [p], t);
      WithTimeAppend(key, init + [last], [p], t);
      WithTimeAppend(key, init, [last], t);
      assert [last][..0] == [] && [p][..0] == [];
      assert key(last) != key(p);
    }
  }

  /** Every path of `init` with `p` inserted is no later than `last`, when `init + [last]` is sorted and `last` is later than `p`. */
  lemma InsertedNotLater(key: TimeKey, init: seq<string>, last: string, p: string, q: string)
    requires Sorted(key, init + [last]) && OutOfOrder(key, last, p)
    requires q in multiset(InsertByTime(key, init, p))
    ensures !OutOfOrder(key, q, last)
  {
    if q != p {
      assert q in multiset(init);
      var k :| 0 <= k < |init| && init[k] == q;
      assert (init + [last])[k] == q && (init + [last])[|init|] == last;
    } else {
      AfterIsStrictTotalOrder(TimeOf(key, last), TimeOf(key, p), TimeOf(key, last));
    }
  }

  lemma {:induction false} InsertByTimeSorted(key: TimeKey, s: seq<string>, p: string)
    requires AllParse(key, s) && Parses(key, p) && Sorted(key, s)
    ensures Sorted(key, InsertByTime(key, s, p))
  {
    if s == [] {
    } else if !OutOfOrder(key, s[|s| - 1], p) {
      var r := s + [p];
      forall x | 0 <= x < |s| ensures !OutOfOrder(key, r[x], p) {
        NotAfterTransitive(TimeOf(key, s[x]), TimeOf(key, s[|s| - 1]), TimeOf(key, p));
      }
    } else {
      var init, last := s[..|s| - 1], s[|s| - 1];
      assert s == init + [last];
      assert AllParse(key, init) && Sorted(key, init) by {
        forall k | 0 <= k < |init| ensures Parses(key, init[k]) { assert init[k] == s[k]; }
      }
      InsertByTimeSorted(key, init, p);
      var head := InsertByTime(key, init, p);
      forall x | 0 <= x < |head| ensures !OutOfOrder(key, head[x], last) {
        InsertedNotLater(key, init, last, p, head[x]);
      }
      assert InsertByTime(key, s, p) == head + [last];
    }
  }

  /** The reference sort is sorted, stable and a permutation. */
  lemma {:induction false} StableSortIsSortedAndStable(key: TimeKey, s: seq<string>)
    requires AllParse(key, s)
    ensures Sorted(key, StableSort(key, s))
    ensures SameTimeClasses(key, StableSort(key, s), s)
  {
    if s != [] {
      var init, last := s[..|s| - 1], s[|s| - 1];
      assert s == init + [last];
      assert AllParse(key, init) by {
        forall k | 0 <= k < |init| ensures Parses(key, init[k]) { assert init[k] == s[k]; }
      }
      StableSortIsSortedAndStable(key, init);
      var sortedInit := StableSort(key, init);
      AllParsePermutation(key, sortedInit, init);
      InsertByTimeSorted(key, sortedInit, last);
      forall t ensures WithTime(key, StableSort(key, s), t) == WithTime(key, s, t) {
        InsertByTimeClasses(key, sortedInit, last, t);
        WithTimeAppend(key, sortedInit, [last], t);
        WithTimeAppend(key, init, [last], t);
      }
    }
  }

  /** The last members of two sorted sequences with the same time classes carry the same time, and are the same path. */
  lemma SameLast(key: TimeKey, s: seq<string>, u: seq<string>)
    requires s != [] && u != []
    requires AllParse(key, s) && AllParse(key, u)
    requires Sorted(key, s) && Sorted(key, u)
    requires SameTimeClasses(key, s, u)
    ensures s[|s| - 1] == u[|u| - 1]
  {
    var x, y := s[|s| - 1], u[|u| - 1];
    assert x in s && y in u;
    var tx, ty := TimeOf(key, x), TimeOf(key, y);
    WithTimeMembers(key, u, ty, y);
    WithTimeMembers(key, s, ty, y);
    var k :| 0 <= k < |s| && s[k] == y;
    assert !After(ty, tx) by {
      if k < |s| - 1 { assert !OutOfOrder(key, s[k], s[|s| - 1]); }
    }
    WithTimeMembers(key, s, tx, x);
    WithTimeMembers(key, u, tx, x);
    var m :| 0 <= m < |u| && u[m] == x;
    assert !After(tx, ty) by {
      if m < |u| - 1 { assert !OutOfOrder(key, u[m], u[|u| - 1]); }
    }
    AfterIsStrictTotalOrder(tx, ty, tx);
    assert tx == ty;
    var ws, wu := WithTime(key, s[..|s| - 1], tx), WithTime(key, u[..|u| - 1], tx);
    assert WithTime(key, s, tx) == ws + [x];
    assert WithTime(key, u, tx) == wu + [y];
    assert ws + [x] == wu + [y];
    assert (ws + [x])[|ws|] == x && (wu + [y])[|wu|] == y;
  }

  /** Removing the same last path from two sequences with the same time classes leaves the same time classes. */
  lemma DropLastKeepsClasses(key: TimeKey, s: seq<string>, u: seq<string>)
    requires s != [] && u != [] && s[|s| - 1] == u[|u| - 1]
    requires SameTimeClasses(key, s, u)
    ensures SameTimeClasses(key, s[..|s| - 1], u[..|u| - 1])
  {
    var s', u', x := s[..|s| - 1], u[..|u| - 1], s[|s| - 1];
    forall t ensures WithTime(key, s', t) == WithTime(key, u', t) {
      var ws, wu := WithTime(key, s', t), WithTime(key, u', t);
      var tail := if key(x) == Ok(t) then [x] else [];
      assert WithTime(key, s, t) == ws + tail;
      assert WithTime(key, u, t) == wu + tail;
      assert WithTime(key, s, t) == WithTime(key, u, t);
      if key(x) == Ok(t) {
        assert ws + [x] == wu + [x];
        assert ws == (ws + [x])[..|ws|];
        assert wu == (wu + [x])[..|wu|];
      }
    }
  }

  lemma DropLastSortedParsed(key: TimeKey, s: seq<string>)
    requires s != [] && AllParse(key, s) && Sorted(key, s)
    ensures AllParse(key, s[..|s| - 1]) && Sorted(key, s[..|s| - 1])
  {
    var init := s[..|s| - 1];
    forall k | 0 <= k < |init| ensures Parses(key, init[k]) { assert init[k] == s[k]; }
  }

  /**
    A group has only one arrangement that is both sorted by timestamp and
    stable with respect to a given order: two sorted sequences with the
    same time classes are equal.
   */
  lemma {:induction false} SortedStableUnique(key: TimeKey, s: seq<string>, u: seq<string>)
    requires AllParse(key, s) && AllParse(key, u)
    requires Sorted(key, s) && Sorted(key, u)
    requires SameTimeClasses(key, s, u)
    ensures s == u
    decreases |s|
  {
    if s == [] && u == [] {
    } else if s == [] || u == [] {
      var p := if s != [] then s[|s| - 1] else u[|u| - 1];
      assert p in s || p in u;
      var t := TimeOf(key, p);
      WithTimeMembers(key, s, t, p);
      WithTimeMembers(key, u, t, p);
    } else {
      SameLast(key, s, u);
      DropLastKeepsClasses(key, s, u);
      DropLastSortedParsed(key, s);
      DropLastSortedParsed(key, u);
      SortedStableUnique(key, s[..|s| - 1], u[..|u| - 1]);
      assert s == s[..|s| - 1] + [s[|s| - 1]];
      assert u == u[..|u| - 1] + [u[|u| - 1]];
    }
  }

  /** Any sorted, stable permutation of a readable group is the reference sort of it. */
  lemma SortedStableIsStableSort(key: TimeKey, r: seq<string>, s: seq<string>)
    requires AllParse(key, s) && multiset(r) == multiset(s)
    requires Sorted(key, r) && SameTimeClasses(key, r, s)
    ensures r == StableSort(key, s)
  {
    StableSortIsSortedAndStable(key, s);
    AllParsePermutation(key, StableSort(key, s), s);
    AllParsePermutation(key, r, s);
    SortedStableUnique(key, r, StableSort(key, s));
  }
}
