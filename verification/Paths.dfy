/**
  The Unix rules of Go's `path/filepath` that the program relies on:
  `Base` (the last element of a path), `Clean` and the two-argument `Join`.
  Paths are strings; '/' is the only separator and there are no volume names.
 */
module Paths {

  const Separator: char := '/'

  /** `p` with every trailing '/' removed. */
  function StripTrailingSlashes(p: string): (r: string)
    ensures |r| <= |p| && r == p[..|r|]
    ensures r == [] || r[|r| - 1] != Separator
    ensures forall i :: |r| <= i < |p| ==> p[i] == Separator
  {
    if p != [] && p[|p| - 1] == Separator then StripTrailingSlashes(p[..|p| - 1]) else p
  }

  /** The longest suffix of `p` that holds no '/'. */
  function LastElement(p: string): (r: string)
    ensures |r| <= |p| && forall i :: 0 <= i < |r| ==> r[i] == p[|p| - |r| + i]
    ensures Separator !in r
    ensures |r| < |p| ==> p[|p| - |r| - 1] == Separator
  {
    if p == [] || p[|p| - 1] == Separator then []
    else LastElement(p[..|p| - 1]) + [p[|p| - 1]]
  }

  /**
    Go's `filepath.Base`: "." for the empty path, "/" for a path made only of
    slashes, and otherwise the last element after trailing slashes are removed.
   */
  function Base(path: string): (r: string)
    ensures r != []
    ensures r == "/" || Separator !in r
    ensures path == [] ==> r == "."
  {
    if path == [] then "."
    else
      var e := LastElement(StripTrailingSlashes(path));
      if e == [] then "/" else e
  }

  /** Trailing slashes do not change the base name of a non-empty path. */
  lemma BaseTrailingSlash(p: string)
    requires p != []
    ensures Base(p + [Separator]) == Base(p)
  {
    assert (p + [Separator])[..|p|] == p;
  }

  /** A path made only of slashes has base name "/". */
  lemma BaseOfSlashes(p: string)
    requires p != [] && forall i :: 0 <= i < |p| ==> p[i] == Separator
    ensures Base(p) == "/"
  {
  }

  /** A file name proper: one path element, neither "." nor "..". */
  predicate IsProperName(name: string) {
    name != [] && Separator !in name && name != "." && name != ".."
  }

  /** The elements of `p` between separators, empty ones included (`"/a//b"` gives `["", "a", "", "b"]`). */
  function Split(p: string): (r: seq<string>)
    ensures |r| >= 1
    ensures forall k :: 0 <= k < |r| ==> Separator !in r[k]
  {
    if p == [] then [[]]
    else
      var init := Split(p[..|p| - 1]);
      if p[|p| - 1] == Separator then init + [[]]
      else init[..|init| - 1] + [init[|init| - 1] + [p[|p| - 1]]]
  }

  /** One step of lexical cleaning over a stack of kept elements. */
  function CleanStep(stack: seq<string>, e: string, rooted: bool): seq<string> {
    if e == [] || e == "." then stack
    else if e == ".." then
      if stack != [] && stack[|stack| - 1] != ".." then stack[..|stack| - 1]
      else if rooted then stack
      else stack + [".."]
    else stack + [e]
  }

  /** The kept elements after processing `elems` left to right. */
  function Resolve(elems: seq<string>, rooted: bool): seq<string> {
    if elems == [] then []
    else CleanStep(Resolve(elems[..|elems| - 1], rooted), elems[|elems| - 1], rooted)
  }

  /** The elements of `elems` separated by single slashes. */
  function JoinElements(elems: seq<string>): string {
    if elems == [] then []
    else if |elems| == 1 then elems[0]
    else JoinElements(elems[..|elems| - 1]) + [Separator] + elems[|elems| - 1]
  }

  /**
    Go's `filepath.Clean`: collapse repeated separators, drop "." elements,
    cancel each ".." against the element before it (dropping it at the root),
    and return "." for an empty result.
   */
  function Clean(p: string): (r: string)
    ensures r != []
  {
    if p == [] then "."
    else
      var rooted := p[0] == Separator;
      var body := JoinElements(Resolve(Split(p), rooted));
      var r := if rooted then [Separator] + body else body;
      if r == [] then "." else r
  }

  /** Go's two-argument `filepath.Join`: empty leading elements are skipped and the joined result is cleaned. */
  function Join(dir: string, name: string): (r: string)
    ensures dir == [] && name == [] ==> r == []
    ensures dir != [] || name != [] ==> r != []
  {
    if dir != [] then Clean(dir + [Separator] + name)
    else if name != [] then Clean(name)
    else []
  }

  lemma LastElementSnoc(q: string, c: char)
    requires c != Separator
    ensures LastElement(q + [c]) == LastElement(q) + [c]
  {
    assert (q + [c])[..|q|] == q;
  }

  lemma {:induction false} LastElementOfName(dir: string, name: string)
    requires Separator !in name
    requires dir == [] || dir[|dir| - 1] == Separator
    ensures LastElement(dir + name) == name
  {
    if name == [] {
      assert dir + name == dir;
    } else {
      var init, c := name[..|name| - 1], name[|name| - 1];
      assert Separator !in init && c != Separator by {
        assert name == init + [c];
      }
      LastElementOfName(dir, init);
      assert dir + name == (dir + init) + [c] by {
        assert name == init + [c];
      }
      LastElementSnoc(dir + init, c);
      assert init + [c] == name;
    }
  }

  /** A name placed after a directory prefix (or standing alone) is its own base name. */
  lemma BaseOfName(dir: string, name: string)
    requires name != [] && Separator !in name
    requires dir == [] || dir[|dir| - 1] == Separator
    ensures Base(dir + name) == name
  {
    assert (dir + name)[|dir + name| - 1] == name[|name| - 1];
    assert name[|name| - 1] in name;
    LastElementOfName(dir, name);
  }

  lemma {:induction false} SplitAppendName(p: string, name: string)
    requires Separator !in name
    ensures Split(p + [Separator] + name) == Split(p) + [name]
  {
    if name == [] {
      assert p + [Separator] + name == p + [Separator];
      assert (p + [Separator])[..|p|] == p;
    } else {
      var n := |name|;
      assert (p + [Separator] + name)[..|p| + n] == p + [Separator] + name[..n - 1];
      assert name[n - 1] in name;
      SplitAppendName(p, name[..n - 1]);
      assert name[..n - 1] + [name[n - 1]] == name;
    }
  }

  lemma {:induction false} SplitName(name: string)
    requires Separator !in name
    ensures Split(name) == [name]
  {
    if name != [] {
      var n := |name|;
      assert name[n - 1] in name;
      assert forall c :: c in name[..n - 1] ==> c in name;
      SplitName(name[..n - 1]);
      assert name[..n - 1] + [name[n - 1]] == name;
    }
  }

  lemma JoinElementsAppend(elems: seq<string>, name: string)
    ensures elems == [] ==> JoinElements(elems + [name]) == name
    ensures elems != [] ==> JoinElements(elems + [name]) == JoinElements(elems) + [Separator] + name
  {
    assert (elems + [name])[..|elems|] == elems;
  }

  lemma ResolveAppendName(elems: seq<string>, name: string, rooted: bool)
    requires IsProperName(name)
    ensures Resolve(elems + [name], rooted) == Resolve(elems, rooted) + [name]
  {
    assert (elems + [name])[..|elems|] == elems;
  }

  /** A list of elements ending in a proper name, joined and possibly rooted, has that name as its base. */
  lemma BaseOfJoined(stack: seq<string>, name: string, rooted: bool)
    requires IsProperName(name)
    ensures var body := JoinElements(stack + [name]);
      Base(if rooted then [Separator] + body else body) == name
  {
    JoinElementsAppend(stack, name);
    var body := JoinElements(stack + [name]);
    var lead: string := if rooted then [Separator] else [];
    if stack == [] {
      assert lead + body == lead + name;
      BaseOfName(lead, name);
    } else {
      var d := lead + JoinElements(stack) + [Separator];
      assert lead + body == d + name;
      BaseOfName(d, name);
    }
    assert (if rooted then [Separator] + body else body) == lead + body;
  }

  /** Cleaning a path that ends in a proper name keeps that name as its last element. */
  lemma CleanKeepsLastName(p: string, name: string)
    requires IsProperName(name)
    ensures Base(Clean(p + [Separator] + name)) == name
  {
    var q := p + [Separator] + name;
    var rooted := q[0] == Separator;
    SplitAppendName(p, name);
    ResolveAppendName(Split(p), name, rooted);
    BaseOfJoined(Resolve(Split(p), rooted), name, rooted);
  }

  /** `Join(dir, name)` for a proper file name ends in that name: only the base name survives the join. */
  lemma JoinKeepsName(dir: string, name: string)
    requires IsProperName(name)
    ensures Base(Join(dir, name)) == name
  {
    if dir != [] {
      CleanKeepsLastName(dir, name);
    } else {
      SplitName(name);
      assert Resolve([name], false) == [name];
      assert name[0] in name;
      BaseOfName([], name);
    }
  }
}
