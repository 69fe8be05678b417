/** Relative paths of the file manager: the empty string is the configured
    root, any other path is a '/'-separated chain of entry names below it. */
module Paths {

  /** A single directory-entry name: non-empty and without a separator. */
  predicate IsName(name: string) {
    name != "" && '/' !in name
  }

  /** The relative path of entry `name` inside the directory at `parent`,
      as the listing builds it for navigation, viewing and deletion: the bare
      name at the root, otherwise parent, one '/', then the name. */
  function ChildPath(parent: string, name: string): (r: string)
    ensures |r| == |parent| + |name| + (if parent == "" then 0 else 1)
    ensures r[..|parent|] == parent
    ensures r[|r| - |name|..] == name
    ensures parent != "" ==> r[|parent|] == '/'
  {
    if parent != "" then parent + "/" + name else name
  }

  /** Reference definition: the pieces of `s` between separators, as a
      string split on '/' would give them (always at least one piece). */
  function Split(s: string): (r: seq<string>)
    ensures |r| >= 1
    decreases |s|
  {
    if s == "" then [""]
    else
      var init := Split(s[..|s| - 1]);
      var c := s[|s| - 1];
      if c == '/' then init + [""]
      else init[..|init| - 1] + [init[|init| - 1] + [c]]
  }

  /** The entry names along a relative path; the root has none. */
  function Segments(path: string): seq<string> {
    if path == "" then [] else Split(path)
  }

  /** The relative path reached from the root by descending through `names`
      one child at a time. */
  function Join(names: seq<string>): string
    decreases |names|
  {
    if names == [] then ""
    else ChildPath(Join(names[..|names| - 1]), names[|names| - 1])
  }

  lemma {:induction false} SplitName(n: string)
    requires '/' !in n
    ensures Split(n) == [n]
    decreases |n|
  {
    if n != "" {
      var m := n[..|n| - 1];
      SplitName(m);
      assert m + [n[|n| - 1]] == n;
    }
  }

  lemma {:induction false} SplitAfterSeparator(p: string, n: string)
    requires '/' !in n
    ensures Split(p + "/" + n) == Split(p) + [n]
    decreases |n|
  {
    var s := p + "/" + n;
    if n == "" {
      assert s[..|s| - 1] == p;
    } else {
      var m := n[..|n| - 1];
      assert s[..|s| - 1] == p + "/" + m;
      SplitAfterSeparator(p, m);
      assert m + [n[|n| - 1]] == n;
    }
  }

  /** Composing a child path adds exactly that name to the path's segments. */
  lemma {:induction false} SegmentsOfChildPath(parent: string, name: string)
    requires IsName(name)
    ensures Segments(ChildPath(parent, name)) == Segments(parent) + [name]
  {
    if parent == "" {
      SplitName(name);
    } else {
      SplitAfterSeparator(parent, name);
    }
  }

  /** Descending from the root through names and splitting the resulting
      path gives the names back. */
  lemma {:induction false} SegmentsOfJoin(names: seq<string>)
    requires forall i :: 0 <= i < |names| ==> IsName(names[i])
    ensures Segments(Join(names)) == names
    decreases |names|
  {
    if names != [] {
      var init := names[..|names| - 1];
      SegmentsOfJoin(init);
      SegmentsOfChildPath(Join(init), names[|names| - 1]);
    }
  }
}
