/**
 * The filesystem as a finite tree of directories, and the top-down walk over it.
 *
 * A directory listing is split into its two parts: `files` holds the sizes (in bytes) of the
 * entries that are regular files, `children` the entries that are directories, both in
 * listing order. The walk yields every directory of a subtree in pre-order, each with the
 * path under which it is reached.
 */
module DirTree {

  datatype Dir = Dir(name: string, files: seq<nat>, children: seq<Dir>)

  /** One step of the walk: the path of a directory and the directory found there. */
  datatype Visit = Visit(path: string, dir: Dir)

  /** Sum of a sequence of sizes, accumulated left to right. */
  function Sum(s: seq<nat>): nat
  {
    if s == [] then 0 else Sum(s[..|s| - 1]) + s[|s| - 1]
  }

  /**
   * Appends a directory name to a path: no separator is inserted when the path is empty
   * or already ends with one.
   */
  function PathJoin(path: string, name: string, sep: char): (r: string)
    ensures path <= r && |r| >= |path| + |name|
    ensures r[|r| - |name|..] == name
    ensures |r| <= |path| + |name| + 1
    ensures r == path + name || r == path + [sep] + name
    ensures path != [] && path[|path| - 1] != sep ==> r == path + [sep] + name
    ensures path == [] || path[|path| - 1] == sep ==> r == path + name
  {
    if path == [] || path[|path| - 1] == sep then path + name else path + [sep] + name
  }

  /** The top-down walk: the directory itself first, then the walks of its children in order. */
  function Walk(path: string, d: Dir, sep: char): (r: seq<Visit>)
    ensures |r| > |d.children| && r[0] == Visit(path, d)
    decreases d, 1
  {
    [Visit(path, d)] + WalkForest(path, d.children, sep)
  }

  /** The walks of the directories `cs`, all of them children of the directory at `path`. */
  function WalkForest(path: string, cs: seq<Dir>, sep: char): (r: seq<Visit>)
    ensures |r| >= |cs|
    decreases cs, 0
  {
    if cs == [] then []
    else WalkForest(path, cs[..|cs| - 1], sep) + Walk(PathJoin(path, cs[|cs| - 1].name, sep), cs[|cs| - 1], sep)
  }

  // ---- Reference definitions: sums over the tree itself ----

  /** f summed over every directory of the subtree rooted at d, d included. */
  function SubtreeSum(d: Dir, f: Dir -> nat): nat
    decreases d, 1
  {
    f(d) + ForestSum(d.children, f)
  }

  /** f summed over every directory of the subtrees rooted at cs. */
  function ForestSum(cs: seq<Dir>, f: Dir -> nat): nat
    decreases cs, 0
  {
    if cs == [] then 0 else ForestSum(cs[..|cs| - 1], f) + SubtreeSum(cs[|cs| - 1], f)
  }

  /** f summed over the directories cs themselves, one level only. */
  function LevelSum(cs: seq<Dir>, f: Dir -> nat): nat
  {
    if cs == [] then 0 else LevelSum(cs[..|cs| - 1], f) + f(cs[|cs| - 1])
  }

  /** f summed over the directories of a sequence of visits, in order. */
  function SumOver(ws: seq<Visit>, f: Dir -> nat): nat
  {
    if ws == [] then 0 else SumOver(ws[..|ws| - 1], f) + f(ws[|ws| - 1].dir)
  }

  // Per-directory measures.
  function One(d: Dir): nat { 1 }
  function FileCount(d: Dir): nat { |d.files| }
  function DirectSize(d: Dir): nat { Sum(d.files) }
  function ChildCount(d: Dir): nat { |d.children| }
  /** Bytes held directly by the immediate children of d (their own files, one level deeper). */
  function ChildBytes(d: Dir): nat { LevelSum(d.children, DirectSize) }

  /** Number of files anywhere in the subtree. */
  function TotalFiles(d: Dir): nat { SubtreeSum(d, FileCount) }
  /** Bytes of all files anywhere in the subtree. */
  function TotalSize(d: Dir): nat { SubtreeSum(d, DirectSize) }
  /** Number of directories strictly below d. */
  function DescendantCount(d: Dir): nat { ForestSum(d.children, One) }
  /** Bytes held directly by the directories strictly below d. */
  function DescendantSize(d: Dir): nat { ForestSum(d.children, DirectSize) }

  // ---- Lemmas ----

  lemma {:induction false} SumOverAppend(a: seq<Visit>, b: seq<Visit>, f: Dir -> nat)
    ensures SumOver(a + b, f) == SumOver(a, f) + SumOver(b, f)
    decreases |b|
  {
    if b == [] {
      assert a + b == a;
    } else {
      assert (a + b)[..|a + b| - 1] == a + b[..|b| - 1];
      SumOverAppend(a, b[..|b| - 1], f);
    }
  }

  /** Summing f along the walk gives the same total as summing it over the tree. */
  lemma {:induction false} WalkSum(path: string, d: Dir, sep: char, f: Dir -> nat)
    ensures SumOver(Walk(path, d, sep), f) == SubtreeSum(d, f)
    decreases d, 1
  {
    var rest := WalkForest(path, d.children, sep);
    SumOverAppend([Visit(path, d)], rest, f);
    assert SumOver([Visit(path, d)], f) == f(d) by {
      assert [Visit(path, d)][..0] == [];
    }
    WalkForestSum(path, d.children, sep, f);
  }

  lemma {:induction false} WalkForestSum(path: string, cs: seq<Dir>, sep: char, f: Dir -> nat)
    ensures SumOver(WalkForest(path, cs, sep), f) == ForestSum(cs, f)
    decreases cs, 0
  {
    if cs != [] {
      var last := cs[|cs| - 1];
      var init := cs[..|cs| - 1];
      var child := PathJoin(path, last.name, sep);
      SumOverAppend(WalkForest(path, init, sep), Walk(child, last, sep), f);
      WalkForestSum(path, init, sep, f);
      WalkSum(child, last, sep, f);
    }
  }

  lemma {:induction false} SumOverOne(ws: seq<Visit>)
    ensures SumOver(ws, One) == |ws|
    decreases |ws|
  {
    if ws != [] {
      SumOverOne(ws[..|ws| - 1]);
    }
  }

  lemma {:induction false} LevelSumOne(cs: seq<Dir>)
    ensures LevelSum(cs, One) == |cs|
    decreases |cs|
  {
    if cs != [] {
      LevelSumOne(cs[..|cs| - 1]);
    }
  }

  /** The walk visits every directory of the subtree exactly once: root plus descendants. */
  lemma WalkLength(path: string, d: Dir, sep: char)
    ensures |Walk(path, d, sep)| == SubtreeSum(d, One) == DescendantCount(d) + 1
  {
    WalkSum(path, d, sep, One);
    SumOverOne(Walk(path, d, sep));
  }

  /** The walk after its first visit enumerates exactly the walks of the children. */
  lemma WalkTail(path: string, d: Dir, sep: char, f: Dir -> nat)
    ensures Walk(path, d, sep)[0] == Visit(path, d)
    ensures SumOver(Walk(path, d, sep)[1..], f) == ForestSum(d.children, f)
  {
    assert Walk(path, d, sep)[1..] == WalkForest(path, d.children, sep);
    WalkForestSum(path, d.children, sep, f);
  }

  /**
   * Summing, over every directory of a subtree, a per-directory sum of f over that
   * directory's immediate children gives f summed over the proper descendants: everyone
   * below the root is the child of exactly one directory in the subtree.
   */
  lemma {:induction false} LevelOfSubtree(d: Dir, f: Dir -> nat, g: Dir -> nat)
    requires forall x :: g(x) == LevelSum(x.children, f)
    ensures SubtreeSum(d, g) == ForestSum(d.children, f)
    decreases d, 1
  {
    LevelOfForest(d.children, f, g);
  }

  lemma {:induction false} LevelOfForest(cs: seq<Dir>, f: Dir -> nat, g: Dir -> nat)
    requires forall x :: g(x) == LevelSum(x.children, f)
    ensures ForestSum(cs, f) == LevelSum(cs, f) + ForestSum(cs, g)
    decreases cs, 0
  {
    if cs != [] {
      LevelOfForest(cs[..|cs| - 1], f, g);
      LevelOfSubtree(cs[|cs| - 1], f, g);
    }
  }

  /** Child-directory counts summed over the walk give the number of proper descendants. */
  lemma WalkChildCount(path: string, d: Dir, sep: char)
    ensures SumOver(Walk(path, d, sep), ChildCount) == DescendantCount(d) == |Walk(path, d, sep)| - 1
  {
    forall x | true ensures ChildCount(x) == LevelSum(x.children, One) {
      LevelSumOne(x.children);
    }
    WalkSum(path, d, sep, ChildCount);
    LevelOfSubtree(d, One, ChildCount);
    WalkLength(path, d, sep);
  }

  /** Child-level byte sums over the walk give the bytes of the walk's proper descendants. */
  lemma WalkChildBytes(path: string, d: Dir, sep: char)
    ensures SumOver(Walk(path, d, sep), ChildBytes) == DescendantSize(d)
    ensures DescendantSize(d) == SumOver(Walk(path, d, sep)[1..], DirectSize)
  {
    WalkSum(path, d, sep, ChildBytes);
    LevelOfSubtree(d, DirectSize, ChildBytes);
    WalkTail(path, d, sep, DirectSize);
  }

  /** Every path the walk yields extends the path it started from. */
  lemma {:induction false} WalkStaysBelow(path: string, d: Dir, sep: char)
    ensures forall k :: 0 <= k < |Walk(path, d, sep)| ==> path <= Walk(path, d, sep)[k].path
    decreases d, 1
  {
    WalkForestStaysBelow(path, d.children, sep);
  }

  lemma {:induction false} WalkForestStaysBelow(path: string, cs: seq<Dir>, sep: char)
    ensures forall k :: 0 <= k < |WalkForest(path, cs, sep)| ==> path <= WalkForest(path, cs, sep)[k].path
    decreases cs, 0
  {
    if cs != [] {
      var last := cs[|cs| - 1];
      var child := PathJoin(path, last.name, sep);
      var front: seq<Visit> := WalkForest(path, cs[..|cs| - 1], sep);
      var back: seq<Visit> := Walk(child, last, sep);
      WalkForestStaysBelow(path, cs[..|cs| - 1], sep);
      WalkStaysBelow(child, last, sep);
      forall k | 0 <= k < |front + back| ensures path <= (front + back)[k].path {
        if k >= |front| {
          assert child <= back[k - |front|].path;
        }
      }
    }
  }
}
