/**
 * The directory-statistics collector and the driver that assembles the result list.
 *
 * The collector walks the whole subtree of the directory it is given, so every number it
 * reports is taken over that subtree: files and bytes of every directory in it, and the
 * child directories (with their direct bytes) of every directory in it.
 */
module Collector {
  import opened DirTree

  /** One row of the report: the statistics for one folder path. */
  datatype FolderInfo = FolderInfo(
    folder: string,
    fileCount: nat,
    folderSize: nat,
    subfolderCount: nat,
    subfolderSize: nat)

  /** info is what the collector promises for the directory d reached at path. */
  ghost predicate Describes(info: FolderInfo, path: string, d: Dir)
  {
    && info.folder == path
    && info.fileCount == TotalFiles(d)
    && info.folderSize == TotalSize(d)
    && info.subfolderCount == DescendantCount(d)
    && info.subfolderSize == DescendantSize(d)
  }

  /**
   * Walks the tree below root and accumulates four counters: one per file and its size for
   * every walked directory, one per child directory and that child's direct bytes.
   */
  method GetFolderInfo(root: string, d: Dir, sep: char) returns (info: FolderInfo)
    ensures Describes(info, root, d)
    ensures info.subfolderCount == |Walk(root, d, sep)| - 1
    ensures info.subfolderSize == SumOver(Walk(root, d, sep)[1..], DirectSize)
    ensures info.folderSize == DirectSize(d) + info.subfolderSize
    ensures d.children == [] ==> info.subfolderCount == 0 && info.subfolderSize == 0
  {
    var folderSize: nat, fileCount: nat, subfolderSize: nat, subfolderCount: nat := 0, 0, 0, 0;
    var walk := Walk(root, d, sep);
    var i := 0;
    while i < |walk|
      invariant 0 <= i <= |walk|
      invariant fileCount == SumOver(walk[..i], FileCount)
      invariant folderSize == SumOver(walk[..i], DirectSize)
      invariant subfolderCount == SumOver(walk[..i], ChildCount)
      invariant subfolderSize == SumOver(walk[..i], ChildBytes)
    {
      var here := walk[i].dir;
      var j := 0;
      while j < |here.files|
        invariant 0 <= j <= |here.files|
        invariant fileCount == SumOver(walk[..i], FileCount) + j
        invariant folderSize == SumOver(walk[..i], DirectSize) + Sum(here.files[..j])
      {
        assert here.files[..j + 1][..j] == here.files[..j];
        folderSize := folderSize + here.files[j];
        fileCount := fileCount + 1;
        j := j + 1;
      }
      assert here.files[..j] == here.files;
      var k := 0;
      while k < |here.children|
        invariant 0 <= k <= |here.children|
        invariant subfolderCount == SumOver(walk[..i], ChildCount) + k
        invariant subfolderSize == SumOver(walk[..i], ChildBytes) + LevelSum(here.children[..k], DirectSize)
      {
        assert here.children[..k + 1][..k] == here.children[..k];
        subfolderCount := subfolderCount + 1;
        subfolderSize := subfolderSize + Sum(here.children[k].files);
        k := k + 1;
      }
      assert here.children[..k] == here.children;
      assert walk[..i + 1][..i] == walk[..i];
      i := i + 1;
    }
    assert walk[..i] == walk;
    WalkSum(root, d, sep, FileCount);
    WalkSum(root, d, sep, DirectSize);
    WalkChildCount(root, d, sep);
    WalkChildBytes(root, d, sep);
    info := FolderInfo(root, fileCount, folderSize, subfolderCount, subfolderSize);
  }

  /**
   * The entry the driver builds for the root itself, from the root's own directory listing
   * (one level): its direct files and bytes and its direct child directories. Its subfolder size is
   * computed by the same expression as its folder size.
   */
  function MainFolderInfo(root: string, d: Dir): (r: FolderInfo)
    ensures r.folder == root
    ensures r.fileCount == FileCount(d) && r.folderSize == DirectSize(d)
    ensures r.subfolderCount == LevelSum(d.children, One)
    ensures r.subfolderSize == r.folderSize
  {
    LevelSumOne(d.children);
    FolderInfo(root, |d.files|, Sum(d.files), |d.children|, Sum(d.files))
  }

  /**
   * The synthetic root entry against the entry the collector produces for the same root:
   * it reports one level where the collector reports the subtree, and its subfolder size
   * repeats its folder size instead of counting the children's bytes.
   */
  lemma MainEntryAgainstCollector(root: string, d: Dir, info: FolderInfo)
    requires Describes(info, root, d)
    ensures MainFolderInfo(root, d).folder == info.folder
    ensures MainFolderInfo(root, d).folderSize + info.subfolderSize == info.folderSize
    ensures MainFolderInfo(root, d).fileCount <= info.fileCount
    ensures MainFolderInfo(root, d).subfolderCount <= info.subfolderCount
    ensures MainFolderInfo(root, d).subfolderSize == MainFolderInfo(root, d).folderSize
    ensures MainFolderInfo(root, d).subfolderSize == info.folderSize - info.subfolderSize
  {
    assert LevelSum(d.children, One) <= ForestSum(d.children, One) by {
      LevelBelowForest(d.children, One);
    }
    LevelSumOne(d.children);
  }

  lemma {:induction false} LevelBelowForest(cs: seq<Dir>, f: Dir -> nat)
    ensures LevelSum(cs, f) <= ForestSum(cs, f)
    decreases |cs|
  {
    if cs != [] {
      LevelBelowForest(cs[..|cs| - 1], f);
    }
  }

  /**
   * A root with files but without subdirectories: the collector reports no subfolder bytes,
   * while the root entry reports the root's own bytes as subfolder bytes.
   */
  lemma MainEntryWithoutSubfolders(root: string, d: Dir, info: FolderInfo)
    requires Describes(info, root, d)
    requires d.children == [] && Sum(d.files) > 0
    ensures info.subfolderCount == 0 && info.subfolderSize == 0
    ensures MainFolderInfo(root, d).subfolderCount == 0
    ensures MainFolderInfo(root, d).subfolderSize == Sum(d.files) > 0
  {
  }

  /**
   * The driver: one collector result per walked directory, in walk order, and the
   * synthetic root entry inserted in front. The collector runs once per walked path;
   * the pool that runs them in parallel is modelled as a sequential loop.
   */
  method CollectData(root: string, d: Dir, sep: char) returns (data: seq<FolderInfo>)
    ensures |data| == |Walk(root, d, sep)| + 1 == DescendantCount(d) + 2
    ensures data[0] == MainFolderInfo(root, d)
    ensures forall i :: 0 <= i < |Walk(root, d, sep)| ==>
              Describes(data[i + 1], Walk(root, d, sep)[i].path, Walk(root, d, sep)[i].dir)
    ensures data[0].folder == root && data[1].folder == root
    ensures data[0].subfolderSize == data[0].folderSize
  {
    var walk := Walk(root, d, sep);
    data := [];
    var i := 0;
    while i < |walk|
      invariant 0 <= i <= |walk|
      invariant |data| == i
      invariant forall n :: 0 <= n < i ==> Describes(data[n], walk[n].path, walk[n].dir)
    {
      var info := GetFolderInfo(walk[i].path, walk[i].dir, sep);
      data := data + [info];
      i := i + 1;
    }
    var main := MainFolderInfo(root, d);
    data := [main] + data;
    WalkLength(root, d, sep);
  }
}
