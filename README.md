# Folder-crawler statistics collector, modelled in Dafny

The Folder-crawler scripts ask for a folder and compute four statistics for it and for
every directory below it: the number of files, their total bytes, the number of
subfolders, and the bytes of those subfolders. They then write the results to a
spreadsheet. There are two scripts, `scrupcolor.py` and `scrup4oneright.py`. Both have the
same collector (`get_folder_info`) and the same driver. They differ only in the sheet
layout.

This project models:

- **The filesystem and the walk** (`tree.dfy`, module `DirTree`). A directory is a value
  `Dir(name, files, children)`. `files` holds the sizes of the directory's regular files
  and `children` its subdirectories, both in listing order. `os.walk`'s top-down
  enumeration is `Walk`: a pre-order list of `Visit(path, dir)` pairs. Each child's path
  is built by `PathJoin`. The reference definitions (`SubtreeSum`, `ForestSum`,
  `LevelSum`) sum a per-directory measure over the tree itself. The lemmas connect them
  to sums taken along the walk.
- **The collector** (`collector.dfy`, module `Collector`). `GetFolderInfo` is the
  source's loop: four accumulators are updated while iterating over the walk, over each
  directory's files, and over its child directories. It is proved against the reference
  sums. The code walks the whole subtree, so every number is a subtree total:
  - `file_count` counts the files of every directory in the subtree;
  - `folder_size` sums their bytes;
  - `subfolder_count` counts every directory strictly below the root;
  - `subfolder_size` sums the direct bytes of every such directory.
- **The driver** (`CollectData`). It produces one collector result per walked directory,
  in walk order. It then builds a synthetic entry for the root (`MainFolderInfo`) from the
  root's own directory listing (one level), and puts that entry in front.
- **The two layouts**, over cells addressed as (row, column) (`sheet.dfy`, module
  `Sheet`).
  - `colorchart.dfy` (`ColorChart`) models the layout of `scrupcolor.py`, including the
    column-width loop.
  - `depthchart.dfy` (`DepthChart`) models the layout of `scrup4oneright.py`. That layout
    adds "Subfolder k" titles and spreads each path's pieces over the columns from 8 on.

Three points of the code shape what the numbers mean:

- `get_folder_info` iterates `os.walk(root)` (scrupcolor.py:16, scrup4oneright.py:14). So
  every figure it reports is a total over the whole subtree, not over one level.
- The synthetic root entry computes its `subfolder_size` with the same expression as its
  `folder_size` (scrupcolor.py:91 and 93, scrup4oneright.py:82 and 84). It therefore reports
  the root's own file bytes as subfolder bytes. `MainEntryAgainstCollector` and
  `MainEntryWithoutSubfolders` state the consequence.
- A `PermissionError` from any step ends the whole run at its single handler
  (scrupcolor.py:110, scrup4oneright.py:101). That path is not modelled (see below).

## Model

| member | source | states |
|---|---|---|
| `DirTree.PathJoin` | scrupcolor.py:23 | joining a name onto a directory path gives the path followed by the name. The separator is put between them exactly when the path is non-empty and does not already end with it; otherwise nothing is added |
| `DirTree.Walk` | scrupcolor.py:16 | the top-down enumeration of `os.walk`: the starting directory comes first, under the path it was given, and the walk holds more entries than the directory has children |
| `DirTree.WalkForest` | scrupcolor.py:83 | the walks of sibling directories in listing order, each under its joined path; they hold at least one entry per sibling |
| `DirTree.WalkSum` | scrupcolor.py:16 | summing any per-directory measure along the top-down walk gives the same total as summing it over the subtree, so the walk visits every directory of the subtree exactly once |
| `DirTree.WalkForestSum` | scrup4oneright.py:14 | the same for the walks of a list of sibling directories: the sum along them equals the sum over their subtrees |
| `DirTree.WalkLength` | scrupcolor.py:83 | the walk yields as many directories as the subtree holds, which is the number of proper descendants plus one |
| `DirTree.WalkTail` | scrupcolor.py:16 | the walk yields the starting directory first, under the path it was given; what follows covers exactly the children's subtrees |
| `DirTree.WalkStaysBelow` | scrup4oneright.py:14-16 | every path the walk yields begins with the path it started from |
| `DirTree.LevelOfSubtree` | scrupcolor.py:22-26 | adding up, over every directory of a subtree, a measure summed over that directory's immediate children gives the measure summed over all proper descendants |
| `DirTree.LevelOfForest` | scrup4oneright.py:20-24 | the forest form of the same identity, which the induction goes through |
| `DirTree.WalkChildCount` | scrupcolor.py:22-25 | adding up the child-directory counts of every walked directory gives the number of directories strictly below the root, which is the walk's length minus one |
| `DirTree.WalkChildBytes` | scrup4oneright.py:20-24 | adding up the children's direct bytes of every walked directory gives the direct bytes of every proper descendant, that is, of every walked directory after the first |
| `DirTree.SumOverAppend` | scrupcolor.py:16-19 | a sum taken along a walk splits over concatenated parts of it |
| `Collector.GetFolderInfo` | scrupcolor.py:10-34 | the returned folder is the root. `file_count` and `folder_size` are the number and the bytes of the files of the whole subtree. `subfolder_count` is the number of proper descendants, the walk length minus one. `subfolder_size` is the sum of the direct bytes of the walked directories after the root. `folder_size` = root's direct bytes + `subfolder_size`. A directory without children reports 0 and 0 for its subfolders |
| `Collector.MainEntryAgainstCollector` | scrupcolor.py:88-94 | the synthetic root entry against the collector's entry for the same root. Same folder. Its folder size is the collector's folder size minus the collector's subfolder size. It has no more files and no more subfolders than the collector's entry. Its subfolder size equals its own folder size |
| `Collector.MainFolderInfo` | scrupcolor.py:88-94 | the root entry from the root's own directory listing (one level): the root path, the number and bytes of its direct files, the number of its immediate child directories, and a subfolder size equal to its own folder size |
| `Collector.MainEntryWithoutSubfolders` | scrupcolor.py:88-94 | for every root that holds files but no directories, the collector's entry reports 0 subfolders and 0 subfolder bytes, while the root entry reports 0 subfolders and the root's own positive byte total as subfolder bytes |
| `Collector.CollectData` | scrupcolor.py:83-95 | the list has one entry more than the walk has directories. Entry 0 is the synthetic root entry, whose subfolder size equals its folder size. Entry i + 1 is the collector's result for the i-th walked directory, in walk order. The root path stands at both index 0 and index 1 |
| `ColorChart.FillSheet` | scrupcolor.py:43-59 | the sheet holds exactly rows 1 to the number of entries + 1 and columns 1 to 7. Row 1 holds the seven titles in order. Row i + 2 holds entry i: folder, file count, folder size, its megabyte figure, subfolder count, subfolder size and its megabyte figure |
| `ColorChart.ColumnWidths` | scrupcolor.py:62-72 | each column gets a width. The width is at least every string cell's length + 2, and it equals 2 + the length of some string cell in that column, or 2 when the column has none. Numbers and empty cells never count |
| `ColorChart.LongestFolder` | scrupcolor.py:65-68 | the longest folder path: no entry's path is longer, and some entry's path has exactly that length (0 when there are no entries) |
| `ColorChart.CreateChart` | scrupcolor.py:39-72 | the layout above. Column 1 is 2 wider than the longer of its title and the longest path. Every other column holds only numbers below its title, so it is exactly 2 wider than its title |
| `ColorChart.ColumnText` | scrupcolor.py:65-68 | the string length each cell of a column contributes: its title in row 1, the folder path in column 1 of a data row, and nothing for every other data cell |
| `DepthChart.Split` | scrup4oneright.py:61 | splitting a path on the separator gives one more piece than the path has separators, and no piece contains the separator |
| `DepthChart.JoinSplit` | scrup4oneright.py:61 | joining the pieces of a split with the separator gives back the path |
| `DepthChart.SplitJoin` | scrup4oneright.py:61 | splitting a join of at least one separator-free piece gives back the pieces |
| `DepthChart.SplitPrefix` | scrup4oneright.py:61 | a separator-free piece, followed by the separator and a rest, splits into that piece followed by the pieces of the rest |
| `DepthChart.MaxDepth` | scrup4oneright.py:49 | the greatest separator count: no entry's path has more separators, and some entry's path has exactly that many |
| `DepthChart.Occurrences` | scrup4oneright.py:49 | the number of separators in a path, as `str.count` gives it; it is never more than the path's length |
| `DepthChart.OccurrencesCounts` | scrup4oneright.py:49 | that count is the separator's multiplicity in the path, and it is 0 exactly when the separator does not occur |
| `DepthChart.Decimal` | scrup4oneright.py:51 | the level number written in the title is a non-empty string of decimal digits, without leading zeros, whose value is the number |
| `DepthChart.WriteTitles` | scrup4oneright.py:41-51 | row 1 holds exactly columns 1 to 7 + depth: the seven titles, then "Subfolder k" in column 7 + k for k = 1..depth. Nothing is written outside row 1 |
| `DepthChart.WriteRow` | scrup4oneright.py:53-63 | the row gets columns 1 to 6 with the entry's fixed values and piece k of its path in column 7 + k, and no other cell. Every other row is unchanged |
| `DepthChart.CreateChart` | scrup4oneright.py:37-63 | the whole sheet for a non-empty list of entries. Rows 1 to the number of entries + 1 only. Row 1 as `WriteTitles` writes it for the greatest depth. Row i + 2 as `WriteRow` writes it for entry i |
| `DepthChart.ColumnSevenEmpty` | scrup4oneright.py:47-59 | column 7 has its title in row 1 but no value in any data row |
| `DepthChart.DeepestPathOverflows` | scrup4oneright.py:49-63 | the title row has no cell in column 8 + greatest depth. Some entry of greatest depth has its last path piece written in exactly that column |
| `DepthChart.RowRebuildsPath` | scrup4oneright.py:61-63 | in every data row, the cells from column 8 on are strings. Joined with the separator, they give back the row's folder path |

The collector and the driver appear twice in the source, line for line the same. The
rows that cite `scrupcolor.py` lines 10-34 and 83-95 apply equally to `scrup4oneright.py`
lines 8-32 and 74-86, and the reverse.

## Left out

- Real filesystem calls (`os.walk`, `os.listdir`, `os.path.getsize`, `isdir`, `isfile`) are replaced by the tree value. The tree splits a listing into regular files and directories: the `isdir` and `isfile` tests become the choice of which part to iterate. `os.walk` also lists special files and broken links among its files; the model has none.
- `os.path.join` is modelled with the POSIX rule on a separator character passed as a parameter: no separator is added when the path is empty or already ends with one. Drive letters and the second Windows separator are not modelled. The absolute-component branch of `join` is not modelled either: a name the operating system lists never contains the separator, but the `Dir` type does not enforce this, and for such a name `PathJoin` simply appends it where `join` would restart from it.
- The code lists each directory many times, and four times for the root entry (scrupcolor.py:90-93). The model reads every listing from one unchanging tree, so fields taken from different listings are always consistent.
- Symbolic links are not modelled: `isdir` follows them while `os.walk` does not descend into them. Entries that vanish between listing and `getsize` are not modelled either.
- Errors are not modelled: the `PermissionError` raised by an unreadable directory and caught around the whole run, `os.walk` silently skipping unreadable directories, and `getsize` failures. They depend on the host operating system.
- The process pool (`ProcessPoolExecutor`, `submit`, `result`) is modelled as a sequential loop over the walk. Only its result list is kept.
- `bytes_to_mb` is floating-point division. Its result is the value `Megabytes(bytes)`, which keeps only the byte count.
- openpyxl is modelled by a map of cell values only. Not modelled: workbook creation, `PatternFill` styling, `freeze_panes`, `save`, and `get_column_letter` (widths are keyed by column number).
- `ColorChart.ColumnWidths` takes the sheet's row and column extent as parameters instead of reading `sheet.columns`. `ColorChart.CreateChart` passes the exact extent of the cells it wrote.
- `DepthChart.CreateChart` requires a non-empty list: `max` over no entries raises `ValueError`, and that path is not modelled. The driver always passes at least two entries.
- The outer shell is left out as I/O and process launching: `input`, `time.time`, `tempfile`, `print` and `subprocess.Popen`.
