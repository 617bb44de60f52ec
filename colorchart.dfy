/**
 * The report layout of the colour variant: a header row of seven titles, one row per
 * statistics entry, and every column widened to fit its longest string.
 */
module ColorChart {
  import opened Sheet
  import opened Collector

  /** The value a data row holds in column col (1 to 7). */
  function RowValue(info: FolderInfo, col: int): Value
    requires 1 <= col <= 7
  {
    match col
    case 1 => Text(info.folder)
    case 2 => Number(info.fileCount)
    case 3 => Number(info.folderSize)
    case 4 => Megabytes(info.folderSize)
    case 5 => Number(info.subfolderCount)
    case 6 => Number(info.subfolderSize)
    case _ => Megabytes(info.subfolderSize)
  }

  /** The cells of the sheet: exactly the header row and one seven-column row per entry. */
  ghost predicate Layout(cells: Cells, data: seq<FolderInfo>)
  {
    && (forall r, c :: (r, c) in cells <==> 1 <= r <= |data| + 1 && 1 <= c <= 7)
    && (forall c :: 1 <= c <= 7 ==> (1, c) in cells && cells[(1, c)] == Text(Headers[c - 1]))
    && (forall r, c :: 2 <= r <= |data| + 1 && 1 <= c <= 7 ==> cells[(r, c)] == RowValue(data[r - 2], c))
  }

  /** Writes the header row and then entry i of data into row i + 2. */
  method FillSheet(data: seq<FolderInfo>) returns (cells: Cells)
    ensures Layout(cells, data)
  {
    cells := map[];
    var col := 1;
    while col <= 7
      invariant 1 <= col <= 8
      invariant forall r, c :: (r, c) in cells <==> r == 1 && 1 <= c < col
      invariant forall c :: 1 <= c < col ==> cells[(1, c)] == Text(Headers[c - 1])
    {
      cells := cells[(1, col) := Text(Headers[col - 1])];
      col := col + 1;
    }
    var i := 0;
    while i < |data|
      invariant 0 <= i <= |data|
      invariant forall r, c :: (r, c) in cells <==> 1 <= r <= i + 1 && 1 <= c <= 7
      invariant forall c :: 1 <= c <= 7 ==> cells[(1, c)] == Text(Headers[c - 1])
      invariant forall r, c :: 2 <= r < i + 2 && 1 <= c <= 7 ==> cells[(r, c)] == RowValue(data[r - 2], c)
    {
      var row, info := i + 2, data[i];
      cells := cells[(row, 1) := Text(info.folder)];
      cells := cells[(row, 2) := Number(info.fileCount)];
      cells := cells[(row, 3) := Number(info.folderSize)];
      cells := cells[(row, 4) := Megabytes(info.folderSize)];
      cells := cells[(row, 5) := Number(info.subfolderCount)];
      cells := cells[(row, 6) := Number(info.subfolderSize)];
      cells := cells[(row, 7) := Megabytes(info.subfolderSize)];
      i := i + 1;
    }
  }

  /**
   * Gives each of the columns 1..cols the width 2 + the length of its longest string cell
   * over rows 1..rows. Only strings take part: for a number or an empty cell, len() of the
   * value raises, and the exception is swallowed, so the running maximum stays as it was.
   */
  method ColumnWidths(cells: Cells, rows: nat, cols: nat) returns (widths: map<int, nat>)
    ensures forall c :: c in widths <==> 1 <= c <= cols
    ensures forall c, r :: 1 <= c <= cols && 1 <= r <= rows ==> TextLength(cells, r, c) + 2 <= widths[c]
    ensures forall c :: 1 <= c <= cols ==>
              widths[c] == 2 || exists r :: 1 <= r <= rows && TextLength(cells, r, c) + 2 == widths[c]
  {
    widths := map[];
    var col := 1;
    while col <= cols
      invariant 1 <= col <= cols + 1
      invariant forall c :: c in widths <==> 1 <= c < col
      invariant forall c, r :: 1 <= c < col && 1 <= r <= rows ==> TextLength(cells, r, c) + 2 <= widths[c]
      invariant forall c :: 1 <= c < col ==>
                  widths[c] == 2 || exists r :: 1 <= r <= rows && TextLength(cells, r, c) + 2 == widths[c]
    {
      var maxLength := 0;
      var row := 1;
      while row <= rows
        invariant 1 <= row <= rows + 1
        invariant forall r :: 1 <= r < row ==> TextLength(cells, r, col) <= maxLength
        invariant maxLength == 0 || exists r :: 1 <= r < row && TextLength(cells, r, col) == maxLength
      {
        // For a string, the length of its str() is its own length. len() raises on any
        // non-string value, whether or not the comparison succeeded, so only strings can
        // raise the maximum.
        if (row, col) in cells && cells[(row, col)].Text? {
          var length := |cells[(row, col)].s|;
          if length > maxLength {
            maxLength := length;
            assert TextLength(cells, row, col) == maxLength;
          }
        }
        row := row + 1;
      }
      widths := widths[col := maxLength + 2];
      col := col + 1;
    }
  }

  /** Length of the longest folder path among the entries (0 for no entries). */
  function LongestFolder(data: seq<FolderInfo>): (m: nat)
    ensures forall i :: 0 <= i < |data| ==> |data[i].folder| <= m
    ensures m == 0 || exists i :: 0 <= i < |data| && |data[i].folder| == m
  {
    if data == [] then 0
    else
      var rest := LongestFolder(data[..|data| - 1]);
      var last := |data[|data| - 1].folder|;
      if last > rest then last else rest
  }

  function Max(a: nat, b: nat): nat { if a < b then b else a }

  /**
   * The whole sheet: its cells and the column widths. The first column is as wide as
   * its title or the longest path, whichever is longer; every other column holds only
   * numbers below its title, so its width is fixed by the title alone.
   */
  method CreateChart(data: seq<FolderInfo>) returns (cells: Cells, widths: map<int, nat>)
    ensures Layout(cells, data)
    ensures forall c :: c in widths <==> 1 <= c <= 7
    ensures widths[1] == 2 + Max(|Headers[0]|, LongestFolder(data))
    ensures forall c :: 2 <= c <= 7 ==> widths[c] == 2 + |Headers[c - 1]|
  {
    cells := FillSheet(data);
    widths := ColumnWidths(cells, |data| + 1, 7);
    ColumnText(cells, data, 1);
    FirstColumnWidth(cells, data, widths[1]);
    forall c | 2 <= c <= 7 ensures widths[c] == 2 + |Headers[c - 1]| {
      ColumnText(cells, data, c);
    }
  }

  /** The strings of column c: its title in row 1, and in the data rows whatever RowValue puts there. */
  lemma ColumnText(cells: Cells, data: seq<FolderInfo>, c: int)
    requires Layout(cells, data)
    requires 1 <= c <= 7
    ensures TextLength(cells, 1, c) == |Headers[c - 1]|
    ensures forall r :: 2 <= r <= |data| + 1 ==>
              TextLength(cells, r, c) == if c == 1 then |data[r - 2].folder| else 0
  {
  }

  lemma FirstColumnWidth(cells: Cells, data: seq<FolderInfo>, w: nat)
    requires TextLength(cells, 1, 1) == |Headers[0]|
    requires forall r :: 2 <= r <= |data| + 1 ==> TextLength(cells, r, 1) == |data[r - 2].folder|
    requires forall r :: 1 <= r <= |data| + 1 ==> TextLength(cells, r, 1) + 2 <= w
    requires w == 2 || exists r :: 1 <= r <= |data| + 1 && TextLength(cells, r, 1) + 2 == w
    ensures w == 2 + Max(|Headers[0]|, LongestFolder(data))
  {
    var m := LongestFolder(data);
    if m > 0 {
      var i :| 0 <= i < |data| && |data[i].folder| == m;
      assert TextLength(cells, i + 2, 1) + 2 <= w;
    }
    var r :| 1 <= r <= |data| + 1 && TextLength(cells, r, 1) + 2 == w;
    if r >= 2 {
      assert |data[r - 2].folder| <= m;
    }
  }
}
