/**
 * A worksheet reduced to the values in its cells. A cell is addressed by (row, column),
 * both counted from 1; a cell that was never written is absent from the map and reads as
 * empty.
 */
module Sheet {

  /** A cell value: a string, an integer, or the megabyte figure for a byte count. */
  datatype Value =
    | Text(s: string)
    | Number(n: int)
      // Stands for the floating-point quotient bytes / (1024 * 1024); only the byte
      // count it was computed from is kept.
    | Megabytes(bytes: int)

  type Cells = map<(int, int), Value>

  /** Titles of the seven fixed columns, in column order. */
  const Headers: seq<string> := [
    "Folder", "Number of Files", "Total Size (bytes)", "Total Size (MB)",
    "Number of Subfolders", "Subfolder Size (bytes)", "Subfolder Size (MB)"]

  /** Length of a cell's value when it is a string, and 0 for any other or an empty cell. */
  function TextLength(cells: Cells, row: int, col: int): nat
  {
    if (row, col) in cells && cells[(row, col)].Text? then |cells[(row, col)].s| else 0
  }
}
