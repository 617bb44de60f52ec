/**
 * The report layout of the path-column variant: seven titled columns, then one column per
 * path level. Row 1 titles the levels "Subfolder 1" .. "Subfolder D", where D is the
 * largest number of separators in any reported path; each data row spreads the components
 * of its path over the columns from 8 on.
 */
module DepthChart {
  import opened Sheet
  import opened Collector

  /** Number of occurrences of sep in s. */
  function Occurrences(s: string, sep: char): (r: nat)
    ensures r <= |s|
  {
    if s == [] then 0 else (if s[0] == sep then 1 else 0) + Occurrences(s[1..], sep)
  }

  /** The count is the separator's multiplicity in s, so it is 0 exactly when sep is absent. */
  lemma {:induction false} OccurrencesCounts(s: string, sep: char)
    ensures Occurrences(s, sep) == multiset(s)[sep]
    ensures Occurrences(s, sep) == 0 <==> sep !in s
  {
    if s != [] {
      assert s == [s[0]] + s[1..];
      OccurrencesCounts(s[1..], sep);
    }
  }

  /**
   * The pieces of s between occurrences of sep, empty pieces kept: one more piece than
   * there are separators, and none of them contains the separator.
   */
  function Split(s: string, sep: char): (parts: seq<string>)
    ensures |parts| == Occurrences(s, sep) + 1
    ensures forall k :: 0 <= k < |parts| ==> sep !in parts[k]
  {
    if s == [] then [[]]
    else
      var rest := Split(s[1..], sep);
      if s[0] == sep then [[]] + rest else [[s[0]] + rest[0]] + rest[1..]
  }

  /** The pieces, with sep between each two neighbours. */
  function JoinWith(parts: seq<string>, sep: char): string
  {
    if parts == [] then []
    else if |parts| == 1 then parts[0]
    else parts[0] + [sep] + JoinWith(parts[1..], sep)
  }

  /** Joining the pieces of a split gives back the string. */
  lemma {:induction false} JoinSplit(s: string, sep: char)
    ensures JoinWith(Split(s, sep), sep) == s
  {
    if s != [] {
      var rest := Split(s[1..], sep);
      JoinSplit(s[1..], sep);
      if s[0] != sep {
        if |rest| == 1 {
          assert rest == [rest[0]];
        } else {
          assert rest[1..][1..] == rest[2..];
          assert JoinWith(rest, sep) == rest[0] + [sep] + JoinWith(rest[1..], sep);
          var parts := [[s[0]] + rest[0]] + rest[1..];
          assert parts[0] == [s[0]] + rest[0] && parts[1..] == rest[1..];
        }
      }
    }
  }

  /** Splitting a join of separator-free pieces gives back the pieces. */
  lemma {:induction false} SplitJoin(parts: seq<string>, sep: char)
    requires |parts| > 0
    requires forall k :: 0 <= k < |parts| ==> sep !in parts[k]
    ensures Split(JoinWith(parts, sep), sep) == parts
    decreases |parts|, |parts[0]|
  {
    if |parts| == 1 {
      SplitPiece(parts[0], sep);
    } else {
      var p := parts[0];
      SplitJoin(parts[1..], sep);
      SplitPrefix(p, JoinWith(parts[1..], sep), sep);
    }
  }

  /** A separator-free string splits into itself. */
  lemma {:induction false} SplitPiece(p: string, sep: char)
    requires sep !in p
    ensures Split(p, sep) == [p]
  {
    if p != [] {
      assert sep !in p[1..] && p[0] != sep by {
        assert forall x :: x in p[1..] ==> x in p;
      }
      SplitPiece(p[1..], sep);
      assert [p[0]] + p[1..] == p;
    }
  }

  /** Splitting p + sep + t, for a separator-free p, puts p in front of the split of t. */
  lemma {:induction false} SplitPrefix(p: string, t: string, sep: char)
    requires sep !in p
    ensures Split(p + [sep] + t, sep) == [p] + Split(t, sep)
  {
    if p == [] {
      assert [] + [sep] + t == [sep] + t;
      assert ([sep] + t)[1..] == t;
    } else {
      assert (p + [sep] + t)[1..] == p[1..] + [sep] + t;
      SplitPrefix(p[1..], t, sep);
      assert [p[0]] + p[1..] == p;
    }
  }

  /** The largest separator count over the entries' paths. */
  function MaxDepth(data: seq<FolderInfo>, sep: char): (m: nat)
    requires |data| > 0
    ensures forall i :: 0 <= i < |data| ==> Occurrences(data[i].folder, sep) <= m
    ensures exists i :: 0 <= i < |data| && Occurrences(data[i].folder, sep) == m
  {
    var last := Occurrences(data[|data| - 1].folder, sep);
    if |data| == 1 then last
    else
      var rest := MaxDepth(data[..|data| - 1], sep);
      if last > rest then last else rest
  }

  /** Value of a string of decimal digits. */
  function DigitsValue(s: string): nat
  {
    if s == [] then 0
    else DigitsValue(s[..|s| - 1]) * 10 + if '0' <= s[|s| - 1] <= '9' then (s[|s| - 1] - '0') as nat else 0
  }

  /** The decimal form of n, as an f-string renders an int. */
  function Decimal(n: nat): (r: string)
    ensures |r| > 0
    ensures forall k :: 0 <= k < |r| ==> '0' <= r[k] <= '9'
    ensures DigitsValue(r) == n
    ensures r[0] == '0' ==> r == "0"
  {
    var digit := ['0' + (n % 10) as char];
    if n < 10 then digit else Decimal(n / 10) + digit
  }

  /** The value an entry's row holds in fixed column col (1 to 6); column 7 is not written. */
  function RowValue(info: FolderInfo, col: int): Value
    requires 1 <= col <= 6
  {
    match col
    case 1 => Text(info.folder)
    case 2 => Number(info.fileCount)
    case 3 => Number(info.folderSize)
    case 4 => Megabytes(info.folderSize)
    case 5 => Number(info.subfolderCount)
    case _ => Number(info.subfolderSize)
  }

  /** The cells of row r that hold a data entry whose path splits into n pieces. */
  predicate RowColumn(c: int, n: nat)
  {
    1 <= c <= 6 || 8 <= c <= 7 + n
  }

  /** Row 1: the seven fixed titles, then "Subfolder k" in column 7 + k for k = 1..depth, and nothing else. */
  ghost predicate TitleRow(cells: Cells, depth: nat)
  {
    && (forall c :: (1, c) in cells <==> 1 <= c <= 7 + depth)
    && (forall c :: 1 <= c <= 7 ==> cells[(1, c)] == Text(Headers[c - 1]))
    && (forall k :: 1 <= k <= depth ==> cells[(1, 7 + k)] == Text("Subfolder " + Decimal(k)))
  }

  /** Row r for entry info: the six fixed columns, and piece k of its path (from 1) in column 7 + k. */
  ghost predicate DataRow(cells: Cells, r: int, info: FolderInfo, sep: char)
  {
    var parts := Split(info.folder, sep);
    && (forall c :: (r, c) in cells <==> RowColumn(c, |parts|))
    && (forall c :: 1 <= c <= 6 ==> cells[(r, c)] == RowValue(info, c))
    && (forall c :: 8 <= c <= 7 + |parts| ==> cells[(r, c)] == Text(parts[c - 8]))
  }

  /** The complete sheet for a non-empty list of entries. */
  ghost predicate Layout(cells: Cells, data: seq<FolderInfo>, sep: char)
    requires |data| > 0
  {
    && (forall r, c :: (r, c) in cells ==> 1 <= r <= |data| + 1)
    && TitleRow(cells, MaxDepth(data, sep))
    && (forall i :: 0 <= i < |data| ==> DataRow(cells, i + 2, data[i], sep))
  }

  /**
   * Writes one data row: the six fixed columns, then piece k of the path (from 1) in
   * column 7 + k. Nothing outside the row changes.
   */
  method WriteRow(cells: Cells, row: int, info: FolderInfo, sep: char) returns (out: Cells)
    requires forall c :: (row, c) !in cells
    ensures forall r, c :: r != row ==> ((r, c) in out <==> (r, c) in cells)
    ensures forall r, c :: r != row && (r, c) in cells ==> out[(r, c)] == cells[(r, c)]
    ensures DataRow(out, row, info, sep)
  {
    out := cells;
    out := out[(row, 1) := Text(info.folder)];
    out := out[(row, 2) := Number(info.fileCount)];
    out := out[(row, 3) := Number(info.folderSize)];
    out := out[(row, 4) := Megabytes(info.folderSize)];
    out := out[(row, 5) := Number(info.subfolderCount)];
    out := out[(row, 6) := Number(info.subfolderSize)];
    var parts := Split(info.folder, sep);
    var level := 1;
    while level <= |parts|
      invariant 1 <= level <= |parts| + 1
      invariant forall r, c :: r != row ==> ((r, c) in out <==> (r, c) in cells)
      invariant forall r, c :: r != row && (r, c) in cells ==> out[(r, c)] == cells[(r, c)]
      invariant forall c :: (row, c) in out <==> RowColumn(c, level - 1)
      invariant forall c :: 1 <= c <= 6 ==> out[(row, c)] == RowValue(info, c)
      invariant forall c :: 8 <= c < 7 + level ==> out[(row, c)] == Text(parts[c - 8])
    {
      out := out[(row, 7 + level) := Text(parts[level - 1])];
      level := level + 1;
    }
  }

  /** Row 1: the seven fixed titles, then "Subfolder k" in column 7 + k for k = 1..depth. */
  method WriteTitles(depth: nat) returns (cells: Cells)
    ensures forall r, c :: (r, c) in cells ==> r == 1
    ensures TitleRow(cells, depth)
  {
    cells := map[];
    cells := cells[(1, 1) := Text(Headers[0])];
    cells := cells[(1, 2) := Text(Headers[1])];
    cells := cells[(1, 3) := Text(Headers[2])];
    cells := cells[(1, 4) := Text(Headers[3])];
    cells := cells[(1, 5) := Text(Headers[4])];
    cells := cells[(1, 6) := Text(Headers[5])];
    cells := cells[(1, 7) := Text(Headers[6])];
    var level := 1;
    while level <= depth
      invariant 1 <= level <= depth + 1
      invariant forall r, c :: (r, c) in cells ==> r == 1
      invariant forall c :: (1, c) in cells <==> 1 <= c < 7 + level
      invariant forall c :: 1 <= c <= 7 ==> cells[(1, c)] == Text(Headers[c - 1])
      invariant forall k :: 1 <= k < level ==> cells[(1, 7 + k)] == Text("Subfolder " + Decimal(k))
    {
      cells := cells[(1, 7 + level) := Text("Subfolder " + Decimal(level))];
      level := level + 1;
    }
    assert level == depth + 1;
  }

  /** The titles for the greatest depth among the entries, then entry i in row i + 2. */
  method CreateChart(data: seq<FolderInfo>, sep: char) returns (cells: Cells)
    requires |data| > 0
    ensures Layout(cells, data, sep)
  {
    var depth := MaxDepth(data, sep);
    cells := WriteTitles(depth);
    var i := 0;
    while i < |data|
      invariant 0 <= i <= |data|
      invariant forall r, c :: (r, c) in cells ==> 1 <= r < i + 2
      invariant TitleRow(cells, depth)
      invariant forall n :: 0 <= n < i ==> DataRow(cells, n + 2, data[n], sep)
    {
      ghost var before := cells;
      cells := WriteRow(cells, i + 2, data[i], sep);
      KeepTitleRow(before, cells, i + 2, depth);
      forall n | 0 <= n < i ensures DataRow(cells, n + 2, data[n], sep) {
        KeepDataRow(before, cells, i + 2, n + 2, data[n], sep);
      }
      i := i + 1;
    }
  }

  /** Writing row r leaves the title row as it was. */
  lemma KeepTitleRow(before: Cells, after: Cells, r: int, depth: nat)
    requires r != 1 && TitleRow(before, depth)
    requires forall q, c :: q != r ==> ((q, c) in after <==> (q, c) in before)
    requires forall q, c :: q != r && (q, c) in before ==> after[(q, c)] == before[(q, c)]
    ensures TitleRow(after, depth)
  {
  }

  /** Writing row r leaves every other data row as it was. */
  lemma KeepDataRow(before: Cells, after: Cells, r: int, q: int, info: FolderInfo, sep: char)
    requires q != r && DataRow(before, q, info, sep)
    requires forall p, c :: p != r ==> ((p, c) in after <==> (p, c) in before)
    requires forall p, c :: p != r && (p, c) in before ==> after[(p, c)] == before[(p, c)]
    ensures DataRow(after, q, info, sep)
  {
  }

  /** Data rows never write column 7, the column titled with the subfolder megabytes. */
  lemma ColumnSevenEmpty(cells: Cells, data: seq<FolderInfo>, sep: char, r: int)
    requires |data| > 0 && Layout(cells, data, sep)
    requires 2 <= r <= |data| + 1
    ensures (1, 7) in cells && (r, 7) !in cells
  {
    assert DataRow(cells, (r - 2) + 2, data[r - 2], sep);
  }

  /**
   * A path with the greatest depth D has D + 1 pieces, so its last piece lands in
   * column 8 + D, which row 1 leaves without a title.
   */
  lemma DeepestPathOverflows(cells: Cells, data: seq<FolderInfo>, sep: char)
    requires |data| > 0 && Layout(cells, data, sep)
    ensures (1, 8 + MaxDepth(data, sep)) !in cells
    ensures exists i :: 0 <= i < |data| && Occurrences(data[i].folder, sep) == MaxDepth(data, sep) &&
              (i + 2, 8 + MaxDepth(data, sep)) in cells &&
              cells[(i + 2, 8 + MaxDepth(data, sep))] == Text(Split(data[i].folder, sep)[MaxDepth(data, sep)])
  {
  }

  /** The pieces written from column 8 on, joined with the separator, give back the row's path. */
  lemma RowRebuildsPath(cells: Cells, data: seq<FolderInfo>, sep: char, r: int)
    requires |data| > 0 && Layout(cells, data, sep)
    requires 2 <= r <= |data| + 1
    ensures var parts := Split(data[r - 2].folder, sep);
            (forall c :: 8 <= c < 8 + |parts| ==> (r, c) in cells && cells[(r, c)].Text?) &&
            JoinWith(seq(|parts|, k requires 0 <= k < |parts| => cells[(r, 8 + k)].s), sep) == data[r - 2].folder
  {
    var parts := Split(data[r - 2].folder, sep);
    assert DataRow(cells, (r - 2) + 2, data[r - 2], sep);
    var written := seq(|parts|, k requires 0 <= k < |parts| => cells[(r, 8 + k)].s);
    forall k | 0 <= k < |parts| ensures written[k] == parts[k] {
      assert cells[(r, 8 + k)] == Text(parts[(8 + k) - 8]);
    }
    assert written == parts;
    JoinSplit(data[r - 2].folder, sep);
  }
}
