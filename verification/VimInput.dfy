/** The rows and the cursor of the text input, edited in place. */
module VimInput {
  import opened TextModel

  class VimInput {
    const width: char -> nat
    var charsPerLine: nat
    var lines: seq<string>
    var row: nat
    var col: nat

    ghost function State(): Text
      reads this
    {
      Text(lines, row, col)
    }

    constructor (w: char -> nat)
      ensures State() == Text([""], 0, 0) && charsPerLine == 50 && width == w
    {
      width, charsPerLine, lines, row, col := w, 50, [""], 0, 0;
    }

    method ColumnWidth(s: string) returns (n: nat)
      ensures n == Width(width, s)
    {
      n := 0;
      for k := 0 to |s|
        invariant n == WidthTo(width, s, k)
      {
        n := n + width(s[k]);
      }
    }

    /** The first character that does not end within `limit` columns, and the
        columns before it. */
    method FirstBeyond(s: string, limit: nat) returns (k: nat, used: nat)
      ensures k == Fit(width, s, limit, 0) && used == WidthTo(width, s, k)
    {
      k, used := 0, 0;
      while k < |s| && used + width(s[k]) <= limit
        invariant k <= |s| && used == WidthTo(width, s, k)
        invariant Fit(width, s, limit, k) == Fit(width, s, limit, 0)
      {
        used := used + width(s[k]);
        k := k + 1;
      }
    }

    /** Characters and rows still ahead of the reflow loop. */
    ghost function Left(lines: seq<string>, r: nat): nat
      requires r <= |lines|
    {
      |FlatFrom(lines, r)| + |lines| - r
    }

    method SplitCurrent(r: nat)
      requires r < |lines|
      modifies this`lines, this`row, this`col
      ensures State() == SplitRow(width, charsPerLine, old(State()), r)
    {
      hide Fit, WidthTo;
      var line := lines[r];
      var k, used := FirstBeyond(line, charsPerLine);
      var remainder := line[k..];
      lines := lines[r := line[..k]];
      if r + 1 < |lines| {
        lines := lines[r + 1 := remainder + lines[r + 1]];
      } else {
        lines := lines + [remainder];
      }
      if row == r && col > used {
        row := row + 1;
        col := col - used;
      }
    }

    /** One row of the loop below. */
    method BreakRow(r: nat)
      requires r < |lines| && NoWide(width, charsPerLine, FlatFrom(lines, r))
      modifies this`lines, this`row, this`col
      ensures r + 1 <= |lines| && NoWide(width, charsPerLine, FlatFrom(lines, r + 1))
      ensures Left(lines, r + 1) < Left(old(lines), r)
      ensures BreakFrom(width, charsPerLine, State(), r + 1) == BreakFrom(width, charsPerLine, old(State()), r)
    {
      ghost var t := State();
      var totalWidth := ColumnWidth(lines[r]);
      if totalWidth <= charsPerLine {
        FitsMovesOn(width, charsPerLine, t, r);
      } else {
        SplitMovesOn(width, charsPerLine, t, r);
        SplitCurrent(r);
      }
    }

    /** Ends only for text without a character wider than a row. */
    method BreakLinesFrom(start: nat)
      requires start <= |lines| && NoWide(width, charsPerLine, FlatFrom(lines, start))
      modifies this`lines, this`row, this`col
      ensures State() == BreakFrom(width, charsPerLine, old(State()), start)
    {
      var current: nat := start;
      ghost var goal := BreakFrom(width, charsPerLine, State(), start);
      while current < |lines|
        invariant current <= |lines|
        invariant NoWide(width, charsPerLine, FlatFrom(lines, current))
        invariant BreakFrom(width, charsPerLine, State(), current) == goal
        decreases Left(lines, current)
      {
        BreakRow(current);
        current := current + 1;
      }
    }

    method PadToCursor()
      modifies this`lines
      ensures lines == PadRows(old(lines), row)
    {
      while row >= |lines|
        invariant PadRows(lines, row) == PadRows(old(lines), row)
        decreases row + 1 - |lines|
      {
        lines := lines + [""];
      }
    }

    /** A row that became too wide is broken up; that ends only for text without a
        character wider than a row. */
    method InsertChar(c: char)
      requires var t := Typed(width, Text(PadRows(lines, row), row, col), c);
        Width(width, t.lines[row]) > charsPerLine ==> NoWide(width, charsPerLine, FlatFrom(t.lines, row))
      modifies this`lines, this`row, this`col
      ensures var t := Typed(width, Text(PadRows(old(lines), old(row)), old(row), old(col)), c);
        State() ==
          if Width(width, t.lines[t.row]) > charsPerLine then BreakFrom(width, charsPerLine, t, t.row) else t
    {
      hide Fit, WidthTo, BreakFrom, NoWide;
      PadToCursor();
      var line := lines[row];
      var k, used := FirstBeyond(line, col);
      lines := lines[row := Inserted(line, k, c)];
      col := col + width(c);
      var now := ColumnWidth(lines[row]);
      if now > charsPerLine {
        BreakLinesFrom(row);
      }
    }

    method PullRowsUp()
      requires row < |lines|
      modifies this`lines
      ensures lines == PullUp(width, charsPerLine, old(lines), row)
    {
      var r: nat := row;
      while r + 1 < |lines|
        invariant r < |lines|
        invariant PullUp(width, charsPerLine, lines, r) == PullUp(width, charsPerLine, old(lines), row)
        decreases |lines| - r
      {
        var currentWidth := ColumnWidth(lines[r]);
        if currentWidth >= charsPerLine {
          break;
        }
        var next := lines[r + 1];
        if next == "" {
          lines := lines[..r + 1] + lines[r + 2..];
        } else {
          if currentWidth + width(next[0]) > charsPerLine {
            break;
          }
          lines := lines[r := lines[r] + [next[0]]][r + 1 := next[1..]];
          r := r + 1;
        }
      }
    }

    /** Delete before the cursor, or join with the row above. */
    method Backspace()
      requires row < |lines| && (col > 0 ==> lines[row] != "")
      requires col == 0 < row ==> NoWide(width, charsPerLine, FlatFrom(JoinUp(width, State()).lines, row - 1))
      modifies this`lines, this`row, this`col
      ensures State() ==
        if old(col) > 0 then Delete(width, charsPerLine, old(State()))
        else if old(row) > 0 then BreakFrom(width, charsPerLine, JoinUp(width, old(State())), old(row) - 1)
        else old(State())
    {
      if col > 0 {
        var line := lines[row];
        var n, used := FirstBeyond(line, col);
        var last, lastWidth := 0, 0;
        if n > 0 {
          last, lastWidth := n - 1, width(line[n - 1]);
        }
        VictimInside(width, line, col);
        lines := lines[row := Without(line, last)];
        col := col - lastWidth;
        PullRowsUp();
      } else if row > 0 {
        var current, prev := lines[row], lines[row - 1];
        var prevWidth := ColumnWidth(prev);
        lines := lines[..row - 1] + [prev + current] + lines[row + 1..];
        row := row - 1;
        col := prevWidth;
        BreakLinesFrom(row);
      }
    }
  }
}
