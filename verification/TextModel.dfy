/** The rows of the text input as a value: widths, where a row is split, and what
    reflowing, inserting and deleting do to rows and cursor. `w` gives the number of
    columns of a character, `limit` the columns of a row. */
module TextModel {
  import opened Basics

  /** The cursor is a row and a column, counted in columns, not characters. */
  datatype Text = Text(lines: seq<string>, row: nat, col: nat)

  // ---- widths ---------------------------------------------------------------------------

  /** The columns of the first `k` characters. */
  function WidthTo(w: char -> nat, s: string, k: nat): nat
    requires k <= |s|
  {
    if k == 0 then 0 else WidthTo(w, s, k - 1) + w(s[k - 1])
  }

  function Width(w: char -> nat, s: string): nat {
    WidthTo(w, s, |s|)
  }

  lemma {:induction false} WidthToPrefix(w: char -> nat, a: string, b: string, k: nat)
    requires k <= |a|
    ensures WidthTo(w, a + b, k) == WidthTo(w, a, k)
  {
    if k > 0 {
      WidthToPrefix(w, a, b, k - 1);
    }
  }

  lemma {:induction false} WidthToConcat(w: char -> nat, a: string, b: string, k: nat)
    requires k <= |b|
    ensures WidthTo(w, a + b, |a| + k) == Width(w, a) + WidthTo(w, b, k)
  {
    if k == 0 {
      WidthToPrefix(w, a, b, |a|);
    } else {
      WidthToConcat(w, a, b, k - 1);
    }
  }

  lemma {:induction false} WidthConcat(w: char -> nat, a: string, b: string)
    ensures Width(w, a + b) == Width(w, a) + Width(w, b)
  {
    WidthToConcat(w, a, b, |b|);
  }

  /** From character `k` on, the first one that does not end within `limit` columns. */
  function Fit(w: char -> nat, s: string, limit: nat, k: nat): (r: nat)
    requires k <= |s|
    ensures k <= r <= |s|
    ensures r < |s| ==> WidthTo(w, s, r) + w(s[r]) > limit
    ensures forall i :: k <= i < r ==> w(s[i]) <= limit
    ensures WidthTo(w, s, k) <= limit ==> WidthTo(w, s, r) <= limit
    decreases |s| - k
  {
    if k < |s| && WidthTo(w, s, k) + w(s[k]) <= limit then Fit(w, s, limit, k + 1) else k
  }

  // ---- rows -----------------------------------------------------------------------------

  /** The text from row `i` on. */
  function FlatFrom(lines: seq<string>, i: nat): string
    requires i <= |lines|
    decreases |lines| - i
  {
    if i == |lines| then "" else lines[i] + FlatFrom(lines, i + 1)
  }

  /** The columns of the rows above a row. */
  function Above(w: char -> nat, lines: seq<string>, row: nat): nat
    requires row <= |lines|
  {
    if row == 0 then 0 else Above(w, lines, row - 1) + Width(w, lines[row - 1])
  }

  /** Where the cursor is in the whole text, in columns. */
  function Offset(w: char -> nat, t: Text): nat
    requires t.row <= |t.lines|
  {
    Above(w, t.lines, t.row) + t.col
  }

  ghost predicate NoWide(w: char -> nat, limit: nat, s: string) {
    forall i :: 0 <= i < |s| ==> w(s[i]) <= limit
  }

  // ---- reflowing --------------------------------------------------------------------------

  /** Keep what fits in a row that is too wide and push the rest down. */
  function SplitRow(w: char -> nat, limit: nat, t: Text, r: nat): Text
    requires r < |t.lines|
  {
    var k := Fit(w, t.lines[r], limit, 0);
    var kept, rest := t.lines[r][..k], t.lines[r][k..];
    var lines :=
      if r + 1 < |t.lines| then t.lines[r := kept][r + 1 := rest + t.lines[r + 1]]
      else t.lines[r := kept] + [rest];
    var used := WidthTo(w, t.lines[r], k);
    if t.row == r && t.col > used then Text(lines, r + 1, t.col - used) else Text(lines, t.row, t.col)
  }

  lemma {:induction false} SplitShortens(w: char -> nat, limit: nat, t: Text, r: nat)
    requires r < |t.lines|
    ensures var k := Fit(w, t.lines[r], limit, 0); var s := SplitRow(w, limit, t, r);
      && r + 1 < |s.lines|
      && FlatFrom(t.lines, r) == t.lines[r][..k] + FlatFrom(s.lines, r + 1)
      && s.lines[..r] == t.lines[..r] && s.lines[r] == t.lines[r][..k]
  {
    hide Fit, WidthTo;
    var s, k := SplitRow(w, limit, t, r), Fit(w, t.lines[r], limit, 0);
    var kept, rest := t.lines[r][..k], t.lines[r][k..];
    assert t.lines[r] == kept + rest;
    if r + 1 < |t.lines| {
      SameTail(t.lines, s.lines, r + 2);
      var next, tail := t.lines[r + 1], FlatFrom(t.lines, r + 2);
      assert FlatFrom(t.lines, r) == t.lines[r] + FlatFrom(t.lines, r + 1);
      assert s.lines[r + 1] == rest + next;
      assert FlatFrom(s.lines, r + 1) == (rest + next) + tail;
      Regroup(kept, rest, next, tail);
    } else {
      assert s.lines[r + 1] == rest && |s.lines| == r + 2;
      assert FlatFrom(s.lines, r + 2) == "";
      assert FlatFrom(s.lines, r + 1) == rest + "" == rest;
      assert FlatFrom(t.lines, r) == t.lines[r] + "" == t.lines[r];
    }
  }

  lemma {:induction false} Regroup(a: string, b: string, c: string, d: string)
    ensures (a + b) + (c + d) == a + ((b + c) + d)
  {
  }

  lemma {:induction false} SameTail(a: seq<string>, b: seq<string>, i: nat)
    requires i <= |a| == |b| && forall j :: i <= j < |a| ==> a[j] == b[j]
    ensures FlatFrom(a, i) == FlatFrom(b, i)
    decreases |a| - i
  {
    if i < |a| {
      SameTail(a, b, i + 1);
    }
  }

  /** Break rows from `r` on. Only defined for text without a character wider than
      a row: what is left to do is bounded by the characters, then by the rows. */
  function BreakFrom(w: char -> nat, limit: nat, t: Text, r: nat): Text
    requires r <= |t.lines| && NoWide(w, limit, FlatFrom(t.lines, r))
    decreases |FlatFrom(t.lines, r)|, |t.lines| - r
  {
    if r == |t.lines| then
      t
    else if Width(w, t.lines[r]) <= limit then
      FitsMovesOn(w, limit, t, r);
      BreakFrom(w, limit, t, r + 1)
    else
      SplitMovesOn(w, limit, t, r);
      BreakFrom(w, limit, SplitRow(w, limit, t, r), r + 1)
  }

  lemma {:induction false} FitsMovesOn(w: char -> nat, limit: nat, t: Text, r: nat)
    requires r < |t.lines| && NoWide(w, limit, FlatFrom(t.lines, r))
    ensures NoWide(w, limit, FlatFrom(t.lines, r + 1))
  {
    var line, tail := t.lines[r], FlatFrom(t.lines, r + 1);
    forall i | 0 <= i < |tail| ensures w(tail[i]) <= limit {
      assert tail[i] == (line + tail)[|line| + i];
    }
  }

  lemma {:induction false} SplitMovesOn(w: char -> nat, limit: nat, t: Text, r: nat)
    requires r < |t.lines| && NoWide(w, limit, FlatFrom(t.lines, r)) && Width(w, t.lines[r]) > limit
    ensures var s := SplitRow(w, limit, t, r);
      && r + 1 <= |s.lines| && NoWide(w, limit, FlatFrom(s.lines, r + 1))
      && |FlatFrom(s.lines, r + 1)| < |FlatFrom(t.lines, r)|
  {
    var line, s := t.lines[r], SplitRow(w, limit, t, r);
    var k := Fit(w, line, limit, 0);
    SplitShortens(w, limit, t, r);
    var tail := FlatFrom(s.lines, r + 1);
    assert |line| > 0 && line[0] == FlatFrom(t.lines, r)[0];
    assert k > 0 by {
      assert w(line[0]) <= limit;
    }
    forall i | 0 <= i < |tail| ensures w(tail[i]) <= limit {
      assert tail[i] == FlatFrom(t.lines, r)[k + i];
    }
  }

  // ---- editing ------------------------------------------------------------------------------

  /** Empty rows up to the row of the cursor. */
  function PadRows(lines: seq<string>, row: nat): (r: seq<string>)
    ensures |r| == Max(|lines|, row + 1) && r[..|lines|] == lines
    decreases row + 1 - |lines|
  {
    if row < |lines| then lines else PadRows(lines + [""], row)
  }

  function Inserted(s: string, k: nat, c: char): string
    requires k <= |s|
  {
    s[..k] + [c] + s[k..]
  }

  function Without(s: string, k: nat): string
    requires k < |s|
  {
    s[..k] + s[k + 1..]
  }

  /** The rows and the cursor once a character stands where the cursor was. */
  function Typed(w: char -> nat, t: Text, c: char): Text
    requires t.row < |t.lines|
  {
    var line := t.lines[t.row];
    Text(t.lines[t.row := Inserted(line, Fit(w, line, t.col, 0), c)], t.row, t.col + w(c))
  }

  /** From row `r` on, let one character of the next row move up where there is
      room, and drop empty next rows, until a row is full. */
  function PullUp(w: char -> nat, limit: nat, lines: seq<string>, r: nat): seq<string>
    requires r < |lines|
    decreases |lines| - r
  {
    if r + 1 == |lines| || Width(w, lines[r]) >= limit then
      lines
    else if lines[r + 1] == "" then
      PullUp(w, limit, lines[..r + 1] + lines[r + 2..], r)
    else if Width(w, lines[r]) + w(lines[r + 1][0]) > limit then
      lines
    else
      PullUp(w, limit, lines[r := lines[r] + [lines[r + 1][0]]][r + 1 := lines[r + 1][1..]], r + 1)
  }

  /** The characters of a row that end at or before a column. */
  function Before(w: char -> nat, s: string, col: nat): nat {
    Fit(w, s, col, 0)
  }

  /** The character a deletion takes, and how far the cursor moves: the last one
      that ends at or before the cursor, or the first one if there is none. */
  function Victim(w: char -> nat, s: string, col: nat): (nat, nat)
    requires s != ""
  {
    var n := Before(w, s, col);
    if n > 0 then (n - 1, w(s[n - 1])) else (0, 0)
  }

  lemma {:induction false} VictimInside(w: char -> nat, s: string, col: nat)
    requires s != ""
    ensures Victim(w, s, col).0 < |s| && Victim(w, s, col).1 <= col
  {
  }

  function Delete(w: char -> nat, limit: nat, t: Text): Text
    requires t.row < |t.lines| && t.lines[t.row] != ""
  {
    var line := t.lines[t.row];
    var (k, width) := Victim(w, line, t.col);
    VictimInside(w, line, t.col);
    Text(PullUp(w, limit, t.lines[t.row := Without(line, k)], t.row), t.row, t.col - width)
  }

  /** Append the row of the cursor to the one above. */
  function JoinUp(w: char -> nat, t: Text): Text
    requires 0 < t.row < |t.lines|
  {
    Text(t.lines[..t.row - 1] + [t.lines[t.row - 1] + t.lines[t.row]] + t.lines[t.row + 1..],
      t.row - 1, Width(w, t.lines[t.row - 1]))
  }
}
