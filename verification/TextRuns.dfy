/** Reflowing keeps the text and the place of the cursor, it ends exactly if no
    character is wider than a row, and deleting takes out exactly one character. */
module TextRuns {
  import opened TextModel

  // ---- flat text ------------------------------------------------------------------------

  /** The text of the rows above a row. */
  function FlatTo(lines: seq<string>, row: nat): string
    requires row <= |lines|
  {
    if row == 0 then "" else FlatTo(lines, row - 1) + lines[row - 1]
  }

  lemma {:induction false} Associates(a: string, b: string, c: string)
    ensures a + (b + c) == a + b + c
  {
  }

  lemma {:induction false} FlatSplits(lines: seq<string>, row: nat)
    requires row <= |lines|
    ensures FlatFrom(lines, 0) == FlatTo(lines, row) + FlatFrom(lines, row)
  {
    if row > 0 {
      FlatSplits(lines, row - 1);
      var a, b, c := FlatTo(lines, row - 1), lines[row - 1], FlatFrom(lines, row);
      Associates(a, b, c);
    } else {
      assert "" + FlatFrom(lines, 0) == FlatFrom(lines, 0);
    }
  }

  lemma {:induction false} SameHead(a: seq<string>, b: seq<string>, row: nat, w: char -> nat)
    requires row <= |a| && row <= |b| && forall i :: 0 <= i < row ==> a[i] == b[i]
    ensures FlatTo(a, row) == FlatTo(b, row) && Above(w, a, row) == Above(w, b, row)
  {
    if row > 0 {
      SameHead(a, b, row - 1, w);
    }
  }

  ghost predicate RowsFit(w: char -> nat, limit: nat, lines: seq<string>, r: nat) {
    forall i :: r <= i < |lines| ==> Width(w, lines[i]) <= limit
  }

  // ---- reflowing ---------------------------------------------------------------------------

  lemma {:induction false} KeptWidth(w: char -> nat, s: string, k: nat)
    requires k <= |s|
    ensures Width(w, s[..k]) == WidthTo(w, s, k)
  {
    assert s == s[..k] + s[k..];
    WidthToPrefix(w, s[..k], s[k..], k);
  }

  /** From row `r` on the same text stands in rows that fit; the rows above are
      untouched. */
  lemma {:induction false} BreakKeepsTail(w: char -> nat, limit: nat, t: Text, r: nat)
    requires r <= |t.lines| && NoWide(w, limit, FlatFrom(t.lines, r))
    ensures var s := BreakFrom(w, limit, t, r);
      && r <= |s.lines| && (forall i :: 0 <= i < r ==> s.lines[i] == t.lines[i])
      && FlatFrom(s.lines, r) == FlatFrom(t.lines, r)
      && RowsFit(w, limit, s.lines, r)
    decreases |FlatFrom(t.lines, r)|, |t.lines| - r
  {
    if r < |t.lines| {
      var line := t.lines[r];
      if Width(w, line) <= limit {
        FitsMovesOn(w, limit, t, r);
        BreakKeepsTail(w, limit, t, r + 1);
      } else {
        var k, m := Fit(w, line, limit, 0), SplitRow(w, limit, t, r);
        SplitMovesOn(w, limit, t, r);
        SplitShortens(w, limit, t, r);
        KeptWidth(w, line, k);
        BreakKeepsTail(w, limit, m, r + 1);
        assert forall i :: 0 <= i < r ==> m.lines[i] == m.lines[..r][i] == t.lines[i];
      }
    }
  }

  lemma {:induction false} SplitKeepsCursor(w: char -> nat, limit: nat, t: Text, r: nat)
    requires r < |t.lines| && t.row <= r
    ensures var s := SplitRow(w, limit, t, r); s.row <= r + 1 < |s.lines| && Offset(w, s) == Offset(w, t)
  {
    var s, k := SplitRow(w, limit, t, r), Fit(w, t.lines[r], limit, 0);
    SplitShortens(w, limit, t, r);
    KeptWidth(w, t.lines[r], k);
    forall i | 0 <= i < r ensures s.lines[i] == t.lines[i] {
      assert s.lines[..r][i] == t.lines[..r][i];
    }
    SameHead(s.lines, t.lines, t.row, w);
  }

  /** A cursor at or above the first row reflowed keeps its place in the text. */
  lemma {:induction false} BreakKeepsCursor(w: char -> nat, limit: nat, t: Text, r: nat)
    requires r <= |t.lines| && NoWide(w, limit, FlatFrom(t.lines, r)) && t.row <= r && t.row < |t.lines|
    ensures var s := BreakFrom(w, limit, t, r); s.row < |s.lines| && Offset(w, s) == Offset(w, t)
    decreases |FlatFrom(t.lines, r)|, |t.lines| - r
  {
    if r < |t.lines| {
      if Width(w, t.lines[r]) <= limit {
        FitsMovesOn(w, limit, t, r);
        BreakKeepsCursor(w, limit, t, r + 1);
      } else {
        SplitMovesOn(w, limit, t, r);
        SplitKeepsCursor(w, limit, t, r);
        BreakKeepsCursor(w, limit, SplitRow(w, limit, t, r), r + 1);
      }
    }
  }

  /** Reflowing from a row on: the text is the same, every row from there on fits,
      and the cursor keeps its place if it was not below that row. */
  lemma {:induction false} ReflowPreservesText(w: char -> nat, limit: nat, t: Text, r: nat)
    requires r <= |t.lines| && NoWide(w, limit, FlatFrom(t.lines, r))
    ensures var s := BreakFrom(w, limit, t, r);
      && FlatFrom(s.lines, 0) == FlatFrom(t.lines, 0)
      && RowsFit(w, limit, s.lines, r)
      && (t.row <= r && t.row < |t.lines| ==> s.row < |s.lines| && Offset(w, s) == Offset(w, t))
  {
    var s := BreakFrom(w, limit, t, r);
    BreakKeepsTail(w, limit, t, r);
    SameHead(s.lines, t.lines, r, w);
    FlatSplits(s.lines, r);
    FlatSplits(t.lines, r);
    if t.row <= r && t.row < |t.lines| {
      BreakKeepsCursor(w, limit, t, r);
    }
  }

  // ---- when reflowing ends ----------------------------------------------------------------------

  /** One turn of the reflow loop at row `r`. */
  function Turn(w: char -> nat, limit: nat, t: Text, r: nat): (Text, nat)
    requires r < |t.lines|
  {
    if Width(w, t.lines[r]) <= limit then (t, r + 1) else (SplitRow(w, limit, t, r), r + 1)
  }

  /** The rows and the position after at most `n` turns. */
  function Turns(w: char -> nat, limit: nat, t: Text, r: nat, n: nat): (Text, nat)
    requires r <= |t.lines|
    ensures var (s, q) := Turns(w, limit, t, r, n); q <= |s.lines|
    decreases n
  {
    if n == 0 || r == |t.lines| then (t, r) else
      var (s, q) := Turn(w, limit, t, r);
      TurnStaysInside(w, limit, t, r);
      Turns(w, limit, s, q, n - 1)
  }

  lemma {:induction false} TurnStaysInside(w: char -> nat, limit: nat, t: Text, r: nat)
    requires r < |t.lines|
    ensures var (s, q) := Turn(w, limit, t, r); q <= |s.lines|
  {
  }

  lemma {:induction false} CharInWidth(w: char -> nat, s: string, i: nat, k: nat)
    requires i < k <= |s|
    ensures w(s[i]) <= WidthTo(w, s, k)
  {
    if i < k - 1 {
      CharInWidth(w, s, i, k - 1);
    }
  }

  lemma {:induction false} NoWideConcat(w: char -> nat, limit: nat, a: string, b: string)
    requires NoWide(w, limit, a) && NoWide(w, limit, b)
    ensures NoWide(w, limit, a + b)
  {
  }

  lemma {:induction false} WideBelowFit(w: char -> nat, limit: nat, t: Text, r: nat)
    requires r < |t.lines| && !NoWide(w, limit, FlatFrom(t.lines, r)) && Width(w, t.lines[r]) <= limit
    ensures !NoWide(w, limit, FlatFrom(t.lines, r + 1))
  {
    var line, tail := t.lines[r], FlatFrom(t.lines, r + 1);
    forall i | 0 <= i < |line| ensures w(line[i]) <= limit {
      CharInWidth(w, line, i, |line|);
    }
    if NoWide(w, limit, tail) {
      NoWideConcat(w, limit, line, tail);
      assert false;
    }
  }

  lemma {:induction false} WideBelowSplit(w: char -> nat, limit: nat, t: Text, r: nat)
    requires r < |t.lines| && !NoWide(w, limit, FlatFrom(t.lines, r))
    ensures var s := SplitRow(w, limit, t, r); r + 1 <= |s.lines| && !NoWide(w, limit, FlatFrom(s.lines, r + 1))
  {
    var s, k := SplitRow(w, limit, t, r), Fit(w, t.lines[r], limit, 0);
    SplitShortens(w, limit, t, r);
    var kept, tail := t.lines[r][..k], FlatFrom(s.lines, r + 1);
    assert NoWide(w, limit, kept);
    if NoWide(w, limit, tail) {
      NoWideConcat(w, limit, kept, tail);
      assert false;
    }
  }

  lemma {:induction false} WideStaysAhead(w: char -> nat, limit: nat, t: Text, r: nat)
    requires r <= |t.lines| && !NoWide(w, limit, FlatFrom(t.lines, r))
    ensures r < |t.lines|
    ensures var (s, q) := Turn(w, limit, t, r); q <= |s.lines| && !NoWide(w, limit, FlatFrom(s.lines, q))
  {
    if Width(w, t.lines[r]) <= limit {
      WideBelowFit(w, limit, t, r);
    } else {
      WideBelowSplit(w, limit, t, r);
    }
  }

  lemma {:induction false} WideNeverEnds(w: char -> nat, limit: nat, t: Text, r: nat, n: nat)
    requires r <= |t.lines| && !NoWide(w, limit, FlatFrom(t.lines, r))
    ensures var (s, q) := Turns(w, limit, t, r, n); q < |s.lines|
    decreases n
  {
    WideStaysAhead(w, limit, t, r);
    if n > 0 {
      var (s, q) := Turn(w, limit, t, r);
      WideNeverEnds(w, limit, s, q, n - 1);
    }
  }

  lemma {:induction false} TurnShrinks(w: char -> nat, limit: nat, t: Text, r: nat)
    requires r < |t.lines| && NoWide(w, limit, FlatFrom(t.lines, r))
    ensures var (s, q) := Turn(w, limit, t, r);
      && q <= |s.lines| && NoWide(w, limit, FlatFrom(s.lines, q))
      && (|FlatFrom(s.lines, q)| < |FlatFrom(t.lines, r)| || (|FlatFrom(s.lines, q)| <= |FlatFrom(t.lines, r)| && |s.lines| - q < |t.lines| - r))
  {
    if Width(w, t.lines[r]) <= limit {
      FitsMovesOn(w, limit, t, r);
    } else {
      SplitMovesOn(w, limit, t, r);
    }
  }

  lemma {:induction false} NarrowEnds(w: char -> nat, limit: nat, t: Text, r: nat) returns (n: nat)
    requires r <= |t.lines| && NoWide(w, limit, FlatFrom(t.lines, r))
    ensures Turns(w, limit, t, r, n).1 == |Turns(w, limit, t, r, n).0.lines|
    decreases |FlatFrom(t.lines, r)|, |t.lines| - r
  {
    n := 0;
    if r < |t.lines| {
      var (s, q) := Turn(w, limit, t, r);
      TurnShrinks(w, limit, t, r);
      var m := NarrowEnds(w, limit, s, q);
      n := m + 1;
    }
  }

  ghost predicate Ends(w: char -> nat, limit: nat, t: Text, r: nat)
    requires r <= |t.lines|
  {
    exists n: nat :: Turns(w, limit, t, r, n).1 == |Turns(w, limit, t, r, n).0.lines|
  }

  /** The loop ends if and only if no character from the start row on is wider than
      a row: such a character is pushed down for ever. */
  lemma {:induction false} ReflowEndsIff(w: char -> nat, limit: nat, t: Text, r: nat)
    requires r <= |t.lines|
    ensures Ends(w, limit, t, r) <==> NoWide(w, limit, FlatFrom(t.lines, r))
  {
    if NoWide(w, limit, FlatFrom(t.lines, r)) {
      var n := NarrowEnds(w, limit, t, r);
      assert Turns(w, limit, t, r, n).1 == |Turns(w, limit, t, r, n).0.lines|;
    } else {
      forall n: nat ensures Turns(w, limit, t, r, n).1 != |Turns(w, limit, t, r, n).0.lines| {
        WideNeverEnds(w, limit, t, r, n);
      }
    }
  }

  // ---- typing and deleting -------------------------------------------------------------------------

  lemma {:induction false} RowChanges(lines: seq<string>, r: nat, s: string, w: char -> nat)
    requires r < |lines|
    ensures FlatFrom(lines[r := s], 0) == FlatTo(lines, r) + (s + FlatFrom(lines, r + 1))
    ensures FlatFrom(lines, 0) == FlatTo(lines, r) + (lines[r] + FlatFrom(lines, r + 1))
    ensures Above(w, lines[r := s], r) == Above(w, lines, r)
  {
    FlatSplits(lines, r);
    FlatSplits(lines[r := s], r);
    SameHead(lines, lines[r := s], r, w);
    SameTail(lines, lines[r := s], r + 1);
  }

  /** Typing puts the character into the text behind the characters of the row that
      end at or before the cursor, and moves the cursor by its width. */
  lemma {:induction false} TypedInserts(w: char -> nat, t: Text, c: char)
    requires t.row < |t.lines|
    ensures var s, text := Typed(w, t, c), FlatFrom(t.lines, 0);
      var line, k := t.lines[t.row], Fit(w, t.lines[t.row], t.col, 0);
      var at := |FlatTo(t.lines, t.row)| + k;
      && WidthTo(w, line, k) <= t.col && (k < |line| ==> WidthTo(w, line, k + 1) > t.col)
      && at <= |text| && FlatFrom(s.lines, 0) == text[..at] + [c] + text[at..]
      && Offset(w, s) == Offset(w, t) + w(c) && s.row == t.row
  {
    var line := t.lines[t.row];
    var k := Fit(w, line, t.col, 0);
    RowChanges(t.lines, t.row, Inserted(line, k, c), w);
    InsertInside(FlatTo(t.lines, t.row), line, FlatFrom(t.lines, t.row + 1), k, c);
  }

  lemma {:induction false} InsertInside(a: string, b: string, d: string, k: nat, c: char)
    requires k <= |b|
    ensures Inserted(a + (b + d), |a| + k, c) == a + (Inserted(b, k, c) + d)
  {
    var s := a + (b + d);
    assert s[..|a| + k] == a + b[..k];
    assert s[|a| + k..] == b[k..] + d;
  }

  lemma {:induction false} WithoutInside(a: string, b: string, d: string, k: nat)
    requires k < |b|
    ensures Without(a + (b + d), |a| + k) == a + (Without(b, k) + d)
  {
    var s := a + (b + d);
    assert s[..|a| + k] == a + b[..k];
    assert s[|a| + k + 1..] == b[k + 1..] + d;
  }

  /** Letting characters move up changes neither the text nor the rows above, and
      rows that fit still do. */
  lemma {:induction false} PullUpKeepsText(w: char -> nat, limit: nat, lines: seq<string>, r: nat)
    requires r < |lines|
    ensures var s := PullUp(w, limit, lines, r);
      && r < |s| && (forall i :: 0 <= i < r ==> s[i] == lines[i])
      && FlatFrom(s, r) == FlatFrom(lines, r)
      && (RowsFit(w, limit, lines, r) ==> RowsFit(w, limit, s, r))
    decreases |lines| - r
  {
    if r + 1 < |lines| && Width(w, lines[r]) < limit {
      if lines[r + 1] == "" {
        DropEmptyRow(w, limit, lines, r);
        PullUpKeepsText(w, limit, lines[..r + 1] + lines[r + 2..], r);
      } else if Width(w, lines[r]) + w(lines[r + 1][0]) <= limit {
        MoveUpOne(w, limit, lines, r);
        PullUpKeepsText(w, limit, lines[r := lines[r] + [lines[r + 1][0]]][r + 1 := lines[r + 1][1..]], r + 1);
      }
    }
  }

  lemma {:induction false} ShiftedTail(a: seq<string>, b: seq<string>, i: nat, j: nat)
    requires i <= |a| && j <= |b| && a[i..] == b[j..]
    ensures FlatFrom(a, i) == FlatFrom(b, j)
    decreases |a| - i
  {
    assert |a| - i == |a[i..]| == |b[j..]| == |b| - j;
    if i < |a| {
      assert a[i] == a[i..][0] == b[j..][0] == b[j];
      assert a[i + 1..] == a[i..][1..] && b[j + 1..] == b[j..][1..];
      ShiftedTail(a, b, i + 1, j + 1);
    }
  }

  lemma {:induction false} DropEmptyRow(w: char -> nat, limit: nat, lines: seq<string>, r: nat)
    requires r + 1 < |lines| && lines[r + 1] == ""
    ensures var m := lines[..r + 1] + lines[r + 2..];
      && FlatFrom(m, r) == FlatFrom(lines, r)
      && (RowsFit(w, limit, lines, r) ==> RowsFit(w, limit, m, r))
  {
    var m := lines[..r + 1] + lines[r + 2..];
    assert m[r + 1..] == lines[r + 2..];
    ShiftedTail(lines, m, r + 2, r + 1);
    assert FlatFrom(lines, r + 1) == "" + FlatFrom(lines, r + 2) == FlatFrom(lines, r + 2);
    assert m[r] == lines[r];
    forall i | r <= i < |m| ensures m[i] == lines[if i == r then r else i + 1] {
    }
  }

  lemma {:induction false} MoveUpOne(w: char -> nat, limit: nat, lines: seq<string>, r: nat)
    requires r + 1 < |lines| && lines[r + 1] != "" && Width(w, lines[r]) + w(lines[r + 1][0]) <= limit
    ensures var m := lines[r := lines[r] + [lines[r + 1][0]]][r + 1 := lines[r + 1][1..]];
      && m[r] + FlatFrom(m, r + 1) == FlatFrom(lines, r)
      && Width(w, m[r]) <= limit
      && (RowsFit(w, limit, lines, r) ==> RowsFit(w, limit, m, r + 1))
  {
    var line, next := lines[r], lines[r + 1];
    var m := lines[r := line + [next[0]]][r + 1 := next[1..]];
    SameTail(lines, m, r + 2);
    var tail := FlatFrom(lines, r + 2);
    assert next == [next[0]] + next[1..];
    Regroup(line, [next[0]], next[1..], tail);
    assert (line + [next[0]]) + (next[1..] + tail) == line + (([next[0]] + next[1..]) + tail);
    WidthConcat(w, line, [next[0]]);
    assert WidthTo(w, [next[0]], 1) == WidthTo(w, [next[0]], 0) + w(next[0]);
    WidthConcat(w, [next[0]], next[1..]);
  }

  /** Deleting takes exactly one character out of the text and moves the cursor
      back by its width if the cursor stood at the end of a character; rows that
      fitted still fit. */
  lemma {:induction false} DeleteRemovesOne(w: char -> nat, limit: nat, t: Text)
    requires t.row < |t.lines| && t.lines[t.row] != ""
    ensures var s, (k, width) := Delete(w, limit, t), Victim(w, t.lines[t.row], t.col);
      var at := |FlatTo(t.lines, t.row)| + k;
      && at < |FlatFrom(t.lines, 0)|
      && FlatFrom(s.lines, 0) == FlatFrom(t.lines, 0)[..at] + FlatFrom(t.lines, 0)[at + 1..]
      && s.row < |s.lines| && Offset(w, s) + width == Offset(w, t)
      && (Before(w, t.lines[t.row], t.col) > 0 ==>
          (k == Before(w, t.lines[t.row], t.col) - 1 && width == w(FlatFrom(t.lines, 0)[at])))
      && (Before(w, t.lines[t.row], t.col) == 0 ==> k == 0 && width == 0)
      && (RowsFit(w, limit, t.lines, t.row) ==> RowsFit(w, limit, s.lines, t.row))
  {
    var line, r := t.lines[t.row], t.row;
    var (k, width) := Victim(w, line, t.col);
    VictimInside(w, line, t.col);
    var shorter := t.lines[r := Without(line, k)];
    var lines := PullUp(w, limit, shorter, r);
    RowChanges(t.lines, r, Without(line, k), w);
    WithoutInside(FlatTo(t.lines, r), line, FlatFrom(t.lines, r + 1), k);
    PullUpKeepsText(w, limit, shorter, r);
    SameHead(lines, shorter, r, w);
    FlatSplits(lines, r);
    FlatSplits(shorter, r);
    ShorterIsNarrower(w, line, k);
    assert FlatFrom(t.lines, 0)[|FlatTo(t.lines, r)| + k] == line[k];
  }

  lemma {:induction false} ShorterIsNarrower(w: char -> nat, s: string, k: nat)
    requires k < |s|
    ensures Width(w, Without(s, k)) + w(s[k]) == Width(w, s)
  {
    assert s == s[..k] + ([s[k]] + s[k + 1..]);
    WidthConcat(w, s[..k], [s[k]] + s[k + 1..]);
    WidthConcat(w, [s[k]], s[k + 1..]);
    WidthConcat(w, s[..k], s[k + 1..]);
    assert WidthTo(w, [s[k]], 1) == WidthTo(w, [s[k]], 0) + w(s[k]);
  }

  /** Joining two rows removes nothing and leaves the cursor where it was in the text. */
  lemma {:induction false} JoinKeepsText(w: char -> nat, t: Text)
    requires 0 < t.row < |t.lines| && t.col == 0
    ensures var s := JoinUp(w, t); FlatFrom(s.lines, 0) == FlatFrom(t.lines, 0) && s.row < |s.lines| && Offset(w, s) == Offset(w, t)
  {
    var s, r := JoinUp(w, t), t.row - 1;
    assert s.lines[r + 1..] == t.lines[r + 2..];
    ShiftedTail(t.lines, s.lines, r + 2, r + 1);
    SameHead(t.lines, s.lines, r, w);
    FlatSplits(t.lines, r);
    FlatSplits(s.lines, r);
    assert FlatFrom(t.lines, r) == t.lines[r] + FlatFrom(t.lines, r + 1);
    assert (t.lines[r] + t.lines[r + 1]) + FlatFrom(s.lines, r + 1) == t.lines[r] + (t.lines[r + 1] + FlatFrom(t.lines, r + 2));
  }

  // ---- single rows -----------------------------------------------------------------------------------

  /** A row that is too wide keeps as many characters as fit, and the cursor goes to the
      next row exactly if it stood behind what is kept. */
  lemma {:induction false} SplitKeepsMost(w: char -> nat, limit: nat, t: Text, r: nat)
    requires r < |t.lines| && Width(w, t.lines[r]) > limit
    ensures var s := SplitRow(w, limit, t, r);
      && r + 1 < |s.lines| && s.lines[r] <= t.lines[r] && |s.lines[r]| < |t.lines[r]|
      && Width(w, s.lines[r]) <= limit
      && WidthTo(w, t.lines[r], |s.lines[r]| + 1) > limit
      && (if t.row == r && t.col > Width(w, s.lines[r]) then s.row == r + 1 && s.col == t.col - Width(w, s.lines[r])
          else s.row == t.row && s.col == t.col)
  {
    var line := t.lines[r];
    var k := Fit(w, line, limit, 0);
    SplitShortens(w, limit, t, r);
    WidthOfPrefix(w, line, k);
  }

  lemma {:induction false} WidthOfPrefix(w: char -> nat, s: string, k: nat)
    requires k <= |s|
    ensures Width(w, s[..k]) == WidthTo(w, s, k)
  {
    PrefixWidth(w, s, k, k);
  }

  lemma {:induction false} PrefixWidth(w: char -> nat, s: string, k: nat, i: nat)
    requires i <= k <= |s|
    ensures WidthTo(w, s[..k], i) == WidthTo(w, s, i)
  {
    if i > 0 {
      PrefixWidth(w, s, k, i - 1);
    }
  }

  lemma {:induction false} FirstBelow(lines: seq<string>, r: nat)
    requires r + 1 < |lines| && lines[r + 1] != ""
    ensures FlatFrom(lines, r + 1) != "" && FlatFrom(lines, r + 1)[0] == lines[r + 1][0]
  {
  }

  /** A row takes the next character of the text exactly if it is not full and the
      character fits; empty rows in between do not matter. */
  lemma {:induction false} PullUpTakesNext(w: char -> nat, limit: nat, lines: seq<string>, r: nat)
    requires r < |lines|
    ensures var s, below := PullUp(w, limit, lines, r), FlatFrom(lines, r + 1);
      && r < |s|
      && s[r] == lines[r] +
        if below != "" && Width(w, lines[r]) < limit && Width(w, lines[r]) + w(below[0]) <= limit then [below[0]] else []
    decreases |lines| - r
  {
    PullUpKeepsText(w, limit, lines, r);
    assert lines[r] + [] == lines[r];
    if r + 1 < |lines| && Width(w, lines[r]) < limit {
      if lines[r + 1] == "" {
        var m := lines[..r + 1] + lines[r + 2..];
        BelowEmptyRow(lines, r);
        PullUpTakesNext(w, limit, m, r);
      } else {
        FirstBelow(lines, r);
        if Width(w, lines[r]) + w(lines[r + 1][0]) <= limit {
          PullUpKeepsText(w, limit, lines[r := lines[r] + [lines[r + 1][0]]][r + 1 := lines[r + 1][1..]], r + 1);
        }
      }
    }
  }

  lemma {:induction false} BelowEmptyRow(lines: seq<string>, r: nat)
    requires r + 1 < |lines| && lines[r + 1] == ""
    ensures var m := lines[..r + 1] + lines[r + 2..]; m[r] == lines[r] && FlatFrom(m, r + 1) == FlatFrom(lines, r + 1)
  {
    var m := lines[..r + 1] + lines[r + 2..];
    assert m[r + 1..] == lines[r + 2..];
    ShiftedTail(lines, m, r + 2, r + 1);
    assert FlatFrom(lines, r + 1) == "" + FlatFrom(lines, r + 2) == FlatFrom(lines, r + 2);
  }
}
