/** Where a point stands among the lines of a text, and where the line motions of lib/edittext.c take it. */
module LineCursor {
  import opened CStrings
  import opened LineSplitter
  import opened ReflowLocality

  /** Line k runs from its start up to the start of the next line; the last one up to the end of the text. */
  predicate OnLine(lines: seq<Line>, k: nat, point: nat) {
    k < |lines| && lines[k].start <= point && (k + 1 < |lines| ==> point < lines[k + 1].start)
  }

  function LineIndexFrom(lines: seq<Line>, k: nat, point: nat): (i: nat)
    requires k < |lines|
    ensures k <= i < |lines|
    ensures lines[k].start <= point ==> lines[i].start <= point
    decreases |lines| - k
  {
    if k + 1 == |lines| || point < lines[k + 1].start then k else LineIndexFrom(lines, k + 1, point)
  }

  /** The line the point is on. */
  function LineIndex(lines: seq<Line>, point: nat): (i: nat)
    requires |lines| > 0
    ensures i < |lines|
    ensures lines[0].start <= point ==> lines[i].start <= point
  {
    LineIndexFrom(lines, 0, point)
  }

  lemma {:induction false} LineIndexFromFinds(lines: seq<Line>, k: nat, point: nat)
    requires k < |lines| && lines[k].start <= point
    ensures OnLine(lines, LineIndexFrom(lines, k, point), point)
    decreases |lines| - k
  {
    if k + 1 == |lines| || point < lines[k + 1].start {
    } else {
      LineIndexFromFinds(lines, k + 1, point);
    }
  }

  /** Every point of the text is on exactly one line, and its column is at most that line's length. */
  lemma PointHasOneLine(text: string, lines: seq<Line>, point: nat)
    requires Tiles(text, lines, 0) && point <= |text|
    ensures var k := LineIndex(lines, point);
            && OnLine(lines, k, point)
            && point - lines[k].start <= |lines[k].text|
            && forall j | 0 <= j :: OnLine(lines, j, point) ==> j == k
  {
    LineIndexFromFinds(lines, 0, point);
    var k := LineIndex(lines, point);
    if k + 1 < |lines| {
      assert Follows(lines[k], lines[k + 1]);
    }
    forall j | 0 <= j && OnLine(lines, j, point)
      ensures j == k
    {
      OneLine(text, lines, point, j, k);
    }
  }

  lemma OneLine(text: string, lines: seq<Line>, point: nat, j: nat, k: nat)
    requires Tiles(text, lines, 0) && OnLine(lines, j, point) && OnLine(lines, k, point)
    ensures j == k
  {
    if j < k {
      StartsIncrease(text, lines, 0, j + 1, k);
    } else if k < j {
      StartsIncrease(text, lines, 0, k + 1, j);
    }
  }

  // ---------- Line start and line end ----------

  function LineStartPoint(lines: seq<Line>, point: nat): nat
    requires |lines| > 0
  {
    lines[LineIndex(lines, point)].start
  }

  /** The last position that belongs to the line; on an empty last line the point stays where it is. */
  function LineEndPoint(lines: seq<Line>, point: nat): int
    requires |lines| > 0
  {
    var k := LineIndex(lines, point);
    if k + 1 < |lines| then lines[k + 1].start - 1
    else if |lines[k].text| > 0 then lines[k].start + |lines[k].text|
    else point
  }

  /** Both motions bracket the point, stay on its line, and change nothing when repeated. They go to the first and the
      last place on the line. */
  lemma LineEndsBracket(text: string, lines: seq<Line>, point: nat)
    requires Tiles(text, lines, 0) && point <= |text|
    ensures 0 <= LineStartPoint(lines, point) <= point <= LineEndPoint(lines, point) <= |text|
    ensures LineIndex(lines, LineStartPoint(lines, point)) == LineIndex(lines, point)
    ensures LineIndex(lines, LineEndPoint(lines, point)) == LineIndex(lines, point)
    ensures LineStartPoint(lines, LineStartPoint(lines, point)) == LineStartPoint(lines, point)
    ensures LineEndPoint(lines, LineEndPoint(lines, point)) == LineEndPoint(lines, point)
    ensures forall p | 0 <= p <= |text| && LineIndex(lines, p) == LineIndex(lines, point) ::
              LineStartPoint(lines, point) <= p <= LineEndPoint(lines, point)
  {
    PointHasOneLine(text, lines, point);
    var k := LineIndex(lines, point);
    if k + 1 < |lines| {
      assert Follows(lines[k], lines[k + 1]);
      StartsIncrease(text, lines, 0, k + 1, k + 1);
    }
    var s, e := LineStartPoint(lines, point), LineEndPoint(lines, point);
    assert OnLine(lines, k, s) && OnLine(lines, k, e);
    PointHasOneLine(text, lines, s);
    PointHasOneLine(text, lines, e);
    forall p | 0 <= p <= |text| && LineIndex(lines, p) == k
      ensures s <= p <= e
    {
      PointHasOneLine(text, lines, p);
    }
  }

  // ---------- Previous and next line ----------

  /** shorter_line_adj: the same column on the target line, or that line's end when it is shorter. */
  function AdjustColumn(target: Line, col: nat): nat {
    if |target.text| < col then target.start + |target.text| else target.start + col
  }

  function PrevLinePoint(lines: seq<Line>, point: nat): (p: nat)
    requires |lines| > 0 && lines[0].start <= point
  {
    var k := LineIndex(lines, point);
    if k == 0 then point else AdjustColumn(lines[k - 1], point - lines[k].start)
  }

  function NextLinePoint(lines: seq<Line>, point: nat): (p: nat)
    requires |lines| > 0 && lines[0].start <= point
  {
    var k := LineIndex(lines, point);
    if k + 1 == |lines| then point else AdjustColumn(lines[k + 1], point - lines[k].start)
  }

  /** The line above is soft-broken and no longer than the point's column, so that its end is not on it. */
  predicate AboveIsCut(lines: seq<Line>, k: nat, point: nat)
    requires 0 < k < |lines| && lines[k].start <= point
  {
    SoftBroken(lines[k - 1], lines[k]) && |lines[k - 1].text| <= point - lines[k].start
  }

  /** The two points are as far into their lines, or the second one is at the end of a line that is too short. */
  predicate KeepsColumn(line: Line, point: nat, line': Line, point': nat) {
    var col: int, col': int := point - line.start, point' - line'.start;
    col' == col <= |line'.text| || (col' == |line'.text| && col' < col)
  }

  /** From a line with one above, the point moves back: onto the line above, at the column it had or at that
      line's end, exactly unless the line above is cut short; then it goes to the start of its own line. */
  lemma PrevLineGoesUp(text: string, lines: seq<Line>, point: nat)
    requires Tiles(text, lines, 0) && point <= |text| && LineIndex(lines, point) > 0
    ensures var k := LineIndex(lines, point);
            && PrevLinePoint(lines, point) < point
            && (LineIndex(lines, PrevLinePoint(lines, point)) == k - 1 <==> !AboveIsCut(lines, k, point))
            && (AboveIsCut(lines, k, point) ==> PrevLinePoint(lines, point) == lines[k].start)
            && (!AboveIsCut(lines, k, point) ==>
                  KeepsColumn(lines[k], point, lines[k - 1], PrevLinePoint(lines, point)))
  {
    PointHasOneLine(text, lines, point);
    var k := LineIndex(lines, point);
    var p := PrevLinePoint(lines, point);
    assert Follows(lines[k - 1], lines[k]);
    PointHasOneLine(text, lines, p);
    if AboveIsCut(lines, k, point) {
      assert OnLine(lines, k, p);
    } else {
      assert OnLine(lines, k - 1, p);
    }
  }

  /** A text on which the point, at the end of line 1, stays on that line. */
  lemma PrevLineStays()
    ensures var lines := Split("b cccc", 3);
            && |lines| == 2 && LineIndex(lines, 5) == 1
            && PrevLinePoint(lines, 5) == 2 && LineIndex(lines, PrevLinePoint(lines, 5)) == 1
  {
    var t := "b cccc";
    assert NextCut(t, 3, 0) == Break(2, 2) by {
      assert StopAt(t, 2, 4) == 4;
      assert StopAt(t, 0, 4) == 4;
      assert LastSpace(t, 0, 2) == Some(1);
      assert LastSpace(t, 0, 4) == Some(1);
    }
    assert NextCut(t, 3, 2) == Final by {
      assert StopAt(t, 4, 6) == 6;
      assert StopAt(t, 2, 6) == 6;
    }
    assert SplitFrom(t, 3, 2) == [Line(2, t[2..])];
    assert Split(t, 3) == [Line(0, t[0..2]), Line(2, t[2..])];
  }

  /** The line below is soft-broken and no longer than the point's column, so that its end is not on it. */
  predicate BelowIsCut(lines: seq<Line>, k: nat, point: nat)
    requires k + 1 < |lines| && lines[k].start <= point
  {
    && k + 2 < |lines| && SoftBroken(lines[k + 1], lines[k + 2])
    && |lines[k + 1].text| <= point - lines[k].start
  }

  /** From a line with one below, the point moves on: onto the line below, at the column it had or at that line's
      end, exactly unless the line below is cut short; then it skips that line, to the start of the one after it. */
  lemma NextLineGoesDown(text: string, lines: seq<Line>, point: nat)
    requires Tiles(text, lines, 0) && point <= |text| && LineIndex(lines, point) + 1 < |lines|
    ensures var k := LineIndex(lines, point);
            && point < NextLinePoint(lines, point) <= |text|
            && (LineIndex(lines, NextLinePoint(lines, point)) == k + 1 <==> !BelowIsCut(lines, k, point))
            && (BelowIsCut(lines, k, point) ==> NextLinePoint(lines, point) == lines[k + 2].start)
            && (!BelowIsCut(lines, k, point) ==>
                  KeepsColumn(lines[k], point, lines[k + 1], NextLinePoint(lines, point)))
  {
    PointHasOneLine(text, lines, point);
    var k, p := LineIndex(lines, point), NextLinePoint(lines, point);
    StartsIncrease(text, lines, 0, k + 1, k + 1);
    assert IsSlice(text, lines[k + 1]);
    if k + 2 < |lines| {
      assert Follows(lines[k + 1], lines[k + 2]);
      StartsIncrease(text, lines, 0, k + 2, k + 2);
    }
    PointHasOneLine(text, lines, p);
    if !BelowIsCut(lines, k, point) {
      assert OnLine(lines, k + 1, p);
    }
  }

  /** Previous-line takes next-line back exactly if the line below is long enough for the column, and not cut short. */
  lemma NextLineIsUndone(text: string, lines: seq<Line>, point: nat)
    requires Tiles(text, lines, 0) && point <= |text| && LineIndex(lines, point) + 1 < |lines|
    ensures var k := LineIndex(lines, point);
            PrevLinePoint(lines, NextLinePoint(lines, point)) == point <==>
            point - lines[k].start <= |lines[k + 1].text| && !BelowIsCut(lines, k, point)
  {
    var k, p := LineIndex(lines, point), NextLinePoint(lines, point);
    PointHasOneLine(text, lines, point);
    NextLineGoesDown(text, lines, point);
    StartsIncrease(text, lines, 0, 0, k + 1);
    if BelowIsCut(lines, k, point) {
      StartsIncrease(text, lines, 0, k + 1, k + 2);
      PointHasOneLine(text, lines, p);
      if k + 3 < |lines| { StartsIncrease(text, lines, 0, k + 2, k + 3); }
      assert OnLine(lines, k + 2, p);
    }
  }

  /** And next-line takes previous-line back exactly if the line above is, and is not. */
  lemma PrevLineIsUndone(text: string, lines: seq<Line>, point: nat)
    requires Tiles(text, lines, 0) && point <= |text| && LineIndex(lines, point) > 0
    ensures var k := LineIndex(lines, point);
            NextLinePoint(lines, PrevLinePoint(lines, point)) == point <==>
            point - lines[k].start <= |lines[k - 1].text| && !AboveIsCut(lines, k, point)
  {
    var k, p := LineIndex(lines, point), PrevLinePoint(lines, point);
    PointHasOneLine(text, lines, point);
    PrevLineGoesUp(text, lines, point);
    if AboveIsCut(lines, k, point) {
      assert Follows(lines[k - 1], lines[k]) && p == lines[k].start;
      PointHasOneLine(text, lines, p);
      assert OnLine(lines, k, p);
    }
  }

  /** On the first line previous-line stays, and on the last one next-line does. */
  lemma StaysAtEdge(lines: seq<Line>, point: nat)
    requires |lines| > 0 && lines[0].start <= point
    ensures LineIndex(lines, point) == 0 ==> PrevLinePoint(lines, point) == point
    ensures LineIndex(lines, point) == |lines| - 1 ==> NextLinePoint(lines, point) == point
  {
  }

  function PrevLines(lines: seq<Line>, point: nat, n: nat): (p: nat)
    requires |lines| > 0 && lines[0].start == 0
    decreases n
  {
    if n == 0 then point else PrevLines(lines, PrevLinePoint(lines, point), n - 1)
  }

  /** Enough previous-line motions reach the first line, from anywhere. */
  lemma {:induction false} PrevLinesReachTop(text: string, lines: seq<Line>, point: nat) returns (n: nat)
    requires Tiles(text, lines, 0) && point <= |text|
    ensures n <= point && PrevLines(lines, point, n) <= |text|
    ensures LineIndex(lines, PrevLines(lines, point, n)) == 0
    decreases point
  {
    if LineIndex(lines, point) == 0 {
      n := 0;
    } else {
      PrevLineGoesUp(text, lines, point);
      n := PrevLinesReachTop(text, lines, PrevLinePoint(lines, point));
      n := n + 1;
    }
  }
}
