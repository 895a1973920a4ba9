/** Where the text boxes stand that compress_tokens of lib/textcx.c leaves. */
module BoxGeometry {
  import opened TextBoxes

  // ---------- Boxes on lines ----------

  predicate StartsLine(b: Box) {
    b.text != "" && (b.text[0] == '\n' || b.text[0] == '\r')
  }

  predicate EndsBy(b: Box, right: int) {
    b.x + b.width <= right
  }

  /** Unless it is on the next line, the second box is right of the first, and ends in time if it is no newline. */
  predicate SideBySide(a: Box, b: Box, right: int) {
    !a.wrapAfter ==> a.x + a.width <= b.x && (EndsBy(b, right) || StartsLine(b))
  }

  /** No box is left of the margin, and every two neighbours stand side by side or on different lines. */
  predicate InLines(boxes: Boxes, left: int, right: int) {
    match boxes
    case NoBoxes => true
    case Boxes(a, rest) =>
      left <= a.x && (rest == NoBoxes || SideBySide(a, rest.head, right)) && InLines(rest, left, right)
  }

  /** What is left of a line begins at x or further right. */
  predicate RightOf(x: int, boxes: Boxes) {
    match boxes
    case NoBoxes => true
    case Boxes(b, rest) => x <= b.x && (b.wrapAfter || RightOf(x, rest))
  }

  /** No two boxes on a line overlap. */
  predicate NoOverlap(boxes: Boxes) {
    match boxes
    case NoBoxes => true
    case Boxes(b, rest) => (b.wrapAfter || RightOf(b.x + b.width, rest)) && NoOverlap(rest)
  }

  lemma {:induction false} RightOfAll(x: int, boxes: Boxes, left: int, right: int)
    requires InLines(boxes, left, right) && (boxes.Boxes? ==> x <= boxes.head.x)
    ensures RightOf(x, boxes)
  {
    match boxes
    case NoBoxes =>
    case Boxes(b, rest) => if !b.wrapAfter { RightOfAll(x, rest, left, right); }
  }

  lemma {:induction false} LinesDoNotOverlap(boxes: Boxes, left: int, right: int)
    requires InLines(boxes, left, right)
    ensures NoOverlap(boxes)
  {
    match boxes
    case NoBoxes =>
    case Boxes(b, rest) =>
      LinesDoNotOverlap(rest, left, right);
      if !b.wrapAfter { RightOfAll(b.x + b.width, rest, left, right); }
  }

  // ---------- A pass over boxes on lines ----------

  /** The test never puts a newline after another box. */
  ghost predicate KeepsNewlines(test: Test) {
    forall a, b, turn | test(a, b, turn) :: !StartsLine(a) && !StartsLine(b)
  }

  /** A group of two or more ends in time. */
  predicate GroupsEndBy(groups: Groups, right: int) {
    match groups
    case NoGroups => true
    case Groups(g, rest) => (Length(g) <= 1 || EndsBy(Merged(g), right)) && GroupsEndBy(rest, right)
  }

  /** A box that takes in the next one on its line ends in time, and is left of the same boxes. */
  lemma JoinedOnLine(a: Box, b: Box, right: int)
    requires SideBySide(a, b, right) && !a.wrapAfter && !StartsLine(b)
    ensures Joined(a, b).x == a.x && EndsBy(Joined(a, b), right)
    ensures forall c | SideBySide(b, c, right) :: SideBySide(Joined(a, b), c, right)
  {
  }

  /** A pass that covers no line break leaves the lines in order, and whatever it puts together ends in time. */
  lemma {:induction false} PassKeepsLines(groups: Groups, n: nat, test: Test, turn: nat, left: int, right: int)
    returns (result: Groups)
    requires AllBetween(groups, 1, n) && KeepsNewlines(test) && NoBreakCovered(EachMerged(groups), test, turn)
    requires InLines(EachMerged(groups), left, right) && GroupsEndBy(groups, right)
    ensures Flat(result) == Flat(groups) && EachMerged(result) == PairUp(EachMerged(groups), test, turn)
    ensures AllBetween(result, 1, 2 * n) && InLines(EachMerged(result), left, right) && GroupsEndBy(result, right)
    ensures var before, after := EachMerged(groups), EachMerged(result);
            before.Boxes? ==> after.Boxes? && after.head.x == before.head.x &&
                              (EndsBy(before.head, right) ==> EndsBy(after.head, right)) &&
                              (StartsLine(before.head) ==> StartsLine(after.head))
    decreases groups
  {
    hide Joined, StartsLine;
    match groups
    case NoGroups => result := NoGroups;
    case Groups(g, NoGroups) => result := groups;
    case Groups(g, Groups(h, rest)) =>
      if test(Merged(g), Merged(h), turn) {
        var after := PassKeepsLines(rest, n, test, turn + 1, left, right);
        result := Groups(Append(g, h), after);
        MergedAppend(g, h);
        JoinedOnLine(Merged(g), Merged(h), right);
        AppendAssoc(g, h, Flat(after));
      } else {
        var after := PassKeepsLines(Groups(h, rest), n, test, turn + 1, left, right);
        result := Groups(g, after);
      }
  }

  lemma {:induction false} SinglesEndBy(boxes: Boxes, right: int)
    ensures GroupsEndBy(Singles(boxes), right)
  {
    if boxes == NoBoxes {
    } else {
      SinglesEndBy(boxes.tail, right);
      assert Length(Boxes(boxes.head, NoBoxes)) == 1 + Length(NoBoxes);
    }
  }

  /** Compression that keeps the line breaks also keeps the lines: every box is where the first of its group was, none
      is left of the margin, no two on a line overlap, and one made of several ends in time. */
  lemma CompressionKeepsLines(boxes: Boxes, stray: nat -> bool, left: int, right: int) returns (groups: Groups)
    requires InLines(boxes, left, right) && Breaks(Compressed(boxes, stray), 0) == Breaks(boxes, 0)
    ensures Flat(groups) == boxes && EachMerged(groups) == Compressed(boxes, stray) && AllBetween(groups, 1, 4)
    ensures GroupsEndBy(groups, right)
    ensures InLines(Compressed(boxes, stray), left, right) && NoOverlap(Compressed(boxes, stray))
  {
    hide PairUp, InLines, Breaks, NoBreakCovered;
    CompressionKeepsBreaks(boxes, stray);
    FirstPassCovers(boxes, 0);
    SinglesAre(boxes);
    SinglesEndBy(boxes, right);
    groups := PassKeepsLines(Singles(boxes), 1, FirstTest, 0, left, right);
    groups := PassKeepsLines(groups, 2, Second(stray), 0, left, right);
    LinesDoNotOverlap(Compressed(boxes, stray), left, right);
  }
}
