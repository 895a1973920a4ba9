/** What compress_tokens of lib/textcx.c does to a list of text boxes, and what it keeps. */
module TextBoxes {
  import opened CStrings

  datatype Box = Box(text: string, width: nat, wrapAfter: bool, x: int)

  datatype Boxes = NoBoxes | Boxes(head: Box, tail: Boxes)

  /** Boxes in groups of neighbours. */
  datatype Groups = NoGroups | Groups(group: Boxes, rest: Groups)

  const NO_BOX := Box("", 0, false, 0)

  /** The second box joins the first, which stays where it is. */
  function Joined(a: Box, b: Box): Box {
    Box(a.text + b.text, a.width + b.width, a.wrapAfter || b.wrapAfter, a.x)
  }

  lemma JoinedAssoc(a: Box, b: Box, c: Box)
    ensures Joined(a, Joined(b, c)) == Joined(Joined(a, b), c)
    ensures Joined(a, NO_BOX) == a
  {
    assert a.text + (b.text + c.text) == (a.text + b.text) + c.text;
  }

  // ---------- The two passes ----------

  /** A test tells whether two neighbours become one box; it may depend on how many turns the loop has taken. */
  type Test = (Box, Box, nat) -> bool

  /** A pass over the boxes: two neighbours that pass the test become one box, which is then left behind. */
  function PairUp(boxes: Boxes, test: Test, turn: nat): Boxes {
    match boxes
    case Boxes(a, Boxes(b, rest)) =>
      if test(a, b, turn) then Boxes(Joined(a, b), PairUp(rest, test, turn + 1))
      else Boxes(a, PairUp(Boxes(b, rest), test, turn + 1))
    case _ => boxes
  }

  /** The first pass: a word takes in the blanks that follow it. */
  predicate FirstTest(a: Box, b: Box, turn: nat) {
    a.text != "" && IsAlnum(a.text[0]) && b.text != "" && IsBlank(b.text[0])
  }

  /** The second pass: a word with blanks takes in the next one. Its last test looks in the next box for the place
      where this box ends; past the terminating NUL, what it reads there is arbitrary. */
  predicate SecondTest(stray: nat -> bool, a: Box, b: Box, turn: nat) {
    && a.text != "" && IsAlnum(a.text[0]) && IsBlank(a.text[|a.text| - 1])
    && b.text != "" && IsAlnum(b.text[0])
    && if |a.text| - 1 < |b.text| then IsBlank(b.text[|a.text| - 1])
       else if |a.text| - 1 == |b.text| then false
       else stray(turn)
  }

  /** Two words with a blank behind each become one box if they have the same length. If they do not, they never do
      when the first is shorter or one longer, and otherwise that is left to chance. */
  lemma WordsOfOneLength(stray: nat -> bool, a: Box, b: Box, turn: nat, v: string, w: string)
    requires a.text == v + " " && b.text == w + " " && v != "" && w != ""
    requires (forall c <- v :: IsAlnum(c)) && (forall c <- w :: IsAlnum(c))
    ensures SecondTest(stray, a, b, turn) <==> |v| == |w| || (|v| > |w| + 1 && stray(turn))
  {
    assert a.text[0] == v[0] && v[0] in v && a.text[|v|] == ' ';
    assert forall k | 0 <= k < |w| :: b.text[k] == w[k] && w[k] in w;
    assert b.text[|w|] == ' ';
  }

  function Second(stray: nat -> bool): Test {
    (a, b, turn: nat) => SecondTest(stray, a, b, turn)
  }

  function Compressed(boxes: Boxes, stray: nat -> bool): Boxes {
    PairUp(PairUp(boxes, FirstTest, 0), Second(stray), 0)
  }

  // ---------- What the passes keep ----------

  function Append(xs: Boxes, ys: Boxes): Boxes {
    match xs
    case NoBoxes => ys
    case Boxes(x, rest) => Boxes(x, Append(rest, ys))
  }

  lemma {:induction false} AppendAssoc(xs: Boxes, ys: Boxes, zs: Boxes)
    ensures Append(Append(xs, ys), zs) == Append(xs, Append(ys, zs))
  {
    if xs == NoBoxes {
    } else {
      AppendAssoc(xs.tail, ys, zs);
    }
  }

  /** All the boxes of some groups, in order. */
  function Flat(groups: Groups): Boxes {
    match groups
    case NoGroups => NoBoxes
    case Groups(g, rest) => Append(g, Flat(rest))
  }

  /** One box in place of several: their texts in order, the sum of their widths, a line break if any of them has one,
      and the place of the first. */
  function Merged(group: Boxes): Box {
    match group
    case NoBoxes => NO_BOX
    case Boxes(b, rest) => Joined(b, Merged(rest))
  }

  function EachMerged(groups: Groups): Boxes {
    match groups
    case NoGroups => NoBoxes
    case Groups(g, rest) => Boxes(Merged(g), EachMerged(rest))
  }

  function Length(boxes: Boxes): nat {
    match boxes
    case NoBoxes => 0
    case Boxes(_, rest) => 1 + Length(rest)
  }

  predicate AllBetween(groups: Groups, low: nat, high: nat) {
    match groups
    case NoGroups => true
    case Groups(g, rest) => low <= Length(g) <= high && AllBetween(rest, low, high)
  }

  lemma {:induction false} MergedAppend(g: Boxes, h: Boxes)
    requires g != NoBoxes
    ensures Merged(Append(g, h)) == Joined(Merged(g), Merged(h)) && Length(Append(g, h)) == Length(g) + Length(h)
  {
    hide Joined;
    var b, rest := g.head, g.tail;
    if rest == NoBoxes {
      JoinedAssoc(b, NO_BOX, NO_BOX);
    } else {
      MergedAppend(rest, h);
      JoinedAssoc(b, Merged(rest), Merged(h));
    }
  }

  function Singles(boxes: Boxes): Groups {
    match boxes
    case NoBoxes => NoGroups
    case Boxes(b, rest) => Groups(Boxes(b, NoBoxes), Singles(rest))
  }

  lemma {:induction false} SinglesAre(boxes: Boxes)
    ensures Flat(Singles(boxes)) == boxes && EachMerged(Singles(boxes)) == boxes && AllBetween(Singles(boxes), 1, 1)
  {
    hide Joined;
    match boxes
    case NoBoxes =>
    case Boxes(b, rest) =>
      SinglesAre(rest);
      JoinedAssoc(b, NO_BOX, NO_BOX);
      assert Append(NoBoxes, rest) == rest && Merged(NoBoxes) == NO_BOX && Length(NoBoxes) == 0;
  }

  /** A pass over groups of boxes puts some neighbouring groups together. */
  lemma {:induction false} PassOverGroups(groups: Groups, n: nat, test: Test, turn: nat)
    returns (result: Groups)
    requires AllBetween(groups, 1, n)
    ensures Flat(result) == Flat(groups) && EachMerged(result) == PairUp(EachMerged(groups), test, turn)
    ensures AllBetween(result, 1, 2 * n)
    decreases groups
  {
    match groups
    case NoGroups => result := NoGroups;
    case Groups(g, NoGroups) => result := groups;
    case Groups(g, Groups(h, rest)) =>
      if test(Merged(g), Merged(h), turn) {
        var after := PassOverGroups(rest, n, test, turn + 1);
        result := Groups(Append(g, h), after);
        MergedAppend(g, h);
        AppendAssoc(g, h, Flat(after));
      } else {
        var after := PassOverGroups(Groups(h, rest), n, test, turn + 1);
        result := Groups(g, after);
      }
  }

  /** Whatever the tests say, compression conserves: each box it leaves stands for one to four consecutive boxes,
      all the boxes are accounted for in order, and a box has their texts, their widths and their line breaks, and the
      place of the first of them. */
  lemma CompressionConserves(boxes: Boxes, stray: nat -> bool) returns (groups: Groups)
    ensures Flat(groups) == boxes && EachMerged(groups) == Compressed(boxes, stray) && AllBetween(groups, 1, 4)
  {
    SinglesAre(boxes);
    groups := PassOverGroups(Singles(boxes), 1, FirstTest, 0);
    groups := PassOverGroups(groups, 2, Second(stray), 0);
  }

  lemma {:induction false} FlatMerged(groups: Groups, n: nat)
    requires AllBetween(groups, 1, n)
    ensures Merged(Flat(groups)) == Merged(EachMerged(groups))
  {
    hide Joined;
    match groups
    case NoGroups =>
    case Groups(g, rest) =>
      FlatMerged(rest, n);
      MergedAppend(g, Flat(rest));
  }

  /** The texts of some boxes one after the other. */
  function TextOf(boxes: Boxes): string {
    match boxes
    case NoBoxes => ""
    case Boxes(b, rest) => b.text + TextOf(rest)
  }

  function WidthOf(boxes: Boxes): nat {
    match boxes
    case NoBoxes => 0
    case Boxes(b, rest) => b.width + WidthOf(rest)
  }

  predicate HasBreak(boxes: Boxes) {
    match boxes
    case NoBoxes => false
    case Boxes(b, rest) => b.wrapAfter || HasBreak(rest)
  }

  /** What one box has in place of several. */
  lemma {:induction false} MergedHasAll(boxes: Boxes)
    ensures Merged(boxes).text == TextOf(boxes) && Merged(boxes).width == WidthOf(boxes)
    ensures Merged(boxes).wrapAfter <==> HasBreak(boxes)
    ensures boxes != NoBoxes ==> Merged(boxes).x == boxes.head.x
  {
    if boxes == NoBoxes {
    } else {
      MergedHasAll(boxes.tail);
    }
  }

  /** So the whole text, its total width, where it begins, and whether there is any line break at all stay the same. */
  lemma CompressionKeepsText(boxes: Boxes, stray: nat -> bool)
    ensures var left := Compressed(boxes, stray);
            && Merged(left) == Merged(boxes) && TextOf(left) == TextOf(boxes) && WidthOf(left) == WidthOf(boxes)
            && (HasBreak(left) <==> HasBreak(boxes))
            && (boxes == NoBoxes <==> left == NoBoxes) && (boxes != NoBoxes ==> left.head.x == boxes.head.x)
  {
    var groups := CompressionConserves(boxes, stray);
    FlatMerged(groups, 4);
    MergedHasAll(boxes);
    MergedHasAll(Compressed(boxes, stray));
  }

  // ---------- When the line breaks stay where they are ----------

  /** The places in the text where a box ends. */
  function Ends(boxes: Boxes, start: nat): set<nat> {
    match boxes
    case NoBoxes => {}
    case Boxes(b, rest) => {start + |b.text|} + Ends(rest, start + |b.text|)
  }

  /** The places in the text where a line ends. */
  function Breaks(boxes: Boxes, start: nat): set<nat> {
    match boxes
    case NoBoxes => {}
    case Boxes(b, rest) =>
      (if b.wrapAfter then {start + |b.text|} else {}) + Breaks(rest, start + |b.text|)
  }

  /** No pair is put together whose first box ends a line. */
  predicate NoBreakCovered(boxes: Boxes, test: Test, turn: nat) {
    match boxes
    case Boxes(a, Boxes(b, rest)) =>
      if test(a, b, turn) then !a.wrapAfter && NoBreakCovered(rest, test, turn + 1)
      else NoBreakCovered(Boxes(b, rest), test, turn + 1)
    case _ => true
  }

  /** The test looks at the first characters of both boxes. */
  ghost predicate OnWords(test: Test) {
    forall a, b, turn | test(a, b, turn) :: a.text != "" && b.text != ""
  }

  lemma {:induction false} BreaksAreEnds(boxes: Boxes, start: nat)
    ensures Breaks(boxes, start) <= Ends(boxes, start)
  {
    if boxes == NoBoxes {
    } else {
      BreaksAreEnds(boxes.tail, start + |boxes.head.text|);
    }
  }

  lemma {:induction false} EndsAfter(boxes: Boxes, start: nat, e: nat)
    requires e in Ends(boxes, start)
    ensures start <= e
  {
    if e == start + |boxes.head.text| {
    } else {
      EndsAfter(boxes.tail, start + |boxes.head.text|, e);
    }
  }

  lemma {:induction false} PairUpEnds(boxes: Boxes, test: Test, turn: nat, start: nat)
    ensures Ends(PairUp(boxes, test, turn), start) <= Ends(boxes, start)
    decreases boxes
  {
    match boxes
    case Boxes(a, Boxes(b, rest)) =>
      if test(a, b, turn) {
        PairUpEnds(rest, test, turn + 1, start + |a.text| + |b.text|);
      } else {
        PairUpEnds(Boxes(b, rest), test, turn + 1, start + |a.text|);
      }
    case _ =>
  }

  lemma {:induction false} PairUpKeepsBreaks(boxes: Boxes, test: Test, turn: nat, start: nat)
    requires NoBreakCovered(boxes, test, turn)
    ensures Breaks(PairUp(boxes, test, turn), start) == Breaks(boxes, start)
    decreases boxes
  {
    match boxes
    case Boxes(a, Boxes(b, rest)) =>
      if test(a, b, turn) {
        PairUpKeepsBreaks(rest, test, turn + 1, start + |a.text| + |b.text|);
      } else {
        PairUpKeepsBreaks(Boxes(b, rest), test, turn + 1, start + |a.text|);
      }
    case _ =>
  }

  /** A line break that is covered is lost: no box ends there any more. */
  lemma {:induction false} CoveredBreakIsLost(boxes: Boxes, test: Test, turn: nat, start: nat) returns (e: nat)
    requires OnWords(test) && !NoBreakCovered(boxes, test, turn)
    ensures e > start && e in Breaks(boxes, start) && e !in Ends(PairUp(boxes, test, turn), start)
    decreases boxes
  {
    var a, b, rest := boxes.head, boxes.tail.head, boxes.tail.tail;
    var middle, end := start + |a.text|, start + |a.text| + |b.text|;
    if test(a, b, turn) {
      if a.wrapAfter {
        e := middle;
        if e in Ends(PairUp(rest, test, turn + 1), end) {
          EndsAfter(PairUp(rest, test, turn + 1), end, e);
        }
      } else {
        e := CoveredBreakIsLost(rest, test, turn + 1, end);
      }
    } else {
      e := CoveredBreakIsLost(boxes.tail, test, turn + 1, middle);
    }
  }

  /** No word that ends a line is followed by blanks. */
  predicate NoBreakBeforeBlank(boxes: Boxes) {
    match boxes
    case Boxes(a, Boxes(b, rest)) => !(a.wrapAfter && FirstTest(a, b, 0)) && NoBreakBeforeBlank(Boxes(b, rest))
    case _ => true
  }

  /** The first pass combines all the pairs it could, since none of them overlap. */
  lemma {:induction false} FirstPassCovers(boxes: Boxes, turn: nat)
    ensures NoBreakCovered(boxes, FirstTest, turn) <==> NoBreakBeforeBlank(boxes)
    decreases boxes
  {
    match boxes
    case Boxes(a, Boxes(b, rest)) =>
      if FirstTest(a, b, turn) {
        FirstPassCovers(rest, turn + 1);
      } else {
        FirstPassCovers(Boxes(b, rest), turn + 1);
      }
    case _ =>
  }

  /** Compression keeps the line breaks exactly when no word that ends a line is followed by blanks, and the second
      pass covers no break of what the first one leaves. */
  lemma CompressionKeepsBreaks(boxes: Boxes, stray: nat -> bool)
    ensures Breaks(Compressed(boxes, stray), 0) == Breaks(boxes, 0) <==>
            NoBreakBeforeBlank(boxes) && NoBreakCovered(PairUp(boxes, FirstTest, 0), Second(stray), 0)
  {
    FirstPassCovers(boxes, 0);
    var once := PairUp(boxes, FirstTest, 0);
    BreaksAreEnds(Compressed(boxes, stray), 0);
    PairUpEnds(once, Second(stray), 0, 0);
    if !NoBreakCovered(boxes, FirstTest, 0) {
      var e := CoveredBreakIsLost(boxes, FirstTest, 0, 0);
    } else {
      PairUpKeepsBreaks(boxes, FirstTest, 0, 0);
      if !NoBreakCovered(once, Second(stray), 0) {
        var e := CoveredBreakIsLost(once, Second(stray), 0, 0);
      } else {
        PairUpKeepsBreaks(once, Second(stray), 0, 0);
      }
    }
  }
}
