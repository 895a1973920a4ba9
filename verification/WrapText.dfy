/** The placement loop of __ctalkWrapText of lib/textcx.c, over the list of text boxes, and the compression after it. */
module WrapText {
  import opened CStrings
  import opened TextBoxes
  import opened BoxList
  import opened BoxGeometry
  import opened WrapLayout

  /** The width of a text in a face. */
  type Measure = (Face, string) -> nat

  /** The text of a box, with the width that the face gives it. */
  function TokenOf(t: TextBox, face: Face, measure: Measure): Token
    reads t
  {
    Token(t.text, measure(face, t.text), t.escapedTag)
  }

  /** The face that is chosen once these tokens have been placed. */
  function FaceAt(face: Face, tokens: seq<Token>): Face {
    if tokens == [] then face
    else
      var n := |tokens| - 1;
      FaceAfter(FaceAt(face, tokens[..n]), tokens[n])
  }

  predicate ChoosesFace(t: Token) {
    t.text in {"<b>", "</b>", "<i>", "</i>"} && !t.escapedTag
  }

  /** The face is that of the last tag for one, or regular behind its end; without a tag for one it is the first. */
  lemma {:induction false} LastTagChooses(face: Face, tokens: seq<Token>, k: nat)
    requires forall i | k <= i < |tokens| :: !ChoosesFace(tokens[i])
    requires 0 < k <= |tokens| ==> ChoosesFace(tokens[k - 1])
    ensures k == 0 ==> FaceAt(face, tokens) == face
    ensures 0 < k <= |tokens| ==>
              FaceAt(face, tokens) ==
              if tokens[k - 1].text == "<b>" then Bold else if tokens[k - 1].text == "<i>" then Italic else Regular
    decreases |tokens|
  {
    if tokens == [] {
    } else {
      var n := |tokens| - 1;
      LastTagChooses(face, tokens[..n], k);
    }
  }

  /** The boxes of these keys are the given tokens, each measured in the face that the tags before it choose. */
  ghost predicate AreTokens(keys: seq<Key>, face: Face, measure: Measure, tokens: seq<Token>)
    reads TextBoxesOf(keys)
  {
    |tokens| == |keys| &&
    forall i | 0 <= i < |keys| ::
      InBoxes(keys, i) && TokenOf(keys[i].textBox, FaceAt(face, tokens[..i]), measure) == tokens[i]
  }

  ghost predicate InBoxes(keys: seq<Key>, i: nat)
    requires i < |keys|
  {
    keys[i].textBox in TextBoxesOf(keys)
  }

  predicate Shows(t: TextBox, p: Placed)
    reads t
  {
    t.x == p.x && t.width == p.width && t.wrapAfter == p.wrapAfter
  }

  // ---------- The list by index ----------

  lemma {:induction false} LinkedAt(p: Key?, before: Key?, keys: seq<Key>, last: Key?, i: nat)
    requires Linked(p, before, keys, null, last) && i < |keys|
    ensures i == 0 ==> keys[i] == p && keys[i].prev == before
    ensures i > 0 ==> keys[i].prev == keys[i - 1]
    ensures i + 1 < |keys| ==> keys[i].next == keys[i + 1]
    ensures i + 1 == |keys| ==> keys[i].next == null
    decreases i
  {
    assert Linked(p.next, p, keys[1..], null, last);
    if i == 0 {
    } else {
      LinkedAt(p.next, p, keys[1..], last, i - 1);
    }
  }

  lemma {:induction false} SeparateAt(keys: seq<Key>, i: nat, j: nat)
    requires Separate(keys) && i < j < |keys|
    ensures keys[i].textBox != keys[j].textBox
    decreases i
  {
    if i == 0 {
      assert keys[j] == keys[1..][j - 1];
      assert keys[j].textBox in TextBoxesOf(keys[1..]);
    } else {
      SeparateAt(keys[1..], i - 1, j - 1);
    }
  }

  // ---------- Placing ----------

  /** The first half of a turn of the loop: measures a box; hides the backslash before an escaped tag; changes the
      face after any other. */
  method MeasureBox(textBox: TextBox, prev: TextBox?, face0: Face, measure: Measure) returns (face: Face, width: nat)
    requires textBox != prev
    requires prev == null ==> !(IsTag(TokenOf(textBox, face0, measure)) && textBox.escapedTag)
    modifies textBox, prev
    ensures var t := old(TokenOf(textBox, face0, measure));
            && width == Charge(t) == textBox.width && face == FaceAfter(face0, t)
            && (prev != null ==> prev.width == if IsTag(t) && t.escapedTag then 0 else old(prev.width))
    ensures textBox.text == old(textBox.text) && textBox.escapedTag == old(textBox.escapedTag)
    ensures prev != null ==> prev.text == old(prev.text) && prev.escapedTag == old(prev.escapedTag)
    ensures prev != null ==> prev.x == old(prev.x) && prev.wrapAfter == old(prev.wrapAfter)
  {
    hide TagFace;
    face, width := face0, 0;
    var text := textBox.text;
    if text != "" && text[0] == '<' && text[|text| - 1] == '>' {
      if textBox.escapedTag {
        prev.width := 0;
        width := measure(face, text);
      } else {
        face := TagFace(face, text);
      }
    } else if text != "" && (text[0] == '\n' || text[0] == '\r') {
    } else {
      width := measure(face, text);
    }
    textBox.width := width;
  }

  /** One turn of the loop: places the box of a key, given the one before it. */
  method PlaceBox(textBox: TextBox, prev: TextBox?, face0: Face, measure: Measure, paneWidth: int, lmargin: int,
                  x0: int, lineLength0: int, ghost s: State)
    returns (face: Face, x: int, lineLength: int)
    requires textBox != prev && (prev == null <==> s.placed == [])
    requires prev != null ==> Shows(prev, s.placed[|s.placed| - 1])
    requires prev == null ==> !(IsTag(TokenOf(textBox, face0, measure)) && textBox.escapedTag)
    requires x0 == s.x && lineLength0 == s.lineLength
    modifies textBox, prev
    ensures var s' := Place(paneWidth, lmargin, s, old(TokenOf(textBox, face0, measure)));
            && x == s'.x && lineLength == s'.lineLength && Shows(textBox, s'.placed[|s.placed|])
            && (prev != null ==> Shows(prev, s'.placed[|s.placed| - 1]))
    ensures face == FaceAfter(face0, old(TokenOf(textBox, face0, measure)))
    ensures textBox.text == old(textBox.text) && textBox.escapedTag == old(textBox.escapedTag)
    ensures prev != null ==> prev.text == old(prev.text) && prev.escapedTag == old(prev.escapedTag)
  {
    hide FaceAfter, IsTag, Charge;
    var width, text := 0, textBox.text;
    x, lineLength := x0, lineLength0;
    face, width := MeasureBox(textBox, prev, face0, measure);
    if text != "" && (text[0] == '\n' || text[0] == '\r') {
      textBox.x := x;
      x, lineLength := lmargin, 0;
      textBox.wrapAfter := true;
    } else if lineLength + width > paneWidth - lmargin {
      x, lineLength := lmargin, 0;
      textBox.x := x;
      x, lineLength := x + width, lineLength + width;
      if prev != null { prev.wrapAfter := true; }
      textBox.wrapAfter := false;
      if |text| == 1 && IsBlank(text[0]) {
        x := lmargin;
        textBox.width := 0;
      }
    } else {
      textBox.x := x;
      x, lineLength := x + width, lineLength + width;
      textBox.wrapAfter := false;
    }
  }

  /** The first boxes have been placed as the layout says. */
  ghost predicate ArePlaced(keys: seq<Key>, placed: seq<Placed>)
    reads TextBoxesOf(keys)
  {
    |placed| <= |keys| && forall i | 0 <= i < |placed| :: InBoxes(keys, i) && Shows(keys[i].textBox, placed[i])
  }

  ghost predicate Distinct(keys: seq<Key>) {
    forall i, j | 0 <= i < j < |keys| :: keys[i].textBox != keys[j].textBox
  }

  lemma AllDistinct(keys: seq<Key>)
    requires Separate(keys)
    ensures Distinct(keys)
  {
  }

  lemma PlaceKeepsEarlier(paneWidth: int, lmargin: int, s: State, t: Token)
    ensures var p := Place(paneWidth, lmargin, s, t).placed;
            |p| == |s.placed| + 1 && forall k | 0 <= k < |s.placed| - 1 :: p[k] == s.placed[k]
  {
  }

  lemma FaceNext(face: Face, tokens: seq<Token>, i: nat)
    requires i < |tokens|
    ensures FaceAt(face, tokens[..i + 1]) == FaceAfter(FaceAt(face, tokens[..i]), tokens[i])
  {
    assert tokens[..i + 1][..i] == tokens[..i];
  }

  /** One turn of the loop, as a step of the whole list. */
  method PlaceNext(l: Key, prev: TextBox?, face0: Face, measure: Measure, paneWidth: int, lmargin: int,
                   x0: int, lineLength0: int,
                   ghost first: Face, ghost keys: seq<Key>, ghost tokens: seq<Token>, ghost i: nat, ghost s: State)
    returns (face: Face, x: int, lineLength: int)
    requires i < |keys| && l == keys[i] && Distinct(keys) && AreTokens(keys, first, measure, tokens)
    requires ArePlaced(keys, s.placed) && |s.placed| == i && x0 == s.x && lineLength0 == s.lineLength
    requires (i == 0 ==> prev == null) && (i > 0 ==> prev == keys[i - 1].textBox)
    requires face0 == FaceAt(first, tokens[..i]) && !(IsTag(tokens[0]) && tokens[0].escapedTag)
    modifies TextBoxesOf(keys)
    ensures AreTokens(keys, first, measure, tokens)
    ensures ArePlaced(keys, Place(paneWidth, lmargin, s, tokens[i]).placed)
    ensures face == FaceAt(first, tokens[..i + 1])
    ensures x == Place(paneWidth, lmargin, s, tokens[i]).x
    ensures lineLength == Place(paneWidth, lmargin, s, tokens[i]).lineLength
  {
    hide Place, IsTag, FaceAt, FaceAfter;
    assert InBoxes(keys, i) && (i > 0 ==> InBoxes(keys, i - 1));
    assert i > 0 ==> Shows(keys[i - 1].textBox, s.placed[i - 1]);
    assert TokenOf(l.textBox, face0, measure) == tokens[i];
    PlaceKeepsEarlier(paneWidth, lmargin, s, tokens[i]);
    FaceNext(first, tokens, i);
    face, x, lineLength := PlaceBox(l.textBox, prev, face0, measure, paneWidth, lmargin, x0, lineLength0, s);
    forall k | 0 <= k < |keys|
      ensures InBoxes(keys, k) && TokenOf(keys[k].textBox, FaceAt(first, tokens[..k]), measure) == tokens[k]
    {
      assert InBoxes(keys, k);
    }
    ghost var p := Place(paneWidth, lmargin, s, tokens[i]).placed;
    forall k | 0 <= k < |p|
      ensures InBoxes(keys, k) && Shows(keys[k].textBox, p[k])
    {
      assert InBoxes(keys, k);
      if k < i - 1 { assert p[k] == s.placed[k] && Shows(keys[k].textBox, s.placed[k]); }
    }
  }

  /** The loop of __ctalkWrapText: places every box of the list. */
  method PlaceBoxes(head: Key, first: Face, measure: Measure, paneWidth: int, lmargin: int,
                    ghost keys: seq<Key>, ghost tokens: seq<Token>)
    requires IsList(head, keys) && |tokens| == |keys| && AreTokens(keys, first, measure, tokens)
    requires !(IsTag(tokens[0]) && tokens[0].escapedTag)
    modifies TextBoxesOf(keys)
    ensures IsList(head, keys) && AreTokens(keys, first, measure, tokens)
    ensures ArePlaced(keys, Laid(paneWidth, lmargin, tokens).placed)
  {
    hide AreTokens, ArePlaced, Place, Separate, Linked, IsTag, FaceAt;
    AllDistinct(keys);
    var l: Key? := head;
    var prev: TextBox? := null;
    var face, x, lineLength := first, lmargin, 0;
    ghost var i, s := 0, Laid(paneWidth, lmargin, tokens[..0]);
    NothingPlaced(keys, first);
    FirstKey(head, keys);
    while l != null
      invariant 0 <= i <= |keys| == |tokens| && (i < |keys| ==> l == keys[i]) && (i == |keys| ==> l == null)
      invariant (i == 0 ==> prev == null) && (i > 0 ==> prev == keys[i - 1].textBox)
      invariant s == Laid(paneWidth, lmargin, tokens[..i]) && x == s.x && lineLength == s.lineLength
      invariant IsList(head, keys) && AreTokens(keys, first, measure, tokens) && ArePlaced(keys, s.placed)
      invariant face == FaceAt(first, tokens[..i])
      decreases |keys| - i
    {
      LinkedAt(head, null, keys, keys[|keys| - 1], i);
      LaidNext(paneWidth, lmargin, tokens, i);
      face, x, lineLength :=
        PlaceNext(l, prev, face, measure, paneWidth, lmargin, x, lineLength, first, keys, tokens, i, s);
      prev, l, i, s := l.textBox, l.next, i + 1, Place(paneWidth, lmargin, s, tokens[i]);
    }
    assert tokens[..i] == tokens;
  }

  lemma NothingPlaced(keys: seq<Key>, face: Face)
    ensures ArePlaced(keys, []) && FaceAt(face, []) == face
  {
  }

  lemma FirstKey(head: Key, keys: seq<Key>)
    requires IsList(head, keys)
    ensures keys[0] == head
  {
  }

  lemma LaidNext(paneWidth: int, lmargin: int, tokens: seq<Token>, i: nat)
    requires i < |tokens|
    ensures Laid(paneWidth, lmargin, tokens[..i + 1]) ==
            Place(paneWidth, lmargin, Laid(paneWidth, lmargin, tokens[..i]), tokens[i])
  {
    assert tokens[..i + 1][..i] == tokens[..i];
  }

  // ---------- Placing and compressing ----------

  /** The boxes that a layout gives for some tokens. */
  function BoxesOf(tokens: seq<Token>, placed: seq<Placed>): Boxes
    requires |tokens| == |placed|
    decreases |tokens|
  {
    if tokens == [] then NoBoxes
    else
      var box := Box(tokens[0].text, placed[0].width, placed[0].wrapAfter, placed[0].x);
      Boxes(box, BoxesOf(tokens[1..], placed[1..]))
  }

  ghost predicate HaveTexts(keys: seq<Key>, tokens: seq<Token>)
    reads TextBoxesOf(keys)
  {
    |tokens| == |keys| &&
    forall i | 0 <= i < |keys| :: InBoxes(keys, i) && keys[i].textBox.text == tokens[i].text
  }

  lemma TokensAreTexts(keys: seq<Key>, face: Face, measure: Measure, tokens: seq<Token>)
    requires AreTokens(keys, face, measure, tokens)
    ensures HaveTexts(keys, tokens)
  {
  }

  lemma {:induction false} ContentsPlaced(keys: seq<Key>, tokens: seq<Token>, placed: seq<Placed>)
    requires |tokens| == |keys| == |placed| && HaveTexts(keys, tokens) && ArePlaced(keys, placed)
    ensures Contents(keys) == BoxesOf(tokens, placed)
    decreases |keys|
  {
    if keys == [] {
    } else {
      assert InBoxes(keys, 0) && Shows(keys[0].textBox, placed[0]) && keys[0].textBox.text == tokens[0].text;
      forall i | 0 <= i < |keys[1..]|
        ensures InBoxes(keys[1..], i) && keys[1..][i].textBox.text == tokens[1..][i].text
        ensures Shows(keys[1..][i].textBox, placed[1..][i])
      {
        assert InBoxes(keys, i + 1) && Shows(keys[i + 1].textBox, placed[i + 1]);
        assert keys[1..][i] in keys[1..] && keys[i + 1].textBox.text == tokens[i + 1].text;
      }
      ContentsPlaced(keys[1..], tokens[1..], placed[1..]);
    }
  }

  ghost predicate Beside(tokens: seq<Token>, placed: seq<Placed>, i: nat, j: nat, right: int)
    requires i < |tokens| == |placed| && j < |tokens|
  {
    !placed[i].wrapAfter ==>
      placed[i].x + placed[i].width <= placed[j].x &&
      (placed[j].x + placed[j].width <= right || IsNewline(tokens[j]))
  }

  lemma {:induction false} BesideInLines(tokens: seq<Token>, placed: seq<Placed>, left: int, right: int)
    requires |tokens| == |placed| && forall i | 0 <= i < |placed| :: left <= placed[i].x
    requires forall i, j | 0 <= i < |tokens| && 0 <= j < |tokens| && j == i + 1 :: Beside(tokens, placed, i, j, right)
    ensures InLines(BoxesOf(tokens, placed), left, right)
    decreases |tokens|
  {
    if |tokens| <= 1 {
      assert |tokens| == 1 ==> BoxesOf(tokens[1..], placed[1..]) == NoBoxes;
    } else {
      var ts, ps := tokens[1..], placed[1..];
      forall i, j | 0 <= i < |ts| && 0 <= j < |ts| && j == i + 1
        ensures Beside(ts, ps, i, j, right)
      {
        assert Beside(tokens, placed, i + 1, j + 1, right);
      }
      BesideInLines(ts, ps, left, right);
      assert Beside(tokens, placed, 0, 1, right) && BoxesOf(ts, ps).Boxes?;
    }
  }

  /** The boxes of a layout stand in lines, within the pane. */
  lemma LaidInLines(paneWidth: int, lmargin: int, tokens: seq<Token>)
    ensures InLines(BoxesOf(tokens, Laid(paneWidth, lmargin, tokens).placed), lmargin,
                    lmargin + RightLimit(paneWidth, lmargin))
  {
    hide BoxesOf, InLines, Laid;
    var placed, limit := Laid(paneWidth, lmargin, tokens).placed, RightLimit(paneWidth, lmargin);
    var right := lmargin + limit;
    forall j | 0 <= j < |tokens|
      ensures lmargin <= placed[j].x
    {
      GreedyLayout(paneWidth, lmargin, tokens, j);
    }
    forall i, j | 0 <= i < |tokens| && 0 <= j < |tokens| && j == i + 1
      ensures Beside(tokens, placed, i, j, right)
    {
      GreedyLayout(paneWidth, lmargin, tokens, j);
      BoxesDoNotOverlap(paneWidth, lmargin, tokens, i, j);
      assert Alone(limit, tokens, placed, j, i);
    }
    BesideInLines(tokens, placed, lmargin, right);
  }

  /** __ctalkWrapText: places the boxes, and then compresses the list. Every box left stands for a group of boxes of the
      layout and is where the first of them was; and if the line breaks are kept, the lines are too. */
  method WrapText(head: Key, first: Face, measure: Measure, paneWidth: int, lmargin: int, stray: nat -> bool,
                  ghost keys: seq<Key>, ghost tokens: seq<Token>, ghost repr: set<object>)
    returns (ghost left: seq<Key>, ghost groups: Groups)
    requires IsList(head, keys) && InRepr(keys, repr) && |tokens| == |keys| && AreTokens(keys, first, measure, tokens)
    requires !(IsTag(tokens[0]) && tokens[0].escapedTag)
    modifies repr
    ensures IsList(head, left)
    ensures var laid := BoxesOf(tokens, Laid(paneWidth, lmargin, tokens).placed);
            var right := lmargin + RightLimit(paneWidth, lmargin);
            && Contents(left) == Compressed(laid, stray)
            && Flat(groups) == laid && EachMerged(groups) == Contents(left) && AllBetween(groups, 1, 4)
            && (Breaks(Contents(left), 0) == Breaks(laid, 0) ==>
                  InLines(Contents(left), lmargin, right) && NoOverlap(Contents(left)) && GroupsEndBy(groups, right))
  {
    hide IsList, AreTokens, ArePlaced, HaveTexts, IsTag, Compressed, Contents, BoxesOf, Laid;
    hide Flat, EachMerged, AllBetween, Breaks, InLines, NoOverlap, GroupsEndBy, RightLimit;
    BoxesInRepr(keys, repr);
    PlaceBoxes(head, first, measure, paneWidth, lmargin, keys, tokens);
    TokensAreTexts(keys, first, measure, tokens);
    ContentsPlaced(keys, tokens, Laid(paneWidth, lmargin, tokens).placed);
    left := CompressTokens(head, stray, keys, repr);
    groups := LinesAfter(paneWidth, lmargin, tokens, stray);
  }

  lemma LinesAfter(paneWidth: int, lmargin: int, tokens: seq<Token>, stray: nat -> bool) returns (groups: Groups)
    ensures var laid := BoxesOf(tokens, Laid(paneWidth, lmargin, tokens).placed);
            var right := lmargin + RightLimit(paneWidth, lmargin);
            && Flat(groups) == laid && EachMerged(groups) == Compressed(laid, stray) && AllBetween(groups, 1, 4)
            && (Breaks(Compressed(laid, stray), 0) == Breaks(laid, 0) ==>
                  && InLines(Compressed(laid, stray), lmargin, right) && NoOverlap(Compressed(laid, stray))
                  && GroupsEndBy(groups, right))
  {
    hide *;
    var laid := BoxesOf(tokens, Laid(paneWidth, lmargin, tokens).placed);
    if Breaks(Compressed(laid, stray), 0) == Breaks(laid, 0) {
      LaidInLines(paneWidth, lmargin, tokens);
      groups := CompressionKeepsLines(laid, stray, lmargin, lmargin + RightLimit(paneWidth, lmargin));
    } else {
      groups := CompressionConserves(laid, stray);
    }
  }

  lemma BoxesInRepr(keys: seq<Key>, repr: set<object>)
    requires InRepr(keys, repr)
    ensures forall t | t in TextBoxesOf(keys) :: t in repr
  {
  }

  // ---------- Compression after layout ----------

  /** Token i begins with a letter or a digit, and the next one with a blank. */
  predicate WordThenBlank(tokens: seq<Token>, i: nat)
    requires i + 1 < |tokens|
  {
    && tokens[i].text != "" && IsAlnum(tokens[i].text[0])
    && tokens[i + 1].text != "" && IsBlank(tokens[i + 1].text[0])
  }

  /** In a laid-out list, the first pass covers a line break exactly where blanks after a word have gone to the next
      line without it. */
  lemma {:induction false} BlanksOnNextLine(tokens: seq<Token>, placed: seq<Placed>, line: nat)
    requires |tokens| == |placed| && FlagsMarkLines(placed, line)
    ensures NoBreakBeforeBlank(BoxesOf(tokens, placed)) <==>
            forall i, j | 0 <= i < |tokens| && j == i + 1 && j < |tokens| && WordThenBlank(tokens, i) ::
              placed[j].line <= placed[i].line
    decreases |tokens|
  {
    if |tokens| <= 1 {
    } else {
      var ts, ps := tokens[1..], placed[1..];
      BlanksOnNextLine(ts, ps, line);
      assert Marks(placed[0], placed[1].line);
      assert BoxesOf(ts, ps).Boxes?;
      assert forall i | 0 <= i < |ts| - 1 :: WordThenBlank(ts, i) == WordThenBlank(tokens, i + 1);
    }
  }

  const FOO := Token("foo", 3, false)
  const BAR := Token("bar", 3, false)
  const BLANK := Token(" ", 1, false)

  /** In a pane four wide, "foo bar " takes two lines, and the break is after "foo ". */
  lemma TwoLines()
    ensures Laid(4, 0, [FOO, BLANK, BAR, BLANK]).placed ==
            [Placed(0, 3, false, 0), Placed(3, 1, true, 0), Placed(0, 3, false, 1), Placed(3, 1, false, 1)]
  {
    LaidNext(4, 0, [FOO, BLANK, BAR, BLANK], 0);
    LaidNext(4, 0, [FOO, BLANK, BAR, BLANK], 1);
    LaidNext(4, 0, [FOO, BLANK, BAR, BLANK], 2);
    LaidNext(4, 0, [FOO, BLANK, BAR, BLANK], 3);
    assert [FOO, BLANK, BAR, BLANK][..4] == [FOO, BLANK, BAR, BLANK];
  }

  /** Compressing that layout makes one box of both lines, twice as wide as the pane: the break at 4 is gone, and there
      is one at 8. */
  lemma LinesAreJoined(stray: nat -> bool)
    ensures var tokens := [FOO, BLANK, BAR, BLANK];
            var boxes := BoxesOf(tokens, Laid(4, 0, tokens).placed);
            && Compressed(boxes, stray) == Boxes(Box("foo bar ", 8, true, 0), NoBoxes)
            && Breaks(boxes, 0) == {4} && Breaks(Compressed(boxes, stray), 0) == {8}
  {
    TwoLines();
    hide Laid;
    var boxes := WrappedBoxes();
    FourBoxes();
    FirstPassJoins();
    SecondPassJoins(stray);
    assert Breaks(boxes, 0) == {4} by {
      assert Breaks(boxes.tail, 3) == {4} + Breaks(boxes.tail.tail, 4);
    }
  }

  function WrappedBoxes(): Boxes {
    var bar := Boxes(Box("bar", 3, false, 0), Boxes(Box(" ", 1, false, 3), NoBoxes));
    Boxes(Box("foo", 3, false, 0), Boxes(Box(" ", 1, true, 3), bar))
  }

  lemma FourBoxes()
    ensures BoxesOf([FOO, BLANK, BAR, BLANK],
                    [Placed(0, 3, false, 0), Placed(3, 1, true, 0), Placed(0, 3, false, 1), Placed(3, 1, false, 1)]) ==
            WrappedBoxes()
  {
    var t, p := [FOO, BLANK, BAR, BLANK],
      [Placed(0, 3, false, 0), Placed(3, 1, true, 0), Placed(0, 3, false, 1), Placed(3, 1, false, 1)];
    assert t[1..] == [BLANK, BAR, BLANK] && t[1..][1..] == [BAR, BLANK] && t[1..][1..][1..] == [BLANK];
    assert p[1..][1..] == [Placed(0, 3, false, 1), Placed(3, 1, false, 1)];
    assert p[1..][1..][1..] == [Placed(3, 1, false, 1)];
    assert BoxesOf(t[1..][1..][1..], p[1..][1..][1..]) == Boxes(Box(" ", 1, false, 3), BoxesOf([], []));
    assert BoxesOf(t[1..][1..], p[1..][1..]) == Boxes(Box("bar", 3, false, 0), Boxes(Box(" ", 1, false, 3), NoBoxes));
  }

  lemma FirstPassJoins()
    ensures PairUp(WrappedBoxes(), FirstTest, 0) ==
            Boxes(Box("foo ", 4, true, 0), Boxes(Box("bar ", 4, false, 0), NoBoxes))
  {
    var rest := Boxes(Box("bar", 3, false, 0), Boxes(Box(" ", 1, false, 3), NoBoxes));
    assert "foo" + " " == "foo " && "bar" + " " == "bar ";
    assert FirstTest(Box("foo", 3, false, 0), Box(" ", 1, true, 3), 0);
    assert FirstTest(Box("bar", 3, false, 0), Box(" ", 1, false, 3), 1);
    assert PairUp(rest, FirstTest, 1) == Boxes(Box("bar ", 4, false, 0), NoBoxes);
  }

  lemma SecondPassJoins(stray: nat -> bool)
    ensures PairUp(Boxes(Box("foo ", 4, true, 0), Boxes(Box("bar ", 4, false, 0), NoBoxes)), Second(stray), 0) ==
            Boxes(Box("foo bar ", 8, true, 0), NoBoxes)
  {
    assert "foo " + "bar " == "foo bar ";
    assert Second(stray)(Box("foo ", 4, true, 0), Box("bar ", 4, false, 0), 0);
  }
}
