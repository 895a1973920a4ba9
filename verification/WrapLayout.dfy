/** Where __ctalkWrapText of lib/textcx.c places the text boxes of a pane, and which of them end a line. */
module WrapLayout {
  import opened CStrings

  /** A piece of text as wide as the font makes it. A tag may be escaped, and is then shown as text. */
  datatype Token = Token(text: string, width: nat, escapedTag: bool)

  datatype Placed = Placed(x: int, width: nat, wrapAfter: bool, line: nat)

  /** The loop's variables, and the boxes placed so far. */
  datatype State = State(x: int, lineLength: nat, line: nat, placed: seq<Placed>)

  predicate IsTag(t: Token) {
    t.text != "" && t.text[0] == '<' && t.text[|t.text| - 1] == '>'
  }

  predicate IsNewline(t: Token) {
    t.text != "" && (t.text[0] == '\n' || t.text[0] == '\r')
  }

  predicate IsOneBlank(t: Token) {
    |t.text| == 1 && IsBlank(t.text[0])
  }

  /** The width that counts toward the length of a line. */
  function Charge(t: Token): nat {
    if IsTag(t) then (if t.escapedTag then t.width else 0) else if IsNewline(t) then 0 else t.width
  }

  datatype Face = Regular | Bold | Italic

  /** select_new_face, for the tags for bold and italic text. */
  function TagFace(face: Face, tag: string): Face {
    if tag == "</b>" || tag == "</i>" then Regular
    else if tag == "<b>" then Bold
    else if tag == "<i>" then Italic
    else face
  }

  /** The face that is chosen after a token: only a tag that is not escaped can change it. */
  function FaceAfter(face: Face, t: Token): Face {
    if IsTag(t) && !t.escapedTag then TagFace(face, t.text) else face
  }

  // ---------- One turn of the loop ----------

  /** The backslash before an escaped tag takes no room. */
  function HideEscape(t: Token, placed: seq<Placed>): (p: seq<Placed>)
    ensures |p| == |placed|
  {
    if IsTag(t) && t.escapedTag && placed != [] then
      placed[|placed| - 1 := placed[|placed| - 1].(width := 0)]
    else placed
  }

  function EndLine(placed: seq<Placed>): (p: seq<Placed>)
    ensures |p| == |placed|
  {
    if placed == [] then placed else placed[|placed| - 1 := placed[|placed| - 1].(wrapAfter := true)]
  }

  function Place(paneWidth: int, lmargin: int, s: State, t: Token): State {
    var width, placed := Charge(t), HideEscape(t, s.placed);
    if IsNewline(t) then
      State(lmargin, 0, s.line + 1, placed + [Placed(s.x, width, true, s.line)])
    else if s.lineLength + width > paneWidth - lmargin then
      var placed := EndLine(placed);
      if IsOneBlank(t) then
        State(lmargin, width, s.line + 1, placed + [Placed(lmargin, 0, false, s.line + 1)])
      else
        State(lmargin + width, width, s.line + 1, placed + [Placed(lmargin, width, false, s.line + 1)])
    else
      State(s.x + width, s.lineLength + width, s.line, placed + [Placed(s.x, width, false, s.line)])
  }

  function Laid(paneWidth: int, lmargin: int, tokens: seq<Token>): (s: State)
    ensures |s.placed| == |tokens|
  {
    if tokens == [] then State(lmargin, 0, 0, [])
    else Place(paneWidth, lmargin, Laid(paneWidth, lmargin, tokens[..|tokens| - 1]), tokens[|tokens| - 1])
  }

  // ---------- What a layout keeps ----------

  /** The same boxes in the same places, none of them wider. */
  ghost predicate NoWider(a: seq<Placed>, b: seq<Placed>) {
    && |a| == |b|
    && forall i | 0 <= i < |a| :: b[i].x == a[i].x && b[i].line == a[i].line && b[i].width <= a[i].width
  }

  lemma LastIsNoWider(t: Token, placed: seq<Placed>)
    ensures NoWider(placed, HideEscape(t, placed)) && NoWider(placed, EndLine(HideEscape(t, placed)))
  {
  }

  /** Every box is at or right of the margin, lines go down, and boxes on a line do not overlap. */
  ghost predicate InOrder(lmargin: int, placed: seq<Placed>) {
    && (forall i | 0 <= i < |placed| :: lmargin <= placed[i].x)
    && (forall i, j | 0 <= i < j < |placed| :: IsAfter(placed[i], placed[j]))
  }

  predicate IsAfter(a: Placed, b: Placed) {
    a.line <= b.line && (a.line == b.line ==> a.x + a.width <= b.x)
  }

  /** The next box may go at x on this line. */
  ghost predicate EndsBefore(placed: seq<Placed>, x: int, line: nat) {
    forall i | 0 <= i < |placed| ::
      placed[i].line <= line && (placed[i].line == line ==> placed[i].x + placed[i].width <= x)
  }

  lemma NoWiderInOrder(lmargin: int, a: seq<Placed>, b: seq<Placed>, x: int, line: nat)
    requires NoWider(a, b) && InOrder(lmargin, a) && EndsBefore(a, x, line)
    ensures InOrder(lmargin, b) && EndsBefore(b, x, line)
  {
  }

  lemma AddBox(lmargin: int, placed: seq<Placed>, x: int, line: nat, box: Placed)
    requires InOrder(lmargin, placed) && EndsBefore(placed, x, line) && lmargin <= box.x
    requires box.line > line || (box.line == line && x <= box.x)
    ensures InOrder(lmargin, placed + [box])
    ensures forall x' | box.x + box.width <= x' :: EndsBefore(placed + [box], x', box.line)
    ensures EndsBefore(placed + [box], lmargin, box.line + 1)
  {
  }

  ghost predicate Ordered(lmargin: int, s: State) {
    && InOrder(lmargin, s.placed) && EndsBefore(s.placed, s.x, s.line)
    && lmargin <= s.x <= lmargin + s.lineLength
  }

  lemma PlaceKeepsOrder(paneWidth: int, lmargin: int, s: State, t: Token)
    requires Ordered(lmargin, s)
    ensures Ordered(lmargin, Place(paneWidth, lmargin, s, t))
  {
    hide InOrder, EndsBefore, NoWider, HideEscape, EndLine, IsTag, IsOneBlank, Charge;
    LastIsNoWider(t, s.placed);
    var width, hidden, ended := Charge(t), HideEscape(t, s.placed), EndLine(HideEscape(t, s.placed));
    NoWiderInOrder(lmargin, s.placed, hidden, s.x, s.line);
    NoWiderInOrder(lmargin, s.placed, ended, s.x, s.line);
    if IsNewline(t) {
      AddBox(lmargin, hidden, s.x, s.line, Placed(s.x, width, true, s.line));
    } else if s.lineLength + width > paneWidth - lmargin {
      AddBox(lmargin, ended, s.x, s.line, Placed(lmargin, if IsOneBlank(t) then 0 else width, false, s.line + 1));
    } else {
      AddBox(lmargin, hidden, s.x, s.line, Placed(s.x, width, false, s.line));
    }
  }

  lemma {:induction false} LaidInOrder(paneWidth: int, lmargin: int, tokens: seq<Token>)
    ensures Ordered(lmargin, Laid(paneWidth, lmargin, tokens))
  {
    if tokens == [] {
    } else {
      var before := tokens[..|tokens| - 1];
      LaidInOrder(paneWidth, lmargin, before);
      PlaceKeepsOrder(paneWidth, lmargin, Laid(paneWidth, lmargin, before), tokens[|tokens| - 1]);
    }
  }

  /** In every layout, no box is left of the margin, lines go down, and boxes on a line do not overlap. */
  lemma BoxesDoNotOverlap(paneWidth: int, lmargin: int, tokens: seq<Token>, i: nat, j: nat)
    requires i < j < |tokens|
    ensures var p := Laid(paneWidth, lmargin, tokens).placed;
            && lmargin <= p[i].x && p[i].line <= p[j].line
            && (p[i].line == p[j].line ==> p[i].x + p[i].width <= p[j].x)
  {
    LaidInOrder(paneWidth, lmargin, tokens);
    assert IsAfter(Laid(paneWidth, lmargin, tokens).placed[i], Laid(paneWidth, lmargin, tokens).placed[j]);
  }

  // ---------- Where lines end ----------

  predicate Marks(box: Placed, nextLine: nat) {
    box.wrapAfter <==> box.line < nextLine
  }

  /** A box ends a line just when the next one is further down. */
  ghost predicate FlagsMarkLines(placed: seq<Placed>, line: nat) {
    && (forall i, j | 0 <= i < |placed| && 0 <= j < |placed| && j == i + 1 :: Marks(placed[i], placed[j].line))
    && (placed != [] ==> Marks(placed[|placed| - 1], line))
  }

  lemma PlaceMarksLines(paneWidth: int, lmargin: int, s: State, t: Token)
    requires FlagsMarkLines(s.placed, s.line) && EndsBefore(s.placed, s.x, s.line)
    ensures FlagsMarkLines(Place(paneWidth, lmargin, s, t).placed, Place(paneWidth, lmargin, s, t).line)
  {
  }

  lemma {:induction false} LaidMarksLines(paneWidth: int, lmargin: int, tokens: seq<Token>)
    ensures FlagsMarkLines(Laid(paneWidth, lmargin, tokens).placed, Laid(paneWidth, lmargin, tokens).line)
  {
    if tokens == [] {
    } else {
      var before := tokens[..|tokens| - 1];
      LaidMarksLines(paneWidth, lmargin, before);
      LaidInOrder(paneWidth, lmargin, before);
      PlaceMarksLines(paneWidth, lmargin, Laid(paneWidth, lmargin, before), tokens[|tokens| - 1]);
    }
  }

  // ---------- Where boxes end ----------

  /** How far right of the margin a box may end. */
  function RightLimit(paneWidth: int, lmargin: int): nat {
    if paneWidth < lmargin then 0 else paneWidth - lmargin
  }

  predicate TooWide(limit: nat, t: Token) {
    Charge(t) > limit
  }

  /** A box ends within the limit, unless it is too wide for any line, or a newline after such a box. */
  predicate Fits(limit: nat, lmargin: int, tokens: seq<Token>, placed: seq<Placed>, i: nat)
    requires i < |tokens| == |placed|
  {
    || placed[i].x + placed[i].width <= lmargin + limit
    || (TooWide(limit, tokens[i]) && placed[i].x == lmargin)
    || (IsNewline(tokens[i]) && i > 0 && TooWide(limit, tokens[i - 1]) && placed[i - 1].line == placed[i].line)
  }

  /** A box that is too wide shares its line with nothing but a newline after it. */
  predicate Alone(limit: nat, tokens: seq<Token>, placed: seq<Placed>, i: nat, j: nat)
    requires i < |tokens| == |placed| && j < |placed|
  {
    i != j && TooWide(limit, tokens[i]) && placed[i].line == placed[j].line ==> j == i + 1 && IsNewline(tokens[j])
  }

  ghost predicate AllFit(limit: nat, lmargin: int, tokens: seq<Token>, placed: seq<Placed>)
    requires |tokens| == |placed|
  {
    && (forall i | 0 <= i < |tokens| :: Fits(limit, lmargin, tokens, placed, i))
    && (forall i, j | 0 <= i < |tokens| && 0 <= j < |tokens| :: Alone(limit, tokens, placed, i, j))
  }

  /** The line being filled is too long just when it holds one box that is too wide. */
  ghost predicate LastLine(limit: nat, tokens: seq<Token>, s: State)
    requires |tokens| == |s.placed|
  {
    && (forall i | 0 <= i < |tokens| && s.placed[i].line == s.line && TooWide(limit, tokens[i]) ::
          i == |tokens| - 1 && s.lineLength > limit)
    && (s.lineLength > limit ==>
          tokens != [] && TooWide(limit, tokens[|tokens| - 1]) && s.placed[|tokens| - 1].line == s.line &&
          forall i | 0 <= i < |tokens| - 1 :: s.placed[i].line < s.line)
    && (forall i | 0 <= i < |tokens| :: s.placed[i].line <= s.line)
  }

  lemma NoWiderFits(limit: nat, lmargin: int, tokens: seq<Token>, a: seq<Placed>, b: seq<Placed>)
    requires |tokens| == |a| && NoWider(a, b) && AllFit(limit, lmargin, tokens, a)
    ensures AllFit(limit, lmargin, tokens, b)
  {
    forall i | 0 <= i < |tokens|
      ensures Fits(limit, lmargin, tokens, b, i)
    {
      assert Fits(limit, lmargin, tokens, a, i);
    }
    forall i, j | 0 <= i < |tokens| && 0 <= j < |tokens|
      ensures Alone(limit, tokens, b, i, j)
    {
      assert Alone(limit, tokens, a, i, j);
    }
  }

  lemma AddFit(limit: nat, lmargin: int, tokens: seq<Token>, placed: seq<Placed>, t: Token, box: Placed)
    requires |tokens| == |placed| && AllFit(limit, lmargin, tokens, placed)
    requires Fits(limit, lmargin, tokens + [t], placed + [box], |tokens|)
    requires forall i | 0 <= i < |tokens| ::
               && Alone(limit, tokens + [t], placed + [box], i, |tokens|)
               && Alone(limit, tokens + [t], placed + [box], |tokens|, i)
    ensures AllFit(limit, lmargin, tokens + [t], placed + [box])
  {
    var ts, ps := tokens + [t], placed + [box];
    forall i | 0 <= i < |ts|
      ensures Fits(limit, lmargin, ts, ps, i)
    {
      if i < |tokens| { assert Fits(limit, lmargin, tokens, placed, i); }
    }
    forall i, j | 0 <= i < |ts| && 0 <= j < |ts|
      ensures Alone(limit, ts, ps, i, j)
    {
      if i < |tokens| && j < |tokens| { assert Alone(limit, tokens, placed, i, j); }
    }
  }

  /** The box of a newline ends the line, even one that is too long. */
  lemma NewlineFits(limit: nat, lmargin: int, tokens: seq<Token>, s: State, placed: seq<Placed>, t: Token, box: Placed)
    requires |tokens| == |s.placed| && NoWider(s.placed, placed) && IsNewline(t) && s.x <= lmargin + s.lineLength
    requires AllFit(limit, lmargin, tokens, placed) && LastLine(limit, tokens, s)
    requires box.x == s.x && box.width == 0 && box.line == s.line
    ensures AllFit(limit, lmargin, tokens + [t], placed + [box])
    ensures LastLine(limit, tokens + [t], State(lmargin, 0, s.line + 1, placed + [box]))
  {
    AddFit(limit, lmargin, tokens, placed, t, box);
  }

  /** A box that does not fit opens a line, which is too long only if the box is too wide. */
  lemma OverflowFits(limit: nat, lmargin: int, tokens: seq<Token>, s: State, placed: seq<Placed>, t: Token, box: Placed,
                     x: int)
    requires |tokens| == |s.placed| && NoWider(s.placed, placed)
    requires AllFit(limit, lmargin, tokens, placed) && LastLine(limit, tokens, s)
    requires box.x == lmargin && box.width <= Charge(t) && box.line == s.line + 1
    ensures AllFit(limit, lmargin, tokens + [t], placed + [box])
    ensures LastLine(limit, tokens + [t], State(x, Charge(t), s.line + 1, placed + [box]))
  {
    AddFit(limit, lmargin, tokens, placed, t, box);
  }

  lemma RoomFits(limit: nat, lmargin: int, tokens: seq<Token>, s: State, placed: seq<Placed>, t: Token, box: Placed)
    requires |tokens| == |s.placed| && NoWider(s.placed, placed) && s.x <= lmargin + s.lineLength
    requires AllFit(limit, lmargin, tokens, placed) && LastLine(limit, tokens, s)
    requires 0 <= s.lineLength && s.lineLength + Charge(t) <= limit
    requires box.x == s.x && box.width == Charge(t) && box.line == s.line
    ensures AllFit(limit, lmargin, tokens + [t], placed + [box])
    ensures LastLine(limit, tokens + [t], State(s.x + Charge(t), s.lineLength + Charge(t), s.line, placed + [box]))
  {
    AddFit(limit, lmargin, tokens, placed, t, box);
  }

  lemma PlaceFits(paneWidth: int, lmargin: int, tokens: seq<Token>, s: State, t: Token)
    requires |tokens| == |s.placed| && Ordered(lmargin, s)
    requires AllFit(RightLimit(paneWidth, lmargin), lmargin, tokens, s.placed)
    requires LastLine(RightLimit(paneWidth, lmargin), tokens, s)
    ensures AllFit(RightLimit(paneWidth, lmargin), lmargin, tokens + [t], Place(paneWidth, lmargin, s, t).placed)
    ensures LastLine(RightLimit(paneWidth, lmargin), tokens + [t], Place(paneWidth, lmargin, s, t))
  {
    hide AllFit, LastLine, NoWider, HideEscape, EndLine, IsOneBlank, InOrder, EndsBefore;
    LastIsNoWider(t, s.placed);
    var limit, width := RightLimit(paneWidth, lmargin), Charge(t);
    var hidden, ended := HideEscape(t, s.placed), EndLine(HideEscape(t, s.placed));
    NoWiderFits(limit, lmargin, tokens, s.placed, hidden);
    NoWiderFits(limit, lmargin, tokens, s.placed, ended);
    if IsNewline(t) {
      NewlineFits(limit, lmargin, tokens, s, hidden, t, Placed(s.x, width, true, s.line));
    } else if s.lineLength + width > paneWidth - lmargin {
      var box := Placed(lmargin, if IsOneBlank(t) then 0 else width, false, s.line + 1);
      OverflowFits(limit, lmargin, tokens, s, ended, t, box, if IsOneBlank(t) then lmargin else lmargin + width);
    } else {
      RoomFits(limit, lmargin, tokens, s, hidden, t, Placed(s.x, width, false, s.line));
    }
  }

  lemma {:induction false} LaidFits(paneWidth: int, lmargin: int, tokens: seq<Token>)
    ensures AllFit(RightLimit(paneWidth, lmargin), lmargin, tokens, Laid(paneWidth, lmargin, tokens).placed)
    ensures LastLine(RightLimit(paneWidth, lmargin), tokens, Laid(paneWidth, lmargin, tokens))
  {
    hide AllFit, Place;
    if tokens == [] {
      NothingFits(RightLimit(paneWidth, lmargin), lmargin);
    } else {
      var before, t := tokens[..|tokens| - 1], tokens[|tokens| - 1];
      LaidFits(paneWidth, lmargin, before);
      LaidInOrder(paneWidth, lmargin, before);
      PlaceFits(paneWidth, lmargin, before, Laid(paneWidth, lmargin, before), t);
      assert before + [t] == tokens;
    }
  }

  lemma NothingFits(limit: nat, lmargin: int)
    ensures AllFit(limit, lmargin, [], [])
  {
  }

  // ---------- Lines are filled ----------

  /** The widths charged to a line. */
  function Total(tokens: seq<Token>, placed: seq<Placed>, line: nat): nat
    requires |tokens| == |placed|
  {
    if tokens == [] then 0
    else
      var n := |tokens| - 1;
      Total(tokens[..n], placed[..n], line) + if placed[n].line == line then Charge(tokens[n]) else 0
  }

  lemma {:induction false} NoWiderTotal(tokens: seq<Token>, a: seq<Placed>, b: seq<Placed>, line: nat)
    requires |tokens| == |a| && NoWider(a, b)
    ensures Total(tokens, b, line) == Total(tokens, a, line)
  {
    if tokens == [] {
    } else {
      NoWiderTotal(tokens[..|tokens| - 1], a[..|tokens| - 1], b[..|tokens| - 1], line);
    }
  }

  lemma {:induction false} NothingBelow(tokens: seq<Token>, placed: seq<Placed>, line: nat)
    requires |tokens| == |placed| && forall i | 0 <= i < |placed| :: placed[i].line < line
    ensures Total(tokens, placed, line) == 0
  {
    if tokens == [] {
    } else {
      NothingBelow(tokens[..|tokens| - 1], placed[..|tokens| - 1], line);
    }
  }

  lemma TotalAdd(tokens: seq<Token>, placed: seq<Placed>, t: Token, box: Placed, line: nat)
    requires |tokens| == |placed|
    ensures Total(tokens + [t], placed + [box], line) ==
            Total(tokens, placed, line) + if box.line == line then Charge(t) else 0
  {
    assert (tokens + [t])[..|tokens|] == tokens && (placed + [box])[..|tokens|] == placed;
  }

  /** The line that box j finds: the one of the box before it, or the next one if that is a newline. */
  function LineFound(tokens: seq<Token>, placed: seq<Placed>, j: nat): nat
    requires j <= |tokens| == |placed|
  {
    if j == 0 then 0 else placed[j - 1].line + if IsNewline(tokens[j - 1]) then 1 else 0
  }

  /** Box j goes on the line it finds, or on the one below if it is no newline and its width does not fit any more
      with those charged to that line so far. */
  predicate LineAt(room: int, tokens: seq<Token>, placed: seq<Placed>, j: nat)
    requires j < |tokens| == |placed|
  {
    var line := LineFound(tokens, placed, j);
    var full := Total(tokens[..j], placed[..j], line) + Charge(tokens[j]) > room;
    placed[j].line == if !IsNewline(tokens[j]) && full then line + 1 else line
  }

  ghost predicate Filled(room: int, tokens: seq<Token>, s: State)
    requires |tokens| == |s.placed|
  {
    && (forall j | 0 <= j < |tokens| :: LineAt(room, tokens, s.placed, j))
    && (forall i | 0 <= i < |tokens| :: s.placed[i].line <= s.line)
    && s.line == LineFound(tokens, s.placed, |tokens|)
    && s.lineLength == Total(tokens, s.placed, s.line)
  }

  lemma NoWiderLineAt(room: int, tokens: seq<Token>, a: seq<Placed>, b: seq<Placed>, j: nat)
    requires j < |tokens| == |a| && NoWider(a, b) && LineAt(room, tokens, a, j)
    ensures LineAt(room, tokens, b, j)
  {
    NoWiderTotal(tokens[..j], a[..j], b[..j], LineFound(tokens, a, j));
  }

  lemma NoWiderFilled(room: int, tokens: seq<Token>, s: State, placed: seq<Placed>)
    requires |tokens| == |s.placed| && NoWider(s.placed, placed) && Filled(room, tokens, s)
    ensures Filled(room, tokens, s.(placed := placed))
  {
    hide LineAt, Total;
    NoWiderTotal(tokens, s.placed, placed, s.line);
    forall j | 0 <= j < |tokens|
      ensures LineAt(room, tokens, placed, j)
    {
      NoWiderLineAt(room, tokens, s.placed, placed, j);
    }
  }

  lemma LineAtStays(room: int, tokens: seq<Token>, placed: seq<Placed>, t: Token, box: Placed, j: nat)
    requires j < |tokens| == |placed|
    ensures LineAt(room, tokens + [t], placed + [box], j) == LineAt(room, tokens, placed, j)
  {
    hide Total, Charge;
    assert (tokens + [t])[..j] == tokens[..j] && (placed + [box])[..j] == placed[..j];
  }

  lemma LineAtEnd(room: int, tokens: seq<Token>, s: State, t: Token, box: Placed)
    requires |tokens| == |s.placed| && Filled(room, tokens, s)
    requires box.line == if !IsNewline(t) && s.lineLength + Charge(t) > room then s.line + 1 else s.line
    ensures LineAt(room, tokens + [t], s.placed + [box], |tokens|)
  {
    hide Total, Charge;
    assert (tokens + [t])[..|tokens|] == tokens && (s.placed + [box])[..|tokens|] == s.placed;
  }

  lemma AddFilled(room: int, tokens: seq<Token>, s: State, t: Token, box: Placed, s': State)
    requires |tokens| == |s.placed| && Filled(room, tokens, s) && s'.placed == s.placed + [box]
    requires box.line == if !IsNewline(t) && s.lineLength + Charge(t) > room then s.line + 1 else s.line
    requires s'.line == if IsNewline(t) then box.line + 1 else box.line
    requires s'.lineLength == if IsNewline(t) then 0
                              else (if box.line == s.line then s.lineLength else 0) + Charge(t)
    ensures Filled(room, tokens + [t], s')
  {
    hide Total, Charge, LineAt;
    forall j | 0 <= j <= |tokens|
      ensures LineAt(room, tokens + [t], s'.placed, j)
    {
      if j < |tokens| {
        LineAtStays(room, tokens, s.placed, t, box, j);
      } else {
        LineAtEnd(room, tokens, s, t, box);
      }
    }
    TotalAdd(tokens, s.placed, t, box, s'.line);
    if s'.line > s.line { NothingBelow(tokens, s.placed, s'.line); }
  }

  lemma PlaceFills(paneWidth: int, lmargin: int, tokens: seq<Token>, s: State, t: Token)
    requires |tokens| == |s.placed| && Filled(paneWidth - lmargin, tokens, s)
    ensures Filled(paneWidth - lmargin, tokens + [t], Place(paneWidth, lmargin, s, t))
  {
    hide Filled, NoWider, HideEscape, EndLine, IsOneBlank, IsTag;
    LastIsNoWider(t, s.placed);
    var width, room, s' := Charge(t), paneWidth - lmargin, Place(paneWidth, lmargin, s, t);
    var hidden, ended := HideEscape(t, s.placed), EndLine(HideEscape(t, s.placed));
    NoWiderFilled(room, tokens, s, hidden);
    NoWiderFilled(room, tokens, s, ended);
    if IsNewline(t) {
      AddFilled(room, tokens, s.(placed := hidden), t, Placed(s.x, width, true, s.line), s');
    } else if s.lineLength + width > room {
      var box := Placed(lmargin, if IsOneBlank(t) then 0 else width, false, s.line + 1);
      AddFilled(room, tokens, s.(placed := ended), t, box, s');
    } else {
      AddFilled(room, tokens, s.(placed := hidden), t, Placed(s.x, width, false, s.line), s');
    }
  }

  lemma {:induction false} LaidIsFilled(paneWidth: int, lmargin: int, tokens: seq<Token>)
    ensures Filled(paneWidth - lmargin, tokens, Laid(paneWidth, lmargin, tokens))
  {
    if tokens == [] {
    } else {
      hide Filled, Place;
      var before, t := tokens[..|tokens| - 1], tokens[|tokens| - 1];
      LaidIsFilled(paneWidth, lmargin, before);
      PlaceFills(paneWidth, lmargin, before, Laid(paneWidth, lmargin, before), t);
      assert before + [t] == tokens;
    }
  }

  // ---------- The layout as a whole ----------

  /** Where box j goes, whatever the text: on the line it finds, or exactly when there is no room there on the next;
      at or right of the margin and within the pane, unless it is too wide for any line, and so alone on its own. And
      the box before it ends a line exactly when box j is further down. */
  lemma {:induction false} GreedyLayout(paneWidth: int, lmargin: int, tokens: seq<Token>, j: nat)
    requires j < |tokens|
    ensures var p, limit := Laid(paneWidth, lmargin, tokens).placed, RightLimit(paneWidth, lmargin);
            && LineAt(paneWidth - lmargin, tokens, p, j)
            && lmargin <= p[j].x && Fits(limit, lmargin, tokens, p, j)
            && (forall i | 0 <= i < |tokens| :: Alone(limit, tokens, p, j, i))
            && (j > 0 ==> (p[j - 1].wrapAfter <==> p[j - 1].line < p[j].line))
  {
    LaidInOrder(paneWidth, lmargin, tokens);
    LaidMarksLines(paneWidth, lmargin, tokens);
    LaidFits(paneWidth, lmargin, tokens);
    LaidIsFilled(paneWidth, lmargin, tokens);
  }
}
