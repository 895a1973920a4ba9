/** How wide the boxes are that __ctalkWrapText of lib/textcx.c has placed, and where exactly on their lines. */
module WrapPlaces {
  import opened WrapLayout

  /** Token j is a single blank that has gone to the next line: it takes no room there. */
  predicate BlankOpens(tokens: seq<Token>, placed: seq<Placed>, j: nat)
    requires j < |tokens| == |placed|
  {
    |tokens[j].text| == 1 && tokens[j].text[0] in {' ', '\t'} && placed[j].line != LineFound(tokens, placed, j)
  }

  /** A text in angle brackets. */
  predicate InBrackets(text: string) {
    text != "" && text[0] == '<' && text[|text| - 1] == '>'
  }

  predicate BeginsLine(text: string) {
    text != "" && text[0] in {'\n', '\r'}
  }

  /** The next token is an escaped tag. */
  predicate EscapesTag(tokens: seq<Token>, j: nat)
    requires j < |tokens|
  {
    j + 1 < |tokens| && InBrackets(tokens[j + 1].text) && tokens[j + 1].escapedTag
  }

  /** The room taken on a line by the boxes so far. */
  function Offset(tokens: seq<Token>, placed: seq<Placed>, line: nat): nat
    requires |tokens| == |placed|
  {
    if tokens == [] then 0
    else
      var n := |tokens| - 1;
      Offset(tokens[..n], placed[..n], line) +
      if placed[n].line == line && !BlankOpens(tokens, placed, n) then Charge(tokens[n]) else 0
  }

  /** Box j begins where those before it on its line end. */
  predicate IsAt(lmargin: int, tokens: seq<Token>, placed: seq<Placed>, j: nat)
    requires j < |tokens| == |placed|
  {
    placed[j].x == lmargin + Offset(tokens[..j], placed[..j], placed[j].line)
  }

  /** A tag that is not escaped and a newline take no room, nor do a blank that opens a line and the backslash before
      an escaped tag; other boxes are as wide as their text. */
  predicate HasWidth(tokens: seq<Token>, placed: seq<Placed>, j: nat)
    requires j < |tokens| == |placed|
  {
    var t := tokens[j];
    placed[j].width ==
    if (InBrackets(t.text) && !t.escapedTag) || BeginsLine(t.text) then 0
    else if BlankOpens(tokens, placed, j) || EscapesTag(tokens, j) then 0
    else t.width
  }

  // ---------- One turn of the loop ----------

  /** The boxes are where they belong, and the next one goes where they end. */
  ghost predicate Exact(lmargin: int, tokens: seq<Token>, s: State)
    requires |tokens| == |s.placed|
  {
    && (forall j | 0 <= j < |tokens| :: IsAt(lmargin, tokens, s.placed, j) && HasWidth(tokens, s.placed, j))
    && (forall j | 0 <= j < |tokens| :: s.placed[j].line <= s.line)
    && s.x == lmargin + Offset(tokens, s.placed, s.line) && s.line == LineFound(tokens, s.placed, |tokens|)
  }

  predicate SameLines(a: seq<Placed>, b: seq<Placed>) {
    |a| == |b| && forall i | 0 <= i < |a| :: a[i].line == b[i].line
  }

  lemma {:induction false} SameOffset(tokens: seq<Token>, a: seq<Placed>, b: seq<Placed>, line: nat)
    requires |tokens| == |a| && SameLines(a, b)
    ensures Offset(tokens, b, line) == Offset(tokens, a, line)
  {
    if tokens == [] {
    } else {
      SameOffset(tokens[..|tokens| - 1], a[..|tokens| - 1], b[..|tokens| - 1], line);
    }
  }

  lemma {:induction false} NoOffset(tokens: seq<Token>, placed: seq<Placed>, line: nat)
    requires |tokens| == |placed| && forall i | 0 <= i < |placed| :: placed[i].line < line
    ensures Offset(tokens, placed, line) == 0
  {
    if tokens == [] {
    } else {
      NoOffset(tokens[..|tokens| - 1], placed[..|tokens| - 1], line);
    }
  }

  /** Nothing but the line-break flags and the width of the last box may change. */
  predicate AlmostSame(a: seq<Placed>, b: seq<Placed>) {
    && |a| == |b| && (forall i | 0 <= i < |a| :: b[i].x == a[i].x && b[i].line == a[i].line)
    && (forall i | 0 <= i < |a| - 1 :: b[i].width == a[i].width)
  }

  lemma OffsetAdd(tokens: seq<Token>, placed: seq<Placed>, t: Token, box: Placed, line: nat)
    requires |tokens| == |placed|
    ensures Offset(tokens + [t], placed + [box], line) ==
            Offset(tokens, placed, line) +
            if box.line == line && !BlankOpens(tokens + [t], placed + [box], |tokens|) then Charge(t) else 0
  {
    assert (tokens + [t])[..|tokens|] == tokens && (placed + [box])[..|tokens|] == placed;
  }

  lemma StaysAt(lmargin: int, tokens: seq<Token>, a: seq<Placed>, b: seq<Placed>, t: Token, box: Placed, j: nat)
    requires j < |tokens| == |a| && AlmostSame(a, b) && IsAt(lmargin, tokens, a, j)
    ensures IsAt(lmargin, tokens + [t], b + [box], j)
  {
    hide Offset;
    assert (tokens + [t])[..j] == tokens[..j] && (b + [box])[..j] == b[..j];
    SameOffset(tokens[..j], a[..j], b[..j], a[j].line);
  }

  lemma KeepsWidth(tokens: seq<Token>, a: seq<Placed>, b: seq<Placed>, t: Token, box: Placed, j: nat)
    requires j < |tokens| == |a| && AlmostSame(a, b) && HasWidth(tokens, a, j)
    requires j == |tokens| - 1 ==> b[j].width == if IsTag(t) && t.escapedTag then 0 else a[j].width
    ensures HasWidth(tokens + [t], b + [box], j)
  {
    hide BeginsLine;
    var ts, ps := tokens + [t], b + [box];
    assert BlankOpens(ts, ps, j) == BlankOpens(tokens, a, j);
    assert ts[j] == tokens[j] && (j + 1 < |tokens| ==> ts[j + 1] == tokens[j + 1]);
    assert j == |tokens| - 1 ==> ts[j + 1] == t;
  }

  /** A box that goes where the others end, on the line that it is to be on. */
  lemma AddExact(lmargin: int, tokens: seq<Token>, s: State, t: Token, b: seq<Placed>, box: Placed, s': State)
    requires |tokens| == |s.placed| && Exact(lmargin, tokens, s) && AlmostSame(s.placed, b)
    requires tokens != [] ==>
               b[|b| - 1].width == if IsTag(t) && t.escapedTag then 0 else s.placed[|b| - 1].width
    requires s'.placed == b + [box] && (box.line == s.line || box.line == s.line + 1)
    requires box.x == if box.line == s.line then s.x else lmargin
    requires s'.line == if IsNewline(t) then box.line + 1 else box.line
    requires var blank := IsOneBlank(t) && box.line != s.line;
             && box.width == (if blank then 0 else Charge(t))
             && s'.x == if IsNewline(t) then lmargin else if blank then lmargin else box.x + Charge(t)
    ensures Exact(lmargin, tokens + [t], s')
  {
    hide Offset;
    var ts, n := tokens + [t], |tokens|;
    forall j | 0 <= j <= n
      ensures IsAt(lmargin, ts, s'.placed, j) && HasWidth(ts, s'.placed, j)
    {
      if j < n {
        StaysAt(lmargin, tokens, s.placed, b, t, box, j);
        KeepsWidth(tokens, s.placed, b, t, box, j);
      } else {
        LastIsAt(lmargin, tokens, s, t, b, box);
      }
    }
    SameOffset(tokens, s.placed, b, s'.line);
    OffsetAdd(tokens, b, t, box, s'.line);
    if s'.line > s.line { NoOffset(tokens, b, s'.line); }
  }

  lemma LastIsAt(lmargin: int, tokens: seq<Token>, s: State, t: Token, b: seq<Placed>, box: Placed)
    requires |tokens| == |s.placed| && Exact(lmargin, tokens, s) && AlmostSame(s.placed, b)
    requires box.line == s.line || box.line == s.line + 1
    requires box.x == if box.line == s.line then s.x else lmargin
    requires box.width == if IsOneBlank(t) && box.line != s.line then 0 else Charge(t)
    ensures IsAt(lmargin, tokens + [t], b + [box], |tokens|) && HasWidth(tokens + [t], b + [box], |tokens|)
    ensures BlankOpens(tokens + [t], b + [box], |tokens|) <==> IsOneBlank(t) && box.line != s.line
  {
    hide Offset;
    var ts, ps, n := tokens + [t], b + [box], |tokens|;
    assert ts[..n] == tokens && ps[..n] == b;
    SameOffset(tokens, s.placed, b, box.line);
    if box.line != s.line { NoOffset(tokens, b, box.line); }
    assert ts[n] == t && (n > 0 ==> ts[n - 1] == tokens[n - 1]);
  }

  lemma PlaceIsExact(paneWidth: int, lmargin: int, tokens: seq<Token>, s: State, t: Token)
    requires |tokens| == |s.placed| && Exact(lmargin, tokens, s)
    ensures Exact(lmargin, tokens + [t], Place(paneWidth, lmargin, s, t))
  {
    hide Exact, IsTag, IsOneBlank;
    var width, s' := Charge(t), Place(paneWidth, lmargin, s, t);
    var hidden, ended := HideEscape(t, s.placed), EndLine(HideEscape(t, s.placed));
    if IsNewline(t) {
      AddExact(lmargin, tokens, s, t, hidden, Placed(s.x, width, true, s.line), s');
    } else if s.lineLength + width > paneWidth - lmargin {
      var box := Placed(lmargin, if IsOneBlank(t) then 0 else width, false, s.line + 1);
      AddExact(lmargin, tokens, s, t, ended, box, s');
    } else {
      AddExact(lmargin, tokens, s, t, hidden, Placed(s.x, width, false, s.line), s');
    }
  }

  lemma {:induction false} LaidIsExact(paneWidth: int, lmargin: int, tokens: seq<Token>)
    ensures Exact(lmargin, tokens, Laid(paneWidth, lmargin, tokens))
  {
    if tokens == [] {
    } else {
      hide Exact, Place;
      var before, t := tokens[..|tokens| - 1], tokens[|tokens| - 1];
      LaidIsExact(paneWidth, lmargin, before);
      PlaceIsExact(paneWidth, lmargin, before, Laid(paneWidth, lmargin, before), t);
      assert before + [t] == tokens;
    }
  }

  /** In every layout each box begins exactly where those before it on its line end, or at the margin, and has the
      width of its text unless it is one of those that take no room. */
  lemma EveryPlace(paneWidth: int, lmargin: int, tokens: seq<Token>, j: nat)
    requires j < |tokens|
    ensures var p := Laid(paneWidth, lmargin, tokens).placed;
            && IsAt(lmargin, tokens, p, j) && HasWidth(tokens, p, j)
            && (LineFound(tokens, p, j) == p[j].line || p[j].x == lmargin)
            && (j == |tokens| - 1 ==> (p[j].wrapAfter <==> BeginsLine(tokens[j].text)))
  {
    LaidIsExact(paneWidth, lmargin, tokens);
  }
}
