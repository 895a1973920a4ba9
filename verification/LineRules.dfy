/** The rules by which lib/edittext.c breaks a line, and that they leave it no choice. */
module LineRules {
  import opened CStrings
  import opened LineSplitter

  predicate NoNewlineIn(text: string, lo: nat, hi: nat)
    requires lo <= hi <= |text|
  {
    forall k | lo <= k < hi :: !IsNewline(text[k])
  }

  predicate SpacesIn(text: string, lo: nat, hi: nat)
    requires lo <= hi <= |text|
  {
    forall k | lo <= k < hi :: IsSpace(text[k])
  }

  predicate NoSpaceIn(text: string, lo: nat, hi: nat)
    requires lo <= hi <= |text|
  {
    forall k | lo <= k < hi :: !IsSpace(text[k])
  }

  /** A line breaks only at a newline within the limit, which is left out, or past it. There, if the character at the
      limit is whitespace, the line takes the whole run but for its last character; if not, it ends behind the last
      whitespace it has, and nothing is left out; and if it has none, the character at the limit is left out. */
  predicate BreaksRightly(text: string, limit: nat, ls: nat, end: nat, next: nat)
    requires ls <= |text| && ls <= limit
  {
    && ls <= end <= next <= |text|
    && if end < |text| && end <= limit && IsNewline(text[end]) && NoNewlineIn(text, ls, end) then next == end + 1
       else
         && limit < |text| && NoNewlineIn(text, ls, limit + 1)
         && if IsSpace(text[limit]) then
              && limit <= end < |text| && next == end + 1 && SpacesIn(text, limit, end + 1)
              && (end + 1 < |text| ==> !IsSpace(text[end + 1]))
            else if NoSpaceIn(text, ls, limit) then end == limit && next == end + 1
            else ls < end <= limit && next == end && IsSpace(text[end - 1]) && NoSpaceIn(text, end, limit)
  }

  /** The last line has no newline and does not go past the limit. */
  predicate EndsRightly(text: string, limit: nat, ls: nat)
    requires ls <= |text|
  {
    |text| <= limit && NoNewlineIn(text, ls, |text|)
  }

  lemma CutIsRight(text: string, width: int, ls: nat)
    requires ls <= |text|
    ensures match NextCut(text, width, ls)
            case Final => EndsRightly(text, Limit(width, ls), ls)
            case Break(end, next) => BreaksRightly(text, Limit(width, ls), ls, end, next)
  {
    var limit := Limit(width, ls);
    var stop := StopAt(text, ls, limit);
    StopAtFirst(text, ls, limit);
    if stop < |text| && !IsNewline(text[stop]) {
      if IsSpace(text[stop]) {
        RunEndLast(text, stop);
      } else {
        LastSpaceLast(text, ls, stop);
      }
    }
  }

  /** There is one way to break a line rightly, or it is the last one. */
  lemma OneRightCut(text: string, limit: nat, ls: nat, end: nat, next: nat, end': nat, next': nat)
    requires ls <= |text| && ls <= limit && BreaksRightly(text, limit, ls, end, next)
    ensures !EndsRightly(text, limit, ls)
    ensures BreaksRightly(text, limit, ls, end', next') ==> end' == end && next' == next
  {
  }

  /** Each line is the slice of the text at its start and breaks rightly, and the last one ends rightly. The limit is
      one character past the width, and the first character when the width is negative. */
  predicate SplitRightly(text: string, width: int, lines: seq<Line>, ls: nat)
    requires ls <= |text|
    decreases |lines|
  {
    var limit := if width < -1 then ls else ls + width + 1;
    && lines != [] && lines[0].start == ls && IsSlice(text, lines[0])
    && if |lines| == 1 then |lines[0].text| == |text| - ls && EndsRightly(text, limit, ls)
       else
         && BreaksRightly(text, limit, ls, ls + |lines[0].text|, lines[1].start)
         && SplitRightly(text, width, lines[1..], lines[1].start)
  }

  lemma RightlyFirst(text: string, width: int, line: Line, rest: seq<Line>)
    requires line.start <= |text| && rest != [] && rest[0].start <= |text|
    ensures SplitRightly(text, width, [line] + rest, line.start) <==>
            && IsSlice(text, line) && SplitRightly(text, width, rest, rest[0].start)
            && BreaksRightly(text, Limit(width, line.start), line.start, line.start + |line.text|, rest[0].start)
  {
    hide BreaksRightly, EndsRightly, IsSlice;
    assert ([line] + rest)[1..] == rest;
  }

  lemma RightlyNotNone(text: string, width: int, lines: seq<Line>, ls: nat)
    requires ls <= |text| && SplitRightly(text, width, lines, ls)
    ensures lines != []
  {
  }

  lemma RightlyOne(text: string, width: int, lines: seq<Line>, ls: nat)
    requires ls <= |text| && |lines| == 1 && SplitRightly(text, width, lines, ls)
    ensures lines == [Line(ls, text[ls..])] && EndsRightly(text, Limit(width, ls), ls)
  {
    hide EndsRightly, BreaksRightly;
    var line := lines[0];
    assert lines == [line];
    assert text[ls..] == text[line.start..line.start + |line.text|];
  }

  lemma RightlyMore(text: string, width: int, lines: seq<Line>, ls: nat)
    requires ls <= |text| && |lines| > 1 && SplitRightly(text, width, lines, ls)
    ensures ls + |lines[0].text| <= |text| && lines[0] == Line(ls, text[ls..ls + |lines[0].text|])
    ensures BreaksRightly(text, Limit(width, ls), ls, ls + |lines[0].text|, lines[1].start)
    ensures lines[1].start <= |text| && SplitRightly(text, width, lines[1..], lines[1].start)
  {
  }

  lemma SplitFromStep(text: string, width: int, ls: nat)
    requires ls <= |text|
    ensures NextCut(text, width, ls).Final? ==> SplitFrom(text, width, ls) == [Line(ls, text[ls..])]
    ensures NextCut(text, width, ls).Break? ==>
              var cut := NextCut(text, width, ls);
              SplitFrom(text, width, ls) == [Line(ls, text[ls..cut.end])] + SplitFrom(text, width, cut.next)
  {
  }

  lemma OneLineIsRight(text: string, width: int, ls: nat)
    requires ls <= |text| && EndsRightly(text, Limit(width, ls), ls)
    ensures SplitRightly(text, width, [Line(ls, text[ls..])], ls)
  {
    hide EndsRightly;
  }

  lemma {:induction false} SplitIsRight(text: string, width: int, ls: nat)
    requires ls <= |text|
    ensures SplitRightly(text, width, SplitFrom(text, width, ls), ls)
    decreases |text| - ls
  {
    hide BreaksRightly, EndsRightly, SplitRightly, SplitFrom, StopAt, RunEnd, LastSpace;
    CutIsRight(text, width, ls);
    SplitFromStep(text, width, ls);
    match NextCut(text, width, ls)
    case Final => OneLineIsRight(text, width, ls);
    case Break(end, next) =>
      SplitIsRight(text, width, next);
      RightlyFirst(text, width, Line(ls, text[ls..end]), SplitFrom(text, width, next));
  }

  /** The rules for breaking lines leave no choice: the splitter's lines are the only ones that keep them. */
  lemma {:induction false} OnlyTheseLines(text: string, width: int, lines: seq<Line>, ls: nat)
    requires ls <= |text|
    ensures SplitRightly(text, width, lines, ls) <==> lines == SplitFrom(text, width, ls)
    decreases |lines|
  {
    hide BreaksRightly, EndsRightly, SplitRightly, NextCut, SplitFrom;
    SplitIsRight(text, width, ls);
    if SplitRightly(text, width, lines, ls) {
      RightlyNotNone(text, width, lines, ls);
      if |lines| == 1 {
        RightlyOne(text, width, lines, ls);
        LastLineIsFinal(text, width, ls);
      } else {
        RightlyMore(text, width, lines, ls);
        BreakIsTheCut(text, width, ls, ls + |lines[0].text|, lines[1].start);
        OnlyTheseLines(text, width, lines[1..], lines[1].start);
        assert lines == [lines[0]] + lines[1..];
      }
    }
  }

  lemma LastLineIsFinal(text: string, width: int, ls: nat)
    requires ls <= |text| && EndsRightly(text, Limit(width, ls), ls)
    ensures NextCut(text, width, ls) == Final && SplitFrom(text, width, ls) == [Line(ls, text[ls..])]
  {
    CutIsRight(text, width, ls);
    match NextCut(text, width, ls)
    case Final =>
    case Break(end, next) => OneRightCut(text, Limit(width, ls), ls, end, next, end, next);
  }

  lemma BreakIsTheCut(text: string, width: int, ls: nat, end: nat, next: nat)
    requires ls <= |text| && BreaksRightly(text, Limit(width, ls), ls, end, next)
    ensures ls < next <= |text| && ls <= end <= next
    ensures SplitFrom(text, width, ls) == [Line(ls, text[ls..end])] + SplitFrom(text, width, next)
  {
    CutIsRight(text, width, ls);
    OneRightCut(text, Limit(width, ls), ls, end, next, end, next);
    match NextCut(text, width, ls)
    case Break(e, n) => OneRightCut(text, Limit(width, ls), ls, end, next, e, n);
  }
}
