/** The soft-wrapping line splitter of lib/edittext.c: a line-at-a-time definition of where a text breaks, the
    character-at-a-time loop with its backward jumps, and what both promise about the lines. */
module LineSplitter {
  import opened CStrings

  /** The value of one LINEREC: where the line starts in the text, and its own text. */
  datatype Line = Line(start: nat, text: string)

  predicate IsNewline(c: char) {
    c == CR || c == LF
  }

  // ---------- Where one line ends ----------

  /** The line running from some start is the last one, or it holds the text before end and the next one
      starts at next. */
  datatype Cut = Final | Break(end: nat, next: nat)

  /** One past the last index at which a line starting at ls is still within the width. */
  function Limit(width: int, ls: nat): nat {
    if width < -1 then ls else ls + width + 1
  }

  /** The first index from i on that is the end of the text, a newline character, or limit. */
  function StopAt(text: string, i: nat, limit: nat): (s: nat)
    requires i <= |text| && i <= limit
    ensures i <= s <= |text| && s <= limit
    decreases limit - i
  {
    if i == |text| || IsNewline(text[i]) || i == limit then i else StopAt(text, i + 1, limit)
  }

  lemma {:induction false} StopAtFirst(text: string, i: nat, limit: nat)
    requires i <= |text| && i <= limit
    ensures var s := StopAt(text, i, limit);
            && (forall k | i <= k < s :: !IsNewline(text[k]))
            && (s == limit || s == |text| || IsNewline(text[s]))
    decreases limit - i
  {
    if i == |text| || IsNewline(text[i]) || i == limit {
    } else {
      StopAtFirst(text, i + 1, limit);
    }
  }

  /** The last index of the whitespace run that starts at i. */
  function RunEnd(text: string, i: nat): (e: nat)
    requires i < |text| && IsSpace(text[i])
    ensures i <= e < |text|
    decreases |text| - i
  {
    if i + 1 < |text| && IsSpace(text[i + 1]) then RunEnd(text, i + 1) else i
  }

  lemma {:induction false} RunEndLast(text: string, i: nat)
    requires i < |text| && IsSpace(text[i])
    ensures var e := RunEnd(text, i);
            && (forall k | i <= k <= e :: IsSpace(text[k]))
            && (e + 1 < |text| ==> !IsSpace(text[e + 1]))
    decreases |text| - i
  {
    if i + 1 == |text| || !IsSpace(text[i + 1]) {
    } else {
      RunEndLast(text, i + 1);
    }
  }

  /** The last whitespace in text[lo..hi]. */
  function LastSpace(text: string, lo: nat, hi: nat): (r: Option<nat>)
    requires lo <= hi <= |text|
    ensures r.Some? ==> lo <= r.value < hi && IsSpace(text[r.value])
  {
    if lo == hi then None
    else if IsSpace(text[hi - 1]) then Some(hi - 1)
    else LastSpace(text, lo, hi - 1)
  }

  lemma {:induction false} LastSpaceLast(text: string, lo: nat, hi: nat)
    requires lo <= hi <= |text|
    ensures match LastSpace(text, lo, hi)
            case Some(last) => forall k | last < k < hi :: !IsSpace(text[k])
            case None => forall k | lo <= k < hi :: !IsSpace(text[k])
  {
    if lo == hi || IsSpace(text[hi - 1]) {
    } else {
      LastSpaceLast(text, lo, hi - 1);
    }
  }

  function NextCut(text: string, width: int, ls: nat): (cut: Cut)
    requires ls <= |text|
    ensures cut.Break? ==> ls <= cut.end <= cut.next <= |text| && ls < cut.next <= cut.end + 1
  {
    var stop := StopAt(text, ls, Limit(width, ls));
    if stop == |text| then Final
    else if IsNewline(text[stop]) then Break(stop, stop + 1)
    else if IsSpace(text[stop]) then var e := RunEnd(text, stop); Break(e, e + 1)
    else
      match LastSpace(text, ls, stop)
      case Some(k) => Break(k + 1, k + 1)
      case None => Break(stop, stop + 1)
  }

  function SplitFrom(text: string, width: int, ls: nat): (lines: seq<Line>)
    requires ls <= |text|
    ensures |lines| > 0 && lines[0].start == ls
    decreases |text| - ls
  {
    match NextCut(text, width, ls)
    case Final => [Line(ls, text[ls..])]
    case Break(end, next) => [Line(ls, text[ls..end])] + SplitFrom(text, width, next)
  }

  function Split(text: string, width: int): (lines: seq<Line>)
    ensures |lines| > 0 && lines[0].start == 0
  {
    SplitFrom(text, width, 0)
  }

  // ---------- What the lines promise ----------

  /** A line's text is the slice of the text at its start. */
  predicate IsSlice(text: string, line: Line) {
    line.start + |line.text| <= |text| && line.text == text[line.start..line.start + |line.text|]
  }

  /** line ends where next begins: it gives up no character to the break. */
  predicate SoftBroken(line: Line, next: Line) {
    next.start == line.start + |line.text|
  }

  /** At most one character is left out between two lines, and none only after whitespace. */
  predicate Follows(line: Line, next: Line) {
    && line.start < next.start
    && line.start + |line.text| <= next.start <= line.start + |line.text| + 1
    && (SoftBroken(line, next) ==> IsSpace(line.text[|line.text| - 1]))
  }

  /** The lines cover the text from ls to its end, in order. */
  ghost predicate Tiles(text: string, lines: seq<Line>, ls: nat) {
    && |lines| > 0 && lines[0].start == ls
    && (forall k | 0 <= k < |lines| :: IsSlice(text, lines[k]))
    && (forall k | 0 <= k < |lines| - 1 :: Follows(lines[k], lines[k + 1]))
    && lines[|lines| - 1].start + |lines[|lines| - 1].text| == |text|
  }

  lemma {:induction false} SplitTiles(text: string, width: int, ls: nat)
    requires ls <= |text|
    ensures Tiles(text, SplitFrom(text, width, ls), ls)
    decreases |text| - ls
  {
    match NextCut(text, width, ls)
    case Final =>
    case Break(end, next) =>
      SplitTiles(text, width, next);
      TilesCons(text, Line(ls, text[ls..end]), SplitFrom(text, width, next));
  }

  lemma TilesCons(text: string, line: Line, rest: seq<Line>)
    requires IsSlice(text, line) && |rest| > 0 && Follows(line, rest[0])
    requires Tiles(text, rest, rest[0].start)
    ensures Tiles(text, [line] + rest, line.start)
  {
  }

  /** Every character of s from index n on is whitespace, and no newline comes before index n + 1. */
  ghost predicate FitsWidth(s: string, n: nat) {
    && (forall k | n <= k < |s| :: IsSpace(s[k]))
    && (forall k | 0 <= k < |s| && k <= n :: !IsNewline(s[k]))
  }

  lemma CutFitsWidth(text: string, width: int, ls: nat)
    requires ls <= |text|
    ensures var n := if width < -1 then 0 else width + 1;
            match NextCut(text, width, ls)
            case Final => FitsWidth(text[ls..], n)
            case Break(end, _) => FitsWidth(text[ls..end], n)
  {
    var stop := StopAt(text, ls, Limit(width, ls));
    StopAtFirst(text, ls, Limit(width, ls));
    if stop < |text| && !IsNewline(text[stop]) && IsSpace(text[stop]) {
      RunEndLast(text, stop);
    }
  }

  /** No line has anything but whitespace past the width. */
  lemma {:induction false} SplitFitsWidth(text: string, width: int, ls: nat)
    requires ls <= |text|
    ensures forall line <- SplitFrom(text, width, ls) :: FitsWidth(line.text, if width < -1 then 0 else width + 1)
    decreases |text| - ls
  {
    match NextCut(text, width, ls)
    case Final =>
      CutFitsWidth(text, width, ls);
    case Break(end, next) =>
      SplitFitsWidth(text, width, next);
      CutFitsWidth(text, width, ls);
  }

  /** A text is one line if and only if it has no newline and is at most one character longer than the width, or is
      empty. */
  lemma OneLineExactly(text: string, width: int)
    ensures |Split(text, width)| == 1 <==>
            '\r' !in text && '\n' !in text && (|text| <= width + 1 || text == "")
    ensures |Split(text, width)| == 1 ==> Split(text, width) == [Line(0, text)]
  {
    var stop := StopAt(text, 0, Limit(width, 0));
    StopAtFirst(text, 0, Limit(width, 0));
    assert text[0..] == text;
    if stop == |text| {
      assert forall c <- text :: !IsNewline(c);
    } else if IsNewline(text[stop]) {
      assert text[stop] in text;
    }
  }
}
