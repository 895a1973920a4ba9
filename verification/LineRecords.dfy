/** The linked list of line records that split_text builds, and the splitting loop itself. */
module LineRecords {
  import opened CStrings
  import opened LineSplitter

  class LineRec {
    var next: LineRec?
    var prev: LineRec?
    var text: string
    var start: nat

    constructor (start: nat, text: string)
      ensures this.start == start && this.text == text && next == null && prev == null
    {
      this.start, this.text, next, prev := start, text, null, null;
    }
  }

  /** nodes are the records of one list, from its head to its tail. */
  ghost predicate Chained(nodes: seq<LineRec>)
    reads nodes
  {
    && (forall i, j | 0 <= i < j < |nodes| :: nodes[i] != nodes[j])
    && (forall i {:trigger nodes[i].next} | 0 <= i < |nodes| - 1 :: nodes[i].next == nodes[i + 1])
    && (|nodes| > 0 ==> nodes[|nodes| - 1].next == null)
    && (|nodes| > 0 ==> nodes[0].prev == null)
    && (forall i, j {:trigger nodes[i], nodes[j].prev} | 0 <= i < |nodes| && j == i + 1 && j < |nodes| ::
          nodes[j].prev == nodes[i])
  }

  /** The records in nodes hold the given lines. */
  ghost predicate Holds(nodes: seq<LineRec>, lines: seq<Line>)
    reads nodes
  {
    && |nodes| == |lines|
    && forall i | 0 <= i < |nodes| :: nodes[i].start == lines[i].start && nodes[i].text == lines[i].text
  }

  /** buf holds the NUL-terminated string s. */
  ghost predicate HoldsText(buf: array<char>, s: string)
    reads buf
  {
    |s| < buf.Length && buf[|s|] == NUL && NoNul(s) && forall k | 0 <= k < |s| :: buf[k] == s[k]
  }

  /** The first n characters of buf are those of s from ls on. */
  ghost predicate Copied(buf: array<char>, n: int, s: string, ls: nat)
    requires 0 <= n <= buf.Length && ls + n <= |s|
    reads buf
  {
    forall k | 0 <= k < n :: buf[k] == s[ls + k]
  }

  method LinerecPush(head: LineRec?, t: LineRec, ghost nodes: seq<LineRec>) returns (lines: LineRec)
    requires Chained(nodes) && t !in nodes && t.next == null && t.prev == null
    requires head == if |nodes| > 0 then nodes[0] else null
    modifies nodes`next, t`next, t`prev
    ensures Chained(nodes + [t]) && lines == (nodes + [t])[0]
  {
    if head != null {
      var last := head;
      ghost var k := 0;
      while last.next != null
        invariant 0 <= k < |nodes| && last == nodes[k]
        decreases |nodes| - k
      {
        assert k + 1 < |nodes| ==> nodes[k].next == nodes[k + 1];
        last := last.next;
        k := k + 1;
      }
      assert k + 1 == |nodes|;
      last.next := t;
      t.prev := last;
      t.next := null;
      lines := head;
      ghost var all := nodes + [t];
      assert last == nodes[|nodes| - 1] == all[|nodes| - 1];
      assert forall i | 0 <= i < |nodes| :: all[i] == nodes[i] && nodes[i].prev == old(nodes[i].prev);
    } else {
      lines := t;
    }
  }

  /** The list that split_text is filling in, through the pointer to its head. */
  class LineList {
    var head: LineRec?
    ghost var nodes: seq<LineRec>
    ghost var lines: seq<Line>
    ghost var repr: set<object>

    ghost predicate Valid()
      reads this, repr
      ensures Valid() ==> this in repr
    {
      && this in repr && (forall n <- nodes :: n in repr)
      && Chained(nodes) && Holds(nodes, lines)
      && head == if |nodes| > 0 then nodes[0] else null
    }

    constructor ()
      ensures Valid() && fresh(repr) && lines == []
    {
      head, nodes, lines, repr := null, [], [], {this};
    }

    /** Adds a record for the line that linebuf holds. The first record starts at 0. */
    method PushLine(linebuf: array<char>, start: nat, ghost text: string)
      requires Valid() && HoldsText(linebuf, text)
      requires lines == [] ==> start == 0
      modifies repr
      ensures Valid() && fresh(repr - old(repr))
      ensures lines == old(lines) + [Line(start, text)]
    {
      assert linebuf[..][..|text|] == text;
      CStrIs(linebuf[..], |text|);
      var t := new LineRec(if head == null then 0 else start, CStr(linebuf[..]));
      head := LinerecPush(head, t, nodes);
      nodes, lines, repr := nodes + [t], lines + [Line(start, text)], repr + {t};
    }
  }

  /** The index of the last whitespace in linebuf[..j + 1], or -1. */
  method FindSoftBreak(linebuf: array<char>, j: nat) returns (k: int)
    requires j < linebuf.Length
    ensures -1 <= k <= j
    ensures k >= 0 ==> IsSpace(linebuf[k])
    ensures forall m | k < m <= j :: !IsSpace(linebuf[m])
  {
    k := j;
    while k >= 0
      invariant -1 <= k <= j
      invariant forall m | k < m <= j :: !IsSpace(linebuf[m])
    {
      if IsSpace(linebuf[k]) { return; }
      k := k - 1;
    }
  }

  /** Copies the rest of the whitespace run at text[i] into the line; stops on the run's last character. */
  method CopySpaces(text: array<char>, linebuf: array<char>, i0: nat, j0: nat, ghost s: string, ghost ls: nat)
      returns (i: nat, j: nat)
    requires HoldsText(text, s) && text.Length <= linebuf.Length && text != linebuf
    requires ls <= i0 < |s| && j0 == i0 - ls && IsSpace(s[i0]) && Copied(linebuf, j0, s, ls)
    modifies linebuf
    ensures i == RunEnd(s, i0) && j == i - ls && Copied(linebuf, j, s, ls)
  {
    i, j := i0, j0;
    while IsSpace(text[i])
      invariant i0 <= i < |s| && j == i - ls && IsSpace(s[i]) && RunEnd(s, i0) == RunEnd(s, i)
      invariant Copied(linebuf, j, s, ls)
      decreases |s| - i
    {
      linebuf[j] := text[i];
      if IsSpace(text[i + 1]) {
        i, j := i + 1, j + 1;
      } else {
        break;
      }
    }
  }

  /** What split_text does when the character at i0 no longer fits: it ends the line at the last whitespace,
      going back to read the rest again, or after a run of whitespace, or where it stands. The buffer then
      holds the line's n characters, and i is the last character the line has used up. */
  method BreakLine(text: array<char>, linebuf: array<char>, i0: nat, j0: nat, width: int,
                   ghost s: string, ghost ls: nat)
      returns (i: int, n: nat)
    requires HoldsText(text, s) && text.Length <= linebuf.Length && text != linebuf
    requires ls <= i0 < |s| && j0 == i0 - ls && Copied(linebuf, j0 + 1, s, ls)
    requires StopAt(s, ls, Limit(width, ls)) == i0 && !IsNewline(s[i0])
    modifies linebuf
    ensures i >= -1 && NextCut(s, width, ls) == Break(ls + n, i + 1)
    ensures HoldsText(linebuf, s[ls..ls + n])
  {
    i := i0;
    if !IsSpace(linebuf[j0]) {
      var j2 := FindSoftBreak(linebuf, j0);
      SameLastSpace(s, ls, i, linebuf, j2);
      if j2 >= 0 {
        j2 := j2 + 1;
        linebuf[j2] := NUL;
        i := i - ((j0 + 1) - j2);
        n := j2;
      } else {
        linebuf[j0] := NUL;
        n := j0;
      }
    } else {
      var j;
      i, j := CopySpaces(text, linebuf, i, j0, s, ls);
      linebuf[j] := NUL;
      n := j;
    }
  }

  /** What the character at i0 does to the line being read. */
  datatype Scan = Continues | Ends(n: nat) | EndsText

  /** The switch of split_text: copies the character at i0 into the line buffer, or ends the line. */
  method ScanChar(text: array<char>, linebuf: array<char>, i0: nat, j: nat, width: int, ghost s: string, ghost ls: nat)
      returns (i: int, scan: Scan)
    requires HoldsText(text, s) && text.Length <= linebuf.Length && text != linebuf
    requires ls <= i0 <= |s| && j == i0 - ls && i0 <= Limit(width, ls) && Copied(linebuf, j, s, ls)
    requires StopAt(s, ls, Limit(width, ls)) == StopAt(s, i0, Limit(width, ls))
    modifies linebuf
    ensures i >= -1
    ensures scan.Continues? ==>
              && i == i0 < |s| && i + 1 <= Limit(width, ls) && Copied(linebuf, j + 1, s, ls)
              && StopAt(s, ls, Limit(width, ls)) == StopAt(s, i + 1, Limit(width, ls))
    ensures scan.Ends? ==> NextCut(s, width, ls) == Break(ls + scan.n, i + 1) && HoldsText(linebuf, s[ls..ls + scan.n])
    ensures scan.EndsText? ==> NextCut(s, width, ls) == Final && HoldsText(linebuf, s[ls..])
  {
    i := i0;
    if text[i] == CR || text[i] == LF {
      linebuf[j] := NUL;
      scan := Ends(j);
    } else if text[i] == NUL {
      linebuf[j] := text[i];
      scan := EndsText;
    } else {
      linebuf[j] := text[i];
      if j > width {
        var n;
        i, n := BreakLine(text, linebuf, i, j, width, s, ls);
        scan := Ends(n);
      } else {
        scan := Continues;
      }
    }
  }

  /** line is the text of the line of s that starts at ls, and the next one starts at next. */
  ghost predicate IsLineAt(s: string, width: int, ls: nat, line: string, last: bool, next: int)
    requires ls <= |s|
  {
    if last then NextCut(s, width, ls) == Final && line == s[ls..]
    else next >= 0 && NextCut(s, width, ls) == Break(ls + |line|, next) && line == s[ls..ls + |line|]
  }

  /** Reads one line into linebuf, character by character, starting at newLineStart; i is the last character
      the line has used up. */
  method ReadLine(text: array<char>, linebuf: array<char>, newLineStart: nat, width: int, ghost s: string)
      returns (i: int, last: bool, ghost line: string)
    requires HoldsText(text, s) && text.Length <= linebuf.Length && text != linebuf && newLineStart <= |s|
    modifies linebuf
    ensures IsLineAt(s, width, newLineStart, line, last, i + 1) && HoldsText(linebuf, line)
  {
    forall k | 0 <= k < linebuf.Length { linebuf[k] := NUL; }
    i := newLineStart;
    var j := 0;
    while true
      invariant newLineStart <= i <= |s| && j == i - newLineStart && i <= Limit(width, newLineStart)
      invariant Copied(linebuf, j, s, newLineStart)
      invariant StopAt(s, newLineStart, Limit(width, newLineStart)) == StopAt(s, i, Limit(width, newLineStart))
      decreases |s| - i
    {
      var scan;
      i, scan := ScanChar(text, linebuf, i, j, width, s, newLineStart);
      if scan.EndsText? { return i, true, s[newLineStart..]; }
      if scan.Ends? { return i, false, s[newLineStart..newLineStart + scan.n]; }
      i, j := i + 1, j + 1;
    }
  }

  /** split_text: s is the text before the terminator. The source runs this loop and the one of ReadLine as a
      single loop, which sets its column back to the start whenever a line has ended. */
  method SplitText(text: array<char>, width: int, ghost s: string) returns (list: LineList)
    requires HoldsText(text, s)
    ensures list.Valid() && fresh(list.repr)
    ensures list.lines == Split(s, width)
  {
    hide Split, IsLineAt;
    var linebuf := new char[text.Length];
    list := new LineList();
    var newLineStart := 0;
    ghost var all := Split(s, width);
    while true
      invariant fresh(linebuf) && fresh(list.repr) && linebuf !in list.repr && list.Valid()
      invariant |list.lines| < |all| && list.lines == all[..|list.lines|]
      invariant newLineStart == all[|list.lines|].start <= |s|
      decreases |s| - newLineStart
    {
      ghost var k := |list.lines|;
      var i, last, line := ReadLine(text, linebuf, newLineStart, width, s);
      SplitAt(s, width, k, line, last, i + 1);
      list.PushLine(linebuf, newLineStart, line);
      if last { return; }
      newLineStart := i + 1;
    }
  }

  lemma {:induction false} SuffixIsSplit(s: string, width: int, ls: nat, k: nat)
    requires ls <= |s| && k < |SplitFrom(s, width, ls)|
    ensures var start := SplitFrom(s, width, ls)[k].start;
            start <= |s| && SplitFrom(s, width, ls)[k..] == SplitFrom(s, width, start)
    decreases k
  {
    if k == 0 {
    } else {
      var next := NextCut(s, width, ls).next;
      SuffixIsSplit(s, width, next, k - 1);
      assert SplitFrom(s, width, ls)[1..] == SplitFrom(s, width, next);
      assert SplitFrom(s, width, ls)[k..] == SplitFrom(s, width, ls)[1..][k - 1..];
    }
  }

  /** The line read at the start of line k is line k, and the next one starts where the reading stopped. */
  lemma SplitAt(s: string, width: int, k: nat, line: string, last: bool, next: int)
    requires k < |Split(s, width)| && Split(s, width)[k].start <= |s|
    requires IsLineAt(s, width, Split(s, width)[k].start, line, last, next)
    ensures Split(s, width)[..k + 1] == Split(s, width)[..k] + [Line(Split(s, width)[k].start, line)]
    ensures if last then k + 1 == |Split(s, width)|
            else k + 1 < |Split(s, width)| && Split(s, width)[k].start < next == Split(s, width)[k + 1].start <= |s|
  {
    var all := Split(s, width);
    var rest := SplitFrom(s, width, all[k].start);
    SuffixIsSplit(s, width, 0, k);
    assert rest == all[k..];
    assert rest[0] == Line(all[k].start, line);
    assert |rest| > 1 ==> all[k + 1] == rest[1];
  }

  /** The search over the line buffer finds the break the definition names. */
  lemma SameLastSpace(s: string, ls: nat, i: nat, linebuf: array<char>, k: int)
    requires ls <= i < |s| && i - ls < linebuf.Length && Copied(linebuf, i - ls + 1, s, ls) && !IsSpace(s[i])
    requires -1 <= k <= i - ls && (k >= 0 ==> IsSpace(linebuf[k]))
    requires forall m | k < m <= i - ls :: !IsSpace(linebuf[m])
    ensures LastSpace(s, ls, i) == if k >= 0 then Some(ls + k) else None
  {
    LastSpaceLast(s, ls, i);
    assert forall m | ls <= m <= i :: s[m] == linebuf[m - ls];
  }
}
