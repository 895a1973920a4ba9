/** The editor pane of lib/edittext.c: two byte buffers that hold the same text, edited in place. */
module Editor {
  import opened CStrings
  import opened LineSplitter
  import opened LineRecords
  import opened LineCursor
  import opened EditModel

  /** strcpy (&dst[d], &src[s]), where n characters come before the terminator of src[s..]. */
  method StrCpy(dst: array<char>, d: nat, src: array<char>, s: nat, ghost n: nat)
    requires dst != src && d + n < dst.Length && s + n < src.Length
    requires src[s + n] == NUL && forall k | s <= k < s + n :: src[k] != NUL
    modifies dst
    ensures forall k {:trigger dst[k]} | 0 <= k < dst.Length ::
              dst[k] == if d <= k <= d + n then src[s + k - d] else old(dst[k])
  {
    var i := 0;
    while src[s + i] != NUL
      invariant 0 <= i <= n
      invariant forall k {:trigger dst[k]} | 0 <= k < dst.Length ::
                  dst[k] == if d <= k < d + i then src[s + k - d] else old(dst[k])
      decreases n - i
    {
      dst[d + i] := src[s + i];
      i := i + 1;
    }
    dst[d + i] := NUL;
  }

  /** Opens a place at p in the NUL-terminated text of n characters in buf, and puts c there. */
  method InsertInto(buf: array<char>, insbuf: array<char>, p: nat, c: char, ghost n: nat)
    requires buf != insbuf && p <= n && n + 1 < buf.Length && buf.Length <= insbuf.Length
    requires buf[n] == NUL && forall k | 0 <= k < n :: buf[k] != NUL
    modifies buf, insbuf
    ensures forall k {:trigger buf[k]} | 0 <= k < buf.Length ::
              buf[k] == if k < p || n + 1 < k then old(buf[k]) else if k == p then c else old(buf[k - 1])
  {
    StrCpy(insbuf, 0, buf, p, n - p);
    buf[p] := c;
    StrCpy(buf, p + 1, insbuf, 0, n - p);
  }

  /** Takes the character at q out of the NUL-terminated text of n characters in buf, by way of the text from
      p on, where p is q or the position after it. */
  method RemoveFrom(buf: array<char>, insbuf: array<char>, p: nat, q: nat, ghost n: nat)
    requires buf != insbuf && q <= p <= q + 1 && q < n && p <= n && n < buf.Length && buf.Length <= insbuf.Length
    requires buf[n] == NUL && forall k | 0 <= k < n :: buf[k] != NUL
    modifies buf, insbuf
    ensures forall k {:trigger buf[k]} | 0 <= k < buf.Length ::
              buf[k] == if k < q || n <= k then old(buf[k]) else old(buf[k + 1])
  {
    StrCpy(insbuf, 0, buf, p, n - p);
    StrCpy(buf, q, insbuf, q + 1 - p, n - q - 1);
  }

  class EditorPane {
    const textVar: array<char>  // the value of the text instance variable's value
    const textBuf: array<char>  // the value of the text instance variable
    const env: Settings
    var textLength: int
    var point: int
    var viewStart: int

    /** Both buffers hold the same textLength characters and nothing but NULs after them. */
    ghost predicate Valid()
      reads this, textVar, textBuf
    {
      && textVar != textBuf && textVar.Length == textBuf.Length
      && 0 <= point <= textLength < textVar.Length && viewStart >= 0
      && (forall k | 0 <= k < textVar.Length :: textVar[k] == textBuf[k])
      && (forall k | 0 <= k < textVar.Length :: textVar[k] == NUL <==> textLength <= k)
    }

    ghost function Model(): (st: State)
      requires Valid()
      reads this, textVar, textBuf
      ensures Sound(st)
    {
      State(textVar[..textLength], point, viewStart)
    }

    /** buf_init on a text that is already in both buffers. */
    constructor (textVar: array<char>, textBuf: array<char>, env: Settings, length: nat)
      requires textVar != textBuf && textVar.Length == textBuf.Length && length < textVar.Length
      requires forall k | 0 <= k < textVar.Length :: textVar[k] == textBuf[k]
      requires forall k | 0 <= k < textVar.Length :: textVar[k] == NUL <==> length <= k
      ensures Valid() && this.textVar == textVar && this.textBuf == textBuf && this.env == env
      ensures Model() == State(textVar[..length], 0, 0)
    {
      this.textVar, this.textBuf, this.env := textVar, textBuf, env;
      textLength, point, viewStart := length, 0, 0;
    }

    /** Two valid panes of the same size that stand for the same text hold the same characters throughout. */
    twostate lemma BuffersRestored()
      requires old(Valid()) && Valid() && old(Model()) == Model()
      ensures textVar[..] == old(textVar[..]) && textBuf[..] == old(textBuf[..])
      ensures textLength == old(textLength) && point == old(point) && viewStart == old(viewStart)
    {
      assert |Model().text| == |old(Model()).text|;
      forall k | 0 <= k < textVar.Length
        ensures textVar[k] == old(textVar[k]) && textBuf[k] == old(textBuf[k])
      {
        if k < textLength {
          assert textVar[k] == Model().text[k];
          assert old(textVar[k]) == old(Model()).text[k];
        }
      }
    }

    /** One character goes in at the point, in both buffers; the point and the length are the callers'. */
    method InsertAt(insbuf: array<char>, p: nat, c: char)
      requires Valid() && p <= textLength && textLength + 1 < textVar.Length
      requires insbuf != textVar && insbuf != textBuf && insbuf.Length >= textVar.Length
      modifies textVar, textBuf, insbuf
      ensures forall k {:trigger textVar[k]} | 0 <= k < textVar.Length ::
                textVar[k] == if k < p || textLength + 1 < k then old(textVar[k])
                               else if k == p then c else old(textVar[k - 1])
      ensures forall k | 0 <= k < textVar.Length :: textVar[k] == textBuf[k]
    {
      InsertInto(textVar, insbuf, p, c, textLength);
      InsertInto(textBuf, insbuf, p, c, textLength);
    }

    method RemoveAt(insbuf: array<char>, p: nat, q: nat)
      requires Valid() && q <= p <= q + 1 && q < textLength && p <= textLength
      requires insbuf != textVar && insbuf != textBuf && insbuf.Length >= textVar.Length
      modifies textVar, textBuf, insbuf
      ensures forall k {:trigger textVar[k]} | 0 <= k < textVar.Length ::
                textVar[k] == if k < q || textLength <= k then old(textVar[k]) else old(textVar[k + 1])
      ensures forall k | 0 <= k < textVar.Length :: textVar[k] == textBuf[k]
    {
      RemoveFrom(textVar, insbuf, p, q, textLength);
      RemoveFrom(textBuf, insbuf, p, q, textLength);
    }

    /** Types one character. A NUL would cut the text off there, and the length would no longer fit. */
    method InsertChar(insbuf: array<char>, c: char)
      requires Valid() && textLength + 1 < textVar.Length
      requires insbuf != textVar && insbuf != textBuf && insbuf.Length >= textVar.Length
      modifies this`point, this`textLength, textVar, textBuf, insbuf
      ensures Valid() <==> c != NUL
      ensures Valid() ==> Model() == Insert(old(Model()), c) && textLength == old(textLength) + 1
    {
      InsertAt(insbuf, point, c);
      assert textVar[point] == c;
      point, textLength := point + 1, textLength + 1;
      if c != NUL {
        assert Model().text == Insert(old(Model()), c).text;
      }
    }

    method InsertStrAtPoint(str: string)
      requires Valid() && NoNul(str) && textLength + |str| < textVar.Length
      modifies this`point, this`textLength, textVar, textBuf
      ensures Valid() && Model() == InsertStr(old(Model()), str)
    {
      var insbuf := new char[textVar.Length];
      var i := 0;
      ghost var st := Model();
      InsertStrIsTyping(st, [], 'x');
      while i < |str|
        invariant 0 <= i <= |str| && Valid() && textLength == old(textLength) + i
        invariant Model() == InsertStr(st, str[..i])
      {
        InsertStrIsTyping(st, str[..i], str[i]);
        assert str[..i + 1] == str[..i] + [str[i]];
        InsertChar(insbuf, str[i]);
        i := i + 1;
      }
      assert str[..i] == str;
    }

    /** Backspace: erases the character before the point. */
    method EraseBefore(insbuf: array<char>)
      requires Valid() && 0 < point < textLength
      requires insbuf != textVar && insbuf != textBuf && insbuf.Length >= textVar.Length
      modifies this`point, this`textLength, textVar, textBuf, insbuf
      ensures Valid() && Model() == Backspace(old(Model()))
    {
      RemoveAt(insbuf, point, point - 1);
      point, textLength := point - 1, textLength - 1;
      assert Model().text == Backspace(old(Model())).text;
    }

    /** Delete: erases the character at the point, which stays where it is. */
    method EraseAt(insbuf: array<char>)
      requires Valid() && point < textLength
      requires insbuf != textVar && insbuf != textBuf && insbuf.Length >= textVar.Length
      modifies this`textLength, textVar, textBuf, insbuf
      ensures Valid() && Model() == DeleteAt(old(Model()))
    {
      RemoveAt(insbuf, point, point);
      textLength := textLength - 1;
      assert Model().text == DeleteAt(old(Model())).text;
    }

    /** A key at the end of the text. A character is stored without a terminator: the NULs are there already. */
    method PressAtEnd(keysym: int)
      requires Valid() && point == textLength
      requires !Erases(keysym) ==> textLength + 1 < textVar.Length
      modifies this`point, this`textLength, textVar, textBuf
      ensures Valid() <==> Erases(keysym) || KeyChar(keysym) != NUL
      ensures Valid() ==> Model() == PressKey(old(Model()), keysym)
    {
      ghost var st := Model();
      if Erases(keysym) {
        if point > 0 {
          point, textLength := point - 1, textLength - 1;
          textVar[point] := NUL;
          textBuf[point] := NUL;
          assert Model().text == Backspace(st).text;
        }
      } else {
        textVar[point] := KeyChar(keysym);
        textBuf[point] := KeyChar(keysym);
        point, textLength := point + 1, textLength + 1;
        assert textVar[point - 1] == KeyChar(keysym);
        if KeyChar(keysym) != NUL {
          assert Model().text == Insert(st, KeyChar(keysym)).text;
        }
      }
    }

    /** The key handler, with no selection active. Both buffers stay good exactly when the key erases, or the
        character it stores is not NUL. */
    method InsertAtPoint(key: int, shiftState: nat) returns (keysym: int)
      requires Valid()
      requires !Erases(TranslateKey(key, shiftState)) ==> textLength + 1 < textVar.Length
      modifies this`point, this`textLength, textVar, textBuf
      ensures keysym == TranslateKey(key, shiftState)
      ensures Valid() <==> Erases(keysym) || KeyChar(keysym) != NUL
      ensures Valid() ==> Model() == PressKey(old(Model()), keysym)
    {
      keysym := TranslateKey(key, shiftState);
      var insbuf := new char[textVar.Length];
      if textVar[point] == NUL {
        PressAtEnd(keysym);
      } else if keysym == XK_BACKSPACE {
        if point > 0 { EraseBefore(insbuf); }
      } else if keysym == DELETE_KEYSYM {
        EraseAt(insbuf);
      } else {
        InsertChar(insbuf, KeyChar(keysym));
      }
    }

    method DeleteChar()
      requires Valid()
      modifies this`textLength, textVar, textBuf
      ensures Valid() && Model() == DeleteAt(old(Model()))
    {
      var insbuf := new char[textVar.Length];
      if textVar[point] != NUL {
        EraseAt(insbuf);
      }
    }

    method PrevChar()
      requires Valid()
      modifies this`point
      ensures Valid() && Model() == Step(env, old(Model()), Op.PrevChar)
    {
      if point > 0 {
        point := point - 1;
      }
    }

    method NextChar()
      requires Valid()
      modifies this`point
      ensures Valid() && Model() == Step(env, old(Model()), Op.NextChar)
    {
      if point < textLength {
        point := point + 1;
      }
    }

    /** Finds the record of the line that the point is on. */
    method FindLine(list: LineList) returns (line: LineRec, lineNo: nat)
      requires Valid() && list.Valid() && list.lines == Split(Model().text, env.width)
      ensures lineNo == LineIndex(list.lines, point) && lineNo < |list.nodes| && line == list.nodes[lineNo]
      ensures lineNo + 1 < |list.nodes| ==> line.next == list.nodes[lineNo + 1]
      ensures lineNo + 1 == |list.nodes| ==> line.next == null
      ensures lineNo > 0 ==> line.prev == list.nodes[lineNo - 1]
      ensures lineNo == 0 ==> line.prev == null
    {
      line, lineNo := list.head, 0;
      while line.next != null
        invariant 0 <= lineNo < |list.nodes| && line == list.nodes[lineNo] && list.lines[lineNo].start <= point
        invariant LineIndexFrom(list.lines, lineNo, point) == LineIndex(list.lines, point)
        decreases |list.nodes| - lineNo
      {
        assert lineNo + 1 < |list.nodes| ==> list.nodes[lineNo].next == list.nodes[lineNo + 1];
        if point >= line.start && point < line.next.start { return; }
        line, lineNo := line.next, lineNo + 1;
      }
    }

    method SplitLines() returns (list: LineList)
      requires Valid()
      ensures list.Valid() && fresh(list.repr) && list.lines == Split(Model().text, env.width)
    {
      list := SplitText(textBuf, env.width, Model().text);
    }

    method LineStart()
      requires Valid()
      modifies this`point
      ensures Valid() && Model() == EditModel.LineStart(env, old(Model()))
    {
      var list := SplitLines();
      var line, _ := FindLine(list);
      LineStartIsSound(env, Model());
      point := line.start;
    }

    method LineEnd()
      requires Valid()
      modifies this`point
      ensures Valid() && Model() == EditModel.LineEnd(env, old(Model()))
    {
      var list := SplitLines();
      var line, _ := FindLine(list);
      LineEndIsSound(env, Model());
      if line.next != null {
        point := line.next.start - 1;
      } else if line.text != "" {
        point := line.start + |line.text|;
      }
    }

    /** Previous line. The local for the line number is only set when there is a line above, so it starts out
        holding some arbitrary value. */
    method PrevLine(stale: int)
      requires Valid()
      modifies this`point, this`viewStart
      ensures Valid() && Model() == EditModel.PrevLine(env, old(Model()), stale)
    {
      var list := SplitLines();
      PrevLineIsSound(env, Model(), stale);
      if list.head.next == null { return; }
      var line, lineNo := FindLine(list);
      var pointLine := stale;
      if line.prev != null {
        point := ShorterLineAdj(line.prev, point - line.start);
        pointLine := lineNo;
      }
      if viewStart == 0 { return; }
      if pointLine < viewStart + env.scrollMargin {
        viewStart := viewStart - 1;
      }
    }

    method ScrollDown(cursorLine: nat) returns (start: int)
      ensures start == ScrolledStart(env, viewStart, cursorLine)
    {
      start := viewStart;
      while cursorLine >= start + env.viewLines - env.scrollMargin
        invariant viewStart <= start <= ScrolledStart(env, viewStart, cursorLine)
      {
        start := start + 1;
      }
    }

    /** Next line, with the scrolling branch as the source has it. */
    method NextLine()
      requires Valid() && OpAllowed(env, ToNextLine)
      modifies this`point, this`viewStart
      ensures Valid() && Model() == EditModel.NextLine(env, old(Model()))
    {
      var list := SplitLines();
      NextLineIsSound(env, Model());
      var line, cursorLine := FindLine(list);
      if line.next == null { return; }
      if cursorLine < viewStart + env.viewLines - 2 {
        point := ShorterLineAdj(line.next, point - line.start);
        return;
      }
      viewStart := ScrollDown(cursorLine);
      point := viewStart;
    }

    method TextStart()
      requires Valid()
      modifies this`point, this`viewStart
      ensures Valid() && Model() == Step(env, old(Model()), ToTextStart)
    {
      point, viewStart := 0, 0;
    }

    method TextEnd()
      requires Valid()
      modifies this`point, this`viewStart
      ensures Valid() && Model() == EditModel.TextEnd(env, old(Model()))
    {
      var list := SplitLines();
      var l, n := list.head, 0;
      while l != null
        invariant 0 <= n <= |list.nodes| && l == if n < |list.nodes| then list.nodes[n] else null
        decreases |list.nodes| - n
      {
        assert n + 1 < |list.nodes| ==> list.nodes[n].next == list.nodes[n + 1];
        l, n := l.next, n + 1;
      }
      var start := n - (env.viewHeight - env.scrollMargin);
      point := StrLen(textBuf, 0, textLength);
      viewStart := if start < 0 then 0 else start;
    }

    method Do(op: Op)
      requires Valid() && OpAllowed(env, op) && textLength + Growth(op) < textVar.Length
      modifies this`point, this`textLength, this`viewStart, textVar, textBuf
      ensures Valid() && Model() == Step(env, old(Model()), op)
    {
      match op
      case Key(keysym, shiftState) => var _ := InsertAtPoint(keysym, shiftState);
      case InsertString(str) => InsertStrAtPoint(str);
      case DeleteChar => DeleteChar();
      case PrevChar => PrevChar();
      case NextChar => NextChar();
      case ToPrevLine(stale) => PrevLine(stale);
      case ToNextLine => NextLine();
      case ToLineStart => LineStart();
      case ToLineEnd => LineEnd();
      case ToTextStart => TextStart();
      case ToTextEnd => TextEnd();
    }

    /** Safety of every editing run: whatever the operations, both buffers stay equal, with the text in front
        and nothing but NULs behind it, and the pane stands for the state the operations lead to. */
    method DoAll(ops: seq<Op>)
      requires Valid() && textLength + TotalGrowth(ops) < textVar.Length
      requires forall op <- ops :: OpAllowed(env, op)
      modifies this`point, this`textLength, this`viewStart, textVar, textBuf
      ensures Valid() && Model() == Run(env, old(Model()), ops)
    {
      var i := 0;
      while i < |ops|
        invariant 0 <= i <= |ops| && Valid() && textLength + TotalGrowth(ops[i..]) < textVar.Length
        invariant Run(env, old(Model()), ops) == Run(env, Model(), ops[i..])
      {
        StepIsSound(env, Model(), ops[i]);
        assert ops[i..][0] == ops[i] && ops[i..][1..] == ops[i + 1..];
        Do(ops[i]);
        i := i + 1;
      }
    }

    /** Inserting a string and erasing it again with backspaces leaves every byte of both buffers as it was,
        whether the point is within the text or at its end, where other branches run. */
    method InsertAndErase(str: string)
      requires Valid() && NoNul(str) && textLength + |str| < textVar.Length
      modifies this`point, this`textLength, this`viewStart, textVar, textBuf
      ensures textVar[..] == old(textVar[..]) && textBuf[..] == old(textBuf[..])
      ensures textLength == old(textLength) && point == old(point) && viewStart == old(viewStart)
    {
      InsertionIsUndone(env, Model(), str);
      assert ([InsertString(str)] + Backspaces(|str|))[1..] == Backspaces(|str|);
      DoAll([InsertString(str)] + Backspaces(|str|));
      BuffersRestored();
    }
  }

  /** calc_point_cursor: the record of the point's line, its column there, and its line counted from the view's
      first line, starting from 1. */
  method CalcPointCursor(list: LineList, point: int, viewStart: int, ghost s: string, ghost width: int)
      returns (line: LineRec, pointX: int, pointY: int)
    requires list.Valid() && list.lines == Split(s, width) && 0 <= point <= |s|
    ensures var k := pointY + viewStart - 1;
            && 0 <= k < |list.nodes| && line == list.nodes[k] && OnLine(list.lines, k, point)
            && line.start + pointX == point && 0 <= pointX <= |line.text|
  {
    SplitTiles(s, width, 0);
    PointHasOneLine(s, list.lines, point);
    line := list.head;
    var l: LineRec?, lineNo := list.head, 1;
    while l != null
      invariant 1 <= lineNo <= |list.nodes| && l == list.nodes[lineNo - 1] && l.start <= point
      decreases |list.nodes| - lineNo
    {
      assert lineNo < |list.nodes| ==> list.nodes[lineNo - 1].next == list.nodes[lineNo];
      if point >= l.start {
        if l.next == null || point < l.next.start {
          line := l;
          break;
        }
      }
      l, lineNo := l.next, lineNo + 1;
    }
    assert OnLine(list.lines, lineNo - 1, point);
    pointY := lineNo - viewStart;
    pointX := point - line.start;
  }

  /** shorter_line_adj, on a line record. */
  method ShorterLineAdj(target: LineRec, col: int) returns (p: int)
    requires col >= 0
    ensures p == AdjustColumn(Line(target.start, target.text), col)
  {
    p := if |target.text| < col then target.start + |target.text| else target.start + col;
  }

  /** strlen, on a buffer that holds n characters. */
  method StrLen(buf: array<char>, from: nat, ghost n: nat) returns (length: nat)
    requires from <= n < buf.Length && buf[n] == NUL && forall k | from <= k < n :: buf[k] != NUL
    ensures length == n - from
  {
    length := 0;
    while buf[from + length] != NUL
      invariant from + length <= n
      decreases n - length
    {
      length := length + 1;
    }
  }
}
