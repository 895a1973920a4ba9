/** What each editing operation of lib/edittext.c does to the text, the point and the first line shown. */
module EditModel {
  import opened CStrings
  import opened LineSplitter
  import opened LineCursor
  import opened ReflowLocality

  /** The characters of the text, the position of the point in it, and the first line of the view. */
  datatype State = State(text: string, point: nat, viewStart: int)

  /** The settings the motions read: the line width, the lines the view holds, its height in lines, and the
      number of lines kept between the cursor and the view's edge. */
  datatype Settings = Settings(width: int, viewLines: int, viewHeight: int, scrollMargin: int)

  /** No character is NUL, the point is in the text, and the view starts on a line. */
  predicate Sound(st: State) {
    NoNul(st.text) && st.point <= |st.text| && st.viewStart >= 0
  }

  // ---------- Keys ----------

  const XK_BACKSPACE := 0xff08
  const XK_RETURN := 0xff0d
  const DELETE_KEYSYM := 0x7f

  const SHIFTED: map<int, int> :=
    map['0' as int := ')' as int, '1' as int := '!' as int, '2' as int := '@' as int, '3' as int := '#' as int,
        '4' as int := '$' as int, '5' as int := '%' as int, '6' as int := '^' as int, '7' as int := '&' as int,
        '8' as int := '*' as int, '9' as int := '(' as int, '`' as int := '~' as int, '-' as int := '_' as int,
        '=' as int := '+' as int, '[' as int := '{' as int, ']' as int := '}' as int, '\\' as int := '|' as int,
        ';' as int := ':' as int, '\'' as int := '"' as int, ',' as int := '<' as int, '.' as int := '>' as int,
        '/' as int := '?' as int]

  /** The key symbol after the handler has applied the shift state; the shift key is its lowest bit. */
  function TranslateKey(keysym: int, shiftState: nat): int {
    var shift := shiftState % 2 == 1;
    if keysym == XK_RETURN then LF as int
    else if keysym in SHIFTED then (if shift then SHIFTED[keysym] else keysym)
    else if 'a' as int <= keysym <= 'z' as int && shift then keysym - 32
    else keysym
  }

  predicate Erases(keysym: int) {
    keysym == XK_BACKSPACE || keysym == DELETE_KEYSYM
  }

  /** The character a key symbol leaves in the buffer: its lowest byte. */
  function KeyChar(keysym: int): char {
    (keysym % 256) as char
  }

  // ---------- Edits ----------

  function Insert(st: State, c: char): State
    requires st.point <= |st.text|
  {
    st.(text := st.text[..st.point] + [c] + st.text[st.point..], point := st.point + 1)
  }

  function Backspace(st: State): State
    requires st.point <= |st.text|
  {
    if st.point == 0 then st
    else st.(text := st.text[..st.point - 1] + st.text[st.point..], point := st.point - 1)
  }

  function DeleteAt(st: State): State
    requires st.point <= |st.text|
  {
    if st.point == |st.text| then st
    else st.(text := st.text[..st.point] + st.text[st.point + 1..])
  }

  /** A translated key: at the end of the text the delete key erases backwards, like backspace. */
  function PressKey(st: State, keysym: int): State
    requires st.point <= |st.text|
  {
    if keysym == XK_BACKSPACE then Backspace(st)
    else if keysym == DELETE_KEYSYM then (if st.point == |st.text| then Backspace(st) else DeleteAt(st))
    else Insert(st, KeyChar(keysym))
  }

  function InsertStr(st: State, str: string): State
    requires st.point <= |st.text|
  {
    st.(text := st.text[..st.point] + str + st.text[st.point..], point := st.point + |str|)
  }

  // ---------- Motions ----------

  function Lines(env: Settings, st: State): (lines: seq<Line>)
    ensures |lines| > 0 && lines[0].start == 0
  {
    Split(st.text, env.width)
  }

  /** Previous line. On a text of several lines the view follows the point; stale is the value the source reads
      for the line number when the point is on the first line, where it never sets one. */
  function PrevLine(env: Settings, st: State, stale: int): State {
    var lines := Lines(env, st);
    var k := LineIndex(lines, st.point);
    var pointLine := if k > 0 then k else stale;
    State(st.text, PrevLinePoint(lines, st.point),
          if |lines| > 1 && st.viewStart != 0 && pointLine < st.viewStart + env.scrollMargin then st.viewStart - 1
          else st.viewStart)
  }

  /** The next line is scrolled to: the source then moves the point to the number of the first line shown. */
  predicate NextLineScrolls(env: Settings, st: State) {
    var lines := Lines(env, st);
    LineIndex(lines, st.point) + 1 < |lines| &&
    LineIndex(lines, st.point) >= st.viewStart + env.viewLines - 2
  }

  function ScrolledStart(env: Settings, viewStart: int, cursorLine: int): int {
    var needed := cursorLine - env.viewLines + env.scrollMargin + 1;
    if needed > viewStart then needed else viewStart
  }

  function NextLine(env: Settings, st: State): State
    requires st.viewStart >= 0
  {
    var lines := Lines(env, st);
    if NextLineScrolls(env, st) then
      var start := ScrolledStart(env, st.viewStart, LineIndex(lines, st.point));
      State(st.text, start, start)
    else st.(point := NextLinePoint(lines, st.point))
  }

  function LineStart(env: Settings, st: State): State {
    st.(point := LineStartPoint(Lines(env, st), st.point))
  }

  function LineEnd(env: Settings, st: State): State
    requires Sound(st)
  {
    SplitTiles(st.text, env.width, 0);
    LineEndsBracket(st.text, Lines(env, st), st.point);
    st.(point := LineEndPoint(Lines(env, st), st.point))
  }

  function TextEnd(env: Settings, st: State): State {
    var start := |Lines(env, st)| - (env.viewHeight - env.scrollMargin);
    State(st.text, |st.text|, if start < 0 then 0 else start)
  }

  // ---------- Runs ----------

  datatype Op =
    | Key(keysym: int, shiftState: nat)
    | InsertString(str: string)
    | DeleteChar
    | PrevChar
    | NextChar
    | ToPrevLine(stale: int)
    | ToNextLine
    | ToLineStart
    | ToLineEnd
    | ToTextStart
    | ToTextEnd

  /** A key that stores a character stores no NUL, an inserted string is a C string, and for next-line motions
      the view is at least two lines high and its scroll margin no higher than the view. */
  predicate OpAllowed(env: Settings, op: Op) {
    match op
    case Key(keysym, shiftState) => var k := TranslateKey(keysym, shiftState); Erases(k) || KeyChar(k) != NUL
    case InsertString(str) => NoNul(str)
    case ToNextLine => env.viewLines >= 2 && env.scrollMargin <= env.viewLines
    case _ => true
  }

  function Step(env: Settings, st: State, op: Op): (r: State)
    requires Sound(st)
  {
    match op
    case Key(keysym, shiftState) => PressKey(st, TranslateKey(keysym, shiftState))
    case InsertString(str) => InsertStr(st, str)
    case DeleteChar => DeleteAt(st)
    case PrevChar => if st.point > 0 then st.(point := st.point - 1) else st
    case NextChar => if st.point < |st.text| then st.(point := st.point + 1) else st
    case ToPrevLine(stale) => PrevLine(env, st, stale)
    case ToNextLine => NextLine(env, st)
    case ToLineStart => LineStart(env, st)
    case ToLineEnd => LineEnd(env, st)
    case ToTextStart => State(st.text, 0, 0)
    case ToTextEnd => TextEnd(env, st)
  }

  lemma PrevLineIsSound(env: Settings, st: State, stale: int)
    requires Sound(st)
    ensures Sound(PrevLine(env, st, stale))
  {
    SplitTiles(st.text, env.width, 0);
    if LineIndex(Lines(env, st), st.point) > 0 {
      PrevLineGoesUp(st.text, Lines(env, st), st.point);
    }
  }

  lemma NextLineIsSound(env: Settings, st: State)
    requires Sound(st) && OpAllowed(env, ToNextLine)
    ensures Sound(NextLine(env, st))
  {
    var lines := Lines(env, st);
    SplitTiles(st.text, env.width, 0);
    if LineIndex(lines, st.point) + 1 < |lines| {
      NextLineGoesDown(st.text, lines, st.point);
      StartsIncrease(st.text, lines, 0, 0, |lines| - 1);
    }
  }

  lemma LineStartIsSound(env: Settings, st: State)
    requires Sound(st)
    ensures Sound(LineStart(env, st))
  {
  }

  lemma LineEndIsSound(env: Settings, st: State)
    requires Sound(st)
    ensures Sound(LineEnd(env, st))
  {
    SplitTiles(st.text, env.width, 0);
    LineEndsBracket(st.text, Lines(env, st), st.point);
  }

  /** Every operation keeps the point in the text, the view on a line, and the text free of NULs. */
  lemma StepIsSound(env: Settings, st: State, op: Op)
    requires Sound(st) && OpAllowed(env, op)
    ensures Sound(Step(env, st, op))
    ensures |Step(env, st, op).text| <= |st.text| + Growth(op)
  {
    match op
    case ToPrevLine(stale) => PrevLineIsSound(env, st, stale);
    case ToNextLine => NextLineIsSound(env, st);
    case ToLineStart => LineStartIsSound(env, st);
    case ToLineEnd => LineEndIsSound(env, st);
    case _ =>
  }

  /** How many characters an operation can add. */
  function Growth(op: Op): nat {
    match op
    case Key(keysym, shiftState) => if Erases(TranslateKey(keysym, shiftState)) then 0 else 1
    case InsertString(str) => |str|
    case _ => 0
  }

  function TotalGrowth(ops: seq<Op>): nat {
    if ops == [] then 0 else Growth(ops[0]) + TotalGrowth(ops[1..])
  }

  /** A run of operations. The state is sound before each of them, whatever came earlier. */
  function Run(env: Settings, st: State, ops: seq<Op>): (r: State)
    requires Sound(st) && forall op <- ops :: OpAllowed(env, op)
    ensures Sound(r) && |r.text| <= |st.text| + TotalGrowth(ops)
    decreases |ops|
  {
    if ops == [] then st
    else
      StepIsSound(env, st, ops[0]);
      Run(env, Step(env, st, ops[0]), ops[1..])
  }

  lemma {:induction false} RunConcat(env: Settings, st: State, a: seq<Op>, b: seq<Op>)
    requires Sound(st) && (forall op <- a :: OpAllowed(env, op)) && (forall op <- b :: OpAllowed(env, op))
    ensures Run(env, st, a + b) == Run(env, Run(env, st, a), b)
    decreases |a|
  {
    if a == [] {
      assert a + b == b;
    } else {
      StepIsSound(env, st, a[0]);
      assert (a + b)[0] == a[0] && (a + b)[1..] == a[1..] + b;
      RunConcat(env, Step(env, st, a[0]), a[1..], b);
    }
  }

  // ---------- Undo ----------

  function Backspaces(n: nat): (ops: seq<Op>)
    ensures |ops| == n && (forall op <- ops :: op == Key(XK_BACKSPACE, 0)) && TotalGrowth(ops) == 0
  {
    if n == 0 then [] else [Key(XK_BACKSPACE, 0)] + Backspaces(n - 1)
  }

  /** As many backspaces as a string has characters take that string away again. */
  lemma {:induction false} BackspacesEraseString(env: Settings, st: State, str: string)
    requires Sound(st) && NoNul(str)
    ensures Sound(InsertStr(st, str)) && Run(env, InsertStr(st, str), Backspaces(|str|)) == st
    decreases |str|
  {
    if str == [] {
      assert InsertStr(st, str) == st;
    } else {
      var init := str[..|str| - 1];
      var before, after := InsertStr(st, str), InsertStr(st, init);
      assert before.text[..before.point - 1] == st.text[..st.point] + init;
      assert before.text[before.point..] == st.text[st.point..];
      assert Backspace(before) == after;
      assert TranslateKey(XK_BACKSPACE, 0) == XK_BACKSPACE;
      BackspacesEraseString(env, st, init);
      assert Backspaces(|str|)[1..] == Backspaces(|init|);
    }
  }

  /** Inserting a string and then pressing backspace once for each of its characters restores the state. */
  lemma InsertionIsUndone(env: Settings, st: State, str: string)
    requires Sound(st) && NoNul(str)
    ensures Run(env, st, [InsertString(str)] + Backspaces(|str|)) == st
  {
    var ops := [InsertString(str)] + Backspaces(|str|);
    assert ops[1..] == Backspaces(|str|);
    BackspacesEraseString(env, st, str);
  }

  /** A string goes in as its characters do, one after the other. */
  lemma InsertStrIsTyping(st: State, str: string, c: char)
    requires st.point <= |st.text|
    ensures InsertStr(st, []) == st
    ensures InsertStr(st, str + [c]) == Insert(InsertStr(st, str), c)
  {
  }

  /** The motion to the next line ends on that line exactly when it does not scroll and that line is not cut short;
      or when it scrolls, every line so far takes up one position, and the view is scrolled to the line after the
      point's. */
  lemma NextLineReaches(env: Settings, st: State)
    requires Sound(st) && OpAllowed(env, ToNextLine)
    requires LineIndex(Lines(env, st), st.point) + 1 < |Lines(env, st)|
    ensures var lines, k := Lines(env, st), LineIndex(Lines(env, st), st.point);
            LineIndex(lines, NextLine(env, st).point) == k + 1 <==>
            if NextLineScrolls(env, st) then
              lines[k + 1].start == k + 1 && ScrolledStart(env, st.viewStart, k) == k + 1
            else !BelowIsCut(lines, k, st.point)
  {
    var lines, k := Lines(env, st), LineIndex(Lines(env, st), st.point);
    SplitTiles(st.text, env.width, 0);
    if NextLineScrolls(env, st) {
      NextLineIsSound(env, st);
      ScrolledReaches(st.text, lines, k, NextLine(env, st).point);
    } else {
      NextLineGoesDown(st.text, lines, st.point);
    }
  }

  lemma ScrolledReaches(text: string, lines: seq<Line>, k: nat, n: nat)
    requires Tiles(text, lines, 0) && k + 1 < |lines| && n <= |text| && n <= k + 1
    ensures LineIndex(lines, n) == k + 1 <==> lines[k + 1].start == k + 1 && n == k + 1
  {
    PointHasOneLine(text, lines, n);
    StartsIncrease(text, lines, 0, 0, k + 1);
    if lines[k + 1].start == n {
      if k + 2 < |lines| { StartsIncrease(text, lines, 0, k + 1, k + 2); }
      assert OnLine(lines, k + 1, n);
    }
  }

  /** Without scrolling, too, the motion can miss: it takes the point from line 0 past line 1 to line 2. */
  lemma NextLineSkipsLine()
    ensures var env, st := Settings(3, 9, 9, 0), State("aaaa\nb cccc", 3, 0);
            && Sound(st) && !NextLineScrolls(env, st)
            && LineIndex(Lines(env, st), 3) == 0 && LineIndex(Lines(env, st), NextLine(env, st).point) == 2
  {
    var env, st := Settings(3, 9, 9, 0), State("aaaa\nb cccc", 3, 0);
    var t := st.text;
    assert NextCut(t, 3, 0) == Break(4, 5) by {
      assert StopAt(t, 2, 4) == 4;
      assert StopAt(t, 0, 4) == 4;
    }
    assert NextCut(t, 3, 5) == Break(7, 7) by {
      assert StopAt(t, 7, 9) == 9;
      assert StopAt(t, 5, 9) == 9;
      assert LastSpace(t, 5, 7) == Some(6);
      assert LastSpace(t, 5, 9) == Some(6);
    }
    assert NextCut(t, 3, 7) == Final by {
      assert StopAt(t, 9, 11) == 11;
      assert StopAt(t, 7, 11) == 11;
    }
    assert SplitFrom(t, 3, 7) == [Line(7, t[7..])];
    assert SplitFrom(t, 3, 5) == [Line(5, t[5..7]), Line(7, t[7..])];
    assert Lines(env, st) == [Line(0, t[0..4]), Line(5, t[5..7]), Line(7, t[7..])];
  }

  /** Scrolling on to the next line puts the point on a line number instead of in that line: on a text of four
      lines in a view of two, the motion from line 1 goes back to line 0. */
  lemma ScrollingMisplacesPoint()
    ensures var env, st := Settings(9, 2, 2, 0), State("a\nb\nc\nd", 2, 0);
            && Sound(st) && NextLineScrolls(env, st)
            && NextLinePoint(Lines(env, st), st.point) == 4 && NextLine(env, st).point == 0
  {
    var env, st := Settings(9, 2, 2, 0), State("a\nb\nc\nd", 2, 0);
    var t := st.text;
    assert NextCut(t, 9, 0) == Break(1, 2);
    assert NextCut(t, 9, 2) == Break(3, 4);
    assert NextCut(t, 9, 4) == Break(5, 6);
    assert NextCut(t, 9, 6) == Final;
    assert SplitFrom(t, 9, 6) == [Line(6, t[6..])];
    assert SplitFrom(t, 9, 4) == [Line(4, t[4..5]), Line(6, t[6..])];
    assert SplitFrom(t, 9, 2) == [Line(2, t[2..3]), Line(4, t[4..5]), Line(6, t[6..])];
    assert Lines(env, st) == [Line(0, t[0..1]), Line(2, t[2..3]), Line(4, t[4..5]), Line(6, t[6..])];
  }
}
