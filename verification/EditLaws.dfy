/** What the keys of the editor of lib/edittext.c type and erase, character by character, and what the motions show. */
module EditLaws {
  import opened LineSplitter
  import opened LineCursor
  import opened EditModel

  // ---------- Erasing ----------

  /** The text with n characters less from i on. */
  predicate IsWithout(text: string, text': string, i: nat, n: nat) {
    && i + n <= |text| && |text'| == |text| - n
    && (forall k | 0 <= k < i :: text'[k] == text[k])
    && (forall k | i <= k < |text'| :: text'[k] == text[k + n])
  }

  /** What is inserted is in front of the point, with the rest of the text around it. What is deleted is the character
      behind the point, and what backspace erases is the one in front of it. */
  lemma EditsAreAtPoint(st: State, c: char)
    requires st.point <= |st.text|
    ensures var i := Insert(st, c);
            i.point == st.point + 1 && i.viewStart == st.viewStart && |i.text| > st.point && i.text[st.point] == c
            && IsWithout(i.text, st.text, st.point, 1)
    ensures st.point < |st.text| ==>
              var d := DeleteAt(st);
              IsWithout(st.text, d.text, st.point, 1) && d.point == st.point && d.viewStart == st.viewStart
    ensures st.point > 0 ==>
              var b := Backspace(st);
              IsWithout(st.text, b.text, st.point - 1, 1) && b.point == st.point - 1 && b.viewStart == st.viewStart
    ensures st.point == |st.text| ==> DeleteAt(st) == st
    ensures st.point == 0 ==> Backspace(st) == st
  {
  }

  /** Deleting is moving on and pressing backspace; and both are taken back by typing the character that is gone. */
  lemma DeletingIsUndone(st: State)
    requires st.point <= |st.text|
    ensures st.point < |st.text| ==>
              && DeleteAt(st) == Backspace(st.(point := st.point + 1))
              && Insert(DeleteAt(st), st.text[st.point]) == st.(point := st.point + 1)
    ensures st.point > 0 ==> Insert(Backspace(st), st.text[st.point - 1]) == st
  {
    if st.point < |st.text| {
      assert st.text[..st.point] + [st.text[st.point]] + st.text[st.point + 1..] == st.text;
    }
    if st.point > 0 {
      assert st.text[..st.point - 1] + [st.text[st.point - 1]] + st.text[st.point..] == st.text;
    }
  }

  function Repeated(n: nat, op: Op): (ops: seq<Op>)
    ensures |ops| == n && forall o <- ops :: o == op
  {
    if n == 0 then [] else [op] + Repeated(n - 1, op)
  }

  lemma RunFirst(env: Settings, st: State, op: Op, n: nat)
    requires Sound(st) && OpAllowed(env, op) && n > 0
    ensures Sound(Step(env, st, op))
    ensures Run(env, st, Repeated(n, op)) == Run(env, Step(env, st, op), Repeated(n - 1, op))
  {
    StepIsSound(env, st, op);
    assert Repeated(n, op)[1..] == Repeated(n - 1, op);
  }

  /** As many deletions take away as many characters behind the point. */
  lemma {:induction false} DeletionsErase(env: Settings, st: State, n: nat)
    requires Sound(st) && st.point + n <= |st.text|
    ensures Run(env, st, Repeated(n, DeleteChar)) == st.(text := st.text[..st.point] + st.text[st.point + n..])
    decreases n
  {
    if n == 0 {
      assert st.text[..st.point] + st.text[st.point..] == st.text;
    } else {
      var d := DeleteAt(st);
      RunFirst(env, st, DeleteChar, n);
      DeletionsErase(env, d, n - 1);
      assert d.text[..st.point] == st.text[..st.point] && d.text[st.point + n - 1..] == st.text[st.point + n..];
    }
  }

  /** The delete key takes away what is behind the point, and at the end of the text what is in front of it: pressed as
      often as there are characters, from anywhere, it leaves none. */
  lemma {:induction false} DeleteKeyEmpties(env: Settings, st: State)
    requires Sound(st)
    ensures Run(env, st, Repeated(|st.text|, Key(DELETE_KEYSYM, 0))) == State("", 0, st.viewStart)
    decreases |st.text|
  {
    if st.text == "" {
    } else {
      var key := Key(DELETE_KEYSYM, 0);
      RunFirst(env, st, key, |st.text|);
      DeleteKeyEmpties(env, Step(env, st, key));
    }
  }

  // ---------- Typing ----------

  /** The keys that the shift key changes, and what it makes of them, in the same order. */
  const PLAIN := "0123456789`-=[]\\;',./"
  const WITH_SHIFT := ")!@#$%^&*(~_+{}|:\"<>?"

  /** The shift state is odd if the shift key is held down. */
  function Held(shift: bool, others: nat): nat {
    2 * others + if shift then 1 else 0
  }

  function Typed(env: Settings, st: State, keysym: int, shift: bool, others: nat): State
    requires Sound(st)
  {
    Step(env, st, Key(keysym, Held(shift, others)))
  }

  /** The keys of digits and signs type what is on them. */
  lemma SignsType(env: Settings, st: State, i: nat, shift: bool, others: nat)
    requires Sound(st) && i < |PLAIN|
    ensures |WITH_SHIFT| == |PLAIN|
    ensures Typed(env, st, PLAIN[i] as int, shift, others) == Insert(st, if shift then WITH_SHIFT[i] else PLAIN[i])
  {
    ShiftedSign(i);
    hide SHIFTED, PLAIN, WITH_SHIFT;
    assert Held(shift, others) % 2 == if shift then 1 else 0;
  }

  lemma ShiftedSign(i: nat)
    requires i < |PLAIN|
    ensures |WITH_SHIFT| == |PLAIN| && PLAIN[i] as int < 127
    ensures PLAIN[i] as int in SHIFTED && SHIFTED[PLAIN[i] as int] == WITH_SHIFT[i] as int
  {
  }

  /** Backspace and delete erase; delete does so backwards at the end of the text. */
  lemma ErasingKeys(env: Settings, st: State, shift: bool, others: nat)
    requires Sound(st)
    ensures Typed(env, st, 0xff08, shift, others) == Backspace(st)
    ensures Typed(env, st, 0x7f, shift, others) == if st.point < |st.text| then DeleteAt(st) else Backspace(st)
  {
  }

  /** Those of letters type them, as capitals with the shift key. */
  lemma LettersType(env: Settings, st: State, c: char, shift: bool, others: nat)
    requires Sound(st) && 'a' <= c <= 'z'
    ensures var capital := ('A' as int + (c as int - 'a' as int)) as char;
            Typed(env, st, c as int, shift, others) == Insert(st, if shift then capital else c)
  {
    assert Held(shift, others) % 2 == if shift then 1 else 0;
  }

  /** Return types a newline, and any other key symbol that is no character its lowest byte. */
  lemma OthersType(env: Settings, st: State, keysym: int, shift: bool, others: nat)
    requires Sound(st) && keysym >= 128 && keysym != 0xff08
    ensures Typed(env, st, keysym, shift, others) ==
            Insert(st, if keysym == 0xff0d then '\n' else (keysym % 256) as char)
  {
  }

  // ---------- What is shown ----------

  /** So many motions by one character take the point so far on, but not past the end of the text. */
  lemma {:induction false} CharsMovedOn(env: Settings, st: State, n: nat)
    requires Sound(st)
    ensures Run(env, st, Repeated(n, NextChar)) ==
            st.(point := if st.point + n <= |st.text| then st.point + n else |st.text|)
    decreases n
  {
    if n == 0 {
    } else {
      RunFirst(env, st, NextChar, n);
      hide Run, Repeated;
      CharsMovedOn(env, Step(env, st, NextChar), n - 1);
    }
  }

  /** And so far back, but not past its start. */
  lemma {:induction false} CharsMovedBack(env: Settings, st: State, n: nat)
    requires Sound(st)
    ensures Run(env, st, Repeated(n, PrevChar)) == st.(point := if n <= st.point then st.point - n else 0)
    decreases n
  {
    if n == 0 {
    } else {
      RunFirst(env, st, PrevChar, n);
      hide Run, Repeated;
      CharsMovedBack(env, Step(env, st, PrevChar), n - 1);
    }
  }

  /** From anywhere, going to the start of the text undoes all motions and scrolling; going to its end is moving over
      all of it, but for what is shown. */
  lemma TextEndsAreReached(env: Settings, st: State)
    requires Sound(st)
    ensures Step(env, st, ToTextStart) == Run(env, st, Repeated(st.point, PrevChar)).(viewStart := 0)
    ensures Step(env, st, ToTextEnd).(viewStart := st.viewStart) == Run(env, st, Repeated(|st.text|, NextChar))
  {
    CharsMovedBack(env, st, st.point);
    CharsMovedOn(env, st, |st.text|);
  }

  /** Previous-line scrolls back, by one line, exactly if the point was in the margin at the top. Its line is shown
      afterwards if it was before, exactly unless it was the first one shown, there is no margin, and the point does not
      stay on it. */
  lemma PrevLineShowsPoint(env: Settings, st: State, stale: int)
    requires Sound(st) && LineIndex(Lines(env, st), st.point) > 0
    ensures var st', k := PrevLine(env, st, stale), LineIndex(Lines(env, st), st.point);
            && st.viewStart - 1 <= st'.viewStart <= st.viewStart
            && (st'.viewStart < st.viewStart <==> 0 < st.viewStart && k < st.viewStart + env.scrollMargin)
            && (st.viewStart <= k ==>
                  (st'.viewStart <= LineIndex(Lines(env, st'), st'.point) <==>
                   !(k == st.viewStart && env.scrollMargin <= 0 && !AboveIsCut(Lines(env, st), k, st.point))))
  {
    var lines := Lines(env, st);
    SplitTiles(st.text, env.width, 0);
    PrevLineGoesUp(st.text, lines, st.point);
    if AboveIsCut(lines, LineIndex(lines, st.point), st.point) {
      PointHasOneLine(st.text, lines, PrevLinePoint(lines, st.point));
      assert OnLine(lines, LineIndex(lines, st.point), PrevLinePoint(lines, st.point));
    }
  }

  /** On the first line of several it may scroll back, too, depending on a number that the source never sets. */
  lemma PrevLineOnFirst(env: Settings, st: State, stale: int)
    requires Sound(st) && LineIndex(Lines(env, st), st.point) == 0
    ensures var st' := PrevLine(env, st, stale);
            && st'.text == st.text && st'.point == st.point && st.viewStart - 1 <= st'.viewStart <= st.viewStart
            && (st'.viewStart < st.viewStart <==>
                |Lines(env, st)| > 1 && 0 < st.viewStart && stale < st.viewStart + env.scrollMargin)
  {
    StaysAtEdge(Lines(env, st), st.point);
  }

  /** Next-line does nothing on the last line, and does not scroll while the point's line is above the last two of the
      view. Otherwise it scrolls as little as brings that line in front of the margin at the end of the view, and
      stores the number of the first line shown in the point. */
  lemma NextLineShows(env: Settings, st: State, other: int)
    requires Sound(st) && OpAllowed(env, ToNextLine)
    ensures var st', lines := NextLine(env, st), Lines(env, st);
            var k := LineIndex(lines, st.point);
            if k + 1 == |lines| then st' == st
            else if k < st.viewStart + env.viewLines - 2 then st' == st.(point := NextLinePoint(lines, st.point))
            else
              && st'.text == st.text && st'.point == st'.viewStart >= st.viewStart
              && k < st'.viewStart + env.viewLines - env.scrollMargin
              && (st.viewStart <= other && k < other + env.viewLines - env.scrollMargin ==> st'.viewStart <= other)
  {
    NextLineIsSound(env, st);
    StaysAtEdge(Lines(env, st), st.point);
  }

  /** At the end of the text, the view has as many of the last lines as its height without the margin, or all lines
      if there are no more. */
  lemma EndIsShown(env: Settings, st: State)
    ensures var n, room, start := |Lines(env, st)|, env.viewHeight - env.scrollMargin, TextEnd(env, st).viewStart;
            && TextEnd(env, st).text == st.text && TextEnd(env, st).point == |st.text|
            && 0 <= start && n - start <= room && (start > 0 ==> n - start == room)
  {
  }
}
