/** Sources with fixup markers as generate_fixup of src/output.c writes them: reading such a source finds every
    marker's selector, in order, and blanks out exactly the markers' lines. */
module FixupMarkers {
  import opened CStrings
  import opened MethodSource

  /** A marker names a source line, in digits, and the selector of a method. */
  datatype Marker = Marker(line: string, selector: string, newlineBefore: bool)

  /** A source is code with markers in it. */
  datatype Source = Code(text: string) | Then(code: string, marker: Marker, rest: Source)

  predicate MarkerOk(m: Marker) {
    (forall c <- m.line :: '0' <= c <= '9') && (forall c <- m.selector :: c != '"' && c != '\n')
  }

  /** No occurrence of the marker text. */
  ghost predicate Unmarked(s: string) {
    forall i | 0 <= i :: !MatchesAt(s, MARKER, i)
  }

  ghost predicate WellMarked(s: Source) {
    match s
    case Code(text) => Unmarked(text)
    case Then(code, marker, rest) => Unmarked(code) && MarkerOk(marker) && WellMarked(rest)
  }

  function Lead(m: Marker): string {
    if m.newlineBefore then "\n" else ""
  }

  /** The marker's own line, without the newline that ends it. */
  function Body(m: Marker): string {
    Front(m) + (MARKER + (m.selector + "\""))
  }

  function Render(s: Source): string {
    match s
    case Code(text) => text
    case Then(code, marker, rest) => code + (Lead(marker) + (Body(marker) + ("\n" + Render(rest))))
  }

  function RenderElided(s: Source): string {
    match s
    case Code(text) => text
    case Then(code, marker, rest) => code + (Lead(marker) + (Blanks(|Body(marker)|) + ("\n" + RenderElided(rest))))
  }

  function Selectors(s: Source): seq<string> {
    match s
    case Code(_) => []
    case Then(_, marker, rest) => [marker.selector] + Selectors(rest)
  }

  // ---------- One marker ----------

  lemma {:induction false} FindBackIs(text: string, c: char, i: nat, k: nat)
    requires k < i <= |text| && text[k] == c && forall j | k < j < i :: text[j] != c
    ensures FindBack(text, c, i) == Some(k)
    decreases i
  {
    if i - 1 == k {
    } else {
      FindBackIs(text, c, i - 1, k);
    }
  }

  /** A match starts and ends with '/', and holds neither '#' nor a blank nor a newline. */
  lemma MatchHas(text: string, i: nat)
    requires MatchesAt(text, MARKER, i)
    ensures i + 13 <= |text| && text[i] == '/'
    ensures forall k | i <= k < i + 13 :: text[k] != '#' && text[k] != '\n' && text[k] != ' '
    ensures forall k | i < k < i + 12 :: text[k] != '/'
    ensures text[i + 12] == '/'
  {
    assert forall k | i <= k < i + 13 :: text[k] == text[i..i + 13][k - i] == MARKER[k - i];
    assert MARKER == ['/', '@', 'c', 't', 'a', 'l', 'k', 'f', 'i', 'x', 'u', 'p', '/'];
  }

  /** No '/' is left in the text from o on. */
  predicate NoSlash(text: string, o: nat)
    requires o <= |text|
  {
    FindChar(text, '/', o).None?
  }

  lemma {:induction false} NoSlashIs(text: string, o: nat)
    requires o <= |text|
    ensures NoSlash(text, o) <==> forall i | o <= i < |text| :: text[i] != '/'
    decreases |text| - o
  {
    if o == |text| || text[o] == '/' {
    } else {
      NoSlashIs(text, o + 1);
    }
  }

  lemma FixupIs(text: string, o: nat, h: nat, p: nat, q: nat, n: nat)
    requires o <= |text| && p + 13 <= q <= |text| && FindStr(text, MARKER, o) == Some(p)
    requires FindBack(text, '#', p) == Some(h) && h + 1 <= |text| && FindChar(text, '/', p + 1) == Some(p + 12)
    requires FindChar(text, '"', p + 13) == Some(q) && FindChar(text, '\n', h + 1) == Some(n)
    ensures NextFixup(text, o) == Fixup(text[p + 13..q], h, n, q)
  {
    hide FindStr, FindBack, FindChar, MatchesAt;
  }

  /** In a text where the marker line starts with '#' at h, has its first '/' at p with the marker text there, its
      selector up to the quote at q, and its end at n, the search from o on finds just that. */
  lemma MarkerIsFound(text: string, o: nat, h: nat, p: nat, q: nat, n: nat)
    requires o <= h < p && p + 13 <= q < n < |text|
    requires text[h] == '#' && MatchesAt(text, MARKER, p) && text[q] == '"' && text[n] == '\n'
    requires forall k | o <= k < p :: !MatchesAt(text, MARKER, k)
    requires forall k | h < k < p :: text[k] != '#'
    requires forall k | h < k < n :: text[k] != '\n'
    requires forall k | p + 13 <= k < q :: text[k] != '"'
    ensures NextFixup(text, o) == Fixup(text[p + 13..q], h, n, q)
  {
    assert FindStr(text, MARKER, o) == Some(p) by { FindStrIs(text, MARKER, o, p); }
    assert FindBack(text, '#', p) == Some(h) by { FindBackIs(text, '#', p, h); }
    assert FindChar(text, '/', p + 1) == Some(p + 12) by {
      MatchHas(text, p);
      FindCharIs(text, '/', p + 1, p + 12);
    }
    assert FindChar(text, '"', p + 13) == Some(q) by { FindCharIs(text, '"', p + 13, q); }
    assert FindChar(text, '\n', h + 1) == Some(n) by { FindCharIs(text, '\n', h + 1, n); }
    FixupIs(text, o, h, p, q, n);
  }

  /** The parts of a marker's line: what comes before the marker text, and what comes after it. */
  function Front(m: Marker): string {
    "# " + m.line + " \""
  }

  lemma FrontShape(m: Marker)
    requires MarkerOk(m)
    ensures var f := Front(m);
            && |f| == 4 + |m.line| && f[0] == '#'
            && (forall k | 0 < k < |f| :: f[k] != '#' && f[k] != '/') && (forall k | 0 <= k < |f| :: f[k] != '\n')
  {
    assert forall k | 2 <= k < 2 + |m.line| :: Front(m)[k] == m.line[k - 2] && m.line[k - 2] in m.line;
  }

  lemma BackShape(m: Marker)
    requires MarkerOk(m)
    ensures var b := m.selector + "\"";
            && |b| == |m.selector| + 1 && b[|m.selector|] == '"' && b[..|m.selector|] == m.selector
            && (forall k | 0 <= k < |b| :: b[k] != '\n') && (forall k | 0 <= k < |b| - 1 :: b[k] != '"')
  {
    assert forall k | 0 <= k < |m.selector| :: m.selector[k] in m.selector;
  }

  /** The shape of a marker's line: '#', nothing but digits, blanks and a quote up to the marker text, then the
      selector and the closing quote. */
  lemma BodyShape(m: Marker)
    requires MarkerOk(m)
    ensures var b, p := Body(m), 4 + |m.line|;
            && |b| == p + 13 + |m.selector| + 1 && b[0] == '#' && b[|b| - 1] == '"' && MatchesAt(b, MARKER, p)
            && (forall k | 0 < k < p :: b[k] != '#' && b[k] != '/')
            && (forall k | 0 <= k < |b| :: b[k] != '\n')
            && (forall k | p + 13 <= k < |b| - 1 :: b[k] != '"')
            && b[p + 13..|b| - 1] == m.selector
  {
    var b, f, t := Body(m), Front(m), m.selector + "\"";
    FrontShape(m);
    BackShape(m);
    var p := |f|;
    assert forall k | 0 <= k < p :: b[k] == f[k];
    assert forall k | p <= k < p + 13 :: b[k] == MARKER[k - p];
    assert forall k | p + 13 <= k < |b| :: b[k] == t[k - p - 13];
    assert b[p..p + 13] == MARKER;
    assert b[p + 13..|b| - 1] == t[..|m.selector|];
    assert MARKER == ['/', '@', 'c', 't', 'a', 'l', 'k', 'f', 'i', 'x', 'u', 'p', '/'];
  }

  /** Before a marker that starts at the end of a, no marker text begins at o or later: what is left over from
      before has no '/', the code is unmarked, and no match reaches across the start of the marker. */
  lemma NothingBefore(pre: string, code: string, m: Marker, text: string, o: nat, k: nat)
    requires o <= |pre| && NoSlash(pre, o) && Unmarked(code)
    requires pre + code + Lead(m) <= text && |text| > |pre + code + Lead(m)| && text[|pre + code + Lead(m)|] == '#'
    requires o <= k < |pre + code + Lead(m)|
    ensures !MatchesAt(text, MARKER, k)
  {
    var a := pre + code + Lead(m);
    NoSlashIs(pre, o);
    assert forall i | 0 <= i < |a| :: text[i] == a[i];
    assert forall i | 0 <= i < |pre| :: a[i] == pre[i];
    assert m.newlineBefore ==> a[|pre + code|] == '\n';
    if MatchesAt(text, MARKER, k) {
      MatchHas(text, k);
      if k >= |pre| && k + 13 <= |pre + code| {
        assert text[k..k + 13] == code[k - |pre|..k - |pre| + 13];
        assert MatchesAt(code, MARKER, k - |pre|);
      }
    }
  }

  /** Neither does one begin in the marker's line before the marker text. */
  lemma NothingInBody(text: string, h: nat, m: Marker, k: nat)
    requires MarkerOk(m) && h + |Body(m)| <= |text| && forall i | 0 <= i < |Body(m)| :: text[h + i] == Body(m)[i]
    requires h <= k < h + 4 + |m.line|
    ensures !MatchesAt(text, MARKER, k)
  {
    BodyShape(m);
    assert text[h + (k - h)] == Body(m)[k - h];
    if MatchesAt(text, MARKER, k) {
      MatchHas(text, k);
    }
  }

  lemma MarkerStep(pre: string, code: string, m: Marker, text: string, o: nat, h: nat)
    requires o <= |pre| && NoSlash(pre, o) && Unmarked(code) && MarkerOk(m)
    requires pre + code + Lead(m) <= text && h == |pre + code + Lead(m)| && h + |Body(m)| < |text|
    requires forall i | 0 <= i < |Body(m)| :: text[h + i] == Body(m)[i]
    requires text[h + |Body(m)|] == '\n'
    ensures NextFixup(text, o) == Fixup(m.selector, h, h + |Body(m)|, h + |Body(m)| - 1)
  {
    var b := Body(m);
    var p, q := h + 4 + |m.line|, h + |b| - 1;
    BodyShape(m);
    assert forall i | h <= i < h + |b| :: text[i] == b[i - h];
    assert text[h + 0] == b[0];
    forall k | o <= k < p
      ensures !MatchesAt(text, MARKER, k)
    {
      if k < h {
        NothingBefore(pre, code, m, text, o, k);
      } else {
        NothingInBody(text, h, m, k);
      }
    }
    assert text[p..p + 13] == b[p - h..p - h + 13];
    assert text[p + 13..q] == b[p - h + 13..|b| - 1];
    MarkerIsFound(text, o, h, p, q, q + 1);
  }

  lemma Assoc(a: string, b: string, c: string)
    ensures a + (b + c) == (a + b) + c
  {
  }

  /** What is where in three strings joined together. */
  lemma Sections(a: string, b: string, tail: string)
    ensures var text := a + (b + tail);
            && text[..|a|] == a && text[|a| + |b|..] == tail && a <= text
            && (forall i | 0 <= i < |b| :: text[|a| + i] == b[i])
            && (tail != "" ==> text[|a| + |b|] == tail[0])
  {
  }

  /** The first marker of a source, behind some text with no '/' left from o on. */
  lemma FirstMarkerIsRead(pre: string, code: string, m: Marker, a: string, tail: string, o: nat)
    requires o <= |pre| && NoSlash(pre, o) && Unmarked(code) && MarkerOk(m)
    requires a == pre + code + Lead(m) && tail != "" && tail[0] == '\n'
    ensures var n, text := |Body(m)|, a + (Body(m) + tail);
            NextFixup(text, o) == Fixup(m.selector, |a|, |a| + n, |a| + n - 1)
  {
    Sections(a, Body(m), tail);
    MarkerStep(pre, code, m, a + (Body(m) + tail), o, |a|);
  }

  lemma CodeIsRead(pre: string, code: string, o: nat)
    requires o <= |pre| && NoSlash(pre, o) && Unmarked(code)
    ensures NextFixup(pre + code, o) == NoFixup
  {
    var text := pre + code;
    NoSlashIs(pre, o);
    forall k | o <= k
      ensures !MatchesAt(text, MARKER, k)
    {
      if MatchesAt(text, MARKER, k) {
        MatchHas(text, k);
        if k >= |pre| {
          assert text[k..k + 13] == code[k - |pre|..k - |pre| + 13];
          assert MatchesAt(code, MARKER, k - |pre|);
        }
      }
    }
  }

  function Through(pre: string, code: string, m: Marker): string {
    pre + code + Lead(m) + Blanks(|Body(m)|) + "\n"
  }

  lemma SameText(pre: string, code: string, lead: string, body: string, tail: string)
    ensures pre + (code + (lead + (body + tail))) == pre + code + lead + (body + tail)
  {
    Assoc(pre, code, lead + (body + tail));
    Assoc(pre + code, lead, body + tail);
  }

  lemma ThroughText(a: string, blanks: string, rest: string)
    ensures a + (blanks + ("\n" + rest)) == a + blanks + "\n" + rest
  {
    Assoc(a, blanks, "\n" + rest);
    Assoc(a + blanks, "\n", rest);
  }

  lemma ThroughHasNoSlash(pre: string, code: string, m: Marker, next: nat)
    requires next == |pre + code + Lead(m)| + |Body(m)| - 1
    ensures next <= |Through(pre, code, m)| && NoSlash(Through(pre, code, m), next)
  {
    NoSlashIs(Through(pre, code, m), next);
  }

  lemma MarkerIsRead(pre: string, code: string, m: Marker, rest: Source, o: nat)
    requires o <= |pre| && NoSlash(pre, o) && Unmarked(code) && MarkerOk(m)
    ensures var a, n, text := pre + code + Lead(m), |Body(m)|, pre + Render(Then(code, m, rest));
            NextFixup(text, o) == Fixup(m.selector, |a|, |a| + n, |a| + n - 1)
  {
    hide Lead, Body, NextFixup, NoSlash, Unmarked, MarkerOk;
    SameText(pre, code, Lead(m), Body(m), "\n" + Render(rest));
    FirstMarkerIsRead(pre, code, m, pre + code + Lead(m), "\n" + Render(rest), o);
  }

  lemma MarkerIsBlankedOut(pre: string, code: string, m: Marker, rest: Source)
    ensures var a := pre + code + Lead(m);
            BlankOut(pre + Render(Then(code, m, rest)), |a|, |a| + |Body(m)|) == Through(pre, code, m) + Render(rest)
  {
  }

  lemma ThroughRest(pre: string, code: string, m: Marker, rest: Source)
    ensures Through(pre, code, m) + RenderElided(rest) == pre + RenderElided(Then(code, m, rest))
  {
    SameText(pre, code, Lead(m), Blanks(|Body(m)|), "\n" + RenderElided(rest));
    ThroughText(pre + code + Lead(m), Blanks(|Body(m)|), RenderElided(rest));
  }

  /** Reading a source, behind some text with no '/' left from o on, finds its markers and blanks out their lines. */
  lemma {:induction false} SourceIsRead(pre: string, s: Source, o: nat)
    requires o <= |pre| && NoSlash(pre, o) && WellMarked(s)
    ensures var text := pre + Render(s);
            FixupsOk(text, o) && Elided(text, o) == pre + RenderElided(s) && Fixups(text, o) == Selectors(s)
    decreases s
  {
    hide FixupsOk, Fixups, Elided, NextFixup, BlankOut, Lead, Body, Through, NoSlash, Unmarked, MarkerOk;
    FixupsStep(pre + Render(s), o);
    match s
    case Code(code) => CodeIsRead(pre, code, o);
    case Then(code, m, rest) =>
      var h, n, pre' := |pre + code + Lead(m)|, |Body(m)|, Through(pre, code, m);
      var text, text', next := pre + Render(s), pre' + Render(rest), h + n - 1;
      MarkerIsRead(pre, code, m, rest, o);
      MarkerIsBlankedOut(pre, code, m, rest);
      ThroughHasNoSlash(pre, code, m, next);
      SourceIsRead(pre', rest, next);
      calc {
        Elided(text, o);
        Elided(text', next);
        pre' + RenderElided(rest);
        { ThroughRest(pre, code, m, rest); }
        pre + RenderElided(s);
      }
      calc {
        Fixups(text, o);
        [m.selector] + Fixups(text', next);
        [m.selector] + Selectors(rest);
        Selectors(s);
      }
  }

  /** Code followed by nothing but blanks and newlines adds no marker to what comes behind. */
  lemma GapIsUnmarked(code: string, gap: string, tail: string)
    requires Unmarked(code) && Unmarked(tail)
    requires gap != "" && forall i | 0 <= i < |gap| :: gap[i] == ' ' || gap[i] == '\n'
    ensures Unmarked(code + gap + tail)
  {
    var text := code + gap + tail;
    assert forall i | |code| <= i < |code + gap| :: text[i] == gap[i - |code|];
    assert text[|code|] == gap[0];
    forall k | 0 <= k
      ensures !MatchesAt(text, MARKER, k)
    {
      if MatchesAt(text, MARKER, k) {
        MatchHas(text, k);
        if k >= |code + gap| {
          assert text[k..k + 13] == tail[k - |code + gap|..k - |code + gap| + 13];
          assert MatchesAt(tail, MARKER, k - |code + gap|);
        } else if k + 13 <= |code| {
          assert text[k..k + 13] == code[k..k + 13];
          assert MatchesAt(code, MARKER, k);
        }
      }
    }
  }

  lemma {:induction false} ElidedIsUnmarked(s: Source)
    requires WellMarked(s)
    ensures Unmarked(RenderElided(s))
    decreases s
  {
    match s
    case Code(_) =>
    case Then(code, m, rest) =>
      ElidedIsUnmarked(rest);
      var gap, tail := Lead(m) + Blanks(|Body(m)|) + "\n", RenderElided(rest);
      GapIsUnmarked(code, gap, tail);
      assert RenderElided(s) == code + gap + tail;
  }

  /** Reading a source as the compiler wrote it finds the selectors of all its markers in order, leaves no marker
      in it, and keeps everything but the markers' own lines, which become blank. */
  lemma {:induction false} FixupRoundTrip(s: Source)
    requires WellMarked(s)
    ensures FixupsOk(Render(s), 0) && Fixups(Render(s), 0) == Selectors(s)
    ensures Elided(Render(s), 0) == RenderElided(s) && Unmarked(RenderElided(s))
    ensures |RenderElided(s)| == |Render(s)|
    ensures forall i | 0 <= i < |Render(s)| :: RenderElided(s)[i] == '\n' <==> Render(s)[i] == '\n'
  {
    NoSlashIs("", 0);
    SourceIsRead("", s, 0);
    assert "" + Render(s) == Render(s) && "" + RenderElided(s) == RenderElided(s);
    ElidedIsUnmarked(s);
    ElidedKeepsLines(Render(s), 0);
  }
}
