/** Sources with the calls that src/output.c writes: which of their selectors and class names output_pre_method of
    src/premethod.c reads. */
module WrittenSource {
  import opened CStrings
  import opened MethodSource

  /** A method call as fmt_method_call writes it, where a receiver is a name or a literal; and a constructor call, with
      whatever comes after the name of the class. */
  datatype Item =
    | MethodCall(receiver: string, selector: string, name: string)
    | Constructor(classname: string, args: string)

  /** A source is other text with such calls in it. */
  datatype Source = Plain(text: string) | With(text: string, item: Item, rest: Source)

  function Key(kind: Kind): string {
    if kind.Construct? then "__ctalkCreateArgA" else "__ctalk_method"
  }

  function KindOf(i: Item): Kind {
    if i.Constructor? then Construct else Call
  }

  /** What comes after the name of the function that is called. */
  function Arguments(i: Item): string {
    match i
    case MethodCall(receiver, selector, name) =>
      " (\"" + (receiver + ("\", " + (selector + (", \"" + (name + "\")")))))
    case Constructor(classname, args) => " (\"" + (classname + ("\", " + (args + ")")))
  }

  function ItemText(i: Item): string {
    Key(KindOf(i)) + Arguments(i)
  }

  function Render(s: Source): string {
    match s
    case Plain(text) => text
    case With(text, i, rest) => text + (ItemText(i) + Render(rest))
  }

  /** The selectors of the method calls, in order. */
  function Selectors(s: Source): seq<string> {
    match s
    case Plain(_) => []
    case With(_, i, rest) => (if i.MethodCall? then [i.selector] else []) + Selectors(rest)
  }

  /** The classes of the constructor calls, in order. */
  function Classes(s: Source): seq<string> {
    match s
    case Plain(_) => []
    case With(_, i, rest) => (if i.Constructor? then [i.classname] else []) + Classes(rest)
  }

  // ---------- Well-formed sources ----------

  /** A letter, a digit or an underscore. */
  predicate IsWord(c: char) {
    IsAlnum(c) || c == '_'
  }

  predicate IsLabel(s: string) {
    s != "" && forall c <- s :: IsWord(c)
  }

  ghost predicate NoKey(text: string, kind: Kind, o: nat) {
    forall i | o <= i :: !MatchesAt(text, Key(kind), i)
  }

  ghost predicate NoKeys(text: string) {
    NoKey(text, Call, 0) && NoKey(text, Construct, 0)
  }

  /** What comes next is no part of a word that began before. */
  predicate EndsWord(text: string) {
    text != "" ==> !IsWord(text[|text| - 1])
  }

  ghost predicate ItemOk(i: Item) {
    match i
    case MethodCall(receiver, selector, name) =>
      NoKeys(receiver) && IsLabel(selector) && NoKeys(selector) && NoKeys(name)
    case Constructor(classname, args) => IsLabel(classname) && NoKeys(classname) && NoKeys(args)
  }

  /** No other call is in the text, and none runs on from the word before it. */
  ghost predicate WellWritten(s: Source) {
    match s
    case Plain(text) => NoKeys(text)
    case With(text, i, rest) => NoKeys(text) && EndsWord(text) && ItemOk(i) && WellWritten(rest)
  }

  // ---------- Where the names of the functions are not ----------

  lemma KeyHasWords(text: string, kind: Kind, i: nat)
    requires MatchesAt(text, Key(kind), i)
    ensures forall k | i <= k < i + |Key(kind)| :: IsWord(text[k])
  {
    var key := Key(kind);
    assert forall k | i <= k < i + |key| :: text[k] == text[i..i + |key|][k - i] == key[k - i];
    assert forall k | 0 <= k < |key| :: IsWord(key[k]);
  }

  lemma KeyInSecond(a: string, b: string, kind: Kind, i: nat)
    requires i >= |a| && MatchesAt(a + b, Key(kind), i)
    ensures MatchesAt(b, Key(kind), i - |a|)
  {
    var n := |Key(kind)|;
    assert (a + b)[i..i + n] == b[i - |a|..i - |a| + n];
  }

  /** Text without a key, put together at the end of a word, has none. */
  lemma JoinedHasNoKey(a: string, b: string, kind: Kind, o: nat)
    requires NoKey(a, kind, o) && NoKey(b, kind, 0) && o <= |a|
    requires EndsWord(a) || (b != "" && !IsWord(b[0]))
    ensures NoKey(a + b, kind, o)
  {
    var text, n := a + b, |Key(kind)|;
    assert (b != "" ==> text[|a|] == b[0]) && (a != "" ==> text[|a| - 1] == a[|a| - 1]);
    forall i | o <= i
      ensures !MatchesAt(text, Key(kind), i)
    {
      if i + n <= |a| {
        assert text[i..i + n] == a[i..i + n] && !MatchesAt(a, Key(kind), i);
      } else if i >= |a| {
        if MatchesAt(text, Key(kind), i) { KeyInSecond(a, b, kind, i); }
      } else if MatchesAt(text, Key(kind), i) {
        KeyHasWords(text, kind, i);
      }
    }
  }

  lemma ArgumentsHaveNoKey(i: Item, kind: Kind)
    requires ItemOk(i)
    ensures NoKey(Arguments(i), kind, 0) && Arguments(i) != "" && Arguments(i)[0] == ' ' && EndsWord(Arguments(i))
  {
    match i
    case MethodCall(receiver, selector, name) =>
      JoinedHasNoKey(name, "\")", kind, 0);
      JoinedHasNoKey(", \"", name + "\")", kind, 0);
      JoinedHasNoKey(selector, ", \"" + (name + "\")"), kind, 0);
      JoinedHasNoKey("\", ", selector + (", \"" + (name + "\")")), kind, 0);
      JoinedHasNoKey(receiver, "\", " + (selector + (", \"" + (name + "\")"))), kind, 0);
      JoinedHasNoKey(" (\"", receiver + ("\", " + (selector + (", \"" + (name + "\")")))), kind, 0);
    case Constructor(classname, args) =>
      JoinedHasNoKey(args, ")", kind, 0);
      JoinedHasNoKey("\", ", args + ")", kind, 0);
      JoinedHasNoKey(classname, "\", " + (args + ")"), kind, 0);
      JoinedHasNoKey(" (\"", classname + ("\", " + (args + ")")), kind, 0);
  }

  lemma CallKeyShape(text: string, i: nat)
    requires MatchesAt(text, Key(Call), i)
    ensures i + 14 <= |text| && text[i] == '_' && text[i + 1] == '_' && text[i + 7] == '_'
  {
    assert forall k | i <= k < i + 14 :: text[k] == text[i..i + 14][k - i];
  }

  lemma KeysDiffer(kind: Kind, other: Kind)
    ensures NoKey(Key(kind), other, if kind == other then 1 else 0)
  {
    if kind.Construct? && other.Call? {
      forall i | 0 <= i
        ensures !MatchesAt(Key(kind), Key(other), i)
      {
        if MatchesAt(Key(kind), Key(other), i) { CallKeyShape(Key(kind), i); }
      }
    }
  }

  /** A call has the name of its own function at its beginning, and no other. */
  lemma ItemHasOneKey(i: Item, kind: Kind)
    requires ItemOk(i)
    ensures NoKey(ItemText(i), kind, if kind == KindOf(i) then 1 else 0) && EndsWord(ItemText(i))
    ensures MatchesAt(ItemText(i), Key(KindOf(i)), 0)
  {
    hide Arguments;
    ArgumentsHaveNoKey(i, kind);
    KeysDiffer(KindOf(i), kind);
    JoinedHasNoKey(Key(KindOf(i)), Arguments(i), kind, if kind == KindOf(i) then 1 else 0);
  }

  // ---------- Reading behind other text ----------

  lemma FirstKeyBehind(a: string, t: string, tail: string, kind: Kind, o: nat)
    requires o <= |a| && NoKey(a, kind, o) && EndsWord(a) && MatchesAt(t, Key(kind), 0)
    ensures FindStr(a + (t + tail), Key(kind), o) == Some(|a|)
  {
    var text, n := a + (t + tail), |Key(kind)|;
    assert text[|a|..|a| + n] == t[..n];
    assert a != "" ==> text[|a| - 1] == a[|a| - 1];
    forall i | o <= i < |a|
      ensures !MatchesAt(text, Key(kind), i)
    {
      if MatchesAt(text, Key(kind), i) {
        KeyHasWords(text, kind, i);
        assert text[i..i + n] == a[i..i + n];
        assert MatchesAt(a, Key(kind), i);
      }
    }
    FindStrIs(text, Key(kind), o, |a|);
  }

  lemma FindCharBehind(a: string, t: string, tail: string, c: char, from: nat)
    requires from <= |t| && FindChar(t, c, from).Some?
    ensures FindChar(a + (t + tail), c, |a| + from) == Some(|a| + FindChar(t, c, from).value)
  {
    var text, at := a + (t + tail), FindChar(t, c, from).value;
    FindCharFirst(t, c, from);
    assert forall k | 0 <= k < |t| :: text[|a| + k] == t[k];
    forall k | |a| + from <= k < |a| + at
      ensures text[k] != c
    {
      assert text[|a| + (k - |a|)] == t[k - |a|];
    }
    FindCharIs(text, c, |a| + from, |a| + at);
  }

  lemma {:induction false} SpacesBehind(a: string, t: string, tail: string, i: nat)
    requires i <= |t| && SpacesEnd(t, i) < |t|
    ensures SpacesEnd(a + (t + tail), |a| + i) == |a| + SpacesEnd(t, i)
    decreases |t| - i
  {
    assert (a + (t + tail))[|a| + i] == t[i];
    if IsSpace(t[i]) {
      SpacesBehind(a, t, tail, i + 1);
    }
  }

  lemma NextNameIs(src: string, o: nat, kind: Kind, p: nat, open: nat, q: nat, close: nat)
    requires o <= |src| && FindStr(src, Key(kind), o) == Some(p)
    requires p <= open < q <= close < |src| && q == if kind.Construct? then open + 1 else SpacesEnd(src, open + 1)
    requires var quote := if kind.Construct? then '"' else ',';
             FindChar(src, quote, p) == Some(open) && FindChar(src, quote, q) == Some(close)
    ensures NextName(src, o, kind) == Found(src[q..close], q)
  {
    hide FindStr, FindChar, SpacesEnd, MatchesAt;
  }

  /** A name that is found in some text is found when it stands behind other text without the key. */
  lemma NameBehind(a: string, t: string, tail: string, kind: Kind, o: nat, open: nat, q: nat, close: nat)
    requires o <= |a| && NoKey(a, kind, o) && EndsWord(a) && MatchesAt(t, Key(kind), 0)
    requires open < q <= close < |t| && q == if kind.Construct? then open + 1 else SpacesEnd(t, open + 1)
    requires var quote := if kind.Construct? then '"' else ',';
             FindChar(t, quote, 0) == Some(open) && FindChar(t, quote, q) == Some(close)
    ensures NextName(a + (t + tail), o, kind) == Found(t[q..close], |a| + q)
  {
    hide FindStr, FindChar, SpacesEnd, MatchesAt, NextName, NoKey, EndsWord, Key;
    var text, quote := a + (t + tail), if kind.Construct? then '"' else ',';
    FirstKeyBehind(a, t, tail, kind, o);
    FindCharBehind(a, t, tail, quote, 0);
    if kind.Call? { SpacesBehind(a, t, tail, open + 1); }
    FindCharBehind(a, t, tail, quote, q);
    NextNameIs(text, o, kind, |a|, |a| + open, |a| + q, |a| + close);
    assert text[|a| + q..|a| + close] == t[q..close];
  }

  // ---------- One call ----------

  /** Where the name that is read of a call begins and ends: behind the delimiter at open, and before the next one. */
  predicate NameAt(t: string, kind: Kind, open: nat, q: nat, close: nat) {
    var quote := if kind.Construct? then '"' else ',';
    && open < q <= close < |t| && t[open] == quote && t[close] == quote
    && (forall k | 0 <= k < open :: t[k] != quote) && (forall k | q <= k < close :: t[k] != quote)
    && if kind.Construct? then q == open + 1
       else !IsSpace(t[q]) && forall k | open < k < q :: IsSpace(t[k])
  }

  lemma {:induction false} SpacesEndIs(t: string, i: nat, q: nat)
    requires i <= q < |t| && !IsSpace(t[q]) && forall k | i <= k < q :: IsSpace(t[k])
    ensures SpacesEnd(t, i) == q
    decreases q - i
  {
    if i == q {
    } else {
      SpacesEndIs(t, i + 1, q);
    }
  }

  lemma NameAtIsFound(a: string, t: string, tail: string, kind: Kind, o: nat, open: nat, q: nat, close: nat)
    requires o <= |a| && NoKey(a, kind, o) && EndsWord(a)
    requires MatchesAt(t, Key(kind), 0) && NameAt(t, kind, open, q, close)
    ensures NextName(a + (t + tail), o, kind) == Found(t[q..close], |a| + q)
  {
    hide NoKey, EndsWord, MatchesAt, Key, NextName;
    var quote := if kind.Construct? then '"' else ',';
    FindCharIs(t, quote, 0, open);
    FindCharIs(t, quote, q, close);
    if kind.Call? { SpacesEndIs(t, open + 1, q); }
    NameBehind(a, t, tail, kind, o, open, q, close);
  }

  /** From j on, after the first ',' of the receiver and blanks, there is the selector and another ','. */
  predicate SelectorAt(receiver: string, selector: string, i: nat, j: nat) {
    && i < j && j + |selector| < |receiver|
    && receiver[i] == ',' && (forall k | 0 <= k < i :: receiver[k] != ',')
    && (forall k | i < k < j :: IsSpace(receiver[k]))
    && receiver[j..j + |selector|] == selector && receiver[j + |selector|] == ','
  }

  lemma ClassIsAt(i: Item)
    requires i.Constructor? && IsLabel(i.classname)
    ensures NameAt(ItemText(i), Construct, 19, 20, 20 + |i.classname|)
    ensures ItemText(i)[20..20 + |i.classname|] == i.classname
  {
    var t, k := ItemText(i), i.classname;
    assert t == "__ctalkCreateArgA (\"" + (k + ("\", " + (i.args + ")")));
    assert forall j | 20 <= j < 20 + |k| :: t[j] == k[j - 20] && k[j - 20] in k;
  }

  lemma NameAtBehind(front: string, u: string, tail: string, open: nat, q: nat, close: nat)
    requires ',' !in front && NameAt(u, Call, open, q, close)
    ensures var n, t := |front|, front + (u + tail);
            NameAt(t, Call, n + open, n + q, n + close) && t[n + q..n + close] == u[q..close]
  {
    var n, t := |front|, front + (u + tail);
    assert forall k | n <= k < n + |u| :: t[k] == u[k - n];
    assert forall k | 0 <= k < n :: t[k] == front[k] && front[k] in front;
  }

  /** The arguments of a method call, up to the ',' behind the selector. */
  function UpToSelector(receiver: string, selector: string): string {
    receiver + ("\", " + (selector + ","))
  }

  lemma UpToSelectorShape(r: string, s: string)
    ensures var u := UpToSelector(r, s);
            && |u| == |r| + |s| + 4 && (forall k | 0 <= k < |r| :: u[k] == r[k])
            && u[|r|] == '"' && u[|r| + 1] == ',' && u[|r| + 2] == ' ' && u[|r| + 3 + |s|] == ','
            && (forall k | |r| + 3 <= k < |r| + 3 + |s| :: u[k] == s[k - |r| - 3])
            && u[|r| + 3..|r| + 3 + |s|] == s
  {
  }

  lemma SelectorIsNext(r: string, s: string)
    requires IsLabel(s) && ',' !in r
    ensures var n, u := |r|, UpToSelector(r, s);
            NameAt(u, Call, n + 1, n + 3, n + 3 + |s|) && u[n + 3..n + 3 + |s|] == s
  {
    hide UpToSelector;
    UpToSelectorShape(r, s);
    assert forall k | 0 <= k < |s| :: s[k] in s;
    assert forall k | 0 <= k < |r| :: r[k] in r;
  }

  lemma {:induction false} SpacesEndLast(t: string, i: nat)
    requires i <= |t|
    ensures forall k | i <= k < SpacesEnd(t, i) :: IsSpace(t[k])
    ensures SpacesEnd(t, i) < |t| ==> !IsSpace(t[SpacesEnd(t, i)])
    decreases |t| - i
  {
    if i < |t| && IsSpace(t[i]) {
      SpacesEndLast(t, i + 1);
    }
  }

  /** If the receiver has a ',', what is read is behind that, and is not the selector unless the receiver has that in
      the same place. */
  lemma CommaMisleads(r: string, s: string, i: nat) returns (q: nat, close: nat)
    requires IsLabel(s) && FindChar(r, ',', 0) == Some(i)
    ensures var u := UpToSelector(r, s);
            NameAt(u, Call, i, q, close) && (u[q..close] == s <==> SelectorAt(r, s, i, q))
  {
    hide UpToSelector;
    var u := UpToSelector(r, s);
    UpToSelectorShape(r, s);
    FindCharFirst(r, ',', 0);
    SpacesEndLast(u, i + 1);
    q := SpacesEnd(u, i + 1);
    assert u[|r|] == '"' && q <= |r|;
    FindCharFirst(u, ',', q);
    close := FindChar(u, ',', q).value;
    ReadFromReceiver(r, s, u, i, q, close);
  }

  lemma ReadFromReceiver(r: string, s: string, u: string, i: nat, q: nat, close: nat)
    requires IsLabel(s) && NameAt(u, Call, i, q, close) && |r| < |u| && q <= |r| && u[|r|] == '"'
    requires forall k | 0 <= k < |r| :: u[k] == r[k]
    ensures u[q..close] == s <==> SelectorAt(r, s, i, q)
  {
    assert forall k | 0 <= k < |s| :: s[k] in s;
    if close < |r| {
      assert u[q..close] == r[q..close];
      if SelectorAt(r, s, i, q) {
        assert forall k | q <= k < q + |s| :: r[k] == r[q..q + |s|][k - q];
        assert close == q + |s|;
      }
    } else {
      assert u[q..close][|r| - q] == '"';
    }
  }

  /** A method call is what comes before its receiver, the two arguments that are looked at, and the rest. */
  lemma CallText(i: Item)
    requires i.MethodCall?
    ensures ItemText(i) ==
            "__ctalk_method (\"" + (UpToSelector(i.receiver, i.selector) + (" \"" + (i.name + "\")")))
  {
    var back := i.name + "\")";
    assert ", \"" + back == "," + (" \"" + back);
    CallAssoc(i.receiver, i.selector, " \"" + back);
    assert "__ctalk_method (\"" == METHOD_CALL + " (\"";
    assert ItemText(i) == METHOD_CALL + (" (\"" + (i.receiver + ("\", " + (i.selector + ("," + (" \"" + back))))));
  }

  lemma CallAssoc(r: string, s: string, back: string)
    ensures r + ("\", " + (s + ("," + back))) == UpToSelector(r, s) + back
  {
  }

  /** Whether the name that is read of a method call is its selector. */
  ghost predicate SelectorIsRead(i: Item)
    requires i.MethodCall?
  {
    ',' !in i.receiver || exists k, j :: SelectorAt(i.receiver, i.selector, k, j)
  }

  lemma CallIsAt(i: Item) returns (open: nat, q: nat, close: nat)
    requires i.MethodCall? && IsLabel(i.selector)
    ensures NameAt(ItemText(i), Call, open, q, close)
    ensures ItemText(i)[q..close] == i.selector <==> SelectorIsRead(i)
  {
    hide ItemText, UpToSelector, NameAt, SelectorAt;
    var r, s, u := i.receiver, i.selector, UpToSelector(i.receiver, i.selector);
    FindCharFirst(r, ',', 0);
    if FindChar(r, ',', 0).None? {
      open, q, close := |r| + 1, |r| + 3, |r| + 3 + |s|;
      SelectorIsNext(r, s);
      assert SelectorIsRead(i);
    } else {
      open := FindChar(r, ',', 0).value;
      q, close := CommaMisleads(r, s, open);
      if k, j :| SelectorAt(r, s, k, j) { OnePlace(r, s, k, j, open, q, close); }
      assert SelectorIsRead(i) <==> SelectorAt(r, s, open, q);
    }
    NameAtBehind("__ctalk_method (\"", u, " \"" + (i.name + "\")"), open, q, close);
    CallText(i);
    open, q, close := 17 + open, 17 + q, 17 + close;
  }

  lemma OnePlace(r: string, s: string, k: nat, j: nat, i: nat, q: nat, close: nat)
    requires IsLabel(s) && SelectorAt(r, s, k, j) && FindChar(r, ',', 0) == Some(i)
    requires NameAt(UpToSelector(r, s), Call, i, q, close)
    ensures SelectorAt(r, s, i, q)
  {
    hide UpToSelector;
    UpToSelectorShape(r, s);
    FindCharFirst(r, ',', 0);
    assert r[j] == r[j..j + |s|][0] == s[0] && s[0] in s;
  }

  /** What is read of a call. */
  function NameRead(i: Item): string {
    match NextName(ItemText(i), 0, KindOf(i))
    case Found(name, _) => name
    case _ => ""
  }

  /** A call is read from anywhere in the text before it, if that has no other one of its kind left. */
  lemma ItemIsRead(a: string, i: Item, tail: string, o: nat) returns (next: nat)
    requires ItemOk(i) && o <= |a| && NoKey(a, KindOf(i), o) && EndsWord(a)
    ensures NextName(a + (ItemText(i) + tail), o, KindOf(i)) == Found(NameRead(i), |a| + next)
    ensures 0 < next <= |ItemText(i)|
    ensures i.Constructor? ==> NameRead(i) == i.classname
    ensures i.MethodCall? ==> (NameRead(i) == i.selector <==> SelectorIsRead(i))
  {
    hide ItemText, NameAt, NextName, NoKey, NoKeys, SelectorIsRead, IsLabel;
    var t, kind := ItemText(i), KindOf(i);
    ItemHasOneKey(i, kind);
    var open, q, close;
    if i.Constructor? {
      open, q, close := 19, 20, 20 + |i.classname|;
      ClassIsAt(i);
    } else {
      open, q, close := CallIsAt(i);
    }
    NameAtIsFound(a, t, tail, kind, o, open, q, close);
    NothingBefore(kind);
    NameAtIsFound("", t, "", kind, 0, open, q, close);
    assert "" + (t + "") == t;
    assert 0 < q <= |t| by { NameAtIsInside(t, kind, open, q, close); }
    next := q;
  }

  lemma NameAtIsInside(t: string, kind: Kind, open: nat, q: nat, close: nat)
    requires NameAt(t, kind, open, q, close)
    ensures 0 < q <= |t|
  {
  }

  lemma NothingBefore(kind: Kind)
    ensures NoKey("", kind, 0) && EndsWord("")
  {
  }

  // ---------- Whole sources ----------

  /** The names that the search finds, in the order in which it does. */
  function NamesInOrder(src: string, o: nat, kind: Kind): seq<string>
    requires o <= |src|
    decreases |src| - o
  {
    match NextName(src, o, kind)
    case Found(name, next) => [name] + NamesInOrder(src, next, kind)
    case _ => []
  }

  lemma {:induction false} NamesAreThose(src: string, o: nat, kind: Kind)
    requires o <= |src|
    ensures Names(src, o, kind) == set name | name in NamesInOrder(src, o, kind)
    decreases |src| - o
  {
    hide NextName;
    match NextName(src, o, kind)
    case Found(name, next) => NamesAreThose(src, next, kind);
    case _ =>
  }

  /** What is read of all calls of a kind. */
  function Reads(s: Source, kind: Kind): seq<string> {
    match s
    case Plain(_) => []
    case With(_, i, rest) => (if KindOf(i) == kind then [NameRead(i)] else []) + Reads(rest, kind)
  }

  lemma NamesFirst(src: string, o: nat, kind: Kind, name: string, next: nat)
    requires o <= |src| && NextName(src, o, kind) == Found(name, next)
    ensures NamesOk(src, o, kind) == NamesOk(src, next, kind)
    ensures NamesInOrder(src, o, kind) == [name] + NamesInOrder(src, next, kind)
  {
  }

  lemma NamesEnd(src: string, o: nat, kind: Kind)
    requires o <= |src| && NoKey(src, kind, o)
    ensures NamesOk(src, o, kind) && NamesInOrder(src, o, kind) == []
  {
    assert Key(Construct) == CONSTRUCTOR && Key(Call) == METHOD_CALL;
    assert FindStr(src, Key(kind), o).None?;
  }

  lemma RenderFirst(pre: string, text: string, i: Item, rest: Source)
    ensures pre + Render(With(text, i, rest)) == (pre + text) + (ItemText(i) + Render(rest))
    ensures pre + Render(With(text, i, rest)) == pre + text + ItemText(i) + Render(rest)
  {
    hide ItemText;
    var a, t, r := pre + text, ItemText(i), Render(rest);
    assert pre + (text + (t + r)) == a + (t + r) == a + t + r;
  }

  lemma {:induction false} SourceIsRead(pre: string, s: Source, o: nat, kind: Kind)
    requires WellWritten(s) && o <= |pre| && NoKey(pre, kind, o) && EndsWord(pre)
    ensures NamesOk(pre + Render(s), o, kind) && NamesInOrder(pre + Render(s), o, kind) == Reads(s, kind)
    decreases s
  {
    hide ItemText, NextName, NoKey, ItemOk, EndsWord, NamesOk, NamesInOrder, NameRead, Key;
    match s
    case Plain(text) =>
      JoinedHasNoKey(pre, text, kind, o);
      NamesEnd(pre + text, o, kind);
    case With(text, i, rest) =>
      var a, t := pre + text, ItemText(i);
      JoinedHasNoKey(pre, text, kind, o);
      WordsEnd(pre, text);
      ItemHasOneKey(i, kind);
      WordsEnd(a, t);
      RenderFirst(pre, text, i, rest);
      if KindOf(i) == kind {
        var next := ItemIsRead(a, i, Render(rest), o);
        NamesFirst(a + (t + Render(rest)), o, kind, NameRead(i), |a| + next);
        RestHasNoKey(a, t, kind, next);
        SourceIsRead(a + t, rest, |a| + next, kind);
      } else {
        JoinedHasNoKey(a, t, kind, o);
        SourceIsRead(a + t, rest, o, kind);
      }
  }

  lemma WordsEnd(a: string, b: string)
    requires EndsWord(a) && EndsWord(b)
    ensures EndsWord(a + b)
  {
  }

  lemma RestHasNoKey(a: string, t: string, kind: Kind, next: nat)
    requires 0 < next <= |t| && NoKey(t, kind, 1)
    ensures NoKey(a + t, kind, |a| + next)
  {
    forall i | |a| + next <= i
      ensures !MatchesAt(a + t, Key(kind), i)
    {
      if MatchesAt(a + t, Key(kind), i) { KeyInSecond(a, t, kind, i); }
    }
  }

  // ---------- What is found ----------

  /** However many calls there are, the classes that are read are those of the constructor calls. */
  lemma ClassesAreFound(s: Source)
    requires WellWritten(s)
    ensures NamesOk(Render(s), 0, Construct) && NamesInOrder(Render(s), 0, Construct) == Classes(s)
    ensures NamedClasses(Render(s)) == set k | k in Classes(s)
  {
    NothingBefore(Construct);
    SourceIsRead("", s, 0, Construct);
    assert "" + Render(s) == Render(s);
    ReadsAre(s);
    NamesAreThose(Render(s), 0, Construct);
  }

  lemma {:induction false} ReadsAre(s: Source)
    requires WellWritten(s)
    ensures Reads(s, Construct) == Classes(s)
    ensures |Reads(s, Call)| == |Selectors(s)| && (Reads(s, Call) == Selectors(s) <==> SelectorsAreRead(s))
  {
    hide ItemText, NameRead, NoKeys, SelectorIsRead, ItemOk, KindOf;
    match s
    case Plain(_) =>
    case With(_, i, rest) =>
      ReadsAre(rest);
      ItemIsReadAs(i);
      assert [] + Reads(rest, Call) == Reads(rest, Call) && [] + Selectors(rest) == Selectors(rest);
      assert [] + Reads(rest, Construct) == Reads(rest, Construct) && [] + Classes(rest) == Classes(rest);
      if i.MethodCall? { SameFirst(NameRead(i), Reads(rest, Call), i.selector, Selectors(rest)); }
  }

  lemma ItemIsReadAs(i: Item)
    requires ItemOk(i)
    ensures i.Constructor? ==> KindOf(i) == Construct && NameRead(i) == i.classname
    ensures i.MethodCall? ==> KindOf(i) == Call && (NameRead(i) == i.selector <==> SelectorIsRead(i))
  {
    hide NameRead, NoKeys, SelectorIsRead, ItemOk;
    NothingBefore(KindOf(i));
    var next := ItemIsRead("", i, "", 0);
  }

  lemma SameFirst(a: string, x: seq<string>, b: string, y: seq<string>)
    ensures [a] + x == [b] + y <==> a == b && x == y
  {
    assert ([a] + x)[1..] == x && ([b] + y)[1..] == y;
    assert ([a] + x)[0] == a && ([b] + y)[0] == b;
  }

  /** No receiver has a ',' in it, unless it also has the selector behind that. */
  ghost predicate SelectorsAreRead(s: Source) {
    match s
    case Plain(_) => true
    case With(_, i, rest) => (i.MethodCall? ==> SelectorIsRead(i)) && SelectorsAreRead(rest)
  }

  /** One name is read of every method call. They are the selectors, in order, if and only if no receiver has a ','
      in it, or has its selector behind that. */
  lemma SelectorsAreFound(s: Source)
    requires WellWritten(s)
    ensures NamesOk(Render(s), 0, Call) && |NamesInOrder(Render(s), 0, Call)| == |Selectors(s)|
    ensures NamesInOrder(Render(s), 0, Call) == Selectors(s) <==> SelectorsAreRead(s)
    ensures SelectorsAreRead(s) ==> Names(Render(s), 0, Call) == set f | f in Selectors(s)
  {
    NothingBefore(Call);
    SourceIsRead("", s, 0, Call);
    assert "" + Render(s) == Render(s);
    ReadsAre(s);
    NamesAreThose(Render(s), 0, Call);
  }

  /** A source has a method call if and only if one was written. */
  lemma CallsAreSeen(s: Source)
    requires WellWritten(s)
    ensures HasCalls(Render(s)) <==> Selectors(s) != []
  {
    SelectorsAreFound(s);
    var src := Render(s);
    if HasCalls(src) {
      assert NextName(src, 0, Call) != NoMore;
      assert NextName(src, 0, Call).Found?;
    }
  }
}
