/** The source text of a cached method, as output_pre_method of src/premethod.c reads it: the classes it
    constructs, the methods it calls, and the fixup markers, which are blanked out in place. */
module MethodSource {
  import opened CStrings

  const METHOD_CALL := "__ctalk_method"
  const CONSTRUCTOR := "__ctalkCreateArgA"
  const MARKER := "/@ctalkfixup/"

  /** What a search for the next name finds: none, one whose delimiters are missing, or one, with the place
      where the search goes on. */
  datatype Scan = NoMore | Bad | Found(name: string, next: nat)

  predicate HasCalls(src: string) {
    FindStr(src, METHOD_CALL, 0).Some?
  }

  // ---------- Constructed classes and called methods ----------

  datatype Kind = Construct | Call

  function SpacesEnd(src: string, i: nat): (j: nat)
    requires i <= |src|
    ensures i <= j <= |src|
    decreases |src| - i
  {
    if i < |src| && IsSpace(src[i]) then SpacesEnd(src, i + 1) else i
  }

  /** The next class name is between the two quotes after a constructor call; the next selector is the second
      argument of a method call. Either way the search goes on from the start of the name. */
  function NextName(src: string, o: nat, kind: Kind): (scan: Scan)
    requires o <= |src|
    ensures scan.Found? ==> o < scan.next <= |src|
  {
    var quote := if kind.Construct? then '"' else ',';
    match FindStr(src, if kind.Construct? then CONSTRUCTOR else METHOD_CALL, o)
    case None => NoMore
    case Some(p) =>
      match FindChar(src, quote, p)
      case None => Bad
      case Some(open) =>
        var q := if kind.Construct? then open + 1 else SpacesEnd(src, open + 1);
        match FindChar(src, quote, q)
        case None => Bad
        case Some(close) => Found(src[q..close], q)
  }

  /** No search from o on comes upon a name without its delimiters. */
  predicate NamesOk(src: string, o: nat, kind: Kind)
    requires o <= |src|
    decreases |src| - o
  {
    match NextName(src, o, kind)
    case NoMore => true
    case Bad => false
    case Found(_, next) => NamesOk(src, next, kind)
  }

  function Names(src: string, o: nat, kind: Kind): set<string>
    requires o <= |src|
    decreases |src| - o
  {
    match NextName(src, o, kind)
    case Found(name, next) => {name} + Names(src, next, kind)
    case _ => {}
  }

  lemma NamesStep(src: string, o: nat, kind: Kind)
    requires o <= |src| && NamesOk(src, o, kind)
    ensures match NextName(src, o, kind)
            case NoMore => Names(src, o, kind) == {}
            case Bad => false
            case Found(name, next) => Names(src, o, kind) == {name} + Names(src, next, kind) && NamesOk(src, next, kind)
  {
  }

  // ---------- Fixup markers ----------

  /** The last c before i. */
  function FindBack(text: string, c: char, i: nat): (r: Option<nat>)
    requires i <= |text|
    ensures r.Some? ==> r.value < i && text[r.value] == c
  {
    if i == 0 then None else if text[i - 1] == c then Some(i - 1) else FindBack(text, c, i - 1)
  }

  /** The next marker: its selector, where its line's '#' is, where that line ends, and where the search goes on. */
  datatype Fixup = NoFixup | BadFixup | Fixup(selector: string, hash: nat, newline: nat, next: nat)

  function NextFixup(text: string, o: nat): (f: Fixup)
    requires o <= |text|
    ensures f.Fixup? ==>
              f.hash < f.newline < |text| && o < f.next <= |text| && text[f.newline] == '\n' && text[f.hash] == '#'
  {
    match FindStr(text, MARKER, o)
    case None => NoFixup
    case Some(p) =>
      match FindBack(text, '#', p)
      case None => BadFixup
      case Some(hash) =>
        match FindChar(text, '/', p + 1)
        case None => BadFixup
        case Some(slash) =>
          match FindChar(text, '"', slash + 1)
          case None => BadFixup
          case Some(q) =>
            match FindChar(text, '\n', hash + 1)
            case None => BadFixup
            case Some(newline) => Fixup(text[slash + 1..q], hash, newline, q)
  }

  function Blanks(n: nat): (s: string)
    ensures |s| == n && forall i | 0 <= i < n :: s[i] == ' '
  {
    if n == 0 then "" else " " + Blanks(n - 1)
  }

  /** The text with everything from i up to j blanked out. */
  function BlankOut(text: string, i: nat, j: nat): (t: string)
    requires i <= j <= |text|
    ensures |t| == |text|
  {
    text[..i] + Blanks(j - i) + text[j..]
  }

  predicate FixupsOk(text: string, o: nat)
    requires o <= |text|
    decreases |text| - o
  {
    match NextFixup(text, o)
    case NoFixup => true
    case BadFixup => false
    case Fixup(_, hash, newline, next) => FixupsOk(BlankOut(text, hash, newline), next)
  }

  /** The text once every marker found from o on has been blanked out. */
  function Elided(text: string, o: nat): (t: string)
    requires o <= |text|
    ensures |t| == |text|
    decreases |text| - o
  {
    match NextFixup(text, o)
    case Fixup(_, hash, newline, next) => Elided(BlankOut(text, hash, newline), next)
    case _ => text
  }

  /** The selectors of those markers, in the order in which they are found. */
  function Fixups(text: string, o: nat): seq<string>
    requires o <= |text|
    decreases |text| - o
  {
    match NextFixup(text, o)
    case Fixup(selector, hash, newline, next) => [selector] + Fixups(BlankOut(text, hash, newline), next)
    case _ => []
  }

  /** One step of the reading. */
  lemma FixupsStep(text: string, o: nat)
    requires o <= |text|
    ensures match NextFixup(text, o)
            case NoFixup => FixupsOk(text, o) && Fixups(text, o) == [] && Elided(text, o) == text
            case BadFixup => !FixupsOk(text, o)
            case Fixup(selector, hash, newline, next) =>
              var t := BlankOut(text, hash, newline);
              && FindChar(text, '\n', hash + 1) == Some(newline) && FixupsOk(text, o) == FixupsOk(t, next)
              && Fixups(text, o) == [selector] + Fixups(t, next) && Elided(text, o) == Elided(t, next)
  {
  }

  /** elide_fixup_marker: blanks out a marker up to the end of its line. */
  method ElideFixupMarker(text: array<char>, start: nat, ghost newline: nat)
    requires start < newline < text.Length && FindChar(text[..], '\n', start + 1) == Some(newline)
    modifies text
    ensures text[..] == BlankOut(old(text[..]), start, newline)
  {
    ghost var t := text[..];
    FindCharFirst(t, '\n', start + 1);
    text[start] := ' ';
    var s := start + 1;
    while text[s] != '\n'
      invariant start < s <= newline
      invariant forall k | 0 <= k < text.Length :: text[k] == if start <= k < s then ' ' else t[k]
      decreases newline - s
    {
      assert t[s] == text[s];
      text[s] := ' ';
      s := s + 1;
    }
    assert t[s] == '\n' && s == newline;
    assert text[..] == BlankOut(t, start, newline);
  }

  /** The classes that a source constructs, and the methods that it calls or has a fixup for. */
  function NamedClasses(src: string): set<string> {
    Names(src, 0, Construct)
  }

  function NamedMethods(src: string): set<string> {
    Names(src, 0, Call) + set f | f in Fixups(src, 0)
  }

  // ---------- What blanking out keeps ----------

  /** Blanking out keeps the length and every newline, and changes nothing but what it turns into blanks, in
      every text. */
  lemma {:induction false} ElidedKeepsLines(text: string, o: nat)
    requires o <= |text|
    ensures forall i | 0 <= i < |text| ::
              var c := Elided(text, o)[i];
              (c == text[i] || (c == ' ' && text[i] != '\n')) && (c == '\n' <==> text[i] == '\n')
    decreases |text| - o
  {
    match NextFixup(text, o)
    case Fixup(_, hash, newline, next) =>
      var t := BlankOut(text, hash, newline);
      FindCharFirst(text, '\n', hash + 1);
      ElidedKeepsLines(t, next);
      forall i | 0 <= i < |text|
        ensures t[i] == text[i] || (t[i] == ' ' && text[i] != '\n')
      {
      }
    case _ =>
  }
}
