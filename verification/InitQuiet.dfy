/** What the parser of ".init" files reads when a variable's value has a ':' or a newline: it goes on in the rest of the
    value. When variables are not to be defined, everything else may still be recovered. */
module InitQuiet {
  import opened CStrings
  import opened CacheLines
  import opened InitRecords
  import opened InitRoundTrip
  import opened InitCache

  // ---------- A part of a file that ends with a newline is read on its own ----------

  predicate WholeLines(part: string) {
    part == "" || part[|part| - 1] == '\n'
  }

  predicate PartAt(buf: string, i: nat, part: string) {
    i + |part| <= |buf| && buf[i..i + |part|] == part
  }

  lemma SliceInPart(buf: string, i: nat, part: string, lo: nat, hi: nat)
    requires PartAt(buf, i, part) && lo <= hi <= |part|
    ensures i + hi <= |buf| && buf[i + lo..i + hi] == part[lo..hi]
    ensures lo < |part| ==> buf[i + lo] == part[lo]
  {
    var found := buf[i..i + |part|];
    forall k | lo <= k < |part|
      ensures buf[i + k] == part[k]
    {
      assert buf[i + k] == found[k];
    }
    forall k | 0 <= k < hi - lo
      ensures buf[i + lo..i + hi][k] == part[lo..hi][k]
    {
      assert buf[i + lo..i + hi][k] == buf[i + (lo + k)];
    }
  }

  lemma {:induction false} FindStopInPart(buf: string, i: nat, part: string, l: nat)
    requires PartAt(buf, i, part) && WholeLines(part) && l < |part|
    ensures FindStop(part, l).Some? && FindStop(buf, i + l) == Some(i + FindStop(part, l).value)
    decreases |part| - l
  {
    SliceInPart(buf, i, part, l, l);
    if part[l] in STOPS {
    } else {
      FindStopInPart(buf, i, part, l + 1);
    }
  }

  lemma {:induction false} FieldsInPart(buf: string, i: nat, part: string, p: nat, n: nat)
    requires PartAt(buf, i, part) && WholeLines(part) && p < |part|
    ensures match FieldsFrom(part, p, n)
            case None => FieldsFrom(buf, i + p, n) == None
            case Some((fields, next)) => FieldsFrom(buf, i + p, n) == Some((fields, i + next))
    decreases n
  {
    hide FindStop, PartAt;
    SliceInPart(buf, i, part, p, p);
    if n == 0 || part[p] == '\n' {
    } else {
      FindStopInPart(buf, i, part, p + 1);
      var q := FindStop(part, p + 1).value;
      SliceInPart(buf, i, part, p + 1, q);
      FieldsInPart(buf, i, part, q, n - 1);
    }
  }

  lemma RecordInPart(buf: string, i: nat, part: string, l: nat)
    requires PartAt(buf, i, part) && WholeLines(part) && l < |part|
    ensures match ReadRecord(part, l)
            case Record(rec, next) => ReadRecord(buf, i + l) == Record(rec, i + next)
            case other => ReadRecord(buf, i + l) == other
  {
    hide FindStop, FieldsFrom, PartAt, WholeLines;
    SliceInPart(buf, i, part, l, l);
    FindStopInPart(buf, i, part, l);
    if FieldCount(part[l]).Some? {
      FieldsInPart(buf, i, part, FindStop(part, l).value, FieldCount(part[l]).value);
    }
  }

  /** The first contents, and then the second if the first go on to the end. */
  function Splice(c: Contents, d: Contents): Contents {
    match c
    case Finish(end) => if end.Done? then d else c
    case More(r, rest) => More(r, Splice(rest, d))
  }

  lemma {:induction false} RecordsInPart(buf: string, i: nat, part: string, l: nat)
    requires PartAt(buf, i, part) && WholeLines(part) && l <= |part|
    ensures RecordsFrom(buf, i + l) == Splice(RecordsFrom(part, l), RecordsFrom(buf, i + |part|))
    decreases |part| - l
  {
    hide ReadRecord, PartAt, WholeLines;
    SliceInPart(buf, i, part, l, |part|);
    if l == |part| {
    } else {
      RecordInPart(buf, i, part, l);
      match ReadRecord(part, l)
      case Record(rec, next) => RecordsInPart(buf, i, part, next);
      case _ =>
    }
  }

  // ---------- What is read of a file ----------

  /** What is left of a value's line after the first ':' or newline in it. */
  function Remainder(value: string): (s: string)
    ensures WholeLines(s)
  {
    var u := UpTo(value, STOPS);
    if u == value then "" else value[|u| + 1..] + "\n"
  }

  predicate IsVar(r: Rec) {
    (r.tag == 'i' || r.tag == 'c') && |r.fields| == 4
  }

  /** The records that are read: each of those written, but that a variable's is cut off, and that what is left of its
      line is read for records. */
  function ReadBack(recs: seq<Rec>): Contents {
    if recs == [] then Finish(Done)
    else if IsVar(recs[0]) then
      More(Cut(recs[0]), Splice(RecordsFrom(Remainder(recs[0].fields[3]), 0), ReadBack(recs[1..])))
    else More(recs[0], ReadBack(recs[1..]))
  }

  lemma VarIsReadBack(buf: string, l: nat, r: Rec, tail: string)
    requires HoldsAt(buf, l, RecLine(r) + tail) && IsVar(r) && NearlyClean(r)
    ensures l + |RecLine(r)| <= |buf| && l < |buf|
    ensures RecordsFrom(buf, l) ==
            More(Cut(r), Splice(RecordsFrom(Remainder(r.fields[3]), 0), RecordsFrom(buf, l + |RecLine(r)|)))
  {
    var cut, next := CutRecordIsRead(buf, l, r, tail);
    var value, end := r.fields[3], l + |RecLine(r)|;
    assert HoldsAt(buf, l, RecLine(r)) by { HoldsAtConcat(buf, l, RecLine(r), tail); }
    LastIsThere(buf, l, r, next);
    RecordsInPart(buf, next, Remainder(value), 0);
    assert RecordsFrom(buf, l) == More(cut, RecordsFrom(buf, next));
  }

  lemma SuffixAt(buf: string, l: nat, line: string, k: nat)
    requires HoldsAt(buf, l, line) && k <= |line|
    ensures PartAt(buf, l + k, line[k..])
  {
    HoldsAtIs(buf, l, line);
    assert PartAt(buf, l, line);
    SliceInPart(buf, l, line, k, |line|);
  }

  lemma SuffixIsRemainder(front: string, value: string)
    ensures var line, u := front + (value + "\n"), UpTo(value, STOPS);
            u != value ==> line[|front| + |u| + 1..] == Remainder(value)
  {
    hide UpTo;
    var line, u := front + (value + "\n"), UpTo(value, STOPS);
    if u != value {
      assert (value + "\n")[|u| + 1..] == value[|u| + 1..] + "\n";
      assert line[|front| + |u| + 1..] == (value + "\n")[|u| + 1..];
    }
  }

  lemma LastIsThere(buf: string, l: nat, r: Rec, next: nat)
    requires HoldsAt(buf, l, RecLine(r)) && IsVar(r)
    requires next == l + |RecLine(r)| - |r.fields[3]| + |UpTo(r.fields[3], STOPS)|
    ensures PartAt(buf, next, Remainder(r.fields[3])) && next + |Remainder(r.fields[3])| == l + |RecLine(r)|
  {
    hide HoldsAt, UpTo, RecLine, PartAt;
    var value := r.fields[3];
    var front := LineEnd(r);
    SuffixIsRemainder(front, value);
    SuffixAt(buf, l, RecLine(r), |front| + |UpTo(value, STOPS)| + 1);
    if UpTo(value, STOPS) == value {
      assert RecLine(r)[|RecLine(r)|..] == "";
    }
  }

  lemma LineEnd(r: Rec) returns (front: string)
    requires IsVar(r)
    ensures RecLine(r) == front + (r.fields[3] + "\n")
  {
    var f := r.fields;
    assert f == [f[0], f[1], f[2], f[3]];
    Fields4(f[0], f[1], f[2], f[3]);
    front := [r.tag] + ":" + f[0] + ":" + f[1] + ":" + f[2] + ":";
  }

  lemma {:induction false} FileIsReadBack(buf: string, l: nat, recs: seq<Rec>)
    requires HoldsAt(buf, l, Text(recs)) && AllNearlyClean(recs) && l + |Text(recs)| == |buf|
    ensures RecordsFrom(buf, l) == ReadBack(recs)
    decreases |recs|
  {
    if recs == [] {
    } else {
      hide ReadRecord, Cut, Remainder;
      var r, rest := recs[0], recs[1..];
      HoldsAtConcat(buf, l, RecLine(r), Text(rest));
      FileIsReadBack(buf, l + |RecLine(r)|, rest);
      if IsVar(r) {
        VarIsReadBack(buf, l, r, Text(rest));
      } else {
        FirstRecordIsRead(buf, l, r, Text(rest));
      }
    }
  }

  // ---------- What is made of it ----------

  lemma {:induction false} InterpretSplice(c: Contents, d: Contents, info: InitInfo)
    ensures match Interpret(c, info, false)
            case Parsed(i) => Interpret(Splice(c, d), info, false) == Interpret(d, i, false)
            case Failed(e) => Interpret(Splice(c, d), info, false) == Failed(e)
  {
    match c
    case Finish(end) =>
    case More(r, rest) => InterpretSplice(rest, d, Apply(r, info, false));
  }

  predicate AllVars(recs: seq<Rec>) {
    recs != [] ==> IsVar(recs[0]) && AllVars(recs[1..])
  }

  /** The records in what is left of the lines of some variables. */
  function Remainders(vars: seq<Rec>): Contents {
    if vars == [] then Finish(Done)
    else if IsVar(vars[0]) then Splice(RecordsFrom(Remainder(vars[0].fields[3]), 0), Remainders(vars[1..]))
    else Remainders(vars[1..])
  }

  /** The variables count for nothing but for what is left of their lines. */
  lemma {:induction false} VarsAddRemainders(vars: seq<Rec>, rest: seq<Rec>, info: InitInfo)
    requires AllVars(vars)
    ensures match Interpret(Remainders(vars), info, false)
            case Parsed(i) => Interpret(ReadBack(vars + rest), info, false) == Interpret(ReadBack(rest), i, false)
            case Failed(e) => Interpret(ReadBack(vars + rest), info, false) == Failed(e)
    decreases |vars|
  {
    if vars == [] {
      assert vars + rest == rest;
    } else {
      hide Remainder, RecordsFrom, Cut;
      var left := RecordsFrom(Remainder(vars[0].fields[3]), 0);
      assert (vars + rest)[1..] == vars[1..] + rest && (vars + rest)[0] == vars[0];
      assert Apply(Cut(vars[0]), info, false) == info by { CutIsVar(vars[0]); }
      InterpretSplice(left, ReadBack(vars[1..] + rest), info);
      InterpretSplice(left, Remainders(vars[1..]), info);
      if Interpret(left, info, false).Parsed? {
        VarsAddRemainders(vars[1..], rest, Interpret(left, info, false).info);
      }
    }
  }

  lemma CutIsVar(r: Rec)
    requires IsVar(r)
    ensures IsVar(Cut(r))
  {
  }

  predicate NoVars(recs: seq<Rec>) {
    recs != [] ==> !IsVar(recs[0]) && NoVars(recs[1..])
  }

  lemma {:induction false} OthersAreReadBack(recs: seq<Rec>, rest: seq<Rec>)
    requires NoVars(recs)
    ensures ReadBack(recs + rest) == Prepend(recs, ReadBack(rest))
    decreases |recs|
  {
    if recs == [] {
      assert recs + rest == rest;
    } else {
      assert (recs + rest)[1..] == recs[1..] + rest && (recs + rest)[0] == recs[0];
      OthersAreReadBack(recs[1..], rest);
    }
  }

  // ---------- When nothing is changed ----------

  /** The record adds a block, a parameter or a template. */
  predicate Adds(r: Rec) {
    FieldCount(r.tag) == Some(|r.fields|) && (r.tag == 'a' || r.tag == 'p' || r.tag == 't')
  }

  /** The record says what method it is. */
  predicate Names(r: Rec) {
    FieldCount(r.tag) == Some(|r.fields|) && r.tag == 'm'
  }

  predicate AnyNames(c: Contents) {
    c.More? && (Names(c.rec) || AnyNames(c.rest))
  }

  /** The contents are read to the end, add nothing, and their last record that says what method it is, if there is
      one, says what info says. */
  predicate Harmless(c: Contents, info: InitInfo) {
    match c
    case Finish(end) => end.Done?
    case More(r, rest) =>
      && !Adds(r) && (Names(r) && !AnyNames(rest) ==> Apply(r, info, false) == info)
      && Harmless(rest, info)
  }

  function ListSize(info: InitInfo): nat {
    |info.params| + |info.argblks| + |info.templates|
  }

  lemma {:induction false} ListsGrow(c: Contents, info: InitInfo)
    ensures Interpret(c, info, false).Parsed? ==> ListSize(Interpret(c, info, false).info) >= ListSize(info)
  {
    match c
    case Finish(end) =>
    case More(r, rest) => ListsGrow(rest, Apply(r, info, false));
  }

  /** The two agree but for what method they are about. */
  predicate SameLists(a: InitInfo, b: InitInfo) {
    && a.params == b.params && a.argblks == b.argblks && a.templates == b.templates && a.varCalls == b.varCalls
  }

  lemma OneRecord(r: Rec, info': InitInfo, info: InitInfo)
    requires SameLists(info', info)
    ensures Adds(r) ==> ListSize(Apply(r, info', false)) > ListSize(info)
    ensures !Adds(r) && Names(r) ==>
              Apply(r, info', false) == Apply(r, info, false) && SameLists(Apply(r, info, false), info)
    ensures !Adds(r) && !Names(r) ==> Apply(r, info', false) == info'
  {
    hide Atoi;
  }

  lemma {:induction false} HarmlessExactly(c: Contents, info': InitInfo, info: InitInfo)
    requires SameLists(info', info)
    ensures Interpret(c, info', false) == Parsed(info) <==> Harmless(c, info) && (AnyNames(c) || info' == info)
  {
    match c
    case Finish(end) =>
    case More(r, rest) =>
      hide Apply, Adds, Names, SameLists, ListSize;
      OneRecord(r, info', info);
      if Adds(r) {
        ListsGrow(rest, Apply(r, info', false));
      } else if Names(r) {
        HarmlessExactly(rest, Apply(r, info, false), info);
      } else {
        HarmlessExactly(rest, info', info);
      }
  }

  // ---------- The round trip ----------

  function AllVarRecs(m: Method): seq<Rec> {
    VarRecs('i', m, m.instanceVars) + VarRecs('c', m, m.classVars)
  }

  lemma {:induction false} VarRecsAreVars(tag: char, m: Method, vars: seq<Variable>)
    requires tag == 'i' || tag == 'c'
    ensures AllVars(VarRecs(tag, m, vars))
    decreases |vars|
  {
    if vars == [] {
    } else {
      VarRecsAreVars(tag, m, vars[1..]);
    }
  }

  lemma {:induction false} AppendVars(a: seq<Rec>, b: seq<Rec>)
    ensures AllVars(a) && AllVars(b) ==> AllVars(a + b)
    ensures NoVars(a) && NoVars(b) ==> NoVars(a + b)
    decreases |a|
  {
    if a == [] {
      assert a + b == b;
    } else {
      assert (a + b)[1..] == a[1..] + b;
      AppendVars(a[1..], b);
    }
  }

  lemma {:induction false} NoVarsInBlocks(m: Method, selectors: seq<string>)
    ensures NoVars(ArgblkRecs(m, selectors))
    decreases |selectors|
  {
    if selectors == [] {
    } else {
      NoVarsInBlocks(m, selectors[1..]);
    }
  }

  lemma {:induction false} NoVarsInParams(m: Method, params: seq<Param>)
    ensures NoVars(ParamRecs(m, params))
    decreases |params|
  {
    if params == [] {
    } else {
      NoVarsInParams(m, params[1..]);
    }
  }

  lemma {:induction false} NoVarsInTemplates(templates: seq<string>)
    ensures NoVars(TemplateRecs(templates))
    decreases |templates|
  {
    if templates == [] {
    } else {
      NoVarsInTemplates(templates[1..]);
    }
  }

  lemma NoVarsInHead(m: Method)
    ensures NoVars(HeadRecords(m))
  {
    var blocks, one, params := ArgblkRecs(m, m.argblks), [MethodRec(m)], ParamRecs(m, m.params);
    assert NoVars(one) by {
      assert !IsVar(one[0]) && one[1..] == [];
    }
    NoVarsInBlocks(m, m.argblks);
    NoVarsInParams(m, m.params);
    AppendVars(blocks, one);
    AppendVars(blocks + one, params);
  }

  /** What the file of a method gives: what its own records say, what is left of its variables' lines, and its
      templates. */
  lemma FileGives(m: Method)
    requires NamesClean(m)
    ensures var own := Expected(m, false).(templates := []);
            match Interpret(Remainders(AllVarRecs(m)), own, false)
            case Parsed(i) => Parse(Text(Records(m)), false) == Parsed(i.(templates := i.templates + m.templates))
            case Failed(e) => Parse(Text(Records(m)), false) == Failed(e)
  {
    hide ReadBack, Remainders, HeadRecords, VarRecs, TemplateRecs, Interpret, RecordsFrom;
    var head, vars, templates := HeadRecords(m), AllVarRecs(m), TemplateRecs(m.templates);
    assert Records(m) == head + (vars + templates);
    FileContentsAre(m);
    NoVarsInHead(m);
    OthersAreReadBack(head, vars + templates);
    InterpretPrepend(head, ReadBack(vars + templates), EMPTY, false);
    ApplyHead(m, false);
    var own := ApplyAll(head, EMPTY, false);
    VarRecsAreVars('i', m, m.instanceVars);
    VarRecsAreVars('c', m, m.classVars);
    AppendVars(VarRecs('i', m, m.instanceVars), VarRecs('c', m, m.classVars));
    VarsAddRemainders(vars, templates, own);
    if Interpret(Remainders(vars), own, false).Parsed? {
      TemplatesGive(m.templates, Interpret(Remainders(vars), own, false).info);
    }
  }

  lemma FileContentsAre(m: Method)
    requires NamesClean(m)
    ensures RecordsFrom(Text(Records(m)), 0) == ReadBack(Records(m))
  {
    RecordsClean(m);
    HoldsAtIs(Text(Records(m)), 0, Text(Records(m)));
    FileIsReadBack(Text(Records(m)), 0, Records(m));
  }

  lemma TemplatesGive(templates: seq<string>, info: InitInfo)
    ensures Interpret(ReadBack(TemplateRecs(templates)), info, false) ==
            Parsed(info.(templates := info.templates + templates))
  {
    var recs := TemplateRecs(templates);
    NoVarsInTemplates(templates);
    OthersAreReadBack(recs, []);
    assert recs + [] == recs;
    InterpretPrepend(recs, Finish(Done), info, false);
    ApplyTemplates(templates, info, false);
  }

  /** When the variables are not to be defined, everything else is recovered exactly when what is left of the lines of
      variables, behind the first ':' or newline of a value, is harmless. */
  lemma {:induction false} InitFileRoundTripQuiet(m: Method)
    requires NamesClean(m)
    ensures Parse(Text(Records(m)), false) == Parsed(Expected(m, false)) <==>
            Harmless(Remainders(AllVarRecs(m)), Expected(m, false).(templates := []))
  {
    hide Remainders, AllVarRecs, Harmless, Interpret, Records;
    var own, left := Expected(m, false).(templates := []), Remainders(AllVarRecs(m));
    FileGives(m);
    HarmlessExactly(left, own, own);
    if Interpret(left, own, false).Parsed? {
      var i := Interpret(left, own, false).info;
      assert i.templates + m.templates == m.templates ==> i.templates == [];
    }
  }
}
