/** Parsing a ".class" file gives back the class it was written for, exactly when no initial value contains a
    newline. */
module ClassRoundTrip {
  import opened CStrings
  import opened CacheLines
  import opened ClassRecords

  const COLON: set<char> := {':'}
  const NEWLINE: set<char> := {'\n'}

  // ---------- One record ----------

  /** A field in front of c that does not contain c is found. */
  lemma FieldIs(buf: string, r: nat, c: char, f: string)
    requires HoldsAt(buf, r, f) && r + |f| < |buf| && buf[r + |f|] == c
    ensures var u := UpTo(f, {c});
            FindChar(buf, c, r) == Some(r + |u|) && buf[r..r + |u|] == u
  {
    UpToAt(buf, r, f, {c});
    FindCharIs(buf, c, r, r + |UpTo(f, {c})|);
  }

  function NamesLength(names: seq<string>): nat {
    if names == [] then 0 else |names[0]| + 1 + NamesLength(names[1..])
  }

  predicate AllFree(names: seq<string>) {
    names != [] ==> Free(names[0], COLON) && AllFree(names[1..])
  }

  /** Names without ':' are taken as they are, and leave the last field. */
  lemma {:induction false} NamesAreTaken(buf: string, p: nat, names: seq<string>, last: string)
    requires HoldsAt(buf, p, Fields(names + [last])) && AllFree(names)
    ensures p < |buf| && TakeNames(buf, p + 1, |names|) == (names, p + 1 + NamesLength(names))
    ensures HoldsAt(buf, p + NamesLength(names), Fields([last]))
    decreases |names|
  {
    if names == [] {
      assert names + [last] == [last];
    } else {
      var f, rest := names[0], names[1..];
      assert (names + [last])[1..] == rest + [last];
      FieldsAt(buf, p, names + [last]);
      assert UpTo(f, COLON) == f by { UpToFree(f, COLON); }
      FieldIs(buf, p + 1, ':', f);
      assert Field(buf, p + 1, ':') == (f, p + 1 + |f| + 1);
      NamesAreTaken(buf, p + 1 + |f|, rest, last);
      assert names == [f] + rest;
    }
  }

  predicate GoodNames(r: Rec) {
    && NameCount(r.tag).Some? && |r.fields| == NameCount(r.tag).value + 1
    && AllFree(NamesOf(r))
  }

  function LastOf(r: Rec): string
    requires r.fields != []
  {
    r.fields[|r.fields| - 1]
  }

  function Cut(r: Rec): Rec
    requires r.fields != []
  {
    Rec(r.tag, r.fields[..|r.fields| - 1] + [UpTo(LastOf(r), NEWLINE)])
  }

  lemma {:induction false} FieldsLength(names: seq<string>, last: string)
    ensures |Fields(names + [last])| == NamesLength(names) + |last| + 2
    decreases |names|
  {
    if names == [] {
      assert names + [last] == [last];
      Fields1(last);
    } else {
      assert (names + [last])[1..] == names[1..] + [last];
      FieldsLength(names[1..], last);
    }
  }

  /** The letter of a line and the ':' behind it. */
  lemma TagAt(buf: string, l: nat, tag: char, fields: seq<string>)
    requires HoldsAt(buf, l, RecordLine(tag, fields)) && fields != [] && tag != ':'
    ensures l + 2 <= |buf| && buf[l] == tag
    ensures FindChar(buf, ':', l) == Some(l + 1) && HoldsAt(buf, l + 1, Fields(fields))
  {
    RecordLineAt(buf, l, tag, fields);
    ColonAfterTag(buf, l, fields);
  }

  /** The names of a line, and its last field up to the first newline. */
  lemma PartsAt(buf: string, p: nat, names: seq<string>, last: string)
    requires HoldsAt(buf, p, Fields(names + [last])) && AllFree(names)
    ensures var r, u := p + 1 + NamesLength(names), UpTo(last, NEWLINE);
            && p < |buf| && TakeNames(buf, p + 1, |names|) == (names, r)
            && r <= |buf| && FindChar(buf, '\n', r) == Some(r + |u|) && buf[r..r + |u|] == u
  {
    NamesAreTaken(buf, p, names, last);
    LastAt(buf, p + NamesLength(names), last);
  }

  lemma LastAt(buf: string, q: nat, last: string)
    requires HoldsAt(buf, q, Fields([last]))
    ensures var u := UpTo(last, NEWLINE);
            q + 1 <= |buf| && FindChar(buf, '\n', q + 1) == Some(q + 1 + |u|) && buf[q + 1..q + 1 + |u|] == u
  {
    FieldsAt(buf, q, [last]);
    FieldIs(buf, q + 1, '\n', last);
  }

  lemma RecordFromParts(buf: string, l: nat, names: seq<string>, r: nat, e: nat)
    requires l < |buf| && l + 2 <= |buf| && NameCount(buf[l]) == Some(|names|) && FindChar(buf, ':', l) == Some(l + 1)
    requires TakeNames(buf, l + 2, |names|) == (names, r) && r <= e <= |buf| && FindChar(buf, '\n', r) == Some(e)
    ensures ReadRecord(buf, l) == Record(Rec(buf[l], names + [buf[r..e]]), e + 1)
  {
  }

  function NamesOf(r: Rec): seq<string>
    requires r.fields != []
  {
    r.fields[..|r.fields| - 1]
  }

  /** A record's line is read with its last field cut off at the first newline. */
  lemma RecordIsRead(buf: string, l: nat, r: Rec)
    requires HoldsAt(buf, l, RecLine(r)) && GoodNames(r)
    ensures l < |buf| && ReadRecord(buf, l) ==
            Record(Cut(r), l + NamesLength(NamesOf(r)) + |UpTo(LastOf(r), NEWLINE)| + 3)
  {
    var names, last := NamesOf(r), LastOf(r);
    var e := l + 2 + NamesLength(names) + |UpTo(last, NEWLINE)|;
    TagAt(buf, l, r.tag, r.fields);
    assert r.fields == names + [last];
    PartsAt(buf, l + 1, names, last);
    RecordFromParts(buf, l, names, l + 2 + NamesLength(names), e);
  }

  lemma RecLineLength(r: Rec)
    requires r.fields != []
    ensures |RecLine(r)| == NamesLength(NamesOf(r)) + |LastOf(r)| + 3
  {
    assert r.fields == NamesOf(r) + [LastOf(r)];
    FieldsLength(NamesOf(r), LastOf(r));
  }

  lemma ColonAfterTag(buf: string, l: nat, fields: seq<string>)
    requires l < |buf| && buf[l] != ':' && fields != [] && HoldsAt(buf, l + 1, Fields(fields))
    ensures FindChar(buf, ':', l) == Some(l + 1)
  {
    FieldsAt(buf, l + 1, fields);
    FindCharIs(buf, ':', l, l + 1);
  }

  predicate CleanRec(r: Rec) {
    GoodNames(r) && Free(LastOf(r), NEWLINE)
  }

  predicate AllClean(recs: seq<Rec>) {
    recs != [] ==> CleanRec(recs[0]) && AllClean(recs[1..])
  }

  predicate AllGoodNames(recs: seq<Rec>) {
    recs != [] ==> GoodNames(recs[0]) && AllGoodNames(recs[1..])
  }

  lemma CleanRecordIsRead(buf: string, l: nat, r: Rec, tail: string)
    requires HoldsAt(buf, l, RecLine(r) + tail) && CleanRec(r)
    ensures HoldsAt(buf, l + |RecLine(r)|, tail)
    ensures l < |buf| && RecordsFrom(buf, l) == More(r, RecordsFrom(buf, l + |RecLine(r)|))
  {
    assert HoldsAt(buf, l, RecLine(r)) && HoldsAt(buf, l + |RecLine(r)|, tail) by {
      HoldsAtConcat(buf, l, RecLine(r), tail);
    }
    assert ReadRecord(buf, l) == Record(r, l + |RecLine(r)|) by {
      RecordIsRead(buf, l, r);
      RecLineLength(r);
      UpToFree(LastOf(r), NEWLINE);
      assert r.fields[..|r.fields| - 1] + [LastOf(r)] == r.fields;
    }
  }

  /** The lines of clean records are read as those records, one step for each. */
  lemma {:induction false} CleanRecordsAreRead(buf: string, l: nat, recs: seq<Rec>, end: nat)
    requires HoldsAt(buf, l, Text(recs)) && AllClean(recs) && end == l + |Text(recs)|
    ensures end <= |buf| && RecordsFrom(buf, l) == Prepend(recs, RecordsFrom(buf, end))
    decreases |recs|
  {
    if recs == [] {
    } else {
      var r, rest := recs[0], recs[1..];
      var next := l + |RecLine(r)|;
      CleanRecordIsRead(buf, l, r, Text(rest));
      CleanRecordsAreRead(buf, next, rest, end);
      calc {
        RecordsFrom(buf, l);
        More(r, RecordsFrom(buf, next));
        More(r, Prepend(rest, RecordsFrom(buf, end)));
        Prepend(recs, RecordsFrom(buf, end));
      }
    }
  }

  // ---------- All records of a class ----------

  function ApplyAll(recs: seq<Rec>, info: ClassInfo): ClassInfo {
    if recs == [] then info else ApplyAll(recs[1..], Apply(recs[0], info))
  }

  lemma {:induction false} InterpretPrepend(recs: seq<Rec>, c: Contents, info: ClassInfo)
    ensures Interpret(Prepend(recs, c), info) == Interpret(c, ApplyAll(recs, info))
    decreases |recs|
  {
    if recs == [] {
    } else {
      InterpretPrepend(recs[1..], c, Apply(recs[0], info));
    }
  }

  lemma {:induction false} ApplyVars(vars: seq<VarInit>, info: ClassInfo)
    ensures ApplyAll(VarRecs(vars), info) == info.(vars := info.vars + vars)
    decreases |vars|
  {
    if vars == [] {
      assert info.vars + vars == info.vars;
    } else {
      assert Apply(VarRec(vars[0]), info) == info.(vars := info.vars + [vars[0]]);
      ApplyVars(vars[1..], info.(vars := info.vars + [vars[0]]));
      assert info.vars + [vars[0]] + vars[1..] == info.vars + vars;
    }
  }

  /** Reading back every record of a class gives the class. */
  lemma RecordsMakeClass(classname: string, superclass: Option<string>, vars: seq<VarInit>)
    ensures ApplyAll(ClassRecs(classname, superclass, vars), EMPTY) ==
            ClassInfo(classname, SuperName(superclass), vars)
  {
    var header, info := HeaderRec(classname, superclass), ClassInfo(classname, SuperName(superclass), []);
    assert ([header] + VarRecs(vars))[1..] == VarRecs(vars);
    assert Apply(header, EMPTY) == info;
    ApplyVars(vars, info);
    assert info.vars + vars == vars;
  }

  lemma CleanFileParses(recs: seq<Rec>)
    requires AllClean(recs)
    ensures Parse(Text(recs)) == Parsed(ApplyAll(recs, EMPTY))
  {
    var buf := Text(recs);
    HoldsAtIs(buf, 0, buf);
    CleanRecordsAreRead(buf, 0, recs, |buf|);
    InterpretPrepend(recs, Finish(Done), EMPTY);
  }

  // ---------- Files with an initial value that is not clean ----------

  /** A variable read from a record keeps its place and its initial value whatever else is read. */
  lemma VarStays(good: seq<Rec>, r: Rec, c: Contents)
    requires |r.fields| == 4 && r.tag != 'c'
    ensures var before := ApplyAll(good, EMPTY).vars;
            var result := Interpret(Prepend(good, More(r, c)), EMPTY);
            result.Parsed? ==> |result.info.vars| > |before| && result.info.vars[|before|].init == r.fields[3]
  {
    InterpretPrepend(good, More(r, c), EMPTY);
    var info := ApplyAll(good, EMPTY);
    assert Apply(r, info).vars[|info.vars|].init == r.fields[3];
  }

  lemma ReadAt(recs: seq<Rec>, k: nat)
    requires k < |recs| && recs[k].tag != 'c' && |recs[k].fields| == 4
    ensures var before := ApplyAll(recs[..k], EMPTY).vars;
            var vars := ApplyAll(recs, EMPTY).vars;
            |vars| > |before| && vars[|before|].init == recs[k].fields[3]
  {
    var good, r, rest := recs[..k], recs[k], recs[k + 1..];
    assert recs == good + ([r] + rest);
    PrependAppend(good, [r] + rest, Finish(Done));
    assert Prepend([r] + rest, Finish(Done)) == More(r, Prepend(rest, Finish(Done))) by {
      assert ([r] + rest)[1..] == rest;
    }
    InterpretPrepend(recs, Finish(Done), EMPTY);
    VarStays(good, r, Prepend(rest, Finish(Done)));
  }

  lemma MisreadAfter(good: seq<Rec>, rest: seq<Rec>) returns (c: Contents)
    requires AllClean(good) && rest != [] && GoodNames(rest[0])
    ensures RecordsFrom(Text(good + rest), 0) == Prepend(good, More(Cut(rest[0]), c))
  {
    var buf, l := Text(good + rest), |Text(good)|;
    assert HoldsAt(buf, 0, Text(good)) && HoldsAt(buf, l, Text(rest)) by {
      TextAppend(good, rest);
      HoldsAtIs(buf, 0, buf);
      HoldsAtConcat(buf, 0, Text(good), Text(rest));
    }
    CleanRecordsAreRead(buf, 0, good, l);
    HoldsAtConcat(buf, l, RecLine(rest[0]), Text(rest[1..]));
    RecordIsRead(buf, l, rest[0]);
    c := RecordsFrom(buf, ReadRecord(buf, l).next);
    assert RecordsFrom(buf, l) == More(Cut(rest[0]), c);
  }

  lemma {:induction false} FirstUnclean(recs: seq<Rec>) returns (k: nat)
    requires AllGoodNames(recs) && !AllClean(recs)
    ensures k < |recs| && AllClean(recs[..k]) && GoodNames(recs[k]) && !Free(LastOf(recs[k]), NEWLINE)
    decreases |recs|
  {
    if CleanRec(recs[0]) {
      k := FirstUnclean(recs[1..]);
      assert recs[..k + 1][1..] == recs[1..][..k];
      k := k + 1;
    } else {
      k := 0;
    }
  }

  predicate NoHeader(recs: seq<Rec>) {
    recs != [] ==> recs[0].tag != 'c' && NoHeader(recs[1..])
  }

  lemma {:induction false} NoHeaderAt(recs: seq<Rec>, k: nat)
    requires NoHeader(recs) && k < |recs|
    ensures recs[k].tag != 'c'
    decreases k
  {
    if k == 0 {
    } else {
      NoHeaderAt(recs[1..], k - 1);
    }
  }

  lemma UncleanFileIsMisread(recs: seq<Rec>)
    requires AllGoodNames(recs) && !AllClean(recs) && CleanRec(recs[0]) && NoHeader(recs[1..])
    ensures Parse(Text(recs)) != Parsed(ApplyAll(recs, EMPTY))
  {
    var k := FirstUnclean(recs);
    NoHeaderAt(recs[1..], k - 1);
    assert recs == recs[..k] + recs[k..];
    var c := MisreadAfter(recs[..k], recs[k..]);
    VarStays(recs[..k], Cut(recs[k]), c);
    ReadAt(recs, k);
    UpToFree(LastOf(recs[k]), NEWLINE);
  }

  /** The name parts of a variable, which the parser finds by the ':' behind each. */
  predicate NamesClean(v: VarInit) {
    Free(v.classname, COLON) && Free(v.varname, COLON) && Free(v.varclass, COLON)
  }

  predicate AllNamesClean(vars: seq<VarInit>) {
    vars != [] ==> NamesClean(vars[0]) && AllNamesClean(vars[1..])
  }

  predicate AllInitsClean(vars: seq<VarInit>) {
    vars != [] ==> Free(vars[0].init, NEWLINE) && AllInitsClean(vars[1..])
  }

  lemma VarIsGood(v: VarInit)
    requires NamesClean(v)
    ensures GoodNames(VarRec(v)) && LastOf(VarRec(v)) == v.init
  {
    var names := VarRec(v).fields[..3];
    assert names == [v.classname, v.varname, v.varclass];
    assert names[1..] == [v.varname, v.varclass] && names[1..][1..] == [v.varclass];
    assert AllFree([v.varclass]);
    assert AllFree([v.varname, v.varclass]);
  }

  lemma {:induction false} VarsAreGood(vars: seq<VarInit>)
    requires AllNamesClean(vars)
    ensures AllGoodNames(VarRecs(vars)) && (AllClean(VarRecs(vars)) <==> AllInitsClean(vars))
    ensures NoHeader(VarRecs(vars))
    decreases |vars|
  {
    if vars == [] {
    } else {
      VarIsGood(vars[0]);
      VarsAreGood(vars[1..]);
    }
  }

  /** The file of a class parses back to that class, its superclass and all its variables in order exactly when
      no initial value contains a newline. A ':' in an initial value does no harm. */
  lemma ClassFileRoundTrip(classname: string, superclass: Option<string>, vars: seq<VarInit>)
    requires Free(classname, COLON) && Free(SuperName(superclass), NEWLINE) && AllNamesClean(vars)
    ensures (Parse(Text(ClassRecs(classname, superclass, vars))) ==
             Parsed(ClassInfo(classname, SuperName(superclass), vars))) <==> AllInitsClean(vars)
  {
    var recs, header := ClassRecs(classname, superclass, vars), HeaderRec(classname, superclass);
    assert recs[1..] == VarRecs(vars);
    assert header.fields[..1] == [classname];
    VarsAreGood(vars);
    RecordsMakeClass(classname, superclass, vars);
    if AllInitsClean(vars) {
      CleanFileParses(recs);
    } else {
      UncleanFileIsMisread(recs);
    }
  }

  /** So does a file as the writers leave it, with the class's own name for a missing class, and "(null)" for a missing
      value. */
  lemma WrittenClassRoundTrip(classname: string, superclass: Option<string>, decls: seq<VarDecl>)
    requires Free(classname, COLON) && Free(SuperName(superclass), NEWLINE)
    requires forall i | 0 <= i < |decls| :: Free(decls[i].varname, COLON) && Free(decls[i].varclass, COLON)
    ensures (Parse(Text(ClassRecs(classname, superclass, DeclaredAll(classname, decls)))) ==
             Parsed(ClassInfo(classname, SuperName(superclass), DeclaredAll(classname, decls)))) <==>
            (forall i | 0 <= i < |decls| :: Free(decls[i].init, NEWLINE))
    ensures |DeclaredAll(classname, decls)| == |decls|
    ensures forall i | 0 <= i < |decls| ::
              DeclaredAll(classname, decls)[i] ==
              VarInit(classname, decls[i].varname, if decls[i].varclass == "" then classname else decls[i].varclass,
                      if decls[i].init == "" then "(null)" else decls[i].init, decls[i].kind)
  {
    DeclaredInOrder(classname, decls);
    DeclaredIsClean(classname, decls);
    ClassFileRoundTrip(classname, superclass, DeclaredAll(classname, decls));
  }

  lemma {:induction false} DeclaredInOrder(classname: string, decls: seq<VarDecl>)
    ensures |DeclaredAll(classname, decls)| == |decls|
    ensures forall i | 0 <= i < |decls| :: DeclaredAll(classname, decls)[i] == Declared(classname, decls[i])
    decreases |decls|
  {
    if decls == [] {
    } else {
      DeclaredInOrder(classname, decls[1..]);
    }
  }

  /** The records of a class A with an instance variable v and a class variable w. */
  lemma RecordsOfExample()
    ensures var decls := [VarDecl("v", "", "", InstanceVar), VarDecl("w", "E", "1", ClassVar)];
            ClassRecs("A", None, DeclaredAll("A", decls)) ==
            [Rec('c', ["A", "NULLSTR"]), Rec('i', ["A", "v", "A", "(null)"]), Rec('l', ["A", "w", "E", "1"])]
  {
    var decls := [VarDecl("v", "", "", InstanceVar), VarDecl("w", "E", "1", ClassVar)];
    var v, w := Declared("A", decls[0]), Declared("A", decls[1]);
    assert decls[1..] == [decls[1]] && decls[1..][1..] == [];
    assert DeclaredAll("A", decls) == [v, w] by { assert DeclaredAll("A", decls[1..]) == [w]; }
    assert VarRecs([v, w]) == [VarRec(v), VarRec(w)] by { assert [v, w][1..] == [w] && VarRecs([w]) == [VarRec(w)]; }
  }

  /** A second header record in a file changes the names only as far as its own reach: behind them, the rest of the
      longer names stays. */
  lemma SecondHeader(classname: string, super: string, classname': string, super': string)
    requires Free(classname, COLON) && Free(super, NEWLINE) && Free(classname', COLON) && Free(super', NEWLINE)
    ensures var parsed := Parse(Text([Rec('c', [classname, super]), Rec('c', [classname', super'])]));
            && parsed.Parsed?
            && IsOverwritten(parsed.info.classname, classname, classname')
            && IsOverwritten(parsed.info.superclassname, super, super')
  {
    var a, b := Rec('c', [classname, super]), Rec('c', [classname', super']);
    HeaderIsClean(classname, super);
    HeaderIsClean(classname', super');
    hide CleanRec;
    assert [a, b][1..] == [b] && [b][1..] == [];
    assert AllClean([b]) && ApplyAll([b], Apply(a, EMPTY)) == Apply(b, Apply(a, EMPTY));
    CleanFileParses([a, b]);
  }

  lemma HeaderIsClean(classname: string, super: string)
    requires Free(classname, COLON) && Free(super, NEWLINE)
    ensures CleanRec(Rec('c', [classname, super]))
  {
    assert [classname, super][..1] == [classname];
  }

  /** Of a record at the end of a file that has one field only, that field is read for the initial value, and the names
      are empty. */
  lemma ShortRecord(t: string)
    requires ':' !in t && '\n' !in t
    ensures Parse("i:" + (t + "\n")) == Parsed(ClassInfo("", "", [VarInit("", "", "", t, InstanceVar)]))
  {
    var buf := "i:" + (t + "\n");
    var e := 2 + |t|;
    assert forall k | 2 <= k < e :: buf[k] == t[k - 2] && t[k - 2] in t;
    FindCharIs(buf, ':', 0, 1);
    FindCharIs(buf, '\n', 2, e);
    assert FindChar(buf, ':', 2) == None;
    hide FindChar, TakeNames;
    NoNamesAreTaken(buf, 2, 3);
    assert TakeNames(buf, 2, 3).0 == ["", "", ""];
    assert buf[2..e] == t;
    RecordFromParts(buf, 0, ["", "", ""], 2, e);
    var r := Rec('i', ["", "", "", t]);
    assert RecordsFrom(buf, |buf|) == Finish(Done);
    assert RecordsFrom(buf, 0) == More(r, Finish(Done));
    assert Interpret(More(r, Finish(Done)), EMPTY) == Parsed(Apply(r, EMPTY));
  }

  lemma {:induction false} NoNamesAreTaken(buf: string, r: nat, n: nat)
    requires r <= |buf| && FindChar(buf, ':', r) == None
    ensures TakeNames(buf, r, n).1 == r && forall i | 0 <= i < n :: TakeNames(buf, r, n).0[i] == ""
    decreases n
  {
    if n == 0 {
    } else {
      NoNamesAreTaken(buf, r, n - 1);
    }
  }

  /** The second name, and then what the first one has behind that. */
  predicate IsOverwritten(s: string, first: string, second: string) {
    |s| == (if |first| < |second| then |second| else |first|) &&
    forall i | 0 <= i < |s| :: s[i] == if i < |second| then second[i] else first[i]
  }

  lemma {:induction false} DeclaredIsClean(classname: string, decls: seq<VarDecl>)
    requires Free(classname, COLON)
    requires forall i | 0 <= i < |decls| :: Free(decls[i].varname, COLON) && Free(decls[i].varclass, COLON)
    ensures AllNamesClean(DeclaredAll(classname, decls))
    ensures AllInitsClean(DeclaredAll(classname, decls)) <==>
            forall i | 0 <= i < |decls| :: Free(decls[i].init, NEWLINE)
    decreases |decls|
  {
    if decls == [] {
    } else {
      DeclaredIsClean(classname, decls[1..]);
      assert Free(decls[0].varname, COLON) && Free(decls[0].varclass, COLON);
      assert (forall i | 0 <= i < |decls| :: Free(decls[i].init, NEWLINE)) <==>
             Free(decls[0].init, NEWLINE) && forall i | 0 <= i < |decls[1..]| :: Free(decls[1..][i].init, NEWLINE);
    }
  }
}
