/** The round trip of ".init" files, from the printer's and the parser's loops. */
module InitCache {
  import opened CStrings
  import opened CacheLines
  import opened InitRecords
  import opened InitRoundTrip

  // ---------- Clean methods ----------

  /** No name or template of the method contains a ':' or a newline. Variables' values may. */
  ghost predicate NamesClean(m: Method) {
    && Free(m.classname, STOPS) && Free(m.returnclass, STOPS) && Free(m.name, STOPS) && Free(m.selector, STOPS)
    && (forall i | 0 <= i < |m.argblks| :: Free(m.argblks[i], STOPS))
    && (forall i | 0 <= i < |m.params| :: Free(m.params[i].name, STOPS) && Free(m.params[i].classname, STOPS))
    && (forall i | 0 <= i < |m.templates| :: Free(m.templates[i], STOPS))
    && VarNamesClean(m.instanceVars) && VarNamesClean(m.classVars)
  }

  ghost predicate VarNamesClean(vars: seq<Variable>) {
    forall i | 0 <= i < |vars| :: Free(vars[i].name, STOPS) && Free(VarClass(vars[i]), STOPS)
  }

  /** No value that gets written contains a ':' or a newline. */
  ghost predicate ValuesClean(vars: seq<Variable>) {
    forall i | 0 <= i < |vars| && vars[i].name != "value" :: Free(vars[i].value, STOPS)
  }

  /** Every field is clean but for the last one of a variable's record. */
  predicate NearlyClean(r: Rec) {
    if r.tag == 'i' || r.tag == 'c' then
      |r.fields| == 4 && Free(r.fields[0], STOPS) && Free(r.fields[1], STOPS) && Free(r.fields[2], STOPS)
    else CleanRec(r)
  }

  predicate AllNearlyClean(recs: seq<Rec>) {
    recs != [] ==> NearlyClean(recs[0]) && AllNearlyClean(recs[1..])
  }

  lemma {:induction false} AppendClean(a: seq<Rec>, b: seq<Rec>)
    ensures AllClean(a + b) <==> AllClean(a) && AllClean(b)
    ensures AllNearlyClean(a + b) <==> AllNearlyClean(a) && AllNearlyClean(b)
    decreases |a|
  {
    if a == [] {
      assert a + b == b;
    } else {
      assert (a + b)[1..] == a[1..] + b;
      AppendClean(a[1..], b);
    }
  }

  lemma CleanIsNearlyClean(r: Rec)
    requires CleanRec(r)
    ensures NearlyClean(r)
  {
  }

  lemma {:induction false} AllCleanIsNearly(recs: seq<Rec>)
    requires AllClean(recs)
    ensures AllNearlyClean(recs)
    decreases |recs|
  {
    if recs == [] {
    } else {
      CleanIsNearlyClean(recs[0]);
      AllCleanIsNearly(recs[1..]);
    }
  }

  lemma {:induction false} ArgblksClean(m: Method, selectors: seq<string>)
    requires Free(m.classname, STOPS) && forall i | 0 <= i < |selectors| :: Free(selectors[i], STOPS)
    ensures AllClean(ArgblkRecs(m, selectors))
    decreases |selectors|
  {
    if selectors == [] {
    } else {
      ArgblksClean(m, selectors[1..]);
    }
  }

  lemma {:induction false} ParamsClean(m: Method, params: seq<Param>)
    requires Free(m.classname, STOPS) && Free(m.name, STOPS)
    requires forall i | 0 <= i < |params| :: Free(params[i].name, STOPS) && Free(params[i].classname, STOPS)
    ensures AllClean(ParamRecs(m, params))
    decreases |params|
  {
    if params == [] {
    } else {
      ParamsClean(m, params[1..]);
      assert Free(params[0].name, STOPS);
    }
  }

  lemma {:induction false} TemplatesClean(templates: seq<string>)
    requires forall i | 0 <= i < |templates| :: Free(templates[i], STOPS)
    ensures AllClean(TemplateRecs(templates))
    decreases |templates|
  {
    if templates == [] {
    } else {
      TemplatesClean(templates[1..]);
    }
  }

  /** Variables' records are clean exactly when their values are. */
  lemma {:induction false} VarsClean(tag: char, m: Method, vars: seq<Variable>)
    requires (tag == 'i' || tag == 'c') && Free(m.classname, STOPS) && VarNamesClean(vars)
    ensures AllNearlyClean(VarRecs(tag, m, vars))
    ensures AllClean(VarRecs(tag, m, vars)) <==> ValuesClean(vars)
    decreases |vars|
  {
    if vars == [] {
    } else {
      VarsClean(tag, m, vars[1..]);
      var v := vars[0];
      assert ValuesClean(vars) <==> (v.name != "value" ==> Free(v.value, STOPS)) && ValuesClean(vars[1..]);
      assert Free(v.name, STOPS);
      OneVarClean(tag, m, v);
    }
  }

  lemma OneVarClean(tag: char, m: Method, v: Variable)
    requires (tag == 'i' || tag == 'c') && Free(m.classname, STOPS) && Free(v.name, STOPS) && Free(VarClass(v), STOPS)
    ensures NearlyClean(VarRec(tag, m, v)) && (CleanRec(VarRec(tag, m, v)) <==> Free(v.value, STOPS))
  {
  }

  lemma HeadClean(m: Method)
    requires NamesClean(m)
    ensures AllClean(HeadRecords(m))
  {
    var a, b, c := ArgblkRecs(m, m.argblks), [MethodRec(m)], ParamRecs(m, m.params);
    AppendClean(a + b, c);
    AppendClean(a, b);
    ArgblksClean(m, m.argblks);
    ParamsClean(m, m.params);
  }

  lemma TailClean(m: Method)
    requires NamesClean(m)
    ensures AllNearlyClean(TailRecords(m))
    ensures AllClean(TailRecords(m)) <==> ValuesClean(m.instanceVars) && ValuesClean(m.classVars)
  {
    var d, e, f := VarRecs('i', m, m.instanceVars), VarRecs('c', m, m.classVars), TemplateRecs(m.templates);
    AppendClean(d + e, f);
    AppendClean(d, e);
    VarsClean('i', m, m.instanceVars);
    VarsClean('c', m, m.classVars);
    TemplatesClean(m.templates);
    AllCleanIsNearly(f);
  }

  lemma RecordsClean(m: Method)
    requires NamesClean(m)
    ensures AllNearlyClean(Records(m))
    ensures AllClean(Records(m)) <==> ValuesClean(m.instanceVars) && ValuesClean(m.classVars)
  {
    AppendClean(HeadRecords(m), TailRecords(m));
    HeadClean(m);
    AllCleanIsNearly(HeadRecords(m));
    TailClean(m);
  }

  // ---------- Clean files ----------

  lemma CleanFileParses(recs: seq<Rec>, gen: bool)
    requires AllClean(recs)
    ensures Parse(Text(recs), gen) == Parsed(ApplyAll(recs, EMPTY, gen))
  {
    var buf := Text(recs);
    HoldsAtIs(buf, 0, buf);
    CleanRecordsAreRead(buf, 0, recs, |buf|);
    InterpretPrepend(recs, Finish(Done), EMPTY, gen);
  }

  // ---------- Files with a value that is not clean ----------

  /** All fields are read as they are but for the last, which is cut off at its first ':' or newline. */
  lemma {:induction false} LastFieldIsCut(buf: string, p: nat, fields: seq<string>) returns (next: nat)
    requires fields != [] && HoldsAt(buf, p, Fields(fields))
    requires forall i | 0 <= i < |fields| - 1 :: Free(fields[i], STOPS)
    ensures FieldsFrom(buf, p, |fields|) ==
            Some((fields[..|fields| - 1] + [UpTo(fields[|fields| - 1], STOPS)], next))
    ensures next == p + |Fields(fields)| - |fields[|fields| - 1]| + |UpTo(fields[|fields| - 1], STOPS)|
    decreases |fields|
  {
    hide FieldsFrom, FindStop, HoldsAt, UpTo;
    var f := fields[0];
    FieldsAt(buf, p, fields);
    FieldIsRead(buf, p, f);
    if |fields| == 1 {
      next := OnlyFieldIsCut(buf, p, f);
      assert fields[..0] + [UpTo(f, STOPS)] == [UpTo(f, STOPS)];
    } else {
      assert UpTo(f, STOPS) == f by { UpToFree(f, STOPS); }
      var rest, last := fields[1..], UpTo(fields[|fields| - 1], STOPS);
      next := LastFieldIsCut(buf, p + 1 + |f|, rest);
      OneMoreField(buf, p, |rest|, p + 1 + |f|, rest[..|rest| - 1] + [last], next);
      FirstOfMany(fields, last);
    }
  }

  lemma OnlyFieldIsCut(buf: string, p: nat, f: string) returns (next: nat)
    requires p < |buf| && buf[p] != '\n' && HoldsAt(buf, p + 1, f)
    requires p + 1 + |f| < |buf| && buf[p + 1 + |f|] in STOPS
    ensures FieldsFrom(buf, p, 1) == Some(([UpTo(f, STOPS)], next)) && next == p + 2 + |UpTo(f, STOPS)|
  {
    FieldIsRead(buf, p, f);
    var q := p + 1 + |UpTo(f, STOPS)|;
    next := q + 1;
    OneMoreField(buf, p, 0, q, [], next);
    var none: seq<string> := [];
    assert [UpTo(f, STOPS)] + none == [UpTo(f, STOPS)];
  }

  lemma FirstOfMany(fields: seq<string>, last: string)
    requires |fields| > 1
    ensures [fields[0]] + (fields[1..][..|fields| - 2] + [last]) == fields[..|fields| - 1] + [last]
  {
  }

  /** A variable's record is read with its value cut off. */
  lemma CutRecordIsRead(buf: string, l: nat, r: Rec, tail: string) returns (cut: Rec, next: nat)
    requires HoldsAt(buf, l, RecLine(r) + tail) && (r.tag == 'i' || r.tag == 'c') && NearlyClean(r)
    ensures l < |buf| && ReadRecord(buf, l) == Record(cut, next)
    ensures cut == Cut(r)
    ensures next == l + |RecLine(r)| - |r.fields[3]| + |UpTo(r.fields[3], STOPS)|
  {
    HoldsAtConcat(buf, l, RecLine(r), tail);
    TagStop(buf, l, r);
    next := LastFieldIsCut(buf, l + 1, r.fields);
    cut := Cut(r);
  }

  /** The first record that is not clean is a variable's. */
  lemma {:induction false} FirstUnclean(recs: seq<Rec>) returns (k: nat)
    requires AllNearlyClean(recs) && !AllClean(recs)
    ensures k < |recs| && AllClean(recs[..k]) && NearlyClean(recs[k])
    ensures (recs[k].tag == 'i' || recs[k].tag == 'c') && !Free(recs[k].fields[3], STOPS)
    decreases |recs|
  {
    if CleanRec(recs[0]) {
      k := FirstUnclean(recs[1..]);
      assert recs[..k + 1][1..] == recs[1..][..k];
      k := k + 1;
    } else {
      k := 0;
      var f := recs[0].fields;
      assert forall x <- f :: x == f[0] || x == f[1] || x == f[2] || x == f[3];
    }
  }

  /** The call generated for a variable shows its value, and stays in its place whatever else is read. */
  lemma CallStays(good: seq<Rec>, r: Rec, c: Contents)
    requires (r.tag == 'i' || r.tag == 'c') && |r.fields| == 4
    ensures var before := ApplyAll(good, EMPTY, true).varCalls;
            var result := Interpret(Prepend(good, More(r, c)), EMPTY, true);
            result.Parsed? ==> |result.info.varCalls| > |before| && result.info.varCalls[|before|].init == r.fields[3]
  {
    InterpretPrepend(good, More(r, c), EMPTY, true);
    var info := ApplyAll(good, EMPTY, true);
    assert Apply(r, info, true).varCalls[|info.varCalls|].init == r.fields[3];
  }

  lemma FileContents(recs: seq<Rec>)
    ensures Interpret(Prepend(recs, Finish(Done)), EMPTY, true) == Parsed(ApplyAll(recs, EMPTY, true))
  {
    InterpretPrepend(recs, Finish(Done), EMPTY, true);
  }

  function Cut(r: Rec): Rec
    requires |r.fields| == 4
  {
    Rec(r.tag, r.fields[..3] + [UpTo(r.fields[3], STOPS)])
  }

  lemma UncleanFileIsMisread(recs: seq<Rec>)
    requires AllNearlyClean(recs) && !AllClean(recs)
    ensures Parse(Text(recs), true) != Parsed(ApplyAll(recs, EMPTY, true))
  {
    var k := FirstUnclean(recs);
    var c := MisreadAt(recs, k);
    CallStays(recs[..k], Cut(recs[k]), c);
    ReadAt(recs, k);
    UpToFree(recs[k].fields[3], STOPS);
  }

  /** With all records as they were written, the call for record k would show its whole value. */
  lemma ReadAt(recs: seq<Rec>, k: nat)
    requires k < |recs| && (recs[k].tag == 'i' || recs[k].tag == 'c') && |recs[k].fields| == 4
    ensures var before := ApplyAll(recs[..k], EMPTY, true).varCalls;
            var calls := ApplyAll(recs, EMPTY, true).varCalls;
            |calls| > |before| && calls[|before|].init == recs[k].fields[3]
  {
    var good, r, rest := recs[..k], recs[k], recs[k + 1..];
    assert recs == good + ([r] + rest);
    PrependAppend(good, [r] + rest, Finish(Done));
    assert Prepend([r] + rest, Finish(Done)) == More(r, Prepend(rest, Finish(Done))) by {
      assert ([r] + rest)[1..] == rest;
    }
    FileContents(recs);
    CallStays(good, r, Prepend(rest, Finish(Done)));
  }

  lemma MisreadAt(recs: seq<Rec>, k: nat) returns (c: Contents)
    requires k < |recs| && AllClean(recs[..k]) && NearlyClean(recs[k]) && (recs[k].tag == 'i' || recs[k].tag == 'c')
    ensures RecordsFrom(Text(recs), 0) == Prepend(recs[..k], More(Cut(recs[k]), c))
  {
    var good, rest := recs[..k], recs[k..];
    assert recs == good + rest;
    c := MisreadAfter(good, rest);
  }

  lemma MisreadAfter(good: seq<Rec>, rest: seq<Rec>) returns (c: Contents)
    requires AllClean(good) && rest != [] && NearlyClean(rest[0]) && (rest[0].tag == 'i' || rest[0].tag == 'c')
    ensures RecordsFrom(Text(good + rest), 0) == Prepend(good, More(Cut(rest[0]), c))
  {
    var buf, l := Text(good + rest), |Text(good)|;
    assert HoldsAt(buf, 0, Text(good)) && HoldsAt(buf, l, Text(rest)) by {
      TextAppend(good, rest);
      HoldsAtIs(buf, 0, buf);
      HoldsAtConcat(buf, 0, Text(good), Text(rest));
    }
    CleanRecordsAreRead(buf, 0, good, l);
    var cut, next := CutRecordIsRead(buf, l, rest[0], Text(rest[1..]));
    c := RecordsFrom(buf, next);
    assert RecordsFrom(buf, l) == More(cut, c);
  }

  /** Parsing what was written for a method gives its record, its parameters, argument blocks and templates in
      order, and the calls that define the variables, exactly when no variable's value contains a ':' or a
      newline. */
  lemma {:induction false} InitFileRoundTrip(m: Method)
    requires NamesClean(m)
    ensures Parse(Text(Records(m)), true) == Parsed(Expected(m, true)) <==>
            ValuesClean(m.instanceVars) && ValuesClean(m.classVars)
  {
    RecordsClean(m);
    RecordsMakeExpected(m, true);
    if AllClean(Records(m)) {
      CleanFileParses(Records(m), true);
    } else {
      UncleanFileIsMisread(Records(m));
    }
  }
}
