/** Parsing a ".init" file gives back the method it was written for, exactly when no variable's value contains
    a ':' or a newline. */
module InitRoundTrip {
  import opened CStrings
  import opened CacheLines
  import opened InitRecords

  // ---------- Numbers ----------

  lemma {:induction false} DigitsValueAppend(s: string, d: char, acc: nat)
    requires (forall c <- s :: '0' <= c <= '9') && '0' <= d <= '9'
    ensures DigitsValue(s + [d], acc) == 10 * DigitsValue(s, acc) + (d as int - '0' as int)
    decreases |s|
  {
    if s == "" {
      assert (s + [d])[1..] == "";
    } else {
      assert (s + [d])[1..] == s[1..] + [d];
      assert s[0] in s && forall c <- s[1..] :: c in s;
      DigitsValueAppend(s[1..], d, 10 * acc + (s[0] as int - '0' as int));
    }
  }

  lemma {:induction false} AsciiValue(n: nat)
    ensures DigitsValue(Ascii(n), 0) == n
  {
    if n < 10 {
      assert Ascii(n)[1..] == "";
    } else {
      AsciiValue(n / 10);
      DigitsValueAppend(Ascii(n / 10), ('0' as int + n % 10) as char, 0);
    }
  }

  /** atoi undoes the ascii table. */
  lemma AtoiAscii(n: nat)
    ensures Atoi(Ascii(n)) == n
  {
    AsciiValue(n);
    assert Ascii(n)[0] in Ascii(n);
  }

  lemma {:induction false} DigitsEnd(s: string, rest: string, acc: nat)
    requires (forall c <- s :: '0' <= c <= '9') && (rest != "" ==> !('0' <= rest[0] <= '9'))
    ensures DigitsValue(s + rest, acc) == DigitsValue(s, acc)
    decreases |s|
  {
    if s == "" {
      assert s + rest == rest;
    } else {
      assert (s + rest)[1..] == s[1..] + rest;
      assert s[0] in s && forall c <- s[1..] :: c in s;
      DigitsEnd(s[1..], rest, 10 * acc + (s[0] as int - '0' as int));
    }
  }

  lemma {:induction false} SpacesAreSkipped(blanks: string, s: string)
    requires (forall c <- blanks :: IsSpace(c)) && (s != "" ==> !IsSpace(s[0]))
    ensures SkipSpaces(blanks + s) == s
    decreases |blanks|
  {
    if blanks == "" {
      assert blanks + s == s;
    } else {
      assert (blanks + s)[1..] == blanks[1..] + s;
      assert blanks[0] in blanks && forall c <- blanks[1..] :: c in blanks;
      SpacesAreSkipped(blanks[1..], s);
    }
  }

  /** atoi reads the number in front of a text, behind whitespace and with its sign. */
  lemma AtoiReads(blanks: string, n: nat, rest: string)
    requires (forall c <- blanks :: IsSpace(c)) && (rest != "" ==> !('0' <= rest[0] <= '9'))
    ensures Atoi(blanks + (Ascii(n) + rest)) == n
    ensures Atoi(blanks + ("+" + (Ascii(n) + rest))) == n && Atoi(blanks + ("-" + (Ascii(n) + rest))) + n == 0
  {
    var digits := Ascii(n) + rest;
    AsciiValue(n);
    DigitsEnd(Ascii(n), rest, 0);
    assert digits[0] == Ascii(n)[0] && Ascii(n)[0] in Ascii(n);
    SpacesAreSkipped(blanks, digits);
    SpacesAreSkipped(blanks, "+" + digits);
    SpacesAreSkipped(blanks, "-" + digits);
    assert ("+" + digits)[1..] == digits && ("-" + digits)[1..] == digits;
  }

  // ---------- One record ----------

  lemma {:induction false} FindStopIs(buf: string, i: nat, k: nat)
    requires i <= k < |buf| && buf[k] in STOPS && forall j | i <= j < k :: buf[j] !in STOPS
    ensures FindStop(buf, i) == Some(k)
    decreases k - i
  {
    if i == k {
    } else {
      FindStopIs(buf, i + 1, k);
    }
  }

  /** A field is read up to its first ':' or newline; its own end is one when it has none itself. */
  lemma FieldIsRead(buf: string, p: nat, f: string)
    requires HoldsAt(buf, p + 1, f) && p + 1 + |f| < |buf| && buf[p + 1 + |f|] in STOPS
    ensures var u := UpTo(f, STOPS);
            FindStop(buf, p + 1) == Some(p + 1 + |u|) && buf[p + 1..p + 1 + |u|] == u
  {
    UpToAt(buf, p + 1, f, STOPS);
    FindStopIs(buf, p + 1, p + 1 + |UpTo(f, STOPS)|);
  }

  /** Reading n + 1 fields is reading one and then n. */
  lemma OneMoreField(buf: string, p: nat, n: nat, q: nat, fields: seq<string>, next: nat)
    requires p < |buf| && buf[p] != '\n' && p < q < |buf| && FindStop(buf, p + 1) == Some(q)
    requires FieldsFrom(buf, q, n) == Some((fields, next))
    ensures FieldsFrom(buf, p, n + 1) == Some(([buf[p + 1..q]] + fields, next))
  {
  }

  /** Reading as many fields as a line has gives those fields, when they are clean. */
  lemma {:induction false} FieldsAreRead(buf: string, p: nat, fields: seq<string>)
    requires HoldsAt(buf, p, Fields(fields)) && forall f <- fields :: Free(f, STOPS)
    ensures FieldsFrom(buf, p, |fields|) == Some((fields, p + |Fields(fields)|))
    decreases |fields|
  {
    if fields == [] {
    } else {
      hide FieldsFrom, FindStop, HoldsAt, UpTo;
      var f := fields[0];
      FieldsAt(buf, p, fields);
      assert UpTo(f, STOPS) == f by { UpToFree(f, STOPS); }
      FieldIsRead(buf, p, f);
      FieldsAreRead(buf, p + 1 + |f|, fields[1..]);
      OneMoreField(buf, p, |fields| - 1, p + 1 + |f|, fields[1..], p + |Fields(fields)|);
      assert fields == [f] + fields[1..];
    }
  }

  predicate CleanRec(r: Rec) {
    FieldCount(r.tag) == Some(|r.fields|) && forall f <- r.fields :: Free(f, STOPS)
  }

  predicate AllClean(recs: seq<Rec>) {
    recs != [] ==> CleanRec(recs[0]) && AllClean(recs[1..])
  }

  lemma TagStop(buf: string, l: nat, r: Rec)
    requires HoldsAt(buf, l, RecLine(r)) && FieldCount(r.tag) == Some(|r.fields|)
    ensures buf[l] == r.tag && FindStop(buf, l) == Some(l + 1) && HoldsAt(buf, l + 1, Fields(r.fields))
  {
  }

  /** A clean record's line is read as that record, and all of it is used up. */
  lemma RecordIsRead(buf: string, l: nat, r: Rec)
    requires HoldsAt(buf, l, RecLine(r)) && CleanRec(r)
    ensures ReadRecord(buf, l) == Record(r, l + |RecLine(r)|)
  {
    TagStop(buf, l, r);
    FieldsAreRead(buf, l + 1, r.fields);
  }

  lemma FirstRecordIsRead(buf: string, l: nat, r: Rec, tail: string)
    requires HoldsAt(buf, l, RecLine(r) + tail) && CleanRec(r)
    ensures HoldsAt(buf, l + |RecLine(r)|, tail)
    ensures l < |buf| && RecordsFrom(buf, l) == More(r, RecordsFrom(buf, l + |RecLine(r)|))
  {
    assert HoldsAt(buf, l, RecLine(r)) && HoldsAt(buf, l + |RecLine(r)|, tail) by {
      HoldsAtConcat(buf, l, RecLine(r), tail);
    }
    assert ReadRecord(buf, l) == Record(r, l + |RecLine(r)|) by {
      RecordIsRead(buf, l, r);
    }
  }

  /** The lines of clean records are read as those records, one step for each. */
  lemma {:induction false} CleanRecordsAreRead(buf: string, l: nat, recs: seq<Rec>, end: nat)
    requires HoldsAt(buf, l, Text(recs)) && AllClean(recs) && end == l + |Text(recs)|
    ensures end <= |buf| && RecordsFrom(buf, l) == Prepend(recs, RecordsFrom(buf, end))
    decreases |recs|
  {
    if recs == [] {
    } else {
      var r, rest := recs[0], recs[1..];
      var next := l + |RecLine(r)|;
      FirstRecordIsRead(buf, l, r, Text(rest));
      CleanRecordsAreRead(buf, next, rest, end);
      calc {
        RecordsFrom(buf, l);
        More(r, RecordsFrom(buf, next));
        More(r, Prepend(rest, RecordsFrom(buf, end)));
        Prepend(recs, RecordsFrom(buf, end));
      }
    }
  }

  // ---------- A method's records ----------

  function ApplyAll(recs: seq<Rec>, info: InitInfo, gen: bool): (r: InitInfo)
    ensures info.varCalls <= r.varCalls
  {
    if recs == [] then info else ApplyAll(recs[1..], Apply(recs[0], info, gen), gen)
  }

  lemma {:induction false} InterpretPrepend(recs: seq<Rec>, c: Contents, info: InitInfo, gen: bool)
    ensures Interpret(Prepend(recs, c), info, gen) == Interpret(c, ApplyAll(recs, info, gen), gen)
    decreases |recs|
  {
    if recs == [] {
    } else {
      InterpretPrepend(recs[1..], c, Apply(recs[0], info, gen), gen);
    }
  }

  lemma {:induction false} ApplyAppend(a: seq<Rec>, b: seq<Rec>, info: InitInfo, gen: bool)
    ensures ApplyAll(a + b, info, gen) == ApplyAll(b, ApplyAll(a, info, gen), gen)
    decreases |a|
  {
    if a == [] {
      assert a + b == b;
    } else {
      assert (a + b)[1..] == a[1..] + b;
      ApplyAppend(a[1..], b, Apply(a[0], info, gen), gen);
    }
  }

  function ArgblkInits(m: Method, selectors: seq<string>): seq<ArgblkInit> {
    if selectors == [] then []
    else [ArgblkInit(m.classname, "Object", selectors[0], selectors[0])] + ArgblkInits(m, selectors[1..])
  }

  function BoolInit(b: bool): int {
    if b then 1 else 0
  }

  function ParamInitOf(m: Method, p: Param): ParamInit {
    ParamInit(m.classname, m.name, p.name, p.classname, BoolInit(p.isPtr), BoolInit(p.isPtrPtr))
  }

  function ParamInits(m: Method, params: seq<Param>): seq<ParamInit> {
    if params == [] then []
    else if params[0].isC then ParamInits(m, params[1..])
    else [ParamInitOf(m, params[0])] + ParamInits(m, params[1..])
  }

  function VarCallOf(tag: char, m: Method, v: Variable): VarCall {
    VarCall(tag, m.classname, v.name, VarClass(v), VarValue(v))
  }

  function VarCalls(tag: char, m: Method, vars: seq<Variable>): seq<VarCall> {
    if vars == [] then []
    else if vars[0].name == "value" then VarCalls(tag, m, vars[1..])
    else [VarCallOf(tag, m, vars[0])] + VarCalls(tag, m, vars[1..])
  }

  /** The information a method's file should give: its own record, everything else in order, integers as such. */
  function Expected(m: Method, gen: bool): InitInfo {
    InitInfo(m.classname, m.returnclass, m.name, m.selector, |m.params|, m.attrs, ParamInits(m, m.params),
             ArgblkInits(m, m.argblks), m.templates,
             if gen then VarCalls('i', m, m.instanceVars) + VarCalls('c', m, m.classVars) else [])
  }

  lemma {:induction false} ApplyArgblks(m: Method, selectors: seq<string>, info: InitInfo, gen: bool)
    ensures ApplyAll(ArgblkRecs(m, selectors), info, gen) == info.(argblks := info.argblks + ArgblkInits(m, selectors))
    decreases |selectors|
  {
    if selectors == [] {
      assert info.argblks + [] == info.argblks;
    } else {
      var first := [ArgblkInit(m.classname, "Object", selectors[0], selectors[0])];
      ApplyArgblks(m, selectors[1..], info.(argblks := info.argblks + first), gen);
      assert info.argblks + first + ArgblkInits(m, selectors[1..]) == info.argblks + ArgblkInits(m, selectors);
    }
  }

  lemma FlagValue(b: bool)
    ensures Atoi(Flag(b)) == BoolInit(b)
  {
    AtoiAscii(BoolInit(b));
    assert Flag(b) == Ascii(BoolInit(b));
  }

  lemma ApplyParam(m: Method, p: Param, info: InitInfo, gen: bool)
    ensures Apply(ParamRec(m, p), info, gen) == info.(params := info.params + [ParamInitOf(m, p)])
  {
    FlagValue(p.isPtr);
    FlagValue(p.isPtrPtr);
  }

  lemma {:induction false} ApplyParams(m: Method, params: seq<Param>, info: InitInfo, gen: bool)
    ensures ApplyAll(ParamRecs(m, params), info, gen) == info.(params := info.params + ParamInits(m, params))
    decreases |params|
  {
    if params == [] {
      assert info.params + [] == info.params;
    } else if params[0].isC {
      ApplyParams(m, params[1..], info, gen);
    } else {
      var first, rest := ParamInitOf(m, params[0]), ParamInits(m, params[1..]);
      ApplyParam(m, params[0], info, gen);
      ApplyParams(m, params[1..], info.(params := info.params + [first]), gen);
      assert info.params + [first] + rest == info.params + ([first] + rest);
    }
  }

  lemma {:induction false} ApplyVars(tag: char, m: Method, vars: seq<Variable>, info: InitInfo, gen: bool)
    requires tag == 'i' || tag == 'c'
    ensures ApplyAll(VarRecs(tag, m, vars), info, gen) ==
            info.(varCalls := info.varCalls + if gen then VarCalls(tag, m, vars) else [])
    decreases |vars|
  {
    assert info.varCalls + [] == info.varCalls;
    if vars == [] {
    } else if vars[0].name == "value" {
      ApplyVars(tag, m, vars[1..], info, gen);
    } else {
      var first, rest := VarCallOf(tag, m, vars[0]), VarCalls(tag, m, vars[1..]);
      var info1 := Apply(VarRec(tag, m, vars[0]), info, gen);
      assert info1 == info.(varCalls := info.varCalls + if gen then [first] else []);
      ApplyVars(tag, m, vars[1..], info1, gen);
      assert info.varCalls + [first] + rest == info.varCalls + ([first] + rest);
    }
  }

  lemma {:induction false} ApplyTemplates(templates: seq<string>, info: InitInfo, gen: bool)
    ensures ApplyAll(TemplateRecs(templates), info, gen) == info.(templates := info.templates + templates)
    decreases |templates|
  {
    if templates == [] {
      assert info.templates + templates == info.templates;
    } else {
      ApplyTemplates(templates[1..], info.(templates := info.templates + [templates[0]]), gen);
      assert info.templates + [templates[0]] + templates[1..] == info.templates + templates;
    }
  }

  lemma ApplyMethod(m: Method, info: InitInfo, gen: bool)
    ensures ApplyAll([MethodRec(m)], info, gen) ==
            info.(classname := m.classname, returnclassname := m.returnclass, methodname := m.name,
                  selectorname := m.selector, requiredArgs := |m.params|, methodAttrs := m.attrs)
  {
    AtoiAscii(|m.params|);
    AtoiAscii(m.attrs);
  }

  lemma ApplyHead(m: Method, gen: bool)
    ensures ApplyAll(HeadRecords(m), EMPTY, gen) ==
            InitInfo(m.classname, m.returnclass, m.name, m.selector, |m.params|, m.attrs, ParamInits(m, m.params),
                     ArgblkInits(m, m.argblks), [], [])
  {
    var a, b, c := ArgblkRecs(m, m.argblks), [MethodRec(m)], ParamRecs(m, m.params);
    ApplyAppend(a + b, c, EMPTY, gen);
    ApplyAppend(a, b, EMPTY, gen);
    ApplyArgblks(m, m.argblks, EMPTY, gen);
    ApplyMethod(m, ApplyAll(a, EMPTY, gen), gen);
    ApplyParams(m, m.params, ApplyAll(a + b, EMPTY, gen), gen);
  }

  lemma ApplyTail(m: Method, info: InitInfo, gen: bool)
    requires info.varCalls == [] && info.templates == []
    ensures ApplyAll(TailRecords(m), info, gen) ==
            info.(templates := m.templates,
                  varCalls := if gen then VarCalls('i', m, m.instanceVars) + VarCalls('c', m, m.classVars) else [])
  {
    hide ApplyAll, VarRecs, TemplateRecs, VarCalls;
    var d, e, f := VarRecs('i', m, m.instanceVars), VarRecs('c', m, m.classVars), TemplateRecs(m.templates);
    ApplyAppend(d + e, f, info, gen);
    ApplyAppend(d, e, info, gen);
    ApplyVars('i', m, m.instanceVars, info, gen);
    ApplyVars('c', m, m.classVars, ApplyAll(d, info, gen), gen);
    ApplyTemplates(m.templates, ApplyAll(d + e, info, gen), gen);
  }

  /** Reading back every record of a method gives what is expected of its file. */
  lemma RecordsMakeExpected(m: Method, gen: bool)
    ensures ApplyAll(Records(m), EMPTY, gen) == Expected(m, gen)
  {
    ApplyAppend(HeadRecords(m), TailRecords(m), EMPTY, gen);
    ApplyHead(m, gen);
    ApplyTail(m, ApplyAll(HeadRecords(m), EMPTY, gen), gen);
  }
}
