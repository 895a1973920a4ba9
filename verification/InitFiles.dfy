/** The printing and parsing loops of ".init" files. */
module InitFiles {
  import opened CStrings
  import opened CacheLines
  import opened InitRecords

  // ---------- Printing ----------

  lemma ConcatAssoc(a: string, b: string, c: string)
    ensures (a + b) + c == a + (b + c)
  {
  }

  function ArgblkLine(m: Method, selector: string): (line: string)
    ensures line == RecLine(ArgblkRec(m, selector))
  {
    Fields4(m.classname, "Object", selector, selector);
    "a" + (":" + (m.classname + (":" + ("Object" + (":" + (selector + (":" + (selector + "\n"))))))))
  }

  function MethodLine(m: Method): (line: string)
    ensures line == RecLine(MethodRec(m))
  {
    Fields6(m.classname, m.returnclass, m.name, m.selector, Ascii(|m.params|), Ascii(m.attrs));
    "m" + (":" + (m.classname + (":" + (m.returnclass + (":" + (m.name + (":" + (m.selector + (":" +
    (Ascii(|m.params|) + (":" + (Ascii(m.attrs) + "\n"))))))))))))
  }

  function ParamLine(m: Method, p: Param): (line: string)
    ensures line == RecLine(ParamRec(m, p))
  {
    Fields6(m.classname, m.name, p.name, p.classname, Flag(p.isPtr), Flag(p.isPtrPtr));
    "p" + (":" + (m.classname + (":" + (m.name + (":" + (p.name + (":" + (p.classname + (":" +
    (Flag(p.isPtr) + (":" + (Flag(p.isPtrPtr) + "\n"))))))))))))
  }

  function VarLine(tag: char, m: Method, v: Variable): (line: string)
    ensures line == RecLine(VarRec(tag, m, v))
  {
    Fields4(m.classname, v.name, VarClass(v), VarValue(v));
    [tag] + (":" + (m.classname + (":" + (v.name + (":" + (VarClass(v) + (":" + (VarValue(v) + "\n"))))))))
  }

  function TemplateLine(template: string): (line: string)
    ensures line == RecLine(Rec('t', [template]))
  {
    Fields1(template);
    "t" + (":" + (template + "\n"))
  }

  method WriteArgblks(m: Method, file: string, ghost recs: seq<Rec>) returns (out: string)
    requires file == Text(recs)
    ensures out == Text(recs + ArgblkRecs(m, m.argblks))
  {
    out := file;
    for i := 0 to |m.argblks|
      invariant out + Text(ArgblkRecs(m, m.argblks[i..])) == file + Text(ArgblkRecs(m, m.argblks))
    {
      ghost var rest := m.argblks[i..];
      assert rest[1..] == m.argblks[i + 1..];
      ConcatAssoc(out, ArgblkLine(m, m.argblks[i]), Text(ArgblkRecs(m, rest[1..])));
      out := out + ArgblkLine(m, m.argblks[i]);
    }
    assert m.argblks[|m.argblks|..] == [];
    TextAppend(recs, ArgblkRecs(m, m.argblks));
  }

  method WriteParams(m: Method, file: string, ghost recs: seq<Rec>) returns (out: string)
    requires file == Text(recs)
    ensures out == Text(recs + ParamRecs(m, m.params))
  {
    out := file;
    for i := 0 to |m.params|
      invariant out + Text(ParamRecs(m, m.params[i..])) == file + Text(ParamRecs(m, m.params))
    {
      ghost var rest := m.params[i..];
      assert rest[1..] == m.params[i + 1..];
      if m.params[i].isC { continue; }
      ConcatAssoc(out, ParamLine(m, m.params[i]), Text(ParamRecs(m, rest[1..])));
      out := out + ParamLine(m, m.params[i]);
    }
    assert m.params[|m.params|..] == [];
    TextAppend(recs, ParamRecs(m, m.params));
  }

  method WriteVars(tag: char, m: Method, vars: seq<Variable>, file: string, ghost recs: seq<Rec>) returns (out: string)
    requires file == Text(recs)
    ensures out == Text(recs + VarRecs(tag, m, vars))
  {
    out := file;
    for i := 0 to |vars|
      invariant out + Text(VarRecs(tag, m, vars[i..])) == file + Text(VarRecs(tag, m, vars))
    {
      ghost var rest := vars[i..];
      assert rest[1..] == vars[i + 1..];
      if vars[i].name == "value" { continue; }
      ConcatAssoc(out, VarLine(tag, m, vars[i]), Text(VarRecs(tag, m, rest[1..])));
      out := out + VarLine(tag, m, vars[i]);
    }
    assert vars[|vars|..] == [];
    TextAppend(recs, VarRecs(tag, m, vars));
  }

  /** Templates are collected in a buffer of their own, which is written at the end. */
  method WriteTemplates(m: Method, file: string, ghost recs: seq<Rec>) returns (out: string)
    requires file == Text(recs)
    ensures out == Text(recs + TemplateRecs(m.templates))
  {
    var buf := "";
    for i := 0 to |m.templates|
      invariant buf + Text(TemplateRecs(m.templates[i..])) == Text(TemplateRecs(m.templates))
    {
      ghost var rest := m.templates[i..];
      assert rest[1..] == m.templates[i + 1..];
      ConcatAssoc(buf, TemplateLine(m.templates[i]), Text(TemplateRecs(rest[1..])));
      buf := buf + TemplateLine(m.templates[i]);
    }
    assert m.templates[|m.templates|..] == [];
    TextAppend(recs, TemplateRecs(m.templates));
    out := file + buf;
  }

  method WriteMethod(m: Method, file: string, ghost recs: seq<Rec>) returns (out: string)
    requires file == Text(recs)
    ensures out == Text(recs + [MethodRec(m)])
  {
    out := file + MethodLine(m);
    TextAppendOne(recs, MethodRec(m));
  }

  const EXAMPLE :=
    Method("A", ["a_block"], "B", "f", "A_instance_f_1",
           [Param("x", "C", true, false, false), Param("n", "int", false, false, true)], 12,
           [Variable("value", "A", None, ""), Variable("v", "D", None, "")], [Variable("w", "D", Some("E"), "1")],
           ["t"])

  /** The records of a method with two parameters, one of them C, and two instance variables, one of them "value". */
  lemma RecordsOfExample()
    ensures Records(EXAMPLE) ==
            [Rec('a', ["A", "Object", "a_block", "a_block"]), Rec('m', ["A", "B", "f", "A_instance_f_1", "2", "12"]),
             Rec('p', ["A", "f", "x", "C", "1", "0"]), Rec('i', ["A", "v", "D", "(null)"]),
             Rec('c', ["A", "w", "E", "1"]), Rec('t', ["t"])]
    ensures RecLine(Rec('t', ["t"])) == "t:t\n"
  {
    var m := EXAMPLE;
    assert Ascii(2) == "2" && Ascii(12) == "12";
    assert m.params[1..][1..] == [] && m.instanceVars[1..][1..] == [] && m.classVars[1..] == [];
    assert m.argblks[1..] == [] && m.templates[1..] == [];
    assert m.params[1..][0].isC && m.instanceVars[1..][0] == m.instanceVars[1];
    Fields1("t");
  }

  /** save_pre_init_info: writes one record after the other. */
  method SavePreInitInfo(m: Method) returns (file: string)
    ensures file == Text(Records(m))
  {
    hide ArgblkRecs, ParamRecs, VarRecs, TemplateRecs;
    ghost var a := ArgblkRecs(m, m.argblks);
    ghost var b := a + [MethodRec(m)];
    ghost var c := b + ParamRecs(m, m.params);
    ghost var d := c + VarRecs('i', m, m.instanceVars);
    ghost var e := d + VarRecs('c', m, m.classVars);
    assert [] + a == a;
    file := WriteArgblks(m, "", []);
    file := WriteMethod(m, file, a);
    file := WriteParams(m, file, b);
    file := WriteVars('i', m, m.instanceVars, file, c);
    file := WriteVars('c', m, m.classVars, file, d);
    file := WriteTemplates(m, file, e);
    assert e + TemplateRecs(m.templates) == Records(m);
  }

  // ---------- Parsing ----------

  /** The stop at p and the others on its line, the newline being the last. */
  function StopsFrom(buf: string, p: nat): (stops: seq<nat>)
    requires p < |buf|
    ensures |stops| > 0 && stops[0] == p
    decreases |buf| - p
  {
    if buf[p] == '\n' then [p]
    else
      match FindStop(buf, p + 1)
      case None => [p]
      case Some(q) => [p] + StopsFrom(buf, q)
  }

  function Stops(buf: string, i: nat): seq<nat>
    requires i <= |buf|
  {
    match FindStop(buf, i) case None => [] case Some(p) => StopsFrom(buf, p)
  }

  /** The offsets found before i, and those still to come. */
  ghost predicate Scanned(buf: string, l: nat, i: nat, offsets: seq<nat>) {
    l <= i <= |buf| && offsets + Stops(buf, i) == Stops(buf, l)
  }

  lemma ScanStart(buf: string, l: nat)
    requires l <= |buf|
    ensures Scanned(buf, l, l, [])
  {
    assert [] + Stops(buf, l) == Stops(buf, l);
  }

  lemma ScanEnd(buf: string, l: nat, offsets: seq<nat>)
    requires Scanned(buf, l, |buf|, offsets)
    ensures offsets == Stops(buf, l)
  {
    assert offsets + [] == offsets;
  }

  lemma ScanOne(buf: string, l: nat, i: nat, offsets: seq<nat>)
    requires Scanned(buf, l, i, offsets) && i < |buf|
    ensures buf[i] == '\n' ==> offsets + [i] == Stops(buf, l)
    ensures buf[i] == ':' ==> Scanned(buf, l, i + 1, offsets + [i])
    ensures buf[i] != ':' && buf[i] != '\n' ==> Scanned(buf, l, i + 1, offsets)
  {
    if buf[i] == ':' {
      var rest := Stops(buf, i + 1);
      assert Stops(buf, i) == [i] + rest;
      assert offsets + ([i] + rest) == offsets + [i] + rest;
    }
  }

  /** premethod_scan_line: the positions of every ':' on a line, and of the newline that ends it. */
  method PremethodScanLine(buf: string, l: nat) returns (offsets: seq<nat>)
    requires l <= |buf|
    ensures offsets == Stops(buf, l)
  {
    offsets := [];
    var i := l;
    ScanStart(buf, l);
    while i < |buf|
      invariant l <= i <= |buf| && Scanned(buf, l, i, offsets)
    {
      ScanOne(buf, l, i, offsets);
      if buf[i] == ':' {
        offsets := offsets + [i];
      }
      if buf[i] == '\n' {
        offsets := offsets + [i];
        return;
      }
      i := i + 1;
    }
    ScanEnd(buf, l, offsets);
  }

  /** A line's offsets mark off its fields: reading n of them takes n + 1 offsets. */
  lemma {:induction false} StopsMarkFields(buf: string, p: nat, n: nat)
    requires p < |buf|
    ensures var stops := StopsFrom(buf, p);
            && (FieldsFrom(buf, p, n).Some? <==> n < |stops|)
            && (n < |stops| ==> stops[n] < |buf| && FieldsFrom(buf, p, n).value.1 == stops[n] + 1)
    decreases n
  {
    if n == 0 || buf[p] == '\n' || FindStop(buf, p + 1).None? {
    } else {
      StopsMarkFields(buf, FindStop(buf, p + 1).value, n - 1);
    }
  }

  /** Field k lies between stop k and the next one. */
  lemma {:induction false} FieldIsBetweenStops(buf: string, p: nat, n: nat, k: nat)
    requires p < |buf| && k < n && FieldsFrom(buf, p, n).Some?
    ensures var stops := StopsFrom(buf, p);
            && k + 1 < |stops| && stops[k] < stops[k + 1] < |buf|
            && FieldsFrom(buf, p, n).value.0[k] == buf[stops[k] + 1..stops[k + 1]]
    decreases k
  {
    var q := FindStop(buf, p + 1).value;
    StopsMarkFields(buf, p, n);
    if k == 0 {
      assert StopsFrom(buf, p)[1] == StopsFrom(buf, q)[0];
    } else {
      FieldIsBetweenStops(buf, q, n - 1, k - 1);
    }
  }

  /** Takes the n fields of the line at l out of the buffer, from the offsets of the line's stops. */
  method ReadFields(buf: string, l: nat, n: nat) returns (r: Option<(seq<string>, nat)>)
    requires l <= |buf|
    ensures r == match FindStop(buf, l) case None => None case Some(p) => FieldsFrom(buf, p, n)
  {
    var offsets := PremethodScanLine(buf, l);
    if |offsets| == 0 { return None; }
    ghost var p := offsets[0];
    StopsMarkFields(buf, p, n);
    if |offsets| <= n { return None; }
    var fields := [];
    ghost var all := FieldsFrom(buf, p, n).value.0;
    for k := 0 to n
      invariant |fields| == k && forall m | 0 <= m < k :: fields[m] == all[m]
    {
      FieldIsBetweenStops(buf, p, n, k);
      fields := fields + [buf[offsets[k] + 1..offsets[k + 1]]];
    }
    assert fields == all;
    return Some((fields, offsets[n] + 1));
  }

  /** fill_in_init_info: the loop over the records of a file. */
  method FillInInitInfo(buf: string, genVarInit: bool) returns (r: ParseResult)
    ensures r == Parse(buf, genVarInit)
  {
    var info, l := EMPTY, 0;
    while l < |buf|
      invariant 0 <= l <= |buf|
      invariant Parse(buf, genVarInit) == Interpret(RecordsFrom(buf, l), info, genVarInit)
      decreases |buf| - l
    {
      var count := FieldCount(buf[l]);
      if count.None? { return Failed(Stuck); }
      var fields := ReadFields(buf, l, count.value);
      if fields.None? { return Failed(Malformed); }
      info := Apply(Rec(buf[l], fields.value.0), info, genVarInit);
      l := fields.value.1;
    }
    return Parsed(info);
  }
}
