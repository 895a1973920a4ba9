/** register_init of src/premethod.c: the calls that define a cached method and its variables at run time. */
module RegisterInit {
  import opened CStrings
  import opened CacheLines
  import opened InitRecords
  import opened InitRoundTrip
  import InitCache
  import InitFiles

  /** A method belongs to the instances of its class, or to the class itself. */
  datatype Kind = OfInstances | OfClass

  /** A call to define a variable, a method, the class of its result, or one of its parameters. */
  datatype Definition =
    | DefVariable(call: VarCall)
    | DefMethod(kind: Kind, classname: string, name: string, selector: string, args: int, attrs: int)
    | DefReturn(kind: Kind, classname: string, name: string, selector: string, returnclass: string, args: int)
    | DefParameter(kind: Kind, selector: string, param: ParamInit)

  const INSTANCE_MARK := "_instance_"
  const CLASS_MARK := "_class_"
  const INSTANCE := "instance"
  const CLASS := "class"

  predicate Contains(s: string, pat: string) {
    FindStr(s, pat, 0).Some?
  }

  // ---------- What is called ----------

  function BlockDef(a: ArgblkInit): Definition {
    DefMethod(OfInstances, a.classname, a.selectorname, a.selectorname, 0, 0)
  }

  function Variables(calls: seq<VarCall>): seq<Definition> {
    if calls == [] then [] else [DefVariable(calls[0])] + Variables(calls[1..])
  }

  /** Argument blocks are defined as instance methods without arguments. */
  function Blocks(argblks: seq<ArgblkInit>): seq<Definition> {
    if argblks == [] then [] else Blocks(argblks[..|argblks| - 1]) + [BlockDef(argblks[|argblks| - 1])]
  }

  function Parameters(kind: Kind, selector: string, params: seq<ParamInit>): seq<Definition> {
    if params == [] then []
    else Parameters(kind, selector, params[..|params| - 1]) + [DefParameter(kind, selector, params[|params| - 1])]
  }

  /** The attributes of a class method are not passed on, nor is its selector with the class of its result. */
  function MethodItself(kind: Kind, i: InitInfo): seq<Definition> {
    match kind
    case OfInstances =>
      [DefMethod(kind, i.classname, i.methodname, i.selectorname, i.requiredArgs, i.methodAttrs),
       DefReturn(kind, i.classname, i.methodname, i.selectorname, i.returnclassname, i.requiredArgs)]
    case OfClass =>
      [DefMethod(kind, i.classname, i.methodname, i.selectorname, i.requiredArgs, 0),
       DefReturn(kind, i.classname, i.methodname, "", i.returnclassname, i.requiredArgs)]
  }

  /** Everything that defines a method of a given kind. */
  function Definitions(kind: Kind, i: InitInfo): seq<Definition> {
    Variables(i.varCalls) + Blocks(i.argblks) + MethodItself(kind, i) + Parameters(kind, i.selectorname, i.params)
  }

  /** The kind that a selector tells, if any. */
  function KindOf(selector: string): Option<Kind> {
    if Contains(selector, INSTANCE_MARK) then Some(OfInstances)
    else if Contains(selector, CLASS_MARK) then Some(OfClass)
    else None
  }

  /** The kind that a selector tells when the parameters are defined: without the underscores. */
  function ParamKindOf(selector: string): Option<Kind> {
    if Contains(selector, INSTANCE) then Some(OfInstances)
    else if Contains(selector, CLASS) then Some(OfClass)
    else None
  }

  function Registered(i: InitInfo): seq<Definition> {
    Variables(i.varCalls) + Blocks(i.argblks)
    + (match KindOf(i.selectorname) case None => [] case Some(kind) => MethodItself(kind, i))
    + (match ParamKindOf(i.selectorname) case None => [] case Some(kind) => Parameters(kind, i.selectorname, i.params))
  }

  lemma NoBlocks(i: InitInfo)
    ensures Blocks(i.argblks[..0]) == []
    ensures forall kind :: Parameters(kind, i.selectorname, i.params[..0]) == []
  {
  }

  lemma OneMoreBlock(argblks: seq<ArgblkInit>, n: nat)
    requires n < |argblks|
    ensures Blocks(argblks[..n + 1]) == Blocks(argblks[..n]) + [BlockDef(argblks[n])]
  {
    assert argblks[..n + 1][..n] == argblks[..n];
  }

  lemma OneMoreParameter(kind: Kind, selector: string, params: seq<ParamInit>, k: nat)
    requires k < |params|
    ensures Parameters(kind, selector, params[..k + 1]) ==
            Parameters(kind, selector, params[..k]) + [DefParameter(kind, selector, params[k])]
  {
    assert params[..k + 1][..k] == params[..k];
  }

  /** register_init */
  method RegisterInit(file: string) returns (result: Option<seq<Definition>>)
    ensures match Parse(file, true)
            case Parsed(info) => result == Some(Registered(info))
            case Failed(_) => result == None
  {
    hide Parse, KindOf, ParamKindOf, Variables, MethodItself, Blocks, Parameters;
    var parsed := InitFiles.FillInInitInfo(file, true);
    if parsed.Failed? { return None; }
    var i := parsed.info;
    var calls := Variables(i.varCalls);
    var n := 0;
    NoBlocks(i);
    while n < |i.argblks|
      invariant 0 <= n <= |i.argblks| && calls == Variables(i.varCalls) + Blocks(i.argblks[..n])
    {
      OneMoreBlock(i.argblks, n);
      calls := calls + [BlockDef(i.argblks[n])];
      n := n + 1;
    }
    assert i.argblks[..n] == i.argblks;
    var kind := KindOf(i.selectorname);
    if kind.Some? { calls := calls + MethodItself(kind.value, i); }
    ghost var before := calls;
    var k, paramKind := 0, ParamKindOf(i.selectorname);
    while k < |i.params|
      invariant 0 <= k <= |i.params|
      invariant calls == before + if paramKind.None? then []
                                  else Parameters(paramKind.value, i.selectorname, i.params[..k])
    {
      if paramKind.Some? { OneMoreParameter(paramKind.value, i.selectorname, i.params, k); }
      if paramKind.Some? { calls := calls + [DefParameter(paramKind.value, i.selectorname, i.params[k])]; }
      k := k + 1;
    }
    assert i.params[..k] == i.params;
    return Some(calls);
  }

  // ---------- When a method is registered as what it is ----------

  lemma PartMatches(s: string, pat: string, part: string, i: nat, k: nat)
    requires MatchesAt(s, pat, i) && MatchesAt(pat, part, k)
    ensures MatchesAt(s, part, i + k)
  {
    var found := s[i + k..i + k + |part|];
    forall t | 0 <= t < |part|
      ensures found[t] == part[t]
    {
      assert found[t] == s[i + (k + t)] == s[i..i + |pat|][k + t] == pat[k + t] == pat[k..k + |part|][t];
    }
    assert found == part;
  }

  lemma MarkContains(s: string)
    ensures Contains(s, INSTANCE_MARK) ==> Contains(s, INSTANCE)
    ensures Contains(s, CLASS_MARK) ==> Contains(s, CLASS)
  {
    assert INSTANCE_MARK[1..9] == INSTANCE && CLASS_MARK[1..6] == CLASS;
    if Contains(s, INSTANCE_MARK) {
      PartMatches(s, INSTANCE_MARK, INSTANCE, FindStr(s, INSTANCE_MARK, 0).value, 1);
    }
    if Contains(s, CLASS_MARK) {
      PartMatches(s, CLASS_MARK, CLASS, FindStr(s, CLASS_MARK, 0).value, 1);
    }
  }

  function Mark(kind: Kind): string {
    if kind.OfInstances? then INSTANCE_MARK else CLASS_MARK
  }

  /** make_selector: the class, the mark of the method's kind, the name of the function that implements the method,
      and what is behind that. */
  function MakeSelector(classname: string, kind: Kind, funcname: string, suffix: string): (selector: string)
    ensures MatchesAt(selector, Mark(kind), |classname|)
  {
    var selector := classname + Mark(kind) + funcname + "_" + suffix;
    assert selector[|classname|..|classname| + |Mark(kind)|] == Mark(kind);
    selector
  }

  /** From the file that was written for a method, all its definitions are made again. They are those of its kind of
      method if it is an instance method. If it is a class method they are if and only if its selector, in which the
      names of its class and of its function are, does not also have the mark of an instance method, and not even
      "instance" when there are parameters. */
  lemma {:induction false} RegisteredAsWritten(m: Method, kind: Kind)
    requires InitCache.NamesClean(m) && InitCache.ValuesClean(m.instanceVars) && InitCache.ValuesClean(m.classVars)
    requires Contains(m.selector, Mark(kind))
    ensures Parse(Text(Records(m)), true) == Parsed(Expected(m, true))
    ensures Registered(Expected(m, true)) == Definitions(kind, Expected(m, true)) <==>
            || kind == OfInstances
            || (&& !Contains(m.selector, INSTANCE_MARK)
                && (ParamInits(m, m.params) == [] || !Contains(m.selector, INSTANCE)))
  {
    InitCache.InitFileRoundTrip(m);
    MarkContains(m.selector);
    if KindOf(m.selector) == Some(kind) {
      OnlyParametersDiffer(Expected(m, true), kind);
    } else {
      KindsDiffer(Expected(m, true), kind);
    }
  }

  lemma OnlyParametersDiffer(i: InitInfo, kind: Kind)
    requires KindOf(i.selectorname) == Some(kind) && ParamKindOf(i.selectorname).Some?
    ensures Registered(i) == Definitions(kind, i) <==>
            i.params == [] || ParamKindOf(i.selectorname) == Some(kind)
  {
    var other := ParamKindOf(i.selectorname).value;
    var before := Variables(i.varCalls) + Blocks(i.argblks) + MethodItself(kind, i);
    var a, b := Parameters(other, i.selectorname, i.params), Parameters(kind, i.selectorname, i.params);
    assert Registered(i) == before + a && Definitions(kind, i) == before + b;
    assert before + a == before + b <==> a == b by {
      assert (before + a)[|before|..] == a && (before + b)[|before|..] == b;
    }
    if i.params != [] {
      assert a[|a| - 1] == DefParameter(other, i.selectorname, i.params[|i.params| - 1]);
      assert b[|b| - 1] == DefParameter(kind, i.selectorname, i.params[|i.params| - 1]);
    }
  }

  lemma KindsDiffer(i: InitInfo, kind: Kind)
    requires KindOf(i.selectorname).Some? && KindOf(i.selectorname) != Some(kind)
    ensures Registered(i) != Definitions(kind, i)
  {
    var n := |Variables(i.varCalls) + Blocks(i.argblks)|;
    assert Definitions(kind, i)[n] == MethodItself(kind, i)[0];
    assert Registered(i)[n] == MethodItself(KindOf(i.selectorname).value, i)[0];
  }

  /** The class method make_instance_of of class Foo, which has no parameters, is registered as an instance method. */
  lemma ClassMethodMistaken()
    ensures var m := MakeInstanceOf();
            && m.selector == MakeSelector("Foo", OfClass, "make_instance_of", "0")
            && Parse(Text(Records(m)), true) == Parsed(Expected(m, true))
            && Registered(Expected(m, true)) != Definitions(OfClass, Expected(m, true))
  {
    hide Registered, Definitions, Parse, Text, Records, Expected, Contains, MakeSelector, InitCache.NamesClean;
    SelectorHasBothMarks();
    MakeInstanceOfIsClean();
    RegisteredAsWritten(MakeInstanceOf(), OfClass);
  }

  lemma MakeInstanceOfIsClean()
    ensures InitCache.NamesClean(MakeInstanceOf())
  {
    hide Free;
    ShortNamesAreFree();
    LongNamesAreFree();
  }

  lemma ShortNamesAreFree()
    ensures Free("Foo", STOPS) && Free("Object", STOPS) && Free("Foo_class_", STOPS) && Free("_0", STOPS)
  {
  }

  lemma LongNamesAreFree()
    ensures Free("make_instance_of", STOPS) && Free("Foo_class_make_instance_of_0", STOPS)
  {
    assert Free("make_instance_of", STOPS);
    assert "Foo_class_make_instance_of_0" == "Foo_class_" + ("make_instance_of" + "_0");
    hide Free;
    ShortNamesAreFree();
    FreeConcat("make_instance_of", "_0");
    FreeConcat("Foo_class_", "make_instance_of" + "_0");
  }

  lemma FreeConcat(a: string, b: string)
    requires Free(a, STOPS) && Free(b, STOPS)
    ensures Free(a + b, STOPS)
  {
  }

  function MakeInstanceOf(): InitRecords.Method {
    InitRecords.Method("Foo", [], "Object", "make_instance_of", "Foo_class_make_instance_of_0", [], 0, [], [], [])
  }

  lemma SelectorHasBothMarks()
    ensures var selector := MakeSelector("Foo", OfClass, "make_instance_of", "0");
            && selector == "Foo_class_make_instance_of_0"
            && Contains(selector, CLASS_MARK) && Contains(selector, INSTANCE_MARK)
  {
    var selector := MakeSelector("Foo", OfClass, "make_instance_of", "0");
    assert selector == "Foo_class_make_instance_of_0";
    assert selector[14..24] == INSTANCE_MARK;
    assert MatchesAt(selector, INSTANCE_MARK, 14);
  }
}
