/** What is defined again, at run time, of a method whose ".init" file src/premethod.c has written: said of the method
    itself, whatever is in the file. */
module MethodDefinitions {
  import opened CStrings
  import opened CacheLines
  import opened InitRecords
  import opened InitRoundTrip
  import opened RegisterInit
  import opened DefinedVars
  import InitCache
  import ClassRecords

  // ---------- The definitions of a method ----------

  /** A variable, unless it is named "value": of the class of the value it has, if it has one, and with its text. */
  function VariableDefs(m: Method, vars: seq<Variable>, tag: char): seq<Definition> {
    if vars == [] then []
    else if vars[0].name == "value" then VariableDefs(m, vars[1..], tag)
    else
      var v := vars[0];
      var class_ := if v.valueClass.Some? then v.valueClass.value else v.ownClass;
      [DefVariable(VarCall(tag, m.classname, v.name, class_, if v.value == "" then "(null)" else v.value))] +
      VariableDefs(m, vars[1..], tag)
  }

  function BlockDefs(m: Method, selectors: seq<string>): seq<Definition> {
    if selectors == [] then []
    else [DefMethod(OfInstances, m.classname, selectors[0], selectors[0], 0, 0)] + BlockDefs(m, selectors[1..])
  }

  /** A parameter, unless it is a C value. */
  function ParameterDefs(m: Method, kind: Kind, params: seq<Param>): seq<Definition> {
    if params == [] then []
    else if params[0].isC then ParameterDefs(m, kind, params[1..])
    else
      var p := params[0];
      [DefParameter(kind, m.selector, ParamInit(m.classname, m.name, p.name, p.classname, if p.isPtr then 1 else 0,
                                                if p.isPtrPtr then 1 else 0))] +
      ParameterDefs(m, kind, params[1..])
  }

  /** A class method is defined without its attributes, and its result without the selector. */
  function DefinitionsOf(m: Method, kind: Kind): seq<Definition> {
    var ofInstances := kind == OfInstances;
    VariableDefs(m, m.instanceVars, 'i') + VariableDefs(m, m.classVars, 'c') + BlockDefs(m, m.argblks) +
    [DefMethod(kind, m.classname, m.name, m.selector, |m.params|, if ofInstances then m.attrs else 0),
     DefReturn(kind, m.classname, m.name, if ofInstances then m.selector else "", m.returnclass, |m.params|)] +
    ParameterDefs(m, kind, m.params)
  }

  lemma {:induction false} VariablesConcat(a: seq<VarCall>, b: seq<VarCall>)
    ensures RegisterInit.Variables(a + b) == RegisterInit.Variables(a) + RegisterInit.Variables(b)
    decreases |a|
  {
    if a == [] {
      assert a + b == b;
    } else {
      assert (a + b)[1..] == a[1..] + b;
      VariablesConcat(a[1..], b);
    }
  }

  lemma {:induction false} VariablesAre(m: Method, vars: seq<Variable>, tag: char)
    ensures RegisterInit.Variables(VarCalls(tag, m, vars)) == VariableDefs(m, vars, tag)
    decreases |vars|
  {
    if vars == [] {
    } else {
      VariablesAre(m, vars[1..], tag);
      if vars[0].name != "value" {
        VariablesConcat([VarCallOf(tag, m, vars[0])], VarCalls(tag, m, vars[1..]));
      }
    }
  }

  lemma {:induction false} FirstBlock(a: ArgblkInit, rest: seq<ArgblkInit>)
    ensures Blocks([a] + rest) == [BlockDef(a)] + Blocks(rest)
    decreases |rest|
  {
    var all := [a] + rest;
    if rest == [] {
      assert all[..0] == [] && Blocks(all) == Blocks(all[..0]) + [BlockDef(a)];
    } else {
      var n := |rest| - 1;
      FirstBlock(a, rest[..n]);
      assert all[..n + 1] == [a] + rest[..n];
    }
  }

  lemma {:induction false} BlocksAre(m: Method, selectors: seq<string>)
    ensures Blocks(ArgblkInits(m, selectors)) == BlockDefs(m, selectors)
    decreases |selectors|
  {
    if selectors == [] {
    } else {
      BlocksAre(m, selectors[1..]);
      FirstBlock(ArgblkInit(m.classname, "Object", selectors[0], selectors[0]), ArgblkInits(m, selectors[1..]));
    }
  }

  lemma {:induction false} FirstParameter(kind: Kind, selector: string, p: ParamInit, rest: seq<ParamInit>)
    ensures Parameters(kind, selector, [p] + rest) ==
            [DefParameter(kind, selector, p)] + Parameters(kind, selector, rest)
    decreases |rest|
  {
    var all := [p] + rest;
    if rest == [] {
      assert all[..0] == [];
    } else {
      var n := |rest| - 1;
      FirstParameter(kind, selector, p, rest[..n]);
      assert all[..n + 1] == [p] + rest[..n];
    }
  }

  lemma {:induction false} ParametersAre(m: Method, kind: Kind, params: seq<Param>)
    ensures Parameters(kind, m.selector, ParamInits(m, params)) == ParameterDefs(m, kind, params)
    decreases |params|
  {
    if params == [] {
    } else {
      ParametersAre(m, kind, params[1..]);
      if !params[0].isC {
        FirstParameter(kind, m.selector, ParamInitOf(m, params[0]), ParamInits(m, params[1..]));
      }
    }
  }

  lemma DefinitionsAre(m: Method, kind: Kind)
    ensures Definitions(kind, Expected(m, true)) == DefinitionsOf(m, kind)
  {
    hide RegisterInit.Variables, VarCalls, VariableDefs, Blocks, ArgblkInits, BlockDefs, Parameters, ParamInits,
         ParameterDefs;
    VariablesConcat(VarCalls('i', m, m.instanceVars), VarCalls('c', m, m.classVars));
    VariablesAre(m, m.instanceVars, 'i');
    VariablesAre(m, m.classVars, 'c');
    BlocksAre(m, m.argblks);
    ParametersAre(m, kind, m.params);
  }

  /** From the file of a method with clean names and values, what is registered is the method as it was, with its
      variables, blocks and parameters, exactly if its selector does not mistake its kind. */
  lemma MethodIsDefinedAgain(m: Method, kind: Kind)
    requires InitCache.NamesClean(m) && InitCache.ValuesClean(m.instanceVars) && InitCache.ValuesClean(m.classVars)
    requires Contains(m.selector, Mark(kind))
    ensures var parsed := Parse(Text(Records(m)), true);
            && parsed.Parsed?
            && (Registered(parsed.info) == DefinitionsOf(m, kind) <==>
                || kind == OfInstances
                || (&& !Contains(m.selector, "_instance_")
                    && ((forall p <- m.params :: p.isC) || !Contains(m.selector, "instance"))))
  {
    hide Registered, Definitions, DefinitionsOf, Parse, Text, Records, Expected, Contains, InitCache.NamesClean,
         InitCache.ValuesClean;
    RegisteredAsWritten(m, kind);
    DefinitionsAre(m, kind);
    OnlyCParams(m, m.params);
    assert Expected(m, true).selectorname == m.selector by { SelectorIsExpected(m); }
  }

  lemma SelectorIsExpected(m: Method)
    ensures Expected(m, true).selectorname == m.selector
  {
  }

  lemma {:induction false} OnlyCParams(m: Method, params: seq<Param>)
    ensures ParamInits(m, params) == [] <==> forall p <- params :: p.isC
    decreases |params|
  {
    if params == [] {
    } else {
      OnlyCParams(m, params[1..]);
      assert params == [params[0]] + params[1..];
    }
  }

  // ---------- The variables of a class ----------

  /** The variables of a class, as the table of the emitter has them. */
  function TableVars(m: Method, vars: seq<Variable>, kind: ClassRecords.VarKind): seq<ClassRecords.VarInit> {
    if vars == [] then []
    else if vars[0].name == "value" then TableVars(m, vars[1..], kind)
    else
      var v := vars[0];
      var class_ := if v.valueClass.Some? then v.valueClass.value else v.ownClass;
      [ClassRecords.VarInit(m.classname, v.name, class_, if v.value == "" then "(null)" else v.value, kind)] +
      TableVars(m, vars[1..], kind)
  }

  lemma VarsConcat(a: seq<VarCall>, b: seq<VarCall>)
    ensures VarsOf(a + b) == VarsOf(a) + VarsOf(b)
  {
  }

  lemma {:induction false} TableVarsAre(m: Method, vars: seq<Variable>, tag: char)
    requires tag == 'i' || tag == 'c'
    ensures VarsOf(VarCalls(tag, m, vars)) ==
            TableVars(m, vars, if tag == 'i' then ClassRecords.InstanceVar else ClassRecords.ClassVar)
    decreases |vars|
  {
    hide VarsOf;
    VarsConcat([], []);
    if vars == [] {
    } else {
      TableVarsAre(m, vars[1..], tag);
      VarsConcat([VarCallOf(tag, m, vars[0])], VarCalls(tag, m, vars[1..]));
      OneVar(VarCallOf(tag, m, vars[0]));
    }
  }

  lemma OneVar(call: VarCall)
    ensures VarsOf([call]) == [VarOf(call)]
  {
  }

  /** The file of each method of a class has all variables of the class, instance variables as such and class variables
      as such. */
  lemma FileHasVariables(m: Method)
    requires InitCache.NamesClean(m) && InitCache.ValuesClean(m.instanceVars) && InitCache.ValuesClean(m.classVars)
    ensures var parsed := Parse(Text(Records(m)), true);
            && parsed.Parsed?
            && VarsOf(parsed.info.varCalls) ==
               TableVars(m, m.instanceVars, ClassRecords.InstanceVar) + TableVars(m, m.classVars, ClassRecords.ClassVar)
  {
    hide Parse, Text, Records, VarsOf, InitCache.NamesClean, InitCache.ValuesClean, VarCalls, TableVars;
    InitCache.InitFileRoundTrip(m);
    TableVarsAre(m, m.instanceVars, 'i');
    TableVarsAre(m, m.classVars, 'c');
    VarsConcat(VarCalls('i', m, m.instanceVars), VarCalls('c', m, m.classVars));
  }

  /** A variable has the same key there as in the ".class" file, whatever either says of its class and its value. */
  lemma {:induction false} OneKey(m: Method, vars: seq<Variable>, kind: ClassRecords.VarKind, i: nat,
                                  d: ClassRecords.VarDecl)
    requires i < |TableVars(m, vars, kind)| && d.kind == kind && d.varname == TableVars(m, vars, kind)[i].varname
    ensures VarKey(TableVars(m, vars, kind)[i]) == VarKey(ClassRecords.Declared(m.classname, d))
    decreases |vars|
  {
    if vars[0].name == "value" {
      OneKey(m, vars[1..], kind, i, d);
    } else if i > 0 {
      OneKey(m, vars[1..], kind, i - 1, d);
    }
  }
}
