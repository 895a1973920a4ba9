/** output_pre_method of src/premethod.c and load_cached_class of src/preclass.c: the mutually recursive walk that
    outputs a cached method after everything it needs. */
module Emitter {
  import opened CStrings
  import opened MethodSource
  import opened ClassRecords
  import opened DefinedVars
  import opened EmitTrace
  import opened EmitState
  import opened CallGraph
  import InitFiles

  method ReadFile(contents: string) returns (buf: array<char>)
    ensures fresh(buf) && buf[..] == contents
  {
    buf := new char[|contents|](i requires 0 <= i < |contents| => contents[i]);
  }

  class CacheEmitter {
    const cache: Cache
    var selectorsOutput: set<string>
    var classesOutput: set<string>
    var varsOutput: set<string>
    var classInitInfo: ClassInfo
    var output: Output
    ghost var open: set<string>

    ghost function View(): State
      reads this
    {
      State(selectorsOutput, classesOutput, open, varsOutput, output)
    }

    ghost predicate Inv()
      reads this
    {
      CacheOk(cache) && Good(cache, View())
    }

    ghost function Remaining(): nat
      reads this
    {
      Left(cache, classesOutput)
    }

    constructor (c: Cache)
      requires CacheOk(c)
      ensures Inv() && cache == c && View() == State({}, {}, {}, {}, Nothing)
    {
      cache := c;
      selectorsOutput, classesOutput, open, varsOutput, output := {}, {}, {}, {}, Nothing;
      classInitInfo := EMPTY;
    }

    // ---------- Calls from outside ----------

    /** One call from outside, when no class is half loaded and what is needed has no cycle of calls: outputs what the
        request needs, all of it and nothing else, with all its variables. What the source of a method names is all
        there in the end exactly when it has a method call, or it was there before. */
    method Serve(r: Request)
      requires Inv() && open == {} && RequestOk(cache, r) && Acyclic(cache, Reach(cache, Wanted(r)).methods)
      modifies this
      ensures Inv() && open == {} && Begins(old(output), output)
      ensures selectorsOutput == old(selectorsOutput) + Reach(cache, Wanted(r)).methods
      ensures classesOutput == old(classesOutput) + Reach(cache, Wanted(r)).classes
      ensures varsOutput == Owed(cache, selectorsOutput, classesOutput - cache.loaded)
      ensures r.Output? ==>
                var src := cache.methods[r.selector];
                && (NamedClasses(src) - cache.loaded <= classesOutput <==>
                    HasCalls(src) || NamedClasses(src) - cache.loaded <= old(classesOutput))
                && (NamedMethods(src) <= selectorsOutput <==>
                    HasCalls(src) || NamedMethods(src) <= old(selectorsOutput) + {r.selector})
    {
      hide Good, Closed, CacheOk, RankOk, Reach, Owed, Acyclic, NamedClasses, NamedMethods, HasCalls;
      ghost var before, w := View(), Reach(cache, Wanted(r));
      ReachIsClosed(cache, Wanted(r));
      ghost var rank := AcyclicIsRanked(cache, w);
      match r {
        case Output(selector) => CacheMethodSrcToOutput(selector, w, rank);
        case Load(classname) => LoadCachedClass(classname, w, rank);
      }
      ExactlyWhatIsNeeded(cache, Wanted(r), before, View());
      VarsAreOwed(cache, View());
      if r.Output? {
        NamedClassesAreLoaded(cache, before, View(), r.selector);
        NamedMethodsAreOutput(cache, before, View(), r.selector);
      }
    }

    /** Any run of calls: what has been output in the end depends on what was asked for, and not on the order. */
    method ServeAll(rs: seq<Request>)
      requires Inv() && open == {} && forall i | 0 <= i < |rs| :: RequestOk(cache, rs[i])
      requires Acyclic(cache, Reach(cache, AllWanted(rs)).methods)
      modifies this
      ensures Inv() && open == {}
      ensures selectorsOutput == old(selectorsOutput) + Reach(cache, AllWanted(rs)).methods
      ensures classesOutput == old(classesOutput) + Reach(cache, AllWanted(rs)).classes
      ensures varsOutput == Owed(cache, selectorsOutput, classesOutput - cache.loaded)
    {
      hide Good, CacheOk, Reach, RequestOk, AllWanted, Wanted, Owed, Acyclic, NamedClasses, NamedMethods, HasCalls;
      var i := 0;
      ghost var before := View();
      ReachOfNone(cache, rs);
      while i < |rs|
        invariant 0 <= i <= |rs| && Inv() && open == {}
        invariant selectorsOutput == before.selectors + Reach(cache, AllWanted(rs[..i])).methods
        invariant classesOutput == before.classes + Reach(cache, AllWanted(rs[..i])).classes
      {
        EachReachesLess(cache, rs, i);
        FewerAreAcyclic(cache, Reach(cache, Wanted(rs[i])).methods, Reach(cache, AllWanted(rs)).methods);
        Serve(rs[i]);
        ReachOfOneMore(cache, rs, i);
        i := i + 1;
      }
      assert rs[..|rs|] == rs;
      VarsAreOwed(cache, View());
    }

    // ---------- Variables ----------

    /** generate_define_instance_variable_call and generate_define_class_variable_call, for one variable after the
        other: a variable that the table has is passed over. */
    method DefineVariables(vars: seq<VarInit>)
      modifies this`varsOutput, this`output
      ensures output == AddVars(old(output), Fresh(vars, old(varsOutput)))
      ensures varsOutput == old(varsOutput) + KeysOf(vars)
    {
      hide AddVars, Fresh, KeysOf, VarKey;
      var i := 0;
      ghost var before, keys := output, varsOutput;
      NoVars(before, keys);
      assert vars[..0] == [];
      while i < |vars|
        invariant 0 <= i <= |vars|
        invariant output == AddVars(before, Fresh(vars[..i], keys)) && varsOutput == keys + KeysOf(vars[..i])
      {
        assert vars[..i + 1] == vars[..i] + [vars[i]];
        KeysOfOneMore(vars[..i], vars[i]);
        FreshOneMore(vars[..i], vars[i], keys);
        if VarKey(vars[i]) !in varsOutput {
          AddOneVar(before, Fresh(vars[..i], keys), vars[i]);
          varsOutput := varsOutput + {VarKey(vars[i])};
          output := Then(output, VarDef(vars[i]));
        }
        i := i + 1;
      }
      assert vars[..i] == vars;
    }

    /** What register_init does for the variables of a method's ".init" file. */
    method RegisterVariables(selector: string)
      requires CacheOk(cache) && selector in cache.methods
      modifies this`varsOutput, this`output
      ensures output == AddVars(old(output), Fresh(InitVars(cache, selector), old(varsOutput)))
      ensures varsOutput == old(varsOutput) + KeysOf(InitVars(cache, selector))
    {
      hide CacheOk, InitVars, AddVars, Fresh, KeysOf;
      InitFile(cache, selector);
      var parsed := InitFiles.FillInInitInfo(cache.initFiles[selector], true);
      DefineVariables(VarsOf(parsed.info.varCalls));
    }

    /** Marks a method, outputs its source and registers it. */
    method Emit(selector: string, src: array<char>, ghost w: Scope)
      requires Inv() && selector in cache.methods && selector !in selectorsOutput && selector in w.methods
      requires src[..] == OutputText(cache.methods[selector])
      requires Deps(cache, selector) <= selectorsOutput && Constructed(cache, selector) <= classesOutput
      modifies this
      ensures Inv() && Step(w, old(View()), View()) && selector in selectorsOutput
      ensures classesOutput == old(classesOutput)
    {
      hide CacheOk, Deps, Constructed, OutputText, KeysOf, InitVars, Fresh, AddVars;
      ghost var ready := View();
      EmitMethod(cache, ready, selector);
      EmitStep(cache, w, ready, selector);
      selectorsOutput := selectorsOutput + {selector};
      output := Then(output, MethodDef(selector, src[..]));
      RegisterVariables(selector);
    }

    // ---------- Methods ----------

    /** Reads a method's source from its cache file and outputs it. */
    method CacheMethodSrcToOutput(selector: string, ghost w: Scope, ghost rank: map<string, nat>)
      requires Inv() && selector in cache.methods && Bounded(cache, rank, w) && selector in w.methods
      modifies this
      ensures Inv() && Step(w, old(View()), View()) && selector in selectorsOutput
      decreases Remaining(), RankOf(rank, selector) + 1, 3
    {
      hide Good, Bounded, CacheOk;
      var srcbuf := ReadFile(cache.methods[selector]);
      OutputPreMethod(selector, srcbuf, w, rank);
    }

    method OutputPreMethod(selector: string, src: array<char>, ghost w: Scope, ghost rank: map<string, nat>)
      requires Inv() && selector in cache.methods && src[..] == cache.methods[selector]
      requires Bounded(cache, rank, w) && selector in w.methods
      modifies this, src
      ensures Inv() && Step(w, old(View()), View()) && selector in selectorsOutput
      decreases Remaining(), RankOf(rank, selector) + 1, 2
    {
      hide Good, Bounded, CacheOk, RankOf, Deps, Constructed, OutputText;
      if selector in selectorsOutput { return; }
      if FindStr(src[..], METHOD_CALL, 0).None? {
        WithoutCalls(cache, selector);
        Emit(selector, src, w);
      } else {
        OutputWithDependencies(selector, src, w, rank);
      }
    }

    method OutputWithDependencies(selector: string, src: array<char>, ghost w: Scope, ghost rank: map<string, nat>)
      requires Inv() && selector in cache.methods && src[..] == cache.methods[selector]
      requires HasCalls(cache.methods[selector]) && Bounded(cache, rank, w) && selector in w.methods
      modifies this, src
      ensures Inv() && Step(w, old(View()), View()) && selector in selectorsOutput
      decreases Remaining(), RankOf(rank, selector) + 1, 1
    {
      hide Good, Step, Bounded, CacheOk, Deps, Constructed, Names, Fixups, Elided, OutputText, HasCalls,
        RankOf, Left;
      ghost var started := View();
      LoadConstructedClasses(selector, w, rank);
      ghost var loaded := View();
      StepGrows(cache, w, started, loaded);
      OutputCallees(selector, w, rank);
      ghost var called := View();
      StepTrans(w, started, loaded, called);
      StepGrows(cache, w, loaded, called);
      OutputFixups(selector, src, w, rank);
      StepTrans(w, started, called, View());
      StepGrows(cache, w, called, View());
      WithCalls(cache, selector);
      DepsAreOutput(cache, selector, selectorsOutput);
      if selector !in selectorsOutput {
        ghost var ready := View();
        Emit(selector, src, w);
        StepTrans(w, started, ready, View());
      }
    }

    /** The first loop: loads the classes the method constructs. */
    method LoadConstructedClasses(selector: string, ghost w: Scope, ghost rank: map<string, nat>)
      requires Inv() && selector in cache.methods && HasCalls(cache.methods[selector])
      requires Bounded(cache, rank, w) && selector in w.methods
      modifies this
      ensures Inv() && Step(w, old(View()), View()) && Constructed(cache, selector) <= classesOutput
      decreases Remaining(), RankOf(rank, selector) + 1, 0
    {
      hide Good, Step, Bounded, CacheOk, Deps, Constructed, Names, NamesOk, NextName, HasCalls, RankOf, Left;
      var src, o := cache.methods[selector], 0;
      ghost var started, names := View(), Names(src, 0, Construct);
      WithCalls(cache, selector);
      StepRefl(w, started);
      while true
        invariant 0 <= o <= |src| && NamesOk(src, o, Construct) && Inv() && Step(w, started, View())
        invariant Names(src, o, Construct) <= names
        invariant names - cache.loaded <= classesOutput + Names(src, o, Construct)
        decreases |src| - o
      {
        NamesStep(src, o, Construct);
        match NextName(src, o, Construct)
        case NoMore => break;
        case Found(name, next) =>
          if name !in cache.loaded {
            ghost var before := View();
            ConstructedClass(cache, rank, w, selector, name);
            StepGrows(cache, w, started, View());
            LoadCachedClass(name, w, rank);
            StepGrows(cache, w, before, View());
            StepTrans(w, started, before, View());
          }
          o := next;
      }
    }

    /** The second loop: outputs the methods it calls. */
    method OutputCallees(selector: string, ghost w: Scope, ghost rank: map<string, nat>)
      requires Inv() && selector in cache.methods && HasCalls(cache.methods[selector])
      requires Bounded(cache, rank, w) && selector in w.methods
      modifies this
      ensures Inv() && Step(w, old(View()), View())
      ensures Names(cache.methods[selector], 0, Call) <= selectorsOutput
      decreases Remaining(), RankOf(rank, selector) + 1, 0
    {
      hide Good, Step, Bounded, CacheOk, Deps, Constructed, Names, NamesOk, NextName, HasCalls, RankOf, Left;
      var src, o := cache.methods[selector], 0;
      ghost var started, names := View(), Names(src, 0, Call);
      WithCalls(cache, selector);
      StepRefl(w, started);
      while true
        invariant 0 <= o <= |src| && NamesOk(src, o, Call) && Inv() && Step(w, started, View())
        invariant Names(src, o, Call) <= names <= selectorsOutput + Names(src, o, Call)
        decreases |src| - o
      {
        NamesStep(src, o, Call);
        match NextName(src, o, Call)
        case NoMore => break;
        case Found(name, next) =>
          if name !in selectorsOutput {
            ghost var before := View();
            Callee(cache, rank, w, selector, name);
            StepGrows(cache, w, started, View());
            CacheMethodSrcToOutput(name, w, rank);
            StepGrows(cache, w, before, View());
            StepTrans(w, started, before, View());
          }
          o := next;
      }
    }

    /** The third loop: outputs the methods it has fixups for, and blanks out their markers. */
    method OutputFixups(selector: string, src: array<char>, ghost w: Scope, ghost rank: map<string, nat>)
      requires Inv() && selector in cache.methods && HasCalls(cache.methods[selector])
      requires src[..] == cache.methods[selector] && Bounded(cache, rank, w) && selector in w.methods
      modifies this, src
      ensures Inv() && Step(w, old(View()), View())
      ensures src[..] == Elided(cache.methods[selector], 0)
      ensures forall f | f in Fixups(cache.methods[selector], 0) :: f in selectorsOutput
      decreases Remaining(), RankOf(rank, selector) + 1, 0
    {
      hide Good, Step, Bounded, CacheOk, Deps, Constructed, Fixups, FixupsOk, Elided, NextFixup, BlankOut,
        HasCalls, RankOf, Left;
      var o := 0;
      ghost var started, text := View(), src[..];
      WithCalls(cache, selector);
      StepRefl(w, started);
      while true
        invariant 0 <= o <= src.Length && FixupsOk(src[..], o) && Elided(src[..], o) == Elided(text, 0)
        invariant Inv() && Step(w, started, View())
        invariant forall f | f in Fixups(src[..], o) :: f in Fixups(text, 0)
        invariant forall f | f in Fixups(text, 0) :: f in selectorsOutput || f in Fixups(src[..], o)
        decreases src.Length - o
      {
        FixupsStep(src[..], o);
        match NextFixup(src[..], o)
        case NoFixup => break;
        case Fixup(name, hash, newline, next) =>
          if name !in selectorsOutput {
            ghost var before := View();
            Callee(cache, rank, w, selector, name);
            StepGrows(cache, w, started, View());
            CacheMethodSrcToOutput(name, w, rank);
            StepGrows(cache, w, before, View());
            StepTrans(w, started, before, View());
          }
          ElideFixupMarker(src, hash, newline);
          o := next;
      }
    }

    // ---------- Classes ----------

    /** load_cached_class: the class is marked before its methods are looked at, so that a method which constructs
        it again does not load it again. */
    method LoadCachedClass(classname: string, ghost w: Scope, ghost rank: map<string, nat>)
      requires Inv() && classname in cache.classFiles && Bounded(cache, rank, w) && classname in w.classes
      modifies this
      ensures Inv() && Step(w, old(View()), View()) && classname in classesOutput
      ensures classname !in cache.loaded ==> KeysOf(InfoOf(cache, classname).vars) <= varsOutput
      ensures classname !in old(classesOutput) && classname !in cache.loaded ==>
                Begins(WithBlock(cache, old(output), ClassEvent(cache, classname)), output)
      decreases Remaining(), 0, 2
    {
      hide Good, Bounded, CacheOk, Members, InfoOf, Parse, WithBlock, Left, KeysOf;
      if classname in classesOutput {
        if classname !in cache.loaded { ClassIsDefined(cache, View(), classname); }
        return;
      }
      ghost var before := View();
      classesOutput := classesOutput + {classname};
      if classname in cache.loaded {
        MarkLoaded(cache, before, classname);
        return;
      }
      ClassFile(cache, classname);
      var parsed := FillInClassInfo(cache.classFiles[classname]);
      classInitInfo := parsed.info;
      open := open + {classname};
      OneFewerLeft(cache, before.classes, classname);
      GenerateInitFromCache(before, w, rank);
      CloseClass(cache, View(), classname);
      CloseStep(cache, w, before, classname, View());
      open := open - {classname};
      ClassIsDefined(cache, View(), classname);
    }

    /** generate_init_from_cache: outputs the class that was read last, those of its variables that are not defined
        yet, and then its methods. */
    method GenerateInitFromCache(ghost before: State, ghost w: Scope, ghost rank: map<string, nat>)
      requires CacheOk(cache) && Good(cache, before) && Bounded(cache, rank, w)
      requires var k := classInitInfo.classname;
               && k in cache.classFiles && classInitInfo == InfoOf(cache, k) && k in w.classes
               && k !in before.classes && k !in cache.loaded
               && View() == before.(classes := before.classes + {k}, open := before.open + {k})
      modifies this
      ensures Inv() && Step(w, Opened(cache, before, old(classInitInfo.classname)), View())
      ensures Members(cache, old(classInitInfo.classname)) <= selectorsOutput
      decreases Remaining() + 1, 0, 1
    {
      hide Bounded, CacheOk, Members, InfoOf, Left, AddVars, Fresh, KeysOf, OutputOk, Complete,
        MethodsClosed, ClassesClosed;
      var k := classInitInfo.classname;
      output := Then(output, ClassDef(classInitInfo.classname, classInitInfo.superclassname));
      DefineVariables(classInitInfo.vars);
      OpenClass(cache, before, k);
      assert View() == Opened(cache, before, k);
      if k in cache.prototypes {
        OutputMembers(k, cache.prototypes[k], w, rank);
      } else {
        MembersAreOutput(cache, k, selectorsOutput);
      }
    }

    /** The loop over the prototypes of a class: outputs those that have a cache file. */
    method OutputMembers(k: string, protos: seq<string>, ghost w: Scope, ghost rank: map<string, nat>)
      requires Inv() && Bounded(cache, rank, w)
      requires k in w.classes && k !in cache.loaded && k in cache.prototypes && protos == cache.prototypes[k]
      modifies this
      ensures Inv() && Step(w, old(View()), View()) && Members(cache, k) <= selectorsOutput
      decreases Remaining() + 1, 0, 0
    {
      hide Good, Step, Bounded, CacheOk, Members, RankOf, Left;
      var j := 0;
      ghost var started := View();
      StepRefl(w, started);
      while j < |protos|
        invariant 0 <= j <= |protos| && Inv() && Step(w, started, View())
        invariant forall i | 0 <= i < j && protos[i] in cache.methods :: protos[i] in selectorsOutput
      {
        if protos[j] in cache.methods {
          ghost var before := View();
          Member(cache, rank, w, k, protos[j]);
          StepGrows(cache, w, started, View());
          var buf := ReadFile(cache.methods[protos[j]]);
          OutputPreMethod(protos[j], buf, w, rank);
          StepGrows(cache, w, before, View());
          StepTrans(w, started, before, View());
        }
        j := j + 1;
      }
      MembersAreOutput(cache, k, selectorsOutput);
    }
  }
}
