/** The emitter's tables and what must hold of them between two calls: the tables agree with the output, and
    everything an emitted method or a loaded class needs is there, apart from classes still being loaded. */
module EmitState {
  import opened MethodSource
  import opened ClassRecords
  import opened DefinedVars
  import opened EmitTrace
  import InitRecords

  /** selectors_output and classes_output, the classes whose loading has begun but not ended, the keys in
      class_and_instance_vars_output, and the output. */
  datatype State = State(selectors: set<string>, classes: set<string>, open: set<string>, vars: set<string>,
                         output: Output)

  datatype Scope = Scope(methods: set<string>, classes: set<string>)

  // ---------- The invariant ----------

  ghost predicate MethodsClosed(c: Cache, selectors: set<string>, classes: set<string>) {
    forall s | s in selectors :: s in c.methods && Deps(c, s) <= selectors && Constructed(c, s) <= classes
  }

  ghost predicate ClassesClosed(c: Cache, classes: set<string>, selectors: set<string>) {
    forall k | k in classes && k !in c.loaded :: Members(c, k) <= selectors
  }

  ghost predicate Good(c: Cache, st: State) {
    && st.open <= st.classes <= c.classFiles.Keys
    && OutputOk(c, st.output) && Complete(c, st.output)
    && Emitted(st.output) == st.selectors && Defined(st.output) == st.classes - c.loaded
    && Written(st.output) == st.vars
    && MethodsClosed(c, st.selectors, st.classes)
    && ClassesClosed(c, st.classes - st.open, st.selectors)
  }

  // ---------- The steps ----------

  function MethodEvent(c: Cache, s: string): Event
    requires s in c.methods
  {
    MethodDef(s, OutputText(c.methods[s]))
  }

  function ClassEvent(c: Cache, k: string): Event {
    ClassDef(k, InfoOf(c, k).superclassname)
  }

  function WithMethod(c: Cache, st: State, s: string): State
    requires s in c.methods
  {
    State(st.selectors + {s}, st.classes, st.open, st.vars + KeysOf(InitVars(c, s)),
          WithBlock(c, st.output, MethodEvent(c, s)))
  }

  lemma EmitMethod(c: Cache, st: State, s: string)
    requires Good(c, st) && s in c.methods && s !in st.selectors
    requires Deps(c, s) <= st.selectors && Constructed(c, s) <= st.classes
    ensures Good(c, WithMethod(c, st, s))
  {
    var head := MethodEvent(c, s);
    assert Constructed(c, s) !! c.loaded;
    WithBlockOk(c, st.output, head);
    AddVarsAre(st.output, head, Due(c, st.output, head));
  }

  lemma MarkLoaded(c: Cache, st: State, k: string)
    requires Good(c, st) && k in c.classFiles && k in c.loaded
    ensures Good(c, st.(classes := st.classes + {k}))
  {
  }

  function Opened(c: Cache, st: State, k: string): State {
    State(st.selectors, st.classes + {k}, st.open + {k}, st.vars + KeysOf(InfoOf(c, k).vars),
          WithBlock(c, st.output, ClassEvent(c, k)))
  }

  lemma OpenClass(c: Cache, st: State, k: string)
    requires Good(c, st) && k in c.classFiles && k !in st.classes && k !in c.loaded
    ensures Good(c, Opened(c, st, k))
  {
    var head := ClassEvent(c, k);
    WithBlockOk(c, st.output, head);
    AddVarsAre(st.output, head, Due(c, st.output, head));
    assert st.classes + {k} - (st.open + {k}) == st.classes - st.open;
    assert st.classes + {k} - c.loaded == st.classes - c.loaded + {k};
  }

  lemma CloseClass(c: Cache, st: State, k: string)
    requires Good(c, st) && k in st.open && Members(c, k) <= st.selectors
    ensures Good(c, st.(open := st.open - {k}))
  {
  }

  /** The variables that have been defined are those of the methods and classes that have been output. */
  lemma VarsAreOwed(c: Cache, st: State)
    requires Good(c, st)
    ensures st.vars == Owed(c, st.selectors, st.classes - c.loaded)
  {
    WrittenIsOwed(c, st.output);
  }

  /** So all variables of a class that has been loaded are defined. */
  lemma ClassIsDefined(c: Cache, st: State, k: string)
    requires Good(c, st) && k in st.classes && k !in c.loaded
    ensures KeysOf(InfoOf(c, k).vars) <= st.vars
  {
    VarsAreOwed(c, st);
  }

  /** A class that is loaded when a method of its own has defined its variables is followed by none of them. */
  lemma LoadedAfterMethod(c: Cache, st: State, s: string, k: string)
    requires Good(c, st) && s in st.selectors && KeysOf(InfoOf(c, k).vars) <= KeysOf(InitVars(c, s))
    ensures WithBlock(c, st.output, ClassEvent(c, k)) == Then(st.output, ClassEvent(c, k))
  {
    VarsAreOwed(c, st);
    NoVariablesFollow(c, st.output, ClassEvent(c, k));
  }

  // ---------- What a call adds ----------

  /** From one state to a later one with nothing added from outside the scope. */
  predicate Step(w: Scope, a: State, b: State) {
    && a.selectors <= b.selectors <= a.selectors + w.methods
    && a.classes <= b.classes <= a.classes + w.classes
    && a.open == b.open && a.vars <= b.vars && Begins(a.output, b.output)
  }

  lemma StepRefl(w: Scope, a: State)
    ensures Step(w, a, a)
  {
  }

  lemma StepTrans(w: Scope, a: State, b: State, d: State)
    requires Step(w, a, b) && Step(w, b, d)
    ensures Step(w, a, d)
  {
    BeginsTrans(a.output, b.output, d.output);
  }

  lemma WithBlockBegins(c: Cache, b: Output, head: Event)
    requires !head.VarDef?
    ensures Begins(b, WithBlock(c, b, head))
  {
    AddVarsAre(b, head, Due(c, b, head));
    BeginsTrans(b, Then(b, head), WithBlock(c, b, head));
  }

  lemma EmitStep(c: Cache, w: Scope, st: State, s: string)
    requires s in c.methods && s in w.methods
    ensures Step(w, st, WithMethod(c, st, s))
  {
    WithBlockBegins(c, st.output, MethodEvent(c, s));
  }

  lemma CloseStep(c: Cache, w: Scope, before: State, k: string, st: State)
    requires Good(c, before) && k !in before.classes && k in w.classes && Step(w, Opened(c, before, k), st)
    ensures Step(w, before, st.(open := st.open - {k}))
    ensures Begins(WithBlock(c, before.output, ClassEvent(c, k)), st.output)
  {
    WithBlockBegins(c, before.output, ClassEvent(c, k));
    BeginsTrans(before.output, WithBlock(c, before.output, ClassEvent(c, k)), st.output);
    assert before.open + {k} - {k} == before.open;
  }

  // ---------- What is reachable ----------

  /** A scope that includes whatever its methods call and construct, and the methods of its classes. */
  ghost predicate Closed(c: Cache, w: Scope) {
    && (forall s | s in w.methods :: Deps(c, s) <= w.methods && Constructed(c, s) <= w.classes)
    && (forall k | k in w.classes && k !in c.loaded :: Members(c, k) <= w.methods)
  }

  ghost predicate Within(a: Scope, b: Scope) {
    a.methods <= b.methods && a.classes <= b.classes
  }

  /** Everything that must be output because of some methods and classes: what is in every closed scope that
      includes them. */
  ghost function Reach(c: Cache, from: Scope): Scope {
    Scope(
      set s | s in c.methods && (forall w | Closed(c, w) && Within(from, w) :: s in w.methods),
      set k | k in c.classFiles && (forall w | Closed(c, w) && Within(from, w) :: k in w.classes))
  }

  lemma ReachIsClosed(c: Cache, from: Scope)
    requires CacheOk(c) && from.methods <= c.methods.Keys && from.classes <= c.classFiles.Keys
    ensures Closed(c, Reach(c, from)) && Within(from, Reach(c, from))
  {
  }

  lemma ReachIsLeast(c: Cache, from: Scope, w: Scope)
    requires Closed(c, w) && Within(from, w)
    ensures Within(Reach(c, from), w)
  {
  }

  /** A call that leaves no class half loaded adds exactly what its method or class needs: all of it, and nothing
      else. */
  lemma {:induction false} ExactlyWhatIsNeeded(c: Cache, from: Scope, a: State, b: State)
    requires Good(c, a) && Good(c, b) && a.open == {} && Step(Reach(c, from), a, b)
    requires from.methods <= b.selectors && from.classes <= b.classes
    ensures b.selectors == a.selectors + Reach(c, from).methods
    ensures b.classes == a.classes + Reach(c, from).classes
  {
    var all := Scope(b.selectors, b.classes);
    assert b.classes - b.open == b.classes;
    assert Closed(c, all);
    ReachIsLeast(c, from, all);
  }

  /** A method without a method call needs nothing but itself. */
  lemma ReachWithoutCalls(c: Cache, s: string)
    requires s in c.methods && !HasCalls(c.methods[s])
    ensures Reach(c, Scope({s}, {})) == Scope({s}, {})
  {
    WithoutCalls(c, s);
    ReachIsLeast(c, Scope({s}, {}), Scope({s}, {}));
  }

  function Join(a: Scope, b: Scope): Scope {
    Scope(a.methods + b.methods, a.classes + b.classes)
  }

  lemma ReachGrows(c: Cache, a: Scope, b: Scope)
    requires Within(a, b)
    ensures Within(Reach(c, a), Reach(c, b))
  {
  }

  /** What is needed for two requests together is what is needed for each of them. */
  lemma {:induction false} ReachOfBoth(c: Cache, a: Scope, b: Scope)
    requires CacheOk(c) && a.methods + b.methods <= c.methods.Keys && a.classes + b.classes <= c.classFiles.Keys
    ensures Reach(c, Join(a, b)) == Join(Reach(c, a), Reach(c, b))
  {
    ReachIsClosed(c, a);
    ReachIsClosed(c, b);
    ReachGrows(c, a, Join(a, b));
    ReachGrows(c, b, Join(a, b));
    assert Closed(c, Join(Reach(c, a), Reach(c, b)));
    ReachIsLeast(c, Join(a, b), Join(Reach(c, a), Reach(c, b)));
  }

  lemma ReachOfNothing(c: Cache)
    ensures Reach(c, Scope({}, {})) == Scope({}, {})
  {
  }

  // ---------- Requests from outside ----------

  /** The calls made from elsewhere: to output a method, or to load a class. */
  datatype Request = Output(selector: string) | Load(classname: string)

  function Wanted(r: Request): Scope {
    match r
    case Output(s) => Scope({s}, {})
    case Load(k) => Scope({}, {k})
  }

  function AllWanted(rs: seq<Request>): Scope {
    if rs == [] then Scope({}, {}) else Join(AllWanted(rs[..|rs| - 1]), Wanted(rs[|rs| - 1]))
  }

  predicate RequestOk(c: Cache, r: Request) {
    match r
    case Output(s) => s in c.methods
    case Load(k) => k in c.classFiles
  }

  lemma OneMoreWanted(rs: seq<Request>, i: nat)
    requires i < |rs|
    ensures AllWanted(rs[..i + 1]) == Join(AllWanted(rs[..i]), Wanted(rs[i]))
  {
    assert rs[..i + 1][..i] == rs[..i];
  }

  lemma {:induction false} WantedIsThere(c: Cache, rs: seq<Request>, i: nat)
    requires i <= |rs| && forall k | 0 <= k < |rs| :: RequestOk(c, rs[k])
    ensures AllWanted(rs[..i]).methods <= c.methods.Keys && AllWanted(rs[..i]).classes <= c.classFiles.Keys
  {
    if i == 0 {
    } else {
      WantedIsThere(c, rs, i - 1);
      OneMoreWanted(rs, i - 1);
    }
  }

  lemma ReachOfOneMore(c: Cache, rs: seq<Request>, i: nat)
    requires CacheOk(c) && i < |rs| && forall k | 0 <= k < |rs| :: RequestOk(c, rs[k])
    ensures Reach(c, AllWanted(rs[..i + 1])) == Join(Reach(c, AllWanted(rs[..i])), Reach(c, Wanted(rs[i])))
  {
    WantedIsThere(c, rs, i);
    OneMoreWanted(rs, i);
    ReachOfBoth(c, AllWanted(rs[..i]), Wanted(rs[i]));
  }

  lemma {:induction false} WantedByAll(rs: seq<Request>, i: nat)
    requires i < |rs|
    ensures Within(Wanted(rs[i]), AllWanted(rs))
  {
    if i == |rs| - 1 {
    } else {
      WantedByAll(rs[..|rs| - 1], i);
    }
  }

  lemma EachReachesLess(c: Cache, rs: seq<Request>, i: nat)
    requires i < |rs|
    ensures Within(Reach(c, Wanted(rs[i])), Reach(c, AllWanted(rs)))
  {
    WantedByAll(rs, i);
    ReachGrows(c, Wanted(rs[i]), AllWanted(rs));
  }

  lemma ReachOfNone(c: Cache, rs: seq<Request>)
    ensures Reach(c, AllWanted(rs[..0])) == Scope({}, {})
  {
    ReachOfNothing(c);
  }

  // ---------- What an outermost call leaves out ----------

  /** After a call for a method, all classes that its source names are loaded, but for those pending or cached, if and
      only if it has a method call, or they were loaded before. */
  lemma NamedClassesAreLoaded(c: Cache, a: State, b: State, s: string)
    requires CacheOk(c) && s in c.methods && b.classes == a.classes + Reach(c, Scope({s}, {})).classes
    ensures NamedClasses(c.methods[s]) - c.loaded <= b.classes <==>
            HasCalls(c.methods[s]) || NamedClasses(c.methods[s]) - c.loaded <= a.classes
  {
    hide CacheOk, Reach, NamedClasses, HasCalls;
    if HasCalls(c.methods[s]) {
      ReachIsClosed(c, Scope({s}, {}));
      assert Constructed(c, s) <= Reach(c, Scope({s}, {})).classes;
    } else {
      ReachWithoutCalls(c, s);
      assert b.classes == a.classes;
    }
  }

  /** And all methods that it names are output if and only if it has a method call, or they were output before. */
  lemma NamedMethodsAreOutput(c: Cache, a: State, b: State, s: string)
    requires CacheOk(c) && s in c.methods && b.selectors == a.selectors + Reach(c, Scope({s}, {})).methods
    ensures NamedMethods(c.methods[s]) <= b.selectors <==>
            HasCalls(c.methods[s]) || NamedMethods(c.methods[s]) <= a.selectors + {s}
  {
    hide CacheOk, Reach, NamedMethods, HasCalls;
    if HasCalls(c.methods[s]) {
      ReachIsClosed(c, Scope({s}, {}));
      assert Deps(c, s) <= Reach(c, Scope({s}, {})).methods;
    } else {
      ReachWithoutCalls(c, s);
      assert b.selectors == a.selectors + {s};
    }
  }

  // ---------- What a sound cache says about one method or class ----------

  lemma InitFile(c: Cache, s: string)
    requires CacheOk(c) && s in c.methods
    ensures s in c.initFiles && s in c.inits
    ensures InitRecords.Parse(c.initFiles[s], true) == InitRecords.Parsed(c.inits[s])
    ensures InitVars(c, s) == VarsOf(c.inits[s].varCalls)
  {
    assert SourceOk(c, s);
  }

  lemma WithoutCalls(c: Cache, s: string)
    requires s in c.methods && !HasCalls(c.methods[s])
    ensures Deps(c, s) == {} && Constructed(c, s) == {} && OutputText(c.methods[s]) == c.methods[s]
  {
  }

  lemma WithCalls(c: Cache, s: string)
    requires CacheOk(c) && s in c.methods && HasCalls(c.methods[s])
    ensures var src := c.methods[s];
            && NamesOk(src, 0, Construct) && NamesOk(src, 0, Call) && FixupsOk(src, 0)
            && Constructed(c, s) == Names(src, 0, Construct) - c.loaded
            && OutputText(src) == Elided(src, 0)
  {
    assert SourceOk(c, s);
  }

  lemma DepsAreOutput(c: Cache, s: string, selectors: set<string>)
    requires s in c.methods && Names(c.methods[s], 0, Call) <= selectors
    requires forall f | f in Fixups(c.methods[s], 0) :: f in selectors
    ensures Deps(c, s) <= selectors
  {
  }

  lemma Callee(c: Cache, rank: map<string, nat>, w: Scope, s: string, t: string)
    requires CacheOk(c) && Bounded(c, rank, w) && s in w.methods && s in c.methods && HasCalls(c.methods[s])
    requires t in Names(c.methods[s], 0, Call) || t in Fixups(c.methods[s], 0)
    ensures t in c.methods && t in w.methods && RankOf(rank, t) < RankOf(rank, s)
  {
    assert SourceOk(c, s);
    assert t in Deps(c, s);
  }

  lemma ConstructedClass(c: Cache, rank: map<string, nat>, w: Scope, s: string, k: string)
    requires CacheOk(c) && Bounded(c, rank, w) && s in w.methods && s in c.methods && k in Constructed(c, s)
    ensures k in c.classFiles && k in w.classes
  {
    assert SourceOk(c, s);
  }

  lemma ClassFile(c: Cache, k: string)
    requires CacheOk(c) && k in c.classFiles
    ensures Parse(c.classFiles[k]) == Parsed(InfoOf(c, k)) && InfoOf(c, k).classname == k
  {
    assert ClassFileOk(c, k);
  }

  lemma Member(c: Cache, rank: map<string, nat>, w: Scope, k: string, m: string)
    requires Bounded(c, rank, w) && k in w.classes && k !in c.loaded
    requires k in c.prototypes && m in c.prototypes[k] && m in c.methods
    ensures m in w.methods
  {
    assert m in Members(c, k);
  }

  lemma MembersAreOutput(c: Cache, k: string, selectors: set<string>)
    requires k in c.prototypes ==> forall m | m in c.prototypes[k] && m in c.methods :: m in selectors
    ensures Members(c, k) <= selectors
  {
  }

  // ---------- Termination ----------

  /** How many class files have not been loaded yet. */
  ghost function Left(c: Cache, classes: set<string>): nat {
    |c.classFiles.Keys - classes|
  }

  function RankOf(rank: map<string, nat>, s: string): nat {
    if s in rank then rank[s] else 0
  }

  /** No method of the scope depends on itself, directly or through others: every dependency has a smaller rank. */
  ghost predicate RankOk(c: Cache, rank: map<string, nat>, w: Scope) {
    forall s, t | s in w.methods && t in Deps(c, s) :: RankOf(rank, t) < RankOf(rank, s)
  }

  /** A closed scope without cycles. */
  ghost predicate Bounded(c: Cache, rank: map<string, nat>, w: Scope) {
    Closed(c, w) && RankOk(c, rank, w)
  }

  lemma StepGrows(c: Cache, w: Scope, a: State, b: State)
    requires Step(w, a, b)
    ensures a.selectors <= b.selectors && a.classes <= b.classes && Left(c, b.classes) <= Left(c, a.classes)
  {
    Smaller(c.classFiles.Keys - b.classes, c.classFiles.Keys - a.classes);
  }

  lemma OneFewerLeft(c: Cache, classes: set<string>, k: string)
    requires k in c.classFiles && k !in classes
    ensures Left(c, classes + {k}) < Left(c, classes)
  {
    Smaller(c.classFiles.Keys - (classes + {k}), c.classFiles.Keys - classes - {k});
  }

  lemma {:induction false} Smaller(a: set<string>, b: set<string>)
    requires a <= b
    ensures |a| <= |b|
  {
    if a == {} {
    } else {
      var x :| x in a;
      Smaller(a - {x}, b - {x});
    }
  }
}
