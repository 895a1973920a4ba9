/** What the emitter of src/premethod.c and src/preclass.c has to work with, and what the output it produces must
    look like. */
module EmitTrace {
  import opened MethodSource
  import opened ClassRecords
  import opened DefinedVars

  import InitRecords

  /** The cache: the sources of the methods by selector, their ".init" files and what those say; the ".class" files
      by class and what those say; the method prototypes of each class that has a library file; and the classes that
      are pending or cached already. */
  datatype Cache = Cache(methods: map<string, string>, initFiles: map<string, string>,
                         inits: map<string, InitRecords.InitInfo>, classFiles: map<string, string>,
                         classes: map<string, ClassInfo>, prototypes: map<string, seq<string>>, loaded: set<string>)

  /** What goes to the output, call by call: a class, a variable, or a method's source with the definition of the
      method itself. */
  datatype Event =
    | ClassDef(name: string, super: string)
    | VarDef(v: VarInit)
    | MethodDef(selector: string, text: string)

  // ---------- Dependencies ----------

  /** The methods that are looked for because of a method: those its source names, if it has a method call at all. */
  function Deps(c: Cache, s: string): set<string> {
    if s in c.methods && HasCalls(c.methods[s]) then NamedMethods(c.methods[s]) else {}
  }

  /** The classes that are loaded because of a method: those its source names, if it has a method call at all, but for
      those that are pending or cached. */
  function Constructed(c: Cache, s: string): set<string> {
    if s in c.methods && HasCalls(c.methods[s]) then NamedClasses(c.methods[s]) - c.loaded else {}
  }

  /** The cached methods of a class. */
  function Members(c: Cache, k: string): set<string> {
    if k in c.prototypes then set m | m in c.prototypes[k] && m in c.methods else {}
  }

  /** A method's source as it is output: with its fixup markers blanked out, if it has a method call at all. */
  function OutputText(src: string): string {
    if HasCalls(src) then Elided(src, 0) else src
  }

  function InfoOf(c: Cache, k: string): ClassInfo {
    if k in c.classes then c.classes[k] else EMPTY
  }

  // ---------- Variables ----------

  function InitVars(c: Cache, s: string): seq<VarInit> {
    if s in c.inits then VarsOf(c.inits[s].varCalls) else []
  }

  /** The variables that go with a class or a method: those of its ".class" or ".init" file. */
  function Variables(c: Cache, head: Event): seq<VarInit> {
    match head
    case ClassDef(name, _) => InfoOf(c, name).vars
    case MethodDef(s, _) => InitVars(c, s)
    case VarDef(_) => []
  }

  // ---------- A sound cache ----------

  /** The source's calls and markers are complete, everything it refers to is in the cache, and the ".init" file can
      be parsed. */
  ghost predicate SourceOk(c: Cache, s: string)
    requires s in c.methods
  {
    var src := c.methods[s];
    && (HasCalls(src) ==>
          && NamesOk(src, 0, Construct) && NamesOk(src, 0, Call) && FixupsOk(src, 0)
          && Deps(c, s) <= c.methods.Keys && Constructed(c, s) <= c.classFiles.Keys)
    && s in c.initFiles && s in c.inits
    && InitRecords.Parse(c.initFiles[s], true) == InitRecords.Parsed(c.inits[s])
  }

  /** The class file can be parsed, and describes the class it is for. */
  ghost predicate ClassFileOk(c: Cache, k: string)
    requires k in c.classFiles
  {
    k in c.classes && Parse(c.classFiles[k]) == Parsed(c.classes[k]) && c.classes[k].classname == k
  }

  ghost predicate CacheOk(c: Cache) {
    (forall s | s in c.methods :: SourceOk(c, s)) && (forall k | k in c.classFiles :: ClassFileOk(c, k))
  }

  // ---------- The output ----------

  /** What has been written to the output so far: nothing, or one more event after what was there before. */
  datatype Output = Nothing | Then(before: Output, event: Event)

  /** The first output is how the second one begins. */
  predicate Begins(a: Output, o: Output) {
    a == o || (o.Then? && Begins(a, o.before))
  }

  /** The methods in the output. */
  function Emitted(o: Output): set<string> {
    match o
    case Nothing => {}
    case Then(before, e) => if e.MethodDef? then Emitted(before) + {e.selector} else Emitted(before)
  }

  /** The classes in the output. */
  function Defined(o: Output): set<string> {
    match o
    case Nothing => {}
    case Then(before, e) => if e.ClassDef? then Defined(before) + {e.name} else Defined(before)
  }

  /** The keys of the variables in the output. */
  function Written(o: Output): set<string> {
    match o
    case Nothing => {}
    case Then(before, e) => if e.VarDef? then Written(before) + {VarKey(e.v)} else Written(before)
  }

  /** The output with definitions of these variables added. */
  function AddVars(o: Output, vars: seq<VarInit>): Output {
    if vars == [] then o else Then(AddVars(o, vars[..|vars| - 1]), VarDef(vars[|vars| - 1]))
  }

  lemma NoVars(o: Output, keys: set<string>)
    ensures AddVars(o, Fresh([], keys)) == o && KeysOf([]) == {}
  {
  }

  lemma AddOneVar(o: Output, vars: seq<VarInit>, v: VarInit)
    ensures AddVars(o, vars + [v]) == Then(AddVars(o, vars), VarDef(v))
  {
    assert (vars + [v])[..|vars|] == vars;
  }

  /** The last class or method of the output, what was there before it, and the variables after it. */
  datatype Block = NoBlock | Block(before: Output, head: Event, vars: seq<VarInit>)

  function Last(o: Output): (b: Block)
    ensures b.Block? ==> b.before < o
  {
    match o
    case Nothing => NoBlock
    case Then(before, e) =>
      if !e.VarDef? then Block(before, e, [])
      else
        match Last(before)
        case NoBlock => NoBlock
        case Block(b, head, vars) => Block(b, head, vars + [e.v])
  }

  /** The variables that belong after a class or a method. */
  function Due(c: Cache, before: Output, head: Event): seq<VarInit> {
    Fresh(Variables(c, head), Written(before))
  }

  /** All the variables of the last class or method have been defined, but for those that were defined before. */
  predicate Complete(c: Cache, o: Output) {
    match Last(o)
    case NoBlock => true
    case Block(before, head, vars) => vars == Due(c, before, head)
  }

  /** A class that may come after some output is not yet defined; a method is not yet output, and comes after all it
      calls and all the classes it constructs. */
  ghost predicate HeadOk(c: Cache, before: Output, head: Event) {
    match head
    case ClassDef(name, super) =>
      name !in Defined(before) && name in c.classFiles && super == InfoOf(c, name).superclassname
    case MethodDef(s, text) =>
      && s !in Emitted(before) && s in c.methods && text == OutputText(c.methods[s])
      && Deps(c, s) <= Emitted(before) && Constructed(c, s) <= Defined(before)
    case VarDef(_) => false
  }

  /** Sound output: classes and methods, each followed by the variables that are due. */
  ghost predicate OutputOk(c: Cache, o: Output) {
    o.Then? ==>
      var last := Last(o);
      && last.Block? && OutputOk(c, last.before) && Complete(c, last.before)
      && HeadOk(c, last.before, last.head) && last.vars <= Due(c, last.before, last.head)
  }

  // ---------- What sound output means ----------

  lemma {:induction false} BeginsTrans(a: Output, b: Output, o: Output)
    requires Begins(a, b) && Begins(b, o)
    ensures Begins(a, o)
  {
    if b == o {
    } else {
      BeginsTrans(a, b, o.before);
    }
  }

  /** What came before the last event was sound. */
  lemma OkBefore(c: Cache, o: Output)
    requires o.Then? && OutputOk(c, o)
    ensures OutputOk(c, o.before)
  {
    if o.event.VarDef? {
      var last := Last(o.before);
      assert last.vars == Last(o).vars[..|last.vars|];
    }
  }

  /** Everything in the output went there after sound output, and stays there. */
  lemma {:induction false} Sound(c: Cache, b: Output, e: Event, o: Output)
    requires OutputOk(c, o) && Begins(Then(b, e), o)
    ensures OutputOk(c, b) && OutputOk(c, Then(b, e))
    ensures !e.VarDef? ==> Complete(c, b) && HeadOk(c, b, e)
    ensures e.MethodDef? ==> e.selector in Emitted(o)
    ensures e.ClassDef? ==> e.name in Defined(o)
  {
    OkBefore(c, o);
    if Then(b, e) == o {
    } else {
      Sound(c, b, e, o.before);
    }
  }

  lemma {:induction false} WhereEmitted(o: Output, s: string) returns (b: Output, e: Event)
    requires s in Emitted(o)
    ensures Begins(Then(b, e), o) && e.MethodDef? && e.selector == s
  {
    if o.event.MethodDef? && o.event.selector == s {
      return o.before, o.event;
    }
    b, e := WhereEmitted(o.before, s);
  }

  lemma {:induction false} WhereDefined(o: Output, k: string) returns (b: Output, e: Event)
    requires k in Defined(o)
    ensures Begins(Then(b, e), o) && e.ClassDef? && e.name == k
  {
    if o.event.ClassDef? && o.event.name == k {
      return o.before, o.event;
    }
    b, e := WhereDefined(o.before, k);
  }

  /** No method is output twice, and no class defined twice. */
  lemma AtMostOnce(c: Cache, o: Output, b1: Output, e1: Event, b2: Output, e2: Event)
    requires OutputOk(c, o) && Begins(Then(b1, e1), b2) && Begins(Then(b2, e2), o)
    ensures e1.MethodDef? && e2.MethodDef? ==> e1.selector != e2.selector
    ensures e1.ClassDef? && e2.ClassDef? ==> e1.name != e2.name
  {
    Sound(c, b2, e2, o);
    Sound(c, b1, e1, b2);
  }

  /** Every method comes after everything it calls or has a fixup for, with its markers blanked out. */
  lemma DependenciesFirst(c: Cache, o: Output, b: Output, e: Event, t: string) returns (b': Output, e': Event)
    requires OutputOk(c, o) && Begins(Then(b, e), o) && e.MethodDef? && t in Deps(c, e.selector)
    ensures Begins(Then(b', e'), b) && e'.MethodDef? && e'.selector == t
    ensures e.selector in c.methods && e.text == OutputText(c.methods[e.selector])
  {
    Sound(c, b, e, o);
    b', e' := WhereEmitted(b, t);
  }

  /** And after the definition of every class it constructs, even when that class is still being loaded. */
  lemma ClassesFirst(c: Cache, o: Output, b: Output, e: Event, k: string) returns (b': Output, e': Event)
    requires OutputOk(c, o) && Begins(Then(b, e), o) && e.MethodDef? && k in Constructed(c, e.selector)
    ensures Begins(Then(b', e'), b) && e'.ClassDef? && e'.name == k
    ensures e'.super == InfoOf(c, k).superclassname
  {
    Sound(c, b, e, o);
    b', e' := WhereDefined(b, k);
    Sound(c, b', e', b);
  }

  // ---------- Why the calls must not be cyclic ----------

  function Length(o: Output): nat {
    match o
    case Nothing => 0
    case Then(before, _) => Length(before) + 1
  }

  /** How much was output before a method. */
  function Position(o: Output, s: string): (p: nat)
    ensures s in Emitted(o) ==> p < Length(o)
  {
    match o
    case Nothing => 0
    case Then(before, e) => if e.MethodDef? && e.selector == s then Length(before) else Position(before, s)
  }

  /** Sound output ranks its methods. */
  lemma {:induction false} OutputIsRanked(c: Cache, o: Output, s: string, t: string)
    requires OutputOk(c, o) && s in Emitted(o) && t in Deps(c, s)
    ensures t in Emitted(o) && Position(o, t) < Position(o, s)
  {
    OkBefore(c, o);
    if o.event.MethodDef? && o.event.selector == s {
    } else {
      OutputIsRanked(c, o.before, s, t);
    }
  }

  /** Each of the selectors calls or has a fixup for the next one. */
  ghost predicate CallChain(c: Cache, chain: seq<string>) {
    forall i, j | 0 <= i < |chain| && 0 <= j < |chain| && j == i + 1 :: chain[j] in Deps(c, chain[i])
  }

  lemma {:induction false} ChainIsRanked(c: Cache, o: Output, chain: seq<string>)
    requires OutputOk(c, o) && |chain| > 1 && CallChain(c, chain) && chain[0] in Emitted(o)
    ensures chain[|chain| - 1] in Emitted(o) && Position(o, chain[|chain| - 1]) < Position(o, chain[0])
  {
    hide OutputOk, Position, Emitted, Deps;
    var n := |chain| - 1;
    if n == 1 {
      assert chain[1] in Deps(c, chain[0]);
    } else {
      ChainIsRanked(c, o, chain[..n]);
      assert chain[n] in Deps(c, chain[n - 1]);
    }
    OutputIsRanked(c, o, chain[n - 1], chain[n]);
  }

  /** So no method that depends on itself, directly or through others, is in any sound output: there is no state in
      which a request for it could be said to be served. */
  lemma CyclesAreNeverOutput(c: Cache, o: Output, chain: seq<string>)
    requires OutputOk(c, o) && |chain| > 1 && CallChain(c, chain) && chain[0] == chain[|chain| - 1]
    ensures chain[0] !in Emitted(o)
  {
    if chain[0] in Emitted(o) {
      ChainIsRanked(c, o, chain);
    }
  }

  // ---------- The variables of a class or a method ----------

  /** The output with a class or a method added, and the variables that are due. */
  function WithBlock(c: Cache, b: Output, head: Event): Output {
    AddVars(Then(b, head), Due(c, b, head))
  }

  lemma {:induction false} AddVarsAre(b: Output, head: Event, vars: seq<VarInit>)
    requires !head.VarDef?
    ensures Last(AddVars(Then(b, head), vars)) == Block(b, head, vars)
    ensures Emitted(AddVars(Then(b, head), vars)) == Emitted(Then(b, head))
    ensures Defined(AddVars(Then(b, head), vars)) == Defined(Then(b, head))
    ensures Begins(Then(b, head), AddVars(Then(b, head), vars))
  {
    if vars == [] {
    } else {
      AddVarsAre(b, head, vars[..|vars| - 1]);
    }
  }

  lemma {:induction false} AddVarsWritten(o: Output, vars: seq<VarInit>)
    ensures Written(AddVars(o, vars)) == Written(o) + KeysOf(vars)
  {
    if vars == [] {
    } else {
      var n := |vars| - 1;
      AddVarsWritten(o, vars[..n]);
      KeysOfOneMore(vars[..n], vars[n]);
      assert vars == vars[..n] + [vars[n]];
    }
  }

  lemma WithBlockOk(c: Cache, b: Output, head: Event)
    requires OutputOk(c, b) && Complete(c, b) && HeadOk(c, b, head)
    ensures OutputOk(c, WithBlock(c, b, head)) && Complete(c, WithBlock(c, b, head))
    ensures Written(WithBlock(c, b, head)) == Written(b) + KeysOf(Variables(c, head))
  {
    AddVarsAre(b, head, Due(c, b, head));
    AddVarsWritten(Then(b, head), Due(c, b, head));
    FreshDefinesAll(Variables(c, head), Written(b));
  }

  /** Sound output that goes on after a class or a method is still in its variables, or has all that were due. */
  lemma {:induction false} HeadThenVars(c: Cache, b: Output, head: Event, o: Output)
    requires OutputOk(c, o) && !head.VarDef? && Begins(Then(b, head), o)
    ensures o == AddVars(Then(b, head), Last(o).vars) || (o.Then? && Begins(WithBlock(c, b, head), o.before))
  {
    if o == Then(b, head) {
    } else {
      OkBefore(c, o);
      HeadThenVars(c, b, head, o.before);
      if o.before == AddVars(Then(b, head), Last(o.before).vars) {
        AddVarsAre(b, head, Last(o.before).vars);
        assert o.event.VarDef? ==> Last(o).vars[..|Last(o).vars| - 1] == Last(o.before).vars;
      }
    }
  }

  /** In finished output, a class or a method is followed by exactly the variables of its file that were not defined
      before, in the order of the file. */
  lemma VariablesFollow(c: Cache, b: Output, head: Event, o: Output)
    requires OutputOk(c, o) && Complete(c, o) && !head.VarDef? && Begins(Then(b, head), o)
    ensures Begins(WithBlock(c, b, head), o)
    ensures forall e | Begins(Then(WithBlock(c, b, head), e), o) :: !e.VarDef?
  {
    HeadThenVars(c, b, head, o);
    AddVarsAre(b, head, Last(o).vars);
    AddVarsAre(b, head, Due(c, b, head));
    forall e | Begins(Then(WithBlock(c, b, head), e), o)
      ensures !e.VarDef?
    {
      Sound(c, WithBlock(c, b, head), e, o);
    }
  }

  /** By all of them if and only if none was defined before and no two have the same key. */
  lemma AllVariablesFollow(c: Cache, b: Output, head: Event)
    ensures WithBlock(c, b, head) == AddVars(Then(b, head), Variables(c, head)) <==>
            KeysOf(Variables(c, head)) !! Written(b) && DistinctKeys(Variables(c, head))
  {
    hide AddVars, Fresh, KeysOf, DistinctKeys, Variables, Written;
    FreshIsAll(Variables(c, head), Written(b));
    SameVars(Then(b, head), Due(c, b, head), Variables(c, head));
  }

  lemma {:induction false} AddVarsLength(o: Output, vars: seq<VarInit>)
    ensures Length(AddVars(o, vars)) == Length(o) + |vars|
  {
    if vars == [] {
    } else {
      AddVarsLength(o, vars[..|vars| - 1]);
    }
  }

  lemma {:induction false} SameVars(o: Output, a: seq<VarInit>, b: seq<VarInit>)
    ensures AddVars(o, a) == AddVars(o, b) <==> a == b
  {
    AddVarsLength(o, a);
    AddVarsLength(o, b);
    if a == [] || |a| != |b| {
    } else {
      SameVars(o, a[..|a| - 1], b[..|b| - 1]);
      assert a == a[..|a| - 1] + [a[|a| - 1]] && b == b[..|b| - 1] + [b[|b| - 1]];
    }
  }

  /** By none of them if and only if all of them were. */
  lemma NoVariablesFollow(c: Cache, b: Output, head: Event)
    ensures WithBlock(c, b, head) == Then(b, head) <==> KeysOf(Variables(c, head)) <= Written(b)
  {
    var vars, keys := Variables(c, head), Written(b);
    var f := Fresh(vars, keys);
    FreshDefinesAll(vars, keys);
    SameVars(Then(b, head), f, []);
    if f != [] { assert VarKey(f[0]) in KeysOf(f); }
  }

  /** No variable is defined twice, whichever classes and methods it belongs to. */
  lemma VariablesAtMostOnce(c: Cache, o: Output, b1: Output, v1: VarInit, b2: Output, v2: VarInit)
    requires OutputOk(c, o) && Begins(Then(b1, VarDef(v1)), b2) && Begins(Then(b2, VarDef(v2)), o)
    ensures VarKey(v1) != VarKey(v2)
  {
    Sound(c, b2, VarDef(v2), o);
    NotWrittenYet(c, b2, v2);
    WrittenStays(b1, v1, b2);
  }

  lemma {:induction false} WrittenStays(b: Output, v: VarInit, o: Output)
    requires Begins(Then(b, VarDef(v)), o)
    ensures VarKey(v) in Written(o)
  {
    if o == Then(b, VarDef(v)) {
    } else {
      WrittenStays(b, v, o.before);
    }
  }

  lemma {:induction false} LastIs(o: Output)
    requires Last(o).Block?
    ensures o == AddVars(Then(Last(o).before, Last(o).head), Last(o).vars) && !Last(o).head.VarDef?
  {
    if !o.event.VarDef? {
    } else {
      LastIs(o.before);
      assert Last(o).vars[..|Last(o).vars| - 1] == Last(o.before).vars;
    }
  }

  lemma NotWrittenYet(c: Cache, b: Output, v: VarInit)
    requires OutputOk(c, Then(b, VarDef(v)))
    ensures VarKey(v) !in Written(b)
  {
    var last, vars := Last(Then(b, VarDef(v))), Last(b).vars;
    LastIs(b);
    AddVarsWritten(Then(last.before, last.head), vars);
    FreshAt(Variables(c, last.head), Written(last.before), |vars|);
    assert Due(c, last.before, last.head)[..|vars|] == vars;
  }

  /** The keys of all variables of some methods and classes. */
  function Owed(c: Cache, selectors: set<string>, classes: set<string>): set<string> {
    (set s, x | s in selectors && x in KeysOf(InitVars(c, s)) :: x) +
    (set k, x | k in classes && x in KeysOf(InfoOf(c, k).vars) :: x)
  }

  /** In finished output, the variables of every class and every method have been defined, and no others. */
  lemma {:induction false} WrittenIsOwed(c: Cache, o: Output)
    requires OutputOk(c, o) && Complete(c, o)
    ensures Written(o) == Owed(c, Emitted(o), Defined(o))
    decreases o
  {
    if o == Nothing {
    } else {
      var b, head := Last(o).before, Last(o).head;
      WrittenIsOwed(c, b);
      LastIs(o);
      WithBlockOk(c, b, head);
      AddVarsAre(b, head, Last(o).vars);
      OwedOneMore(c, Emitted(b), Defined(b), head);
    }
  }

  lemma OwedOneMore(c: Cache, selectors: set<string>, classes: set<string>, head: Event)
    ensures head.MethodDef? ==>
              Owed(c, selectors + {head.selector}, classes) == Owed(c, selectors, classes) + KeysOf(Variables(c, head))
    ensures head.ClassDef? ==>
              Owed(c, selectors, classes + {head.name}) == Owed(c, selectors, classes) + KeysOf(Variables(c, head))
  {
    hide KeysOf;
  }
}
