/** What can be said of any calls of output_pre_method and load_cached_class that return, whatever the cache: nothing
    that they output depends on itself. */
module ReturnedCalls {
  import opened EmitTrace
  import opened EmitState
  import opened CallGraph

  /** Calls that have returned, one after the other, each with the calls that it made itself. */
  datatype Calls =
    | NoCalls
    | OnMethod(selector: string, inner: Calls, next: Calls)
    | OnClass(name: string, inner: Calls, next: Calls)

  datatype Table = Table(selectors: set<string>, classes: set<string>)

  // ---------- What the calls leave ----------

  /** output_pre_method ends by marking its selector, unless that was marked when it began. */
  function AfterMethod(table: Table, selector: string, inner: Calls): Table
    decreases inner, 1
  {
    if selector in table.selectors then table
    else
      var after := After(table, inner);
      after.(selectors := after.selectors + {selector})
  }

  function Marked(table: Table, name: string): Table {
    table.(classes := table.classes + {name})
  }

  /** load_cached_class begins by marking its class, unless that is marked. */
  function AfterClass(table: Table, name: string, inner: Calls): Table
    decreases inner, 1
  {
    if name in table.classes then table else After(Marked(table, name), inner)
  }

  function After(table: Table, calls: Calls): Table
    decreases calls, 0
  {
    match calls
    case NoCalls => table
    case OnMethod(s, inner, next) => After(AfterMethod(table, s, inner), next)
    case OnClass(k, inner, next) => After(AfterClass(table, k, inner), next)
  }

  function AfterFirst(table: Table, calls: Calls): Table
    requires !calls.NoCalls?
  {
    match calls
    case OnMethod(s, inner, _) => AfterMethod(table, s, inner)
    case OnClass(k, inner, _) => AfterClass(table, k, inner)
  }

  // ---------- What the calls do ----------

  /** One of the calls is for this method, or finds it in the table. */
  predicate MethodMet(table: Table, calls: Calls, selector: string)
    decreases calls
  {
    || selector in table.selectors
    || (!calls.NoCalls? &&
        ((calls.OnMethod? && calls.selector == selector) ||
         MethodMet(AfterFirst(table, calls), calls.next, selector)))
  }

  predicate ClassMet(table: Table, calls: Calls, name: string)
    decreases calls
  {
    || name in table.classes
    || (!calls.NoCalls? &&
        ((calls.OnClass? && calls.name == name) || ClassMet(AfterFirst(table, calls), calls.next, name)))
  }

  /** The calls do as the code does. For a marked method, nothing; for any other, they meet everything its source calls
      or has a fixup for and all the classes that it constructs, as far as it is looked at, in the tables or by calls of
      their own. For a class that is marked, pending or cached, nothing; for any other, they meet all its cached
      methods. */
  ghost predicate Follow(c: Cache, table: Table, calls: Calls)
    decreases calls
  {
    match calls
    case NoCalls => true
    case OnMethod(s, inner, next) =>
      && (if s in table.selectors then inner == NoCalls
          else Follow(c, table, inner) && MethodFollows(c, table, s, inner))
      && Follow(c, AfterMethod(table, s, inner), next)
    case OnClass(k, inner, next) =>
      && (if k in table.classes || k in c.loaded then inner == NoCalls
          else Follow(c, Marked(table, k), inner) && ClassFollows(c, Marked(table, k), k, inner))
      && Follow(c, AfterClass(table, k, inner), next)
  }

  ghost predicate MethodFollows(c: Cache, table: Table, s: string, inner: Calls) {
    && (forall t | t in Deps(c, s) :: MethodMet(table, inner, t))
    && (forall k | k in Constructed(c, s) :: ClassMet(table, inner, k))
  }

  ghost predicate ClassFollows(c: Cache, table: Table, k: string, inner: Calls) {
    forall m | m in Members(c, k) :: MethodMet(table, inner, m)
  }

  // ---------- The tables grow ----------

  predicate Grows(a: Table, b: Table) {
    a.selectors <= b.selectors && a.classes <= b.classes
  }

  lemma {:induction false} AfterGrows(table: Table, calls: Calls)
    ensures Grows(table, After(table, calls))
    decreases calls
  {
    match calls
    case NoCalls =>
    case OnMethod(s, inner, next) =>
      AfterGrows(table, inner);
      AfterGrows(AfterMethod(table, s, inner), next);
    case OnClass(k, inner, next) =>
      AfterGrows(Marked(table, k), inner);
      AfterGrows(AfterClass(table, k, inner), next);
  }

  lemma FirstIsMarked(table: Table, calls: Calls)
    requires !calls.NoCalls?
    ensures calls.OnMethod? ==> calls.selector in AfterFirst(table, calls).selectors
    ensures calls.OnClass? ==> calls.name in AfterFirst(table, calls).classes
  {
    if calls.OnClass? { AfterGrows(Marked(table, calls.name), calls.inner); }
  }

  lemma {:induction false} MethodIsMarked(table: Table, calls: Calls, selector: string)
    requires MethodMet(table, calls, selector)
    ensures selector in After(table, calls).selectors
    decreases calls
  {
    AfterGrows(table, calls);
    if selector in table.selectors {
    } else {
      FirstIsMarked(table, calls);
      AfterGrows(AfterFirst(table, calls), calls.next);
      if !(calls.OnMethod? && calls.selector == selector) {
        MethodIsMarked(AfterFirst(table, calls), calls.next, selector);
      }
    }
  }

  lemma {:induction false} ClassIsMarked(table: Table, calls: Calls, name: string)
    requires ClassMet(table, calls, name)
    ensures name in After(table, calls).classes
    decreases calls
  {
    AfterGrows(table, calls);
    if name in table.classes {
    } else {
      FirstIsMarked(table, calls);
      AfterGrows(AfterFirst(table, calls), calls.next);
      if !(calls.OnClass? && calls.name == name) {
        ClassIsMarked(AfterFirst(table, calls), calls.next, name);
      }
    }
  }

  // ---------- What is marked has what it needs ----------

  /** Everything that the marked methods and classes need is marked, but for the methods of classes still open. */
  ghost predicate Full(c: Cache, open: set<string>, table: Table) {
    && (forall s | s in table.selectors :: Deps(c, s) <= table.selectors && Constructed(c, s) <= table.classes)
    && (forall k | k in table.classes && k !in open && k !in c.loaded :: Members(c, k) <= table.selectors)
  }

  lemma MethodIsFull(c: Cache, open: set<string>, table: Table, s: string, inner: Calls)
    requires Full(c, open, After(table, inner)) && MethodFollows(c, table, s, inner) && s !in table.selectors
    ensures Full(c, open, AfterMethod(table, s, inner))
  {
    hide Deps, Constructed, Members;
    forall t | t in Deps(c, s)
      ensures t in After(table, inner).selectors
    {
      MethodIsMarked(table, inner, t);
    }
    forall k | k in Constructed(c, s)
      ensures k in After(table, inner).classes
    {
      ClassIsMarked(table, inner, k);
    }
  }

  lemma ClassIsFull(c: Cache, open: set<string>, table: Table, k: string, inner: Calls)
    requires k !in table.classes && Full(c, open + {k}, After(Marked(table, k), inner))
    requires ClassFollows(c, Marked(table, k), k, inner)
    ensures Full(c, open, AfterClass(table, k, inner))
  {
    hide Deps, Constructed, Members;
    forall m | m in Members(c, k)
      ensures m in After(Marked(table, k), inner).selectors
    {
      MethodIsMarked(Marked(table, k), inner, m);
    }
  }

  lemma MarkedIsFull(c: Cache, open: set<string>, table: Table, k: string)
    requires Full(c, open, table)
    ensures Full(c, open + {k}, Marked(table, k)) && (k in c.loaded ==> Full(c, open, Marked(table, k)))
  {
    hide Deps, Constructed, Members;
  }

  lemma {:induction false} ReturningIsFull(c: Cache, open: set<string>, table: Table, calls: Calls)
    requires Full(c, open, table) && Follow(c, table, calls)
    ensures Full(c, open, After(table, calls))
    decreases calls
  {
    hide Full, MethodFollows, ClassFollows;
    match calls
    case NoCalls =>
    case OnMethod(s, inner, next) =>
      if s !in table.selectors {
        ReturningIsFull(c, open, table, inner);
        MethodIsFull(c, open, table, s, inner);
      }
      ReturningIsFull(c, open, AfterMethod(table, s, inner), next);
    case OnClass(k, inner, next) =>
      MarkedIsFull(c, open, table, k);
      if k !in table.classes && k !in c.loaded {
        ReturningIsFull(c, open + {k}, Marked(table, k), inner);
        ClassIsFull(c, open, table, k, inner);
      }
      ReturningIsFull(c, open, AfterClass(table, k, inner), next);
  }

  // ---------- What is marked is ranked ----------

  lemma {:induction false} ReturningRanks(c: Cache, table: Table, calls: Calls, rank: map<string, nat>, n: nat)
    returns (rank': map<string, nat>, n': nat)
    requires Follow(c, table, calls) && Ranked(c, table.selectors, rank, n)
    ensures Ranked(c, After(table, calls).selectors, rank', n')
    decreases calls
  {
    hide Ranked, MethodFollows, ClassFollows;
    rank', n' := rank, n;
    match calls
    case NoCalls =>
    case OnMethod(s, inner, next) =>
      if s !in table.selectors {
        rank', n' := ReturningRanks(c, table, inner, rank, n);
        rank', n' := MethodIsRanked(c, table, s, inner, rank', n');
      }
      rank', n' := ReturningRanks(c, AfterMethod(table, s, inner), next, rank', n');
    case OnClass(k, inner, next) =>
      if k !in table.classes && k !in c.loaded {
        rank', n' := ReturningRanks(c, Marked(table, k), inner, rank, n);
      }
      rank', n' := ReturningRanks(c, AfterClass(table, k, inner), next, rank', n');
  }

  lemma MethodIsRanked(c: Cache, table: Table, s: string, inner: Calls, rank: map<string, nat>, n: nat)
    returns (rank': map<string, nat>, n': nat)
    requires s !in table.selectors && MethodFollows(c, table, s, inner)
    requires Ranked(c, After(table, inner).selectors, rank, n)
    ensures Ranked(c, AfterMethod(table, s, inner).selectors, rank', n')
  {
    hide Deps;
    var after := After(table, inner).selectors;
    forall t | t in Deps(c, s)
      ensures t in after
    {
      MethodIsMarked(table, inner, t);
    }
    if s in after {
      assert after + {s} == after;
      rank', n' := rank, n;
    } else {
      rank', n' := rank[s := n], n + 1;
    }
  }

  // ---------- Requests that return ----------

  predicate RequestMet(table: Table, calls: Calls, r: Request) {
    match r
    case Output(s) => MethodMet(table, calls, s)
    case Load(k) => ClassMet(table, calls, k)
  }

  /** The methods that have been output so far are ranked by where they are. */
  lemma OutputRanks(c: Cache, st: State) returns (rank: map<string, nat>, n: nat)
    requires Good(c, st)
    ensures Ranked(c, st.selectors, rank, n)
  {
    hide OutputOk, Deps, Emitted, Position;
    rank := map s | s in st.selectors :: Position(st.output, s);
    n := Length(st.output);
    PositionsAreBelow(st.output);
    forall s, t | s in rank && t in Deps(c, s)
      ensures t in rank && rank[t] < rank[s]
    {
      OutputIsRanked(c, st.output, s, t);
    }
  }

  lemma PositionsAreBelow(o: Output)
    ensures forall s | s in Emitted(o) :: Position(o, s) < Length(o)
  {
  }

  /** Whatever has been output, when calls from outside that are for a method or a class return, nothing that this one
      needs depends on itself, directly or through others. So a request is served exactly when what it needs has no
      cycle of calls. */
  lemma ReturnedIsAcyclic(c: Cache, st: State, calls: Calls, r: Request)
    requires Good(c, st) && st.open == {}
    requires var table := Table(st.selectors, st.classes); Follow(c, table, calls) && RequestMet(table, calls, r)
    ensures Acyclic(c, Reach(c, Wanted(r)).methods)
  {
    hide Good, Follow, Reach, Acyclic, Ranked, Full, RankOk, Closed, MethodMet, ClassMet;
    var table := Table(st.selectors, st.classes);
    var after := After(table, calls);
    GoodIsFull(c, st);
    ReturningIsFull(c, {}, table, calls);
    var rank, n := OutputRanks(c, st);
    rank, n := ReturningRanks(c, table, calls, rank, n);
    var w := Scope(after.selectors, after.classes);
    FullIsClosed(c, after);
    RankedIsOk(c, rank, n, w);
    RankedIsAcyclic(c, rank, w);
    match r {
      case Output(s) => MethodIsMarked(table, calls, s);
      case Load(k) => ClassIsMarked(table, calls, k);
    }
    ReachIsLeast(c, Wanted(r), w);
    FewerAreAcyclic(c, Reach(c, Wanted(r)).methods, w.methods);
  }

  lemma GoodIsFull(c: Cache, st: State)
    requires Good(c, st) && st.open == {}
    ensures Full(c, {}, Table(st.selectors, st.classes))
  {
    hide Deps, Constructed, Members, OutputOk, Complete;
    assert st.classes - st.open == st.classes;
  }

  lemma FullIsClosed(c: Cache, table: Table)
    requires Full(c, {}, table)
    ensures Closed(c, Scope(table.selectors, table.classes))
  {
    hide Deps, Constructed, Members;
  }
}
