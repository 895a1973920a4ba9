/** Cycles of calls: a set of methods that has everything its methods depend on has none if and only if it can be
    ranked. */
module CallGraph {
  import opened EmitTrace
  import opened EmitState

  ghost predicate Cycle(c: Cache, chain: seq<string>) {
    |chain| > 1 && CallChain(c, chain) && chain[0] == chain[|chain| - 1]
  }

  /** None of the methods depends on itself, directly or through others. */
  ghost predicate Acyclic(c: Cache, methods: set<string>) {
    forall chain | Cycle(c, chain) :: chain[0] !in methods
  }

  // ---------- Ranked methods have no cycle ----------

  lemma {:induction false} RankDecreases(c: Cache, rank: map<string, nat>, w: Scope, chain: seq<string>, i: nat)
    requires Bounded(c, rank, w) && CallChain(c, chain) && 0 < i < |chain| && chain[0] in w.methods
    ensures chain[i] in w.methods && RankOf(rank, chain[i]) < RankOf(rank, chain[0])
  {
    if i == 1 {
      assert chain[1] in Deps(c, chain[0]);
    } else {
      RankDecreases(c, rank, w, chain, i - 1);
      assert chain[i] in Deps(c, chain[i - 1]);
    }
  }

  lemma RankedIsAcyclic(c: Cache, rank: map<string, nat>, w: Scope)
    requires Bounded(c, rank, w)
    ensures Acyclic(c, w.methods)
  {
    forall chain | Cycle(c, chain)
      ensures chain[0] !in w.methods
    {
      if chain[0] in w.methods { RankDecreases(c, rank, w, chain, |chain| - 1); }
    }
  }

  // ---------- Methods without a cycle can be ranked ----------

  /** Among more elements than a set has, one comes twice. */
  lemma {:induction false} Pigeonhole(chain: seq<string>, names: set<string>) returns (i: nat, j: nat)
    requires |chain| > |names| && forall k | 0 <= k < |chain| :: chain[k] in names
    ensures i < j < |chain| && chain[i] == chain[j]
    decreases |chain|
  {
    var n := |chain| - 1;
    if k :| 0 <= k < n && chain[k] == chain[n] {
      return k, n;
    } else {
      assert chain[n] in names;
      i, j := Pigeonhole(chain[..n], names - {chain[n]});
    }
  }

  /** If each of some methods depends on one of them, there are chains of calls of any length. */
  lemma {:induction false} LongChain(c: Cache, names: set<string>, s: string, n: nat) returns (chain: seq<string>)
    requires s in names && forall t | t in names :: Deps(c, t) * names != {}
    ensures |chain| == n + 1 && CallChain(c, chain) && forall k | 0 <= k <= n :: chain[k] in names
  {
    hide Deps;
    if n == 0 {
      chain := [s];
    } else {
      var front := LongChain(c, names, s, n - 1);
      var t :| t in Deps(c, front[n - 1]) * names;
      chain := front + [t];
    }
  }

  lemma PartOfChain(c: Cache, chain: seq<string>, i: nat, j: nat)
    requires CallChain(c, chain) && i < j < |chain| && chain[i] == chain[j]
    ensures Cycle(c, chain[i..j + 1]) && chain[i..j + 1][0] == chain[i]
  {
    var part := chain[i..j + 1];
    forall k, l | 0 <= k < |part| && 0 <= l < |part| && l == k + 1
      ensures part[l] in Deps(c, part[k])
    {
      assert part[k] == chain[i + k] && part[l] == chain[i + l];
    }
  }

  /** So one of them depends on none of them. */
  lemma OneIsReady(c: Cache, methods: set<string>, left: set<string>) returns (s: string)
    requires Acyclic(c, methods) && left <= methods && left != {}
    ensures s in left && Deps(c, s) * left == {}
  {
    hide Deps, CallChain;
    if t :| t in left && Deps(c, t) * left == {} {
      s := t;
    } else {
      s :| s in left;
      var chain := LongChain(c, left, s, |left|);
      var i, j := Pigeonhole(chain, left);
      PartOfChain(c, chain, i, j);
      assert false;
    }
  }

  /** The methods in done are ranked below n, and depend only on one another. */
  ghost predicate Ranked(c: Cache, done: set<string>, rank: map<string, nat>, n: nat) {
    && rank.Keys == done && (forall s | s in rank :: rank[s] < n)
    && (forall s, t | s in rank && t in Deps(c, s) :: t in rank && rank[t] < rank[s])
  }

  lemma {:induction false} RankAll(c: Cache, methods: set<string>, done: set<string>, rank: map<string, nat>, n: nat)
    returns (rank': map<string, nat>, n': nat)
    requires Acyclic(c, methods) && done <= methods && Ranked(c, done, rank, n)
    requires forall s | s in methods :: Deps(c, s) <= methods
    ensures Ranked(c, methods, rank', n')
    decreases methods - done
  {
    hide Acyclic, Deps;
    if done == methods {
      rank', n' := rank, n;
    } else {
      var x :| x in methods && x !in done;
      assert x in methods - done;
      var s := OneIsReady(c, methods, methods - done);
      forall t | t in Deps(c, s)
        ensures t in done
      {
        assert t !in Deps(c, s) * (methods - done);
      }
      rank', n' := RankAll(c, methods, done + {s}, rank[s := n], n + 1);
    }
  }

  lemma RankedIsOk(c: Cache, rank: map<string, nat>, n: nat, w: Scope)
    requires Ranked(c, w.methods, rank, n)
    ensures RankOk(c, rank, w)
  {
    hide Deps;
  }

  lemma AcyclicIsRanked(c: Cache, w: Scope) returns (rank: map<string, nat>)
    requires Closed(c, w) && Acyclic(c, w.methods)
    ensures RankOk(c, rank, w)
  {
    var n: nat;
    rank, n := RankAll(c, w.methods, {}, map[], 0);
    RankedIsOk(c, rank, n, w);
  }

  lemma FewerAreAcyclic(c: Cache, a: set<string>, b: set<string>)
    requires a <= b && Acyclic(c, b)
    ensures Acyclic(c, a)
  {
  }
}
