/** The variables that generate_define_instance_variable_call and generate_define_class_variable_call define, given
    what class_and_instance_vars_output has already. Both are called for the variables of a ".class" file and for
    those of the ".init" file of a method. */
module DefinedVars {
  import opened CStrings
  import opened ClassRecords
  import InitRecords

  function VarOf(call: InitRecords.VarCall): VarInit {
    VarInit(call.classname, call.varname, call.varclass, call.init, if call.tag == 'i' then InstanceVar else ClassVar)
  }

  function VarsOf(calls: seq<InitRecords.VarCall>): (vars: seq<VarInit>)
    ensures |vars| == |calls| && forall i | 0 <= i < |calls| :: vars[i] == VarOf(calls[i])
  {
    if calls == [] then [] else VarsOf(calls[..|calls| - 1]) + [VarOf(calls[|calls| - 1])]
  }

  /** The key under which class_and_instance_vars_output has a variable. */
  function VarKey(v: VarInit): string {
    KeyFront(v.classname, v.kind) + v.varname
  }

  /** What comes before the name of the variable. */
  function KeyFront(classname: string, kind: VarKind): string {
    classname + if kind.InstanceVar? then "_instance_" else "_class_"
  }

  function KeysOf(vars: seq<VarInit>): set<string> {
    set v | v in vars :: VarKey(v)
  }

  /** Two variables have the same key. */
  predicate SameKey(classA: string, kindA: VarKind, nameA: string, classB: string, kindB: VarKind, nameB: string) {
    KeyFront(classA, kindA) + nameA == KeyFront(classB, kindB) + nameB
  }

  /** Variables of a kind of one class can have the keys of variables of a kind of another if and only if one class name
      with its mark is how the other one with its mark begins. */
  lemma KeysMeet(classA: string, kindA: VarKind, classB: string, kindB: VarKind)
    ensures (exists nameA, nameB :: SameKey(classA, kindA, nameA, classB, kindB, nameB)) <==>
            KeyFront(classA, kindA) <= KeyFront(classB, kindB) || KeyFront(classB, kindB) <= KeyFront(classA, kindA)
  {
    hide KeyFront;
    var a, b := KeyFront(classA, kindA), KeyFront(classB, kindB);
    if nameA, nameB :| SameKey(classA, kindA, nameA, classB, kindB, nameB) {
      OnePrefix(a, b, nameA, nameB);
    }
    if a <= b {
      assert a + b[|a|..] == b + "";
      assert SameKey(classA, kindA, b[|a|..], classB, kindB, "");
    } else if b <= a {
      assert a + "" == b + a[|b|..];
      assert SameKey(classA, kindA, "", classB, kindB, a[|b|..]);
    }
  }

  lemma OnePrefix(a: string, b: string, s: string, t: string)
    requires a + s == b + t
    ensures a <= b || b <= a
  {
    assert (a + s)[..|a|] == a && (b + t)[..|b|] == b;
    if |a| <= |b| {
      assert b[..|a|] == (b + t)[..|a|];
    } else {
      assert a[..|b|] == (a + s)[..|b|];
    }
  }

  predicate NoUnderscore(s: string) {
    '_' !in s
  }

  /** The key tells the variable when class names have no '_' in them. */
  lemma KeyTellsVariable(a: VarInit, b: VarInit)
    requires NoUnderscore(a.classname) && NoUnderscore(b.classname) && VarKey(a) == VarKey(b)
    ensures a.classname == b.classname && a.kind == b.kind && a.varname == b.varname
  {
    var n := |a.classname|;
    KeyClassEnds(a);
    KeyClassEnds(b);
    assert VarKey(a)[..n] == a.classname && VarKey(b)[..n] == b.classname;
    assert VarKey(a)[n + 1] == if a.kind.InstanceVar? then 'i' else 'c';
    assert VarKey(b)[n + 1] == if b.kind.InstanceVar? then 'i' else 'c';
    var k := n + if a.kind.InstanceVar? then 10 else 7;
    assert VarKey(a)[k..] == a.varname && VarKey(b)[k..] == b.varname;
  }

  lemma KeyClassEnds(v: VarInit)
    requires NoUnderscore(v.classname)
    ensures FindChar(VarKey(v), '_', 0) == Some(|v.classname|)
  {
    forall i | 0 <= i < |v.classname|
      ensures VarKey(v)[i] != '_'
    {
      assert VarKey(v)[i] == v.classname[i];
    }
    FindCharIs(VarKey(v), '_', 0, |v.classname|);
  }

  /** And does not when they may have one: these two variables of different classes are taken for the same. */
  lemma KeysCanCollide()
    ensures VarKey(VarInit("A", "b_instance_c", "Object", "0", InstanceVar)) ==
            VarKey(VarInit("A_instance_b", "c", "Object", "0", InstanceVar))
  {
  }

  /** Those of the variables that are defined when the table has these keys: the ones that are not in it, each the
      first time. */
  function Fresh(vars: seq<VarInit>, keys: set<string>): (f: seq<VarInit>)
    ensures |f| <= |vars|
  {
    if vars == [] then []
    else
      var n := |vars| - 1;
      if VarKey(vars[n]) in keys + KeysOf(vars[..n]) then Fresh(vars[..n], keys)
      else Fresh(vars[..n], keys) + [vars[n]]
  }

  lemma FreshOneMore(vars: seq<VarInit>, v: VarInit, keys: set<string>)
    ensures Fresh(vars + [v], keys) ==
            if VarKey(v) in keys + KeysOf(vars) then Fresh(vars, keys) else Fresh(vars, keys) + [v]
  {
    assert (vars + [v])[..|vars|] == vars;
  }

  lemma KeysOfOneMore(vars: seq<VarInit>, v: VarInit)
    ensures KeysOf(vars + [v]) == KeysOf(vars) + {VarKey(v)}
  {
  }

  /** Nothing is defined twice, and afterwards everything has been. */
  lemma {:induction false} FreshDefinesAll(vars: seq<VarInit>, keys: set<string>)
    ensures KeysOf(Fresh(vars, keys)) !! keys && keys + KeysOf(Fresh(vars, keys)) == keys + KeysOf(vars)
  {
    if vars == [] {
    } else {
      var n := |vars| - 1;
      FreshDefinesAll(vars[..n], keys);
      assert vars == vars[..n] + [vars[n]];
      KeysOfOneMore(vars[..n], vars[n]);
      KeysOfOneMore(Fresh(vars[..n], keys), vars[n]);
    }
  }

  lemma {:induction false} FreshAt(vars: seq<VarInit>, keys: set<string>, i: nat)
    requires i < |Fresh(vars, keys)|
    ensures VarKey(Fresh(vars, keys)[i]) !in keys + KeysOf(Fresh(vars, keys)[..i])
  {
    hide KeysOf, VarKey;
    var n, f := |vars| - 1, Fresh(vars, keys);
    var before := Fresh(vars[..n], keys);
    FreshDefinesAll(vars[..n], keys);
    if i < |before| {
      FreshAt(vars[..n], keys, i);
      assert f[..i] == before[..i];
    } else {
      assert f[..i] == before;
    }
  }

  ghost predicate DistinctKeys(vars: seq<VarInit>) {
    forall i, j | 0 <= i < j < |vars| :: VarKey(vars[i]) != VarKey(vars[j])
  }

  /** All of the variables are defined, in order, if and only if none of them has been and no two have the same key. */
  lemma {:induction false} FreshIsAll(vars: seq<VarInit>, keys: set<string>)
    ensures Fresh(vars, keys) == vars <==> KeysOf(vars) !! keys && DistinctKeys(vars)
  {
    if vars == [] {
    } else {
      var n := |vars| - 1;
      var before := vars[..n];
      FreshIsAll(before, keys);
      assert vars == before + [vars[n]];
      KeysOfOneMore(before, vars[n]);
      assert DistinctKeys(vars) <==> DistinctKeys(before) && VarKey(vars[n]) !in KeysOf(before);
      assert Fresh(vars, keys) == vars <==> VarKey(vars[n]) !in keys + KeysOf(before) && Fresh(before, keys) == before;
    }
  }
}
