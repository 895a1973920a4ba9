/** What output_pre_method makes of a source without "__ctalk_method" in it: it looks at neither the classes that the
    source constructs nor its fixup markers, and outputs it as it is. */
module SourcesWithoutCalls {
  import opened CStrings
  import opened MethodSource
  import opened EmitTrace
  import opened EmitState
  import FixupMarkers

  // ---------- What is overlooked ----------

  lemma NoCallsAreNamed(src: string)
    ensures !HasCalls(src) ==> Names(src, 0, Call) == {}
  {
  }

  /** All the methods that a source calls or has a fixup for are dependencies if and only if it has a method call, or
      no fixups. */
  lemma NamedMethodsAreDeps(c: Cache, s: string)
    requires s in c.methods
    ensures NamedMethods(c.methods[s]) <= Deps(c, s) <==> HasCalls(c.methods[s]) || Fixups(c.methods[s], 0) == []
  {
    var src := c.methods[s];
    NoCallsAreNamed(src);
    if !HasCalls(src) && Fixups(src, 0) != [] {
      assert Fixups(src, 0)[0] in NamedMethods(src);
    }
  }

  /** All the classes that it constructs are to be loaded if and only if it has a method call, or they were pending or
      cached anyway. */
  lemma NamedClassesAreConstructed(c: Cache, s: string)
    requires s in c.methods
    ensures NamedClasses(c.methods[s]) - c.loaded <= Constructed(c, s) <==>
            HasCalls(c.methods[s]) || NamedClasses(c.methods[s]) <= c.loaded
  {
    hide NamedClasses, HasCalls;
    if HasCalls(c.methods[s]) {
      assert Constructed(c, s) == NamedClasses(c.methods[s]) - c.loaded;
    } else {
      assert Constructed(c, s) == {};
      var named := NamedClasses(c.methods[s]);
      if named - c.loaded <= {} {
        assert forall k | k in named :: k in c.loaded || k in named - c.loaded;
      }
    }
  }

  // ---------- Markers ----------

  lemma MarkersAreFound(s: FixupMarkers.Source)
    requires FixupMarkers.WellMarked(s)
    ensures FixupMarkers.Unmarked(FixupMarkers.Render(s)) <==> s.Code?
  {
    var text := FixupMarkers.Render(s);
    if s.Then? {
      FixupMarkers.FixupRoundTrip(s);
      assert NextFixup(text, 0).Fixup?;
      assert MatchesAt(text, MARKER, FindStr(text, MARKER, 0).value);
    }
  }

  /** The text that is output has no marker left if and only if the source has a method call, or had no marker. */
  lemma OutputIsUnmarked(s: FixupMarkers.Source)
    requires FixupMarkers.WellMarked(s)
    ensures FixupMarkers.Unmarked(OutputText(FixupMarkers.Render(s))) <==>
            HasCalls(FixupMarkers.Render(s)) || s.Code?
  {
    MarkersAreFound(s);
    FixupMarkers.FixupRoundTrip(s);
  }

  /** So it is for every method in the output; and its selectors come first under the same condition. */
  lemma MarkersInOutput(c: Cache, o: Output, b: Output, e: Event, s: FixupMarkers.Source)
    requires OutputOk(c, o) && Begins(Then(b, e), o) && e.MethodDef? && FixupMarkers.WellMarked(s)
    requires e.selector in c.methods && c.methods[e.selector] == FixupMarkers.Render(s)
    ensures FixupMarkers.Unmarked(e.text) <==> HasCalls(FixupMarkers.Render(s)) || s.Code?
    ensures (forall f | f in FixupMarkers.Selectors(s) :: f in Deps(c, e.selector)) <==>
            HasCalls(FixupMarkers.Render(s)) || s.Code?
    ensures HasCalls(FixupMarkers.Render(s)) ==> forall f | f in FixupMarkers.Selectors(s) :: f in Emitted(b)
  {
    hide OutputOk;
    Sound(c, b, e, o);
    OutputIsUnmarked(s);
    FixupMarkers.FixupRoundTrip(s);
    if s.Then? {
      assert FixupMarkers.Selectors(s)[0] in FixupMarkers.Selectors(s);
    }
  }

  // ---------- A constructor of a local object ----------

  /** Whatever follows, a source that begins with a constructor call names its class. */
  lemma ConstructorNamesClass(name: string, rest: string)
    requires '"' !in name
    ensures name in NamedClasses(CONSTRUCTOR + (" (\"" + (name + ("\"" + rest))))
  {
    var open, tail := |CONSTRUCTOR| + 2, name + ("\"" + rest);
    var src := CONSTRUCTOR + (" (\"" + tail);
    assert src[..|CONSTRUCTOR|] == CONSTRUCTOR && src[open + 1..] == tail;
    assert MatchesAt(src, CONSTRUCTOR, 0);
    assert FindStr(src, CONSTRUCTOR, 0) == Some(0);
    assert '"' !in CONSTRUCTOR;
    forall i | 0 <= i < open
      ensures src[i] != '"'
    {
      if i < |CONSTRUCTOR| { assert src[i] == CONSTRUCTOR[i]; }
    }
    FindCharIs(src, '"', 0, open);
    forall i | open + 1 <= i < open + 1 + |name|
      ensures src[i] != '"'
    {
      assert src[i] == tail[i - open - 1] == name[i - open - 1];
    }
    assert src[open + 1 + |name|] == tail[|name|] == '"';
    FindCharIs(src, '"', open + 1, open + 1 + |name|);
    assert src[open + 1..open + 1 + |name|] == tail[..|name|] == name;
  }

  /** The calls that construct a String named s. The second one calls a primitive method, so that the two have no
      "__ctalk_method" in them. */
  const BEHIND_CLASS := ", \"new\", \"s\");\n__ctalk_primitiv"
  const BEHIND_METHOD := " (\"String\", \"new\", 0);\n"
  const LOCAL_OBJECT := CONSTRUCTOR + (" (\"" + ("String" + ("\"" + (BEHIND_CLASS + ("e_method" + BEHIND_METHOD)))))

  lemma CallLetters(text: string, k: nat)
    ensures MatchesAt(text, METHOD_CALL, k) ==> k + 14 <= |text| && text[k + 6] == 'k' && text[k + 13] == 'd'
  {
    if MatchesAt(text, METHOD_CALL, k) {
      var found := text[k..k + |METHOD_CALL|];
      assert text[k + 6] == found[6] && text[k + 13] == found[13];
    }
  }

  lemma OtherLetters(front: string, back: string, k: nat)
    requires 'd' !in front && 'd' !in back
    ensures var text := front + ("e_method" + back);
            k + 14 <= |text| && text[k + 13] == 'd' ==> text[k + 6] != 'k'
  {
    var text := front + ("e_method" + back);
    forall j | 0 <= j < |text| && j != |front| + 7
      ensures text[j] != 'd'
    {
      if j < |front| {
        assert text[j] == front[j] && front[j] in front;
      } else if j >= |front| + 8 {
        assert text[j] == back[j - |front| - 8] && back[j - |front| - 8] in back;
      }
    }
    assert text[|front|] == 'e';
  }

  lemma LocalObjectHasNoCalls()
    ensures !HasCalls(LOCAL_OBJECT)
  {
    var front := CONSTRUCTOR + (" (\"" + ("String" + ("\"" + BEHIND_CLASS)));
    assert 'd' !in front && 'd' !in BEHIND_METHOD;
    assert LOCAL_OBJECT == front + ("e_method" + BEHIND_METHOD);
    forall k | 0 <= k
      ensures !MatchesAt(LOCAL_OBJECT, METHOD_CALL, k)
    {
      CallLetters(LOCAL_OBJECT, k);
      OtherLetters(front, BEHIND_METHOD, k);
    }
  }

  /** A method with nothing but such a declaration constructs a String, and its class is not loaded because of it. */
  lemma LocalObjectIsOverlooked(c: Cache, s: string)
    requires s in c.methods && c.methods[s] == LOCAL_OBJECT
    ensures "String" in NamedClasses(c.methods[s]) && Constructed(c, s) == {}
    ensures Reach(c, Scope({s}, {})) == Scope({s}, {})
  {
    hide NamedClasses, HasCalls;
    LocalObjectHasNoCalls();
    ConstructorNamesClass("String", BEHIND_CLASS + ("e_method" + BEHIND_METHOD));
    ReachWithoutCalls(c, s);
  }
}
