/** What the output has before a method whose source is as src/output.c writes it. */
module EmittedCalls {
  import opened CStrings
  import opened MethodSource
  import opened EmitTrace
  import opened WrittenSource

  /** A method needs the methods that it calls, if their selectors are read, and those it has a fixup for. */
  lemma CallsAreNeeded(c: Cache, m: string, s: Source)
    requires m in c.methods && c.methods[m] == Render(s) && WellWritten(s) && SelectorsAreRead(s) && Selectors(s) != []
    ensures Deps(c, m) == (set f | f in Selectors(s)) + (set f | f in Fixups(Render(s), 0))
    ensures Constructed(c, m) == (set k | k in Classes(s)) - c.loaded
  {
    hide Render, Fixups, Names, HasCalls, Selectors, Classes, SelectorsAreRead, WellWritten;
    CallsAreSeen(s);
    SelectorsAreFound(s);
    ClassesAreFound(s);
  }

  /** In sound output a method comes after every method that it calls and every class that it constructs, however many
      there are, if it calls one at all and none is sent to a receiver that misleads the search. */
  lemma CallsComeFirst(c: Cache, o: Output, b: Output, e: Event, s: Source)
    requires OutputOk(c, o) && Begins(EmitTrace.Then(b, e), o) && e.MethodDef? && e.selector in c.methods
    requires c.methods[e.selector] == Render(s) && WellWritten(s) && SelectorsAreRead(s) && Selectors(s) != []
    ensures forall f | f in Selectors(s) :: f in Emitted(b)
    ensures forall k | k in Classes(s) :: k in Defined(b) || k in c.loaded
  {
    hide OutputOk, Render, WellWritten, SelectorsAreRead, Deps, Constructed;
    Sound(c, b, e, o);
    CallsAreNeeded(c, e.selector, s);
    forall f | f in Selectors(s)
      ensures f in Emitted(b)
    {
      assert f in Deps(c, e.selector);
    }
    forall k | k in Classes(s)
      ensures k in Defined(b) || k in c.loaded
    {
      assert k in c.loaded || k in Constructed(c, e.selector);
    }
  }

  /** "a,b" b */
  const MESSAGE_TO_LITERAL := MethodCall("\\\"a,b\\\"", "A_instance_b_0", "b")

  /** Of a message to the literal "a,b", what is behind the ',' in it is read for the selector. */
  lemma LiteralMisleads()
    ensures ItemOk(MESSAGE_TO_LITERAL) && NameRead(MESSAGE_TO_LITERAL) == "b\\\"\""
    ensures !SelectorsAreRead(With("", MESSAGE_TO_LITERAL, Plain(";")))
  {
    var i := MESSAGE_TO_LITERAL;
    var t := ItemText(i);
    hide ItemText, NextName, SelectorIsRead;
    ShortTexts(i);
    assert t[..26] == "__ctalk_method (\"\\\"a,b\\\"\"," by { CallText(i); }
    assert forall k | 0 <= k < 26 :: t[k] == t[..26][k];
    assert NameAt(t, Call, 20, 21, 25);
    NothingBefore(Call);
    ItemHasOneKey(i, Call);
    NameAtIsFound("", t, "", Call, 0, 20, 21, 25);
    assert "" + (t + "") == t && t[21..25] == t[..26][21..25] == "b\\\"\"";
    var next := ItemIsRead("", i, "", 0);
    assert i.selector[0] == 'A';
  }

  lemma ShortTexts(i: Item)
    requires i == MESSAGE_TO_LITERAL
    ensures ItemOk(i)
  {
    assert |i.selector| == 14 && i.selector[0] == 'A';
    if MatchesAt(i.selector, Key(Call), 0) { CallKeyShape(i.selector, 0); }
  }
}
