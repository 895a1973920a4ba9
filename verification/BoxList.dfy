/** The doubly linked list of text boxes that compress_tokens of lib/textcx.c rewrites in place. */
module BoxList {
  import opened TextBoxes

  class TextBox {
    var text: string
    var width: nat
    var wrapAfter: bool
    var x: int
    var escapedTag: bool

    function Value(): Box
      reads this
    {
      Box(text, width, wrapAfter, x)
    }
  }

  /** A member of the list, which refers to its text box. */
  class Key {
    var next: Key?
    var prev: Key?
    const textBox: TextBox

    constructor (t: TextBox)
      ensures textBox == t && next == null && prev == null
    {
      textBox, next, prev := t, null, null;
    }
  }

  // ---------- Lists ----------

  /** From p on, after the key before, there are these keys and then after; last is the key before that. */
  ghost predicate Linked(p: Key?, before: Key?, keys: seq<Key>, after: Key?, last: Key?)
    reads keys
    decreases |keys|
  {
    if keys == [] then p == after && before == last
    else p == keys[0] && p.prev == before && Linked(p.next, p, keys[1..], after, last)
  }

  ghost function TextBoxesOf(keys: seq<Key>): set<TextBox> {
    set k | k in keys :: k.textBox
  }

  ghost predicate Separate(keys: seq<Key>)
    decreases |keys|
  {
    keys != [] ==> keys[0] !in keys[1..] && keys[0].textBox !in TextBoxesOf(keys[1..]) && Separate(keys[1..])
  }

  ghost predicate IsList(head: Key, keys: seq<Key>)
    reads keys
  {
    keys != [] && Linked(head, null, keys, null, keys[|keys| - 1]) && Separate(keys)
  }

  function Contents(keys: seq<Key>): Boxes
    reads TextBoxesOf(keys)
    decreases |keys|
  {
    if keys == [] then NoBoxes
    else
      assert keys[0].textBox in TextBoxesOf(keys) && TextBoxesOf(keys[1..]) <= TextBoxesOf(keys);
      Boxes(keys[0].textBox.Value(), Contents(keys[1..]))
  }

  // ---------- Combining ----------

  /** combine_tboxes */
  method CombineTboxes(t1: TextBox, t2: TextBox)
    modifies t1
    ensures t1.Value() == Joined(old(t1.Value()), old(t2.Value()))
    ensures t1.escapedTag == old(t1.escapedTag)
  {
    var t1Width, t2Width := t1.width, t2.width;
    t1.text := t1.text + t2.text;
    t1.width := t1Width + t2Width;
    if t2.wrapAfter { t1.wrapAfter := true; }
  }

  /** The key after l is taken out of the list. Only the first pass clears its own links. */
  method TakeOutNext(l: Key, clear: bool, ghost before: Key?, ghost rest: seq<Key>)
    requires |rest| >= 2 && rest[0] == l && Linked(l, before, rest, null, rest[|rest| - 1]) && Separate(rest)
    modifies rest
    ensures clear ==> rest[1].next == null && rest[1].prev == null
    ensures var rest' := [l] + rest[2..]; Linked(l, before, rest', null, rest'[|rest'| - 1]) && Separate(rest')
  {
    var del := l.next;
    ghost var r, last := rest[2..], rest[|rest| - 1];
    assert rest[1..][1..] == r && rest[1..][0] == rest[1];
    assert Linked(rest[1], l, rest[1..], null, last) && Linked(rest[1].next, rest[1], r, null, last);
    assert l !in rest[1..] && del !in r && Separate(r);
    assert forall k | k in r :: k in rest[1..];
    if del.next != null {
      assert del.next == r[0] == rest[2] && Linked(r[0].next, r[0], r[1..], null, last);
    }
    l.next := del.next;
    if del.next != null {
      del.next.prev := l;
    }
    assert r != [] ==> Linked(r[0].next, r[0], r[1..], null, last);
    if clear {
      del.next, del.prev := null, null;
    }
    assert r != [] ==> Linked(r[0].next, r[0], r[1..], null, last);
    assert ([l] + r)[1..] == r;
  }

  /** One turn of either pass in which two boxes become one. */
  method CombineWithNext(l: Key, clear: bool, ghost before: Key?, ghost rest: seq<Key>)
    requires |rest| >= 2 && rest[0] == l && Linked(l, before, rest, null, rest[|rest| - 1]) && Separate(rest)
    modifies rest, l.textBox
    ensures var rest' := [l] + rest[2..];
            && Linked(l, before, rest', null, rest'[|rest'| - 1]) && Separate(rest')
            && Contents(rest') ==
               Boxes(Joined(old(l.textBox.Value()), old(rest[1].textBox.Value())), old(Contents(rest[2..])))
  {
    ghost var r := rest[2..];
    assert l.next == rest[1..][0] == rest[1];
    assert rest[1].textBox in TextBoxesOf(rest[1..]);
    assert forall k | k in r :: k in rest[1..];
    CombineTboxes(l.textBox, l.next.textBox);
    assert Contents(r) == old(Contents(r));
    TakeOutNext(l, clear, before, rest);
    assert ([l] + r)[1..] == r;
  }

  // ---------- The passes ----------

  ghost predicate InRepr(keys: seq<Key>, repr: set<object>) {
    forall i | 0 <= i < |keys| :: keys[i] in repr && keys[i].textBox in repr
  }

  ghost predicate Apart(done: seq<Key>, rest: seq<Key>) {
    forall i | 0 <= i < |done| :: done[i] !in rest && done[i].textBox !in TextBoxesOf(rest)
  }

  /** The list from head on is what a pass has left behind, and then the keys it has still to look at. */
  ghost predicate Underway(head: Key, done: seq<Key>, before: Key?, rest: seq<Key>)
    reads done, rest
  {
    && rest != [] && Linked(head, null, done, rest[0], before)
    && Linked(rest[0], before, rest, null, rest[|rest| - 1])
    && Separate(done) && Separate(rest) && Apart(done, rest)
  }

  lemma {:induction false} LinkedAppend(p: Key?, before: Key?, xs: seq<Key>, middle: Key?, last: Key?, ys: seq<Key>,
                                        after: Key?, last': Key?)
    requires Linked(p, before, xs, middle, last) && Linked(middle, last, ys, after, last')
    ensures Linked(p, before, xs + ys, after, last')
    decreases |xs|
  {
    if xs == [] {
      assert xs + ys == ys;
    } else {
      LinkedAppend(p.next, p, xs[1..], middle, last, ys, after, last');
      assert (xs + ys)[1..] == xs[1..] + ys;
    }
  }

  lemma {:induction false} SeparateAppend(xs: seq<Key>, ys: seq<Key>)
    requires Separate(xs) && Separate(ys) && Apart(xs, ys)
    ensures Separate(xs + ys)
    decreases |xs|
  {
    if xs == [] {
      assert xs + ys == ys;
    } else {
      SeparateAppend(xs[1..], ys);
      assert (xs + ys)[1..] == xs[1..] + ys;
      assert TextBoxesOf(xs[1..] + ys) == TextBoxesOf(xs[1..]) + TextBoxesOf(ys);
    }
  }

  lemma {:induction false} ContentsAppend(xs: seq<Key>, ys: seq<Key>)
    ensures Contents(xs + ys) == Append(Contents(xs), Contents(ys))
    decreases |xs|
  {
    if xs == [] {
      assert xs + ys == ys;
    } else {
      ContentsAppend(xs[1..], ys);
      assert (xs + ys)[1..] == xs[1..] + ys;
    }
  }

  lemma Advance(head: Key, done: seq<Key>, before: Key?, rest: seq<Key>)
    requires Underway(head, done, before, rest) && |rest| >= 2
    ensures Underway(head, done + rest[..1], rest[0], rest[1..])
    ensures forall more :: Append(Contents(done + rest[..1]), more) ==
                           Append(Contents(done), Boxes(rest[0].textBox.Value(), more))
  {
    var l := rest[0];
    assert rest[..1] == [l] && [l][1..] == [];
    assert Linked(l.next, l, rest[1..], null, rest[|rest| - 1]);
    assert Linked(l, before, [l], rest[1], l);
    LinkedAppend(head, null, done, l, before, [l], rest[1], l);
    assert TextBoxesOf([l]) == {l.textBox};
    assert forall k | k in rest[1..] :: k in rest;
    SeparateAppend(done, [l]);
    ContentsAppend(done, [l]);
    forall more
      ensures Append(Contents(done + [l]), more) == Append(Contents(done), Boxes(l.textBox.Value(), more))
    {
      AppendAssoc(Contents(done), Boxes(l.textBox.Value(), NoBoxes), more);
    }
  }

  /** Combining two boxes leaves what the pass is done with as it was. */
  method CombineUnderway(head: Key, l: Key, clear: bool, ghost done: seq<Key>, ghost before: Key?, ghost rest: seq<Key>)
    requires Underway(head, done, before, rest) && |rest| >= 2 && l == rest[0]
    modifies rest, l.textBox
    ensures Underway(head, done, before, [l] + rest[2..])
    ensures Contents(done) == old(Contents(done))
    ensures Contents([l] + rest[2..]) ==
            Boxes(Joined(old(l.textBox.Value()), old(rest[1].textBox.Value())), old(Contents(rest[2..])))
  {
    CombineWithNext(l, clear, before, rest);
    assert forall k | k in [l] + rest[2..] :: k in rest;
    assert Linked(head, null, done, l, before);
  }

  /** What is left of the boxes once a pass that has got this far is over. */
  ghost function ToDo(done: seq<Key>, rest: seq<Key>, test: Test, turn: nat): Boxes
    reads TextBoxesOf(done), TextBoxesOf(rest)
  {
    Append(Contents(done), PairUp(Contents(rest), test, turn))
  }

  lemma NextKey(head: Key, l: Key, done: seq<Key>, before: Key?, rest: seq<Key>)
    requires Underway(head, done, before, rest) && l == rest[0]
    ensures |rest| == 1 <==> l.next == null
    ensures |rest| == 1 ==> Contents(rest) == Boxes(l.textBox.Value(), NoBoxes)
    ensures Contents(rest) == Boxes(l.textBox.Value(), Contents(rest[1..]))
    ensures |rest| >= 2 ==> l.next == rest[1]
    ensures |rest| >= 2 ==> Contents(rest[1..]) == Boxes(rest[1].textBox.Value(), Contents(rest[2..]))
  {
    assert Linked(l.next, l, rest[1..], null, rest[|rest| - 1]);
    assert |rest| >= 2 ==> rest[1..][1..] == rest[2..] && rest[1..][0] == rest[1];
  }

  lemma Finish(head: Key, done: seq<Key>, before: Key?, rest: seq<Key>, test: Test, turn: nat)
    requires Underway(head, done, before, rest) && rest[0].next == null
    ensures IsList(head, done + rest) && Contents(done + rest) == ToDo(done, rest, test, turn)
  {
    NextKey(head, rest[0], done, before, rest);
    LinkedAppend(head, null, done, rest[0], before, rest, null, rest[|rest| - 1]);
    SeparateAppend(done, rest);
    ContentsAppend(done, rest);
  }

  lemma PairUpStep(a: Box, b: Box, rest: Boxes, test: Test, turn: nat)
    ensures test(a, b, turn) ==>
              PairUp(Boxes(a, Boxes(b, rest)), test, turn) == Boxes(Joined(a, b), PairUp(rest, test, turn + 1))
    ensures !test(a, b, turn) ==>
              PairUp(Boxes(a, Boxes(b, rest)), test, turn) == Boxes(a, PairUp(Boxes(b, rest), test, turn + 1))
    ensures PairUp(NoBoxes, test, turn + 1) == NoBoxes
    ensures PairUp(Boxes(Joined(a, b), NoBoxes), test, turn + 1) == Boxes(Joined(a, b), NoBoxes)
  {
  }

  lemma Start(head: Key, keys: seq<Key>, test: Test)
    requires IsList(head, keys)
    ensures Underway(head, [], null, keys) && keys[0] == head && [] + keys == keys
    ensures ToDo([], keys, test, 0) == PairUp(Contents(keys), test, 0)
  {
  }

  /** One turn of a pass: puts the box of l together with the next one if it should, and moves on. */
  method Turn(head: Key, l: Key, combine: bool, clear: bool, ghost done: seq<Key>, ghost before: Key?,
              ghost rest: seq<Key>, ghost repr: set<object>, ghost test: Test, ghost turn: nat)
    returns (l': Key?, ghost done': seq<Key>, ghost before': Key?, ghost rest': seq<Key>)
    requires Underway(head, done, before, rest) && |rest| >= 2 && l == rest[0]
    requires InRepr(done, repr) && InRepr(rest, repr)
    requires combine == test(l.textBox.Value(), rest[1].textBox.Value(), turn)
    modifies repr
    ensures rest' != [] && Underway(head, done', before', rest') && InRepr(done', repr) && InRepr(rest', repr)
    ensures ToDo(done', rest', test, turn + 1) == old(ToDo(done, rest, test, turn))
    ensures l' == null ==> rest'[0].next == null
    ensures l' != null ==> l' == rest'[0] && |rest'| < |rest|
  {
    hide Linked, Separate, Contents, Apart, PairUp, Joined;
    NextKey(head, l, done, before, rest);
    PairUpStep(l.textBox.Value(), rest[1].textBox.Value(), Contents(rest[2..]), test, turn);
    rest' := rest;
    if combine {
      CombineUnderway(head, l, clear, done, before, rest);
      rest' := [l] + rest[2..];
    }
    NextKey(head, l, done, before, rest');
    done', before', l' := done, before, l.next;
    if l' != null {
      Advance(head, done, before, rest');
      done', before', rest' := done + rest'[..1], l, rest'[1..];
    }
  }

  /** The first pass: a word takes in the blanks that follow it. */
  method CombineWordsWithBlanks(head: Key, ghost keys: seq<Key>, ghost repr: set<object>)
    returns (ghost left: seq<Key>)
    requires IsList(head, keys) && InRepr(keys, repr)
    modifies repr
    ensures IsList(head, left) && InRepr(left, repr)
    ensures Contents(left) == PairUp(old(Contents(keys)), FirstTest, 0)
  {
    hide Linked, Separate, Contents, Apart, PairUp, ToDo, Underway, IsList;
    var l, turn := head, 0;
    ghost var done, before, rest := [], null, keys;
    Start(head, keys, FirstTest);
    while l.next != null
      invariant rest != [] && l == rest[0] && Underway(head, done, before, rest)
      invariant InRepr(done, repr) && InRepr(rest, repr)
      invariant ToDo(done, rest, FirstTest, turn) == old(PairUp(Contents(keys), FirstTest, 0))
      decreases |rest|
    {
      NextKey(head, l, done, before, rest);
      var combine := FirstTest(l.textBox.Value(), l.next.textBox.Value(), turn);
      var next: Key?;
      next, done, before, rest := Turn(head, l, combine, true, done, before, rest, repr, FirstTest, turn);
      turn := turn + 1;
      if next == null { break; }
      l := next;
    }
    Finish(head, done, before, rest, FirstTest, turn);
    left := done + rest;
  }

  /** The second pass: a word with blanks takes in the next one. */
  method CombineWords(head: Key, stray: nat -> bool, ghost keys: seq<Key>, ghost repr: set<object>)
    returns (ghost left: seq<Key>)
    requires IsList(head, keys) && InRepr(keys, repr)
    modifies repr
    ensures IsList(head, left) && InRepr(left, repr)
    ensures Contents(left) == PairUp(old(Contents(keys)), Second(stray), 0)
  {
    hide Linked, Separate, Contents, Apart, PairUp, ToDo, Underway, IsList;
    var l, turn := head, 0;
    ghost var done, before, rest := [], null, keys;
    Start(head, keys, Second(stray));
    while l.next != null
      invariant rest != [] && l == rest[0] && Underway(head, done, before, rest)
      invariant InRepr(done, repr) && InRepr(rest, repr)
      invariant ToDo(done, rest, Second(stray), turn) == old(PairUp(Contents(keys), Second(stray), 0))
      decreases |rest|
    {
      NextKey(head, l, done, before, rest);
      var combine := Second(stray)(l.textBox.Value(), l.next.textBox.Value(), turn);
      var next: Key?;
      next, done, before, rest := Turn(head, l, combine, false, done, before, rest, repr, Second(stray), turn);
      turn := turn + 1;
      if next == null { break; }
      l := next;
    }
    Finish(head, done, before, rest, Second(stray), turn);
    left := done + rest;
  }

  /** compress_tokens */
  method CompressTokens(head: Key, stray: nat -> bool, ghost keys: seq<Key>, ghost repr: set<object>)
    returns (ghost left: seq<Key>)
    requires IsList(head, keys) && InRepr(keys, repr)
    modifies repr
    ensures IsList(head, left) && InRepr(left, repr)
    ensures Contents(left) == Compressed(old(Contents(keys)), stray)
  {
    left := CombineWordsWithBlanks(head, keys, repr);
    left := CombineWords(head, stray, left, repr);
  }
}
