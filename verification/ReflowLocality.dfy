/** How far back an edit can disturb the line breaks: two texts that agree on a prefix break alike, up to the
    line before the one in which the prefix ends. */
module ReflowLocality {
  import opened CStrings
  import opened LineSplitter

  lemma {:induction false} StopAtAgrees(a: string, b: string, p: nat, i: nat, limit: nat)
    requires p <= |a| && p <= |b| && a[..p] == b[..p]
    requires i <= |a| && i <= |b| && i <= limit
    requires StopAt(a, i, limit) < p
    ensures StopAt(b, i, limit) == StopAt(a, i, limit)
    decreases limit - i
  {
    assert a[..p][i] == b[..p][i];
    if IsNewline(a[i]) || i == limit {
    } else {
      StopAtAgrees(a, b, p, i + 1, limit);
    }
  }

  lemma {:induction false} RunEndAgrees(a: string, b: string, p: nat, i: nat)
    requires p <= |a| && p <= |b| && a[..p] == b[..p]
    requires i < |a| && i < |b| && IsSpace(a[i]) && IsSpace(b[i])
    requires RunEnd(a, i) + 1 < p
    ensures RunEnd(b, i) == RunEnd(a, i)
    decreases |a| - i
  {
    assert a[..p][i + 1] == b[..p][i + 1];
    if !IsSpace(a[i + 1]) {
    } else {
      RunEndAgrees(a, b, p, i + 1);
    }
  }

  lemma {:induction false} LastSpaceAgrees(a: string, b: string, lo: nat, hi: nat)
    requires lo <= hi <= |a| && hi <= |b| && a[..hi] == b[..hi]
    ensures LastSpace(b, lo, hi) == LastSpace(a, lo, hi)
  {
    if lo == hi {
    } else {
      assert a[..hi][hi - 1] == b[..hi][hi - 1];
      assert a[..hi - 1] == a[..hi][..hi - 1] == b[..hi - 1];
      LastSpaceAgrees(a, b, lo, hi - 1);
    }
  }

  /** Deciding where a line ends may look ahead, but never past where the line after it ends. */
  lemma LookAheadIsBounded(text: string, width: int, ls: nat)
    requires ls <= |text| && NextCut(text, width, ls).Break?
    requires NextCut(text, width, NextCut(text, width, ls).next).Break?
    ensures StopAt(text, ls, Limit(width, ls)) < NextCut(text, width, NextCut(text, width, ls).next).next
  {
    var stop := StopAt(text, ls, Limit(width, ls));
    var n := NextCut(text, width, ls).next;
    StopAtFirst(text, ls, Limit(width, ls));
    StopAtFirst(text, n, Limit(width, n));
    LastSpaceLast(text, ls, stop);
    if n <= stop {
      var stop2 := StopAt(text, n, Limit(width, n));
      assert forall k | n <= k <= stop :: !IsSpace(text[k]);
      assert stop2 > stop;
    }
  }

  lemma CutAgrees(a: string, b: string, width: int, p: nat, ls: nat)
    requires p <= |a| && p <= |b| && a[..p] == b[..p]
    requires ls <= |a| && ls <= |b| && NextCut(a, width, ls).Break?
    requires NextCut(a, width, NextCut(a, width, ls).next).Break?
    requires NextCut(a, width, NextCut(a, width, ls).next).next <= p
    ensures NextCut(b, width, ls) == NextCut(a, width, ls)
  {
    var stop := StopAt(a, ls, Limit(width, ls));
    LookAheadIsBounded(a, width, ls);
    StopAtAgrees(a, b, p, ls, Limit(width, ls));
    assert a[..p][stop] == b[..p][stop];
    if IsNewline(a[stop]) {
    } else if IsSpace(a[stop]) {
      RunEndAgrees(a, b, p, stop);
    } else {
      assert a[..stop] == a[..p][..stop] == b[..stop];
      LastSpaceAgrees(a, b, ls, stop);
    }
  }

  lemma {:induction false} StartsIncrease(text: string, lines: seq<Line>, ls: nat, i: nat, k: nat)
    requires Tiles(text, lines, ls) && i <= k < |lines|
    ensures lines[i].start + (k - i) <= lines[k].start <= |text|
    decreases k - i
  {
    if i < k {
      assert Follows(lines[i], lines[i + 1]);
      StartsIncrease(text, lines, ls, i + 1, k);
    } else {
      assert IsSlice(text, lines[k]);
    }
  }

  lemma {:induction false} AgreeFrom(a: string, b: string, width: int, p: nat, ls: nat, keep: nat)
    requires p <= |a| && p <= |b| && a[..p] == b[..p]
    requires ls <= |a| && ls <= |b|
    requires keep + 1 < |SplitFrom(a, width, ls)| && SplitFrom(a, width, ls)[keep + 1].start <= p
    ensures keep <= |SplitFrom(b, width, ls)| && SplitFrom(b, width, ls)[..keep] == SplitFrom(a, width, ls)[..keep]
    decreases keep
  {
    if keep == 0 {
    } else {
      var la, lb := SplitFrom(a, width, ls), SplitFrom(b, width, ls);
      var cut := NextCut(a, width, ls);
      var ra := SplitFrom(a, width, cut.next);
      assert la == [Line(ls, a[ls..cut.end])] + ra;
      SecondLineStart(a, width, cut.next, keep);
      CutAgrees(a, b, width, p, ls);
      AgreeFrom(a, b, width, p, cut.next, keep - 1);
      var rb := SplitFrom(b, width, cut.next);
      assert lb == [Line(ls, b[ls..cut.end])] + rb;
      assert a[ls..cut.end] == a[..p][ls..cut.end] == b[..p][ls..cut.end] == b[ls..cut.end];
      assert la[..keep] == [la[0]] + ra[..keep - 1];
      assert lb[..keep] == [lb[0]] + rb[..keep - 1];
    }
  }

  lemma SecondLineStart(text: string, width: int, ls: nat, k: nat)
    requires ls <= |text| && 0 < k < |SplitFrom(text, width, ls)|
    ensures NextCut(text, width, ls).Break?
    ensures NextCut(text, width, ls).next <= SplitFrom(text, width, ls)[k].start
  {
    SplitTiles(text, width, ls);
    StartsIncrease(text, SplitFrom(text, width, ls), ls, 1, k);
  }

  /** Reflow locality: when two texts agree up to p and line keep + 1 of the first starts at or before p, the
      first keep lines of both are the same. */
  lemma ReflowIsLocal(a: string, b: string, width: int, p: nat, keep: nat)
    requires p <= |a| && p <= |b| && a[..p] == b[..p]
    requires keep + 1 < |Split(a, width)| && Split(a, width)[keep + 1].start <= p
    ensures keep <= |Split(b, width)| && Split(b, width)[..keep] == Split(a, width)[..keep]
  {
    AgreeFrom(a, b, width, p, 0, keep);
  }

  /** The bound is exact: shortening line 1 can pull it back onto line 0. */
  lemma LineBeforeCanChange()
    ensures "x yyy"[..4] == "x yy"[..4]
    ensures Split("x yyy", 3) == [Line(0, "x "), Line(2, "yyy")]
    ensures Split("x yy", 3) == [Line(0, "x yy")]
  {
    var a, b := "x yyy", "x yy";
    assert StopAt(a, 4, 4) == 4 && StopAt(a, 2, 4) == 4;
    assert StopAt(a, 0, 4) == 4;
    assert LastSpace(a, 0, 2) == Some(1);
    assert LastSpace(a, 0, 4) == Some(1);
    assert NextCut(a, 3, 0) == Break(2, 2);
    assert StopAt(a, 5, 6) == 5 && StopAt(a, 3, 6) == 5;
    assert SplitFrom(a, 3, 2) == [Line(2, a[2..])];
    assert a[0..2] == "x " && a[2..] == "yyy";
    assert StopAt(b, 2, 4) == 4;
    assert StopAt(b, 0, 4) == 4;
    assert b[0..] == b;
  }
}
