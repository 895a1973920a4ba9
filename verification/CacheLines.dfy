/** The lines of the cache files: a letter that says what the record is, and fields set off by ':'. */
module CacheLines {

  /** What is written for a missing value. */
  const NULLSTR := "(null)"

  /** The fields of a record, each after a ':', up to the end of the line. */
  function Fields(fields: seq<string>): (s: string)
    ensures |s| > 0 && s[0] == if fields == [] then '\n' else ':'
  {
    if fields == [] then "\n" else ":" + (fields[0] + Fields(fields[1..]))
  }

  lemma Fields1(a: string)
    ensures Fields([a]) == ":" + (a + "\n")
  {
    assert [a][1..] == [];
  }

  lemma Fields4(a: string, b: string, c: string, d: string)
    ensures Fields([a, b, c, d]) == ":" + (a + (":" + (b + (":" + (c + (":" + (d + "\n")))))))
  {
    Fields1(d);
    assert [a, b, c, d][1..] == [b, c, d] && [b, c, d][1..] == [c, d] && [c, d][1..] == [d];
    assert Fields([c, d]) == ":" + (c + Fields([d]));
    assert Fields([b, c, d]) == ":" + (b + Fields([c, d]));
  }

  lemma Fields6(a: string, b: string, c: string, d: string, e: string, f: string)
    ensures Fields([a, b, c, d, e, f]) ==
            ":" + (a + (":" + (b + (":" + (c + (":" + (d + (":" + (e + (":" + (f + "\n")))))))))))
  {
    Fields4(c, d, e, f);
    assert [a, b, c, d, e, f][1..] == [b, c, d, e, f] && [b, c, d, e, f][1..] == [c, d, e, f];
    assert Fields([b, c, d, e, f]) == ":" + (b + Fields([c, d, e, f]));
  }

  function RecordLine(tag: char, fields: seq<string>): (s: string)
    ensures |s| > 1
  {
    [tag] + Fields(fields)
  }

  /** A record: its letter and its fields. */
  datatype Rec = Rec(tag: char, fields: seq<string>)

  function RecLine(r: Rec): string {
    RecordLine(r.tag, r.fields)
  }

  /** The lines of some records. */
  function Text(recs: seq<Rec>): string {
    if recs == [] then "" else RecLine(recs[0]) + Text(recs[1..])
  }

  lemma {:induction false} TextAppend(a: seq<Rec>, b: seq<Rec>)
    ensures Text(a + b) == Text(a) + Text(b)
  {
    if a == [] {
      assert a + b == b;
    } else {
      assert (a + b)[1..] == a[1..] + b;
      TextAppend(a[1..], b);
    }
  }

  lemma TextAppendOne(a: seq<Rec>, r: Rec)
    ensures Text(a + [r]) == Text(a) + RecLine(r)
  {
    TextAppend(a, [r]);
    assert Text([r]) == RecLine(r) + Text([r][1..]);
  }

  /** How the loop over a file ends: at the end of the file, at a position it never leaves because no record
      starts there, or at a record with something missing. */
  datatype End = Done | Stuck | Malformed

  /** What is found at a position: no record, one with something missing, or one, with the next position. */
  datatype Read = NoRecord | BadRecord | Record(rec: Rec, next: nat)

  /** The records of a file, up to where the loop over it ends. */
  datatype Contents = Finish(end: End) | More(rec: Rec, rest: Contents)

  function Prepend(recs: seq<Rec>, c: Contents): Contents {
    if recs == [] then c else More(recs[0], Prepend(recs[1..], c))
  }

  lemma {:induction false} PrependAppend(a: seq<Rec>, b: seq<Rec>, c: Contents)
    ensures Prepend(a + b, c) == Prepend(a, Prepend(b, c))
    decreases |a|
  {
    if a == [] {
      assert a + b == b;
    } else {
      assert (a + b)[1..] == a[1..] + b;
      PrependAppend(a[1..], b, c);
    }
  }

  /** buf holds s at position i. */
  predicate HoldsAt(buf: string, i: nat, s: string)
    ensures HoldsAt(buf, i, s) ==> i + |s| <= |buf|
    decreases |s|
  {
    if s == "" then i <= |buf| else i < |buf| && buf[i] == s[0] && HoldsAt(buf, i + 1, s[1..])
  }

  lemma {:induction false} HoldsAtIs(buf: string, i: nat, s: string)
    ensures HoldsAt(buf, i, s) <==> i + |s| <= |buf| && buf[i..i + |s|] == s
    decreases |s|
  {
    if s == "" {
    } else {
      HoldsAtIs(buf, i + 1, s[1..]);
      if i + |s| <= |buf| {
        assert buf[i..i + |s|] == [buf[i]] + buf[i + 1..i + |s|];
        assert s == [s[0]] + s[1..];
      }
    }
  }

  lemma HoldsAtConcat(buf: string, i: nat, a: string, b: string)
    requires HoldsAt(buf, i, a + b)
    ensures HoldsAt(buf, i, a) && HoldsAt(buf, i + |a|, b)
  {
    HoldsAtIs(buf, i, a + b);
    HoldsAtIs(buf, i, a);
    HoldsAtIs(buf, i + |a|, b);
    var s := buf[i..i + |a + b|];
    assert s[..|a|] == a && s[|a|..] == b;
    assert buf[i..i + |a|] == s[..|a|];
    assert buf[i + |a|..i + |a| + |b|] == s[|a|..];
  }

  lemma RecordLineAt(buf: string, l: nat, tag: char, fields: seq<string>)
    requires HoldsAt(buf, l, RecordLine(tag, fields))
    ensures buf[l] == tag && HoldsAt(buf, l + 1, Fields(fields))
  {
    HoldsAtConcat(buf, l, [tag], Fields(fields));
    FirstAt(buf, l, [tag]);
  }

  /** The ':' before the first field, the field, and what ends it. */
  lemma FieldsAt(buf: string, r: nat, fields: seq<string>)
    requires HoldsAt(buf, r, Fields(fields)) && fields != []
    ensures buf[r] == ':' && HoldsAt(buf, r + 1, fields[0]) && HoldsAt(buf, r + 1 + |fields[0]|, Fields(fields[1..]))
    ensures buf[r + 1 + |fields[0]|] == if |fields| == 1 then '\n' else ':'
  {
    var rest := Fields(fields[1..]);
    HoldsAtConcat(buf, r, ":", fields[0] + rest);
    HoldsAtConcat(buf, r + 1, fields[0], rest);
    FirstAt(buf, r, ":");
    FirstAt(buf, r + 1 + |fields[0]|, rest);
  }

  lemma FirstAt(buf: string, i: nat, s: string)
    requires HoldsAt(buf, i, s) && s != ""
    ensures buf[i] == s[0]
  {
  }

  /** The part of s before its first character among stops. */
  function UpTo(s: string, stops: set<char>): (p: string)
    ensures p <= s && (forall c <- p :: c !in stops) && (p == s || s[|p|] in stops)
  {
    if s == "" || s[0] in stops then "" else [s[0]] + UpTo(s[1..], stops)
  }

  predicate Free(s: string, stops: set<char>) {
    forall c <- s :: c !in stops
  }

  lemma UpToFree(s: string, stops: set<char>)
    ensures UpTo(s, stops) == s <==> Free(s, stops)
  {
  }

  /** In a buffer that holds f before one of stops, the part of f before its own first stop is followed by one. */
  lemma UpToAt(buf: string, i: nat, f: string, stops: set<char>)
    requires HoldsAt(buf, i, f) && i + |f| < |buf| && buf[i + |f|] in stops
    ensures var u := UpTo(f, stops);
            && |u| <= |f| && buf[i..i + |u|] == u && buf[i + |u|] in stops
            && forall j | i <= j < i + |u| :: buf[j] !in stops
  {
    var u := UpTo(f, stops);
    HoldsAtIs(buf, i, f);
    forall k | 0 <= k < |u|
      ensures buf[i + k] == u[k] && u[k] !in stops
    {
      assert buf[i + k] == buf[i..i + |f|][k] == f[k] == u[k] && u[k] in u;
    }
    assert forall j | i <= j < i + |u| :: buf[j] == u[j - i];
    if |u| < |f| {
      assert buf[i + |u|] == buf[i..i + |f|][|u|] == f[|u|];
    }
  }
}
