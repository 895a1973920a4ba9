/** The C library character tests and searches that the modelled code calls, with their plain meaning in
    the "C" locale. Strings never contain the terminating NUL. */
module CStrings {

  datatype Option<+T> = None | Some(value: T)

  const NUL: char := 0 as char
  const CR: char := 13 as char
  const LF: char := 10 as char

  predicate IsSpace(c: char) {
    c == ' ' || 9 as char <= c <= 13 as char
  }

  predicate IsBlank(c: char) {
    c == ' ' || c == '\t'
  }

  predicate IsAlnum(c: char) {
    '0' <= c <= '9' || 'a' <= c <= 'z' || 'A' <= c <= 'Z'
  }

  /** Blanks are whitespace, letters and digits are not; newlines, vertical tab and form feed are the rest of it. */
  lemma Whitespace(c: char)
    ensures IsSpace(c) <==> IsBlank(c) || c in {'\n', 11 as char, 12 as char, '\r'}
    ensures IsAlnum(c) ==> !IsSpace(c)
  {
  }

  predicate NoNul(s: string) {
    NUL !in s
  }

  /** strchr (&text[from], c), as an index into text. */
  function FindChar(text: string, c: char, from: nat): (r: Option<nat>)
    requires from <= |text|
    ensures r.Some? ==> from <= r.value < |text| && text[r.value] == c
    decreases |text| - from
  {
    if from == |text| then None
    else if text[from] == c then Some(from)
    else FindChar(text, c, from + 1)
  }

  lemma {:induction false} FindCharFirst(text: string, c: char, from: nat)
    requires from <= |text|
    ensures match FindChar(text, c, from)
            case Some(i) => forall k | from <= k < i :: text[k] != c
            case None => forall k | from <= k < |text| :: text[k] != c
    decreases |text| - from
  {
    if from == |text| || text[from] == c {
    } else {
      FindCharFirst(text, c, from + 1);
    }
  }

  lemma {:induction false} FindCharIs(text: string, c: char, from: nat, k: nat)
    requires from <= k < |text| && text[k] == c && forall i | from <= i < k :: text[i] != c
    ensures FindChar(text, c, from) == Some(k)
    decreases k - from
  {
    if from == k {
    } else {
      FindCharIs(text, c, from + 1, k);
    }
  }

  predicate MatchesAt(text: string, pat: string, i: nat) {
    i + |pat| <= |text| && text[i..i + |pat|] == pat
  }

  /** strstr (&text[from], pat), as an index into text. */
  function FindStr(text: string, pat: string, from: nat): (r: Option<nat>)
    requires from <= |text|
    ensures r.Some? ==> from <= r.value && MatchesAt(text, pat, r.value) &&
                        forall k | from <= k < r.value :: !MatchesAt(text, pat, k)
    ensures r.None? ==> forall k | from <= k :: !MatchesAt(text, pat, k)
    decreases |text| - from
  {
    if MatchesAt(text, pat, from) then Some(from)
    else if from == |text| then None
    else FindStr(text, pat, from + 1)
  }

  lemma FindStrIs(text: string, pat: string, from: nat, k: nat)
    requires from <= k && MatchesAt(text, pat, k)
    requires forall i | from <= i < k :: !MatchesAt(text, pat, i)
    ensures FindStr(text, pat, from) == Some(k)
  {
  }

  /** The string a C buffer holds: everything before the first NUL. */
  function CStr(buf: seq<char>): (s: string)
    ensures NoNul(s) && s <= buf
  {
    if buf == [] || buf[0] == NUL then [] else [buf[0]] + CStr(buf[1..])
  }

  lemma {:induction false} CStrIs(buf: seq<char>, n: nat)
    requires n < |buf| && buf[n] == NUL && NoNul(buf[..n])
    ensures CStr(buf) == buf[..n]
  {
    if n == 0 {
    } else {
      assert buf[..n][0] == buf[0];
      assert buf[1..][..n - 1] == buf[..n][1..];
      CStrIs(buf[1..], n - 1);
    }
  }
}
