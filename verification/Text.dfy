/** String primitives of the scrapers, over characters. */
module Text {

  /** `pat` occurs in `s` at position i. */
  predicate At(s: string, pat: string, i: int) {
    0 <= i <= |s| && pat <= s[i..]
  }

  ghost predicate Contains(s: string, pat: string) {
    exists i :: At(s, pat, i)
  }

  /** The first occurrence at or after `from`, or -1. */
  function Find(s: string, pat: string, from: nat): (r: int)
    ensures r == -1 || from <= r <= |s| - |pat|
    decreases |s| - from
  {
    if from > |s| then -1
    else if At(s, pat, from) then from
    else Find(s, pat, from + 1)
  }

  lemma {:induction false} FindExact(s: string, pat: string, from: nat)
    ensures var r := Find(s, pat, from);
            && (r == -1 || (from <= r && At(s, pat, r)))
            && (forall j :: from <= j && (r == -1 || j < r) ==> !At(s, pat, j))
    decreases |s| - from
  {
    if from > |s| || At(s, pat, from) {
    } else {
      FindExact(s, pat, from + 1);
    }
  }

  lemma FoundExactly(s: string, pat: string, from: nat, i: int)
    requires from <= i && At(s, pat, i)
    requires forall j :: from <= j < i ==> !At(s, pat, j)
    ensures Find(s, pat, from) == i
  {
    FindExact(s, pat, from);
  }

  lemma AtChar(s: string, c: char, i: int)
    ensures At(s, [c], i) <==> 0 <= i < |s| && s[i] == c
  {
    if 0 <= i < |s| {
      assert s[i..][0] == s[i];
      assert [c] <= s[i..] <==> s[i..][0] == c;
    }
  }

  lemma FindAbsent(s: string, c: char)
    requires c !in s
    ensures Find(s, [c], 0) == -1
  {
    FindExact(s, [c], 0);
    AtChar(s, c, Find(s, [c], 0));
  }

  lemma FindFirst(s: string, c: char, from: nat, g: nat)
    requires from <= g < |s| && s[g] == c
    requires forall j :: from <= j < g ==> s[j] != c
    ensures Find(s, [c], from) == g
  {
    AtChar(s, c, g);
    forall j | from <= j < g ensures !At(s, [c], j) {
      AtChar(s, c, j);
    }
    FoundExactly(s, [c], from, g);
  }

  lemma FindAfter(a: string, c: char, b: string)
    requires c !in a
    ensures Find(a + [c] + b, [c], 0) == |a|
  {
    FindFirst(a + [c] + b, c, 0, |a|);
  }

  /** The page test of the scrapers. */
  predicate Has(s: string, pat: string)
    ensures Has(s, pat) <==> Contains(s, pat)
  {
    FindExact(s, pat, 0);
    Find(s, pat, 0) >= 0
  }

  lemma ContainsInside(a: string, s: string, b: string, pat: string)
    requires Contains(s, pat)
    ensures Contains(a + s + b, pat)
  {
    var i :| At(s, pat, i);
    assert (a + s + b)[|a| + i..] == s[i..] + b;
    assert At(a + s + b, pat, |a| + i);
  }

  lemma ContainsRight(s: string, b: string, pat: string)
    requires Contains(s, pat)
    ensures Contains(s + b, pat)
  {
    ContainsInside([], s, b, pat);
    assert [] + s == s;
  }

  lemma ContainsLeft(a: string, s: string, pat: string)
    requires Contains(s, pat)
    ensures Contains(a + s, pat)
  {
    ContainsInside(a, s, [], pat);
    assert a + s + [] == a + s;
  }

  lemma TailContains(s: string, pat: string)
    requires s != []
    ensures Contains(s[1..], pat) ==> Contains(s, pat)
  {
    if Contains(s[1..], pat) {
      ContainsLeft([s[0]], s[1..], pat);
      assert [s[0]] + s[1..] == s;
    }
  }

  predicate IsDigit(c: char) { '0' <= c <= '9' }

  predicate AllDigits(s: string) {
    forall i :: 0 <= i < |s| ==> IsDigit(s[i])
  }

  /** Drops every occurrence of one character. */
  function Remove(s: string, c: char): string {
    if s == [] then []
    else (if s[0] == c then [] else [s[0]]) + Remove(s[1..], c)
  }

  /** Replaces every occurrence of one character by another. */
  function Swap(s: string, c: char, d: char): (r: string)
    ensures |r| == |s|
    ensures forall i :: 0 <= i < |s| ==> r[i] == if s[i] == c then d else s[i]
  {
    seq(|s|, i requires 0 <= i < |s| => if s[i] == c then d else s[i])
  }

  lemma {:induction false} RemoveConcat(a: string, b: string, c: char)
    ensures Remove(a + b, c) == Remove(a, c) + Remove(b, c)
  {
    if a == [] {
      assert a + b == b;
    } else {
      assert (a + b)[1..] == a[1..] + b;
      RemoveConcat(a[1..], b, c);
    }
  }

  lemma {:induction false} RemoveAbsent(s: string, c: char)
    requires c !in s
    ensures Remove(s, c) == s
  {
    if s == [] {
    } else {
      RemoveAbsent(s[1..], c);
    }
  }

  // ----- white space

  /** The white space that trimming removes. */
  predicate IsSpace(c: char) {
    c in {'\t', '\n', '\U{B}', '\U{C}', '\r', ' ',
          '\U{85}', '\U{A0}', '\U{1680}', '\U{2028}', '\U{2029}', '\U{202F}', '\U{205F}', '\U{3000}'}
    || '\U{2000}' <= c <= '\U{200A}'
  }

  /** In ASCII these are blank, tab and the line breaks. */
  lemma AsciiSpaces(c: char)
    requires c < '\U{80}'
    ensures IsSpace(c) <==> c in {' ', '\t', '\n', '\r', '\U{B}', '\U{C}'}
  {
  }

  function TrimLeft(s: string): string {
    if s != [] && IsSpace(s[0]) then TrimLeft(s[1..]) else s
  }

  function TrimRight(s: string): string {
    if s != [] && IsSpace(s[|s| - 1]) then TrimRight(s[..|s| - 1]) else s
  }

  function Trim(s: string): string {
    TrimRight(TrimLeft(s))
  }

  predicate AllSpace(s: string) {
    forall i :: 0 <= i < |s| ==> IsSpace(s[i])
  }

  /** Nothing to trim. */
  predicate Tight(s: string) {
    s == [] || (!IsSpace(s[0]) && !IsSpace(s[|s| - 1]))
  }

  /** Trimming gives back a tight core whatever space surrounds it. */
  lemma {:induction false} TrimPadded(a: string, s: string, b: string)
    requires AllSpace(a) && AllSpace(b) && Tight(s)
    ensures Trim(a + s + b) == s
  {
    if a != [] {
      assert (a + s + b)[1..] == a[1..] + s + b;
      TrimPadded(a[1..], s, b);
    } else if b != [] {
      assert a + s + b == s + b;
      var front := b[..|b| - 1];
      TrimPadded([], s, front);
      assert [] + s + front == s + front;
      if s != [] {
        assert (s + b)[..|s + b| - 1] == s + front;
        assert TrimLeft(s + b) == s + b && TrimLeft(s + front) == s + front;
      } else {
        assert s + b == b && s + front == front;
        TrimSpaceOnly(b);
      }
    } else {
      assert a + s + b == s;
    }
  }

  lemma {:induction false} TrimSpaceOnly(b: string)
    requires AllSpace(b)
    ensures TrimLeft(b) == []
  {
    if b == [] {
    } else {
      TrimSpaceOnly(b[1..]);
    }
  }
}
