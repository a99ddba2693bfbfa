/** The article number in a product URL: its longest run of digits. */
module ProductToken {
  import opened Text

  /** Digits from a to b that no neighbour extends. */
  predicate IsRun(url: string, a: int, b: int) {
    && 0 <= a < b <= |url|
    && (forall i :: a <= i < b ==> IsDigit(url[i]))
    && (a == 0 || !IsDigit(url[a - 1]))
    && (b == |url| || !IsDigit(url[b]))
  }

  /** Where the digits that start at i end. */
  function RunEnd(url: string, i: nat): (e: nat)
    requires i <= |url|
    ensures i <= e <= |url|
    ensures forall j :: i <= j < e ==> IsDigit(url[j])
    ensures e == |url| || !IsDigit(url[e])
    decreases |url| - i
  {
    if i < |url| && IsDigit(url[i]) then RunEnd(url, i + 1) else i
  }

  const MIN_RUN := 6

  /** The matches of the digit-run pattern, left to right, as intervals. */
  function Matches(url: string, i: nat): (ms: seq<(nat, nat)>)
    requires i <= |url|
    decreases |url| - i
  {
    if i == |url| then []
    else if !IsDigit(url[i]) then Matches(url, i + 1)
    else
      var e := RunEnd(url, i);
      (if e - i >= MIN_RUN then [(i, e)] else []) + Matches(url, e)
  }

  /** Only runs from i on that are long enough. */
  ghost predicate Sound(url: string, i: nat, ms: seq<(nat, nat)>) {
    forall x :: 0 <= x < |ms| ==> i <= ms[x].0 && IsRun(url, ms[x].0, ms[x].1) && ms[x].1 - ms[x].0 >= MIN_RUN
  }

  predicate LeftToRight(ms: seq<(nat, nat)>) {
    forall x, y :: 0 <= x < y < |ms| ==> ms[x].0 < ms[y].0
  }

  /** All runs from i on that are long enough. */
  ghost predicate Complete(url: string, i: nat, ms: seq<(nat, nat)>) {
    forall a, b :: i <= a && IsRun(url, a, b) && b - a >= MIN_RUN ==> (a, b) in ms
  }

  /** A run that starts before the end of these digits is these digits. */
  lemma RunFromBorder(url: string, i: nat, e: nat, a: int, b: int)
    requires i < e <= |url| && (forall j :: i <= j < e ==> IsDigit(url[j])) && (e == |url| || !IsDigit(url[e]))
    requires i <= a && IsRun(url, a, b)
    ensures (a, b) == (i, e) || e <= a
  {
  }

  /** Putting the run at the border in front of those behind it. */
  lemma RunInFront(url: string, i: nat, e: nat, rest: seq<(nat, nat)>)
    requires i < e <= |url| && IsRun(url, i, e)
    requires Sound(url, e, rest) && LeftToRight(rest) && Complete(url, e, rest)
    ensures var ms := (if e - i >= MIN_RUN then [(i, e)] else []) + rest;
            Sound(url, i, ms) && LeftToRight(ms) && Complete(url, i, ms)
  {
    var ms := (if e - i >= MIN_RUN then [(i, e)] else []) + rest;
    forall a, b | i <= a && IsRun(url, a, b) && b - a >= MIN_RUN ensures (a, b) in ms {
      RunFromBorder(url, i, e, a, b);
      if e <= a {
        assert (a, b) in rest;
      } else {
        assert ms[0] == (i, e);
      }
    }
  }

  /** A run scanned from its border is found, and nothing else is, in order. */
  lemma {:induction false} MatchesExact(url: string, i: nat)
    requires i <= |url|
    requires i == 0 || i == |url| || !IsDigit(url[i - 1]) || !IsDigit(url[i])
    ensures Sound(url, i, Matches(url, i)) && LeftToRight(Matches(url, i)) && Complete(url, i, Matches(url, i))
    decreases |url| - i
  {
    if i >= |url| {
    } else {
      if !IsDigit(url[i]) {
        MatchesExact(url, i + 1);
        forall a, b | i <= a && IsRun(url, a, b) && b - a >= MIN_RUN ensures (a, b) in Matches(url, i) {
          assert a != i;
        }
      } else {
        var e := RunEnd(url, i);
        MatchesExact(url, e);
        RunInFront(url, i, e, Matches(url, e));
      }
    }
  }

  /** The run is at least six long, longest, and the first of that length. */
  ghost predicate IsLongestRun(url: string, a: int, b: int) {
    && IsRun(url, a, b) && b - a >= 6
    && forall x, y :: IsRun(url, x, y) && y - x >= 6 ==> y - x < b - a || (y - x == b - a && a <= x)
  }

  /** The loop over the matches. */
  method Token(url: string) returns (longest: string)
    ensures longest == "" <==> forall a, b :: IsRun(url, a, b) ==> b - a < 6
    ensures longest != "" ==> exists a, b :: IsLongestRun(url, a, b) && longest == url[a..b]
  {
    longest := "";
    var ms := Matches(url, 0);
    MatchesExact(url, 0);
    ghost var best := (0, 0);
    for i := 0 to |ms|
      invariant 0 <= best.0 <= best.1 <= |url|
      invariant longest == url[best.0..best.1]
      invariant longest == "" ==> i == 0
      invariant longest != "" ==> IsRun(url, best.0, best.1) && |longest| >= MIN_RUN
      invariant forall x :: 0 <= x < i ==>
                  ms[x].1 - ms[x].0 < |longest| || (ms[x].1 - ms[x].0 == |longest| && best.0 <= ms[x].0)
      invariant forall x :: i <= x < |ms| && longest != "" ==> best.0 < ms[x].0
    {
      var m := url[ms[i].0..ms[i].1];
      if |m| > |longest| {
        longest := m;
        best := ms[i];
      }
    }
    if longest != "" {
      forall x, y | IsRun(url, x, y) && y - x >= MIN_RUN
        ensures y - x < best.1 - best.0 || (y - x == best.1 - best.0 && best.0 <= x)
      {
        var at :| 0 <= at < |ms| && ms[at] == (x, y);
      }
      assert IsLongestRun(url, best.0, best.1);
    }
  }
}
