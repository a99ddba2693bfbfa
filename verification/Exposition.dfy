/** The samples the metrics endpoint writes, as a list. */
module Exposition {
  import opened Metrics

  datatype Family = Up | LastCheck | Available | Stock | MinPriceEuros | Checks | Notifications

  /** One line of the exposition; only check counters carry a result label. */
  datatype Sample = Sample(family: Family, source: string, result: string, value: real)

  // ----- the order of names

  /** Lexicographic order, as the standard string sort has it. */
  predicate Less(a: string, b: string) {
    b != [] && (a == [] || a[0] < b[0] || (a[0] == b[0] && Less(a[1..], b[1..])))
  }

  lemma {:induction false} LessOrders(a: string, b: string)
    ensures !(Less(a, b) && Less(b, a))
    ensures a != b ==> Less(a, b) || Less(b, a)
    ensures a == b ==> !Less(a, b)
  {
    if a == [] || b == [] {
    } else {
      LessOrders(a[1..], b[1..]);
      if a[0] == b[0] {
        assert a == [a[0]] + a[1..] && b == [b[0]] + b[1..];
      }
    }
  }

  lemma {:induction false} LessTransitive(a: string, b: string, c: string)
    requires Less(a, b) && Less(b, c)
    ensures Less(a, c)
  {
    if a == [] || a[0] != b[0] || b[0] != c[0] {
    } else {
      LessTransitive(a[1..], b[1..], c[1..]);
    }
  }

  /** The first difference decides; a proper prefix comes first. */
  predicate DiffersAt(a: string, b: string, i: int) {
    && 0 <= i <= |a| && i < |b| && a[..i] == b[..i]
    && (i == |a| || a[i] < b[i])
  }

  lemma DiffersLater(a: string, b: string, i: int)
    ensures DiffersAt(a, b, i) && i > 0 ==> a[0] == b[0]
  {
    if DiffersAt(a, b, i) && i > 0 {
      assert a[..i][0] == b[..i][0];
    }
  }

  lemma {:induction false} LessExact(a: string, b: string)
    ensures Less(a, b) <==> exists i :: DiffersAt(a, b, i)
  {
    if b == [] {
    } else if a == [] || a[0] != b[0] {
      assert Less(a, b) ==> DiffersAt(a, b, 0);
      forall i ensures DiffersAt(a, b, i) && i > 0 ==> a[0] == b[0] {
        DiffersLater(a, b, i);
      }
    } else {
      LessExact(a[1..], b[1..]);
      if i :| DiffersAt(a[1..], b[1..], i) {
        assert a[..i + 1] == [a[0]] + a[1..][..i] && b[..i + 1] == [b[0]] + b[1..][..i];
        assert DiffersAt(a, b, i + 1);
      }
      if i :| DiffersAt(a, b, i) {
        assert a[1..][..i - 1] == a[..i][1..] && b[1..][..i - 1] == b[..i][1..];
        assert DiffersAt(a[1..], b[1..], i - 1);
      }
    }
  }

  predicate Increasing(names: seq<string>) {
    forall i, j :: 0 <= i < j < |names| ==> Less(names[i], names[j])
  }

  method InsertName(names: seq<string>, n: string) returns (r: seq<string>)
    requires Increasing(names) && n !in names
    ensures Increasing(r)
    ensures forall x :: x in r <==> x == n || x in names
  {
    var i := 0;
    while i < |names| && Less(names[i], n)
      invariant 0 <= i <= |names|
      invariant forall j :: 0 <= j < i ==> Less(names[j], n)
    {
      i := i + 1;
    }
    forall j | i <= j < |names| ensures Less(n, names[j]) {
      assert names[i] in names;
      LessOrders(names[i], n);
      if i < j {
        LessTransitive(n, names[i], names[j]);
      }
    }
    r := names[..i] + [n] + names[i..];
    assert names == names[..i] + names[i..];
  }

  method SortedNames(src: States) returns (names: seq<string>)
    ensures Increasing(names)
    ensures forall n :: n in names <==> n in src
  {
    names := [];
    var rest := src.Keys;
    while rest != {}
      invariant rest <= src.Keys
      invariant Increasing(names)
      invariant forall n :: n in names <==> n in src && n !in rest
      decreases rest
    {
      var n :| n in rest;
      names := InsertName(names, n);
      rest := rest - {n};
    }
  }

  // ----- the samples

  /** What one source contributes to one family. */
  function SamplesOf(f: Family, n: string, s: SourceState): seq<Sample> {
    match f
    case Up => [Sample(Up, n, "", s.success as real)]
    case LastCheck => [Sample(LastCheck, n, "", s.lastCheck as real)]
    case Available => [Sample(Available, n, "", s.available as real)]
    case Stock => [Sample(Stock, n, "", s.stock as real)]
    case MinPriceEuros => if s.hasPrice then [Sample(MinPriceEuros, n, "", s.minPrice)] else []
    case Checks =>
      [Sample(Checks, n, "success", s.checksSuccess as real), Sample(Checks, n, "error", s.checksError as real)]
    case Notifications => [Sample(Notifications, n, "", s.notifications as real)]
  }

  function Place(f: Family): nat {
    match f
    case Up => 0
    case LastCheck => 1
    case Available => 2
    case Stock => 3
    case MinPriceEuros => 4
    case Checks => 5
    case Notifications => 6
  }

  /** Family first, then source name, then success before error. */
  predicate Precedes(s: Sample, t: Sample) {
    || Place(s.family) < Place(t.family)
    || (s.family == t.family &&
        (Less(s.source, t.source) || (s.source == t.source && s.result == "success" && t.result == "error")))
  }

  predicate InOrder(samples: seq<Sample>) {
    forall i, j :: 0 <= i < j < |samples| ==> Precedes(samples[i], samples[j])
  }

  /** Exactly the samples of these sources in the families placed before `upTo`. */
  ghost predicate Covers(src: States, names: seq<string>, upTo: nat, samples: seq<Sample>) {
    forall s :: s in samples <==>
      s.source in names && s.source in src && Place(s.family) < upTo &&
      s in SamplesOf(s.family, s.source, src[s.source])
  }

  /** The whole answer: sorted, free of duplicates, and exactly the state's samples. */
  ghost predicate Exposes(src: States, samples: seq<Sample>) {
    && InOrder(samples)
    && forall s :: s in samples <==> s.source in src && s in SamplesOf(s.family, s.source, src[s.source])
  }

  lemma OwnSamples(f: Family, n: string, st: SourceState)
    ensures InOrder(SamplesOf(f, n, st))
    ensures forall s :: s in SamplesOf(f, n, st) ==> s.family == f && s.source == n
  {
  }

  /** One loop over the sorted names: the block of one family. */
  method WriteFamily(f: Family, names: seq<string>, src: States) returns (block: seq<Sample>)
    requires Increasing(names) && forall n :: n in names ==> n in src
    ensures InOrder(block)
    ensures forall s :: s in block <==> s.family == f && s.source in names && s in SamplesOf(f, s.source, src[s.source])
  {
    block := [];
    for i := 0 to |names|
      invariant InOrder(block)
      invariant forall s :: s in block <==>
                  s.family == f && s.source in names[..i] && s in SamplesOf(f, s.source, src[s.source])
    {
      var n := names[i];
      var own := SamplesOf(f, n, src[n]);
      OwnSamples(f, n, src[n]);
      assert names[..i + 1] == names[..i] + [n];
      forall s | s in block ensures Less(s.source, n) {
        var j :| 0 <= j < i && names[..i][j] == s.source;
      }
      Joined(block, own);
      block := block + own;
    }
    assert names[..|names|] == names;
  }

  lemma Joined(a: seq<Sample>, b: seq<Sample>)
    requires InOrder(a) && InOrder(b)
    requires forall s, t :: s in a && t in b ==> Precedes(s, t)
    ensures InOrder(a + b)
  {
    forall i, j | 0 <= i < j < |a + b| ensures Precedes((a + b)[i], (a + b)[j]) {
      if i < |a| <= j {
        assert a[i] in a && b[j - |a|] in b;
      }
    }
  }

  const FAMILIES := [Up, LastCheck, Available, Stock, MinPriceEuros, Checks, Notifications]

  /** The endpoint's answer. */
  method Write(src: States) returns (samples: seq<Sample>)
    ensures Exposes(src, samples)
  {
    var names := SortedNames(src);
    samples := [];
    for i := 0 to |FAMILIES|
      invariant InOrder(samples)
      invariant Covers(src, names, i, samples)
    {
      var f := FAMILIES[i];
      assert Place(f) == i;
      var block := WriteFamily(f, names, src);
      Joined(samples, block);
      CoversMore(src, names, i, samples, f, block);
      samples := samples + block;
    }
    forall s ensures s in samples <==> s.source in src && s in SamplesOf(s.family, s.source, src[s.source]) {
      assert Place(s.family) < 7;
    }
  }

  lemma CoversMore(src: States, names: seq<string>, i: nat, samples: seq<Sample>, f: Family, block: seq<Sample>)
    requires Covers(src, names, i, samples) && Place(f) == i
    requires forall n :: n in names ==> n in src
    requires forall s :: s in block <==>
               s.family == f && s.source in names && s in SamplesOf(f, s.source, src[s.source])
    ensures Covers(src, names, i + 1, samples + block)
  {
    forall s: Sample ensures Place(s.family) < i + 1 <==> Place(s.family) < i || s.family == f {
    }
  }

  /** The order of the families in the answer. */
  predicate Earlier(f: Family, g: Family) {
    match f
    case Up => !g.Up?
    case LastCheck => !g.Up? && !g.LastCheck?
    case Available => g.Stock? || g.MinPriceEuros? || g.Checks? || g.Notifications?
    case Stock => g.MinPriceEuros? || g.Checks? || g.Notifications?
    case MinPriceEuros => g.Checks? || g.Notifications?
    case Checks => g.Notifications?
    case Notifications => false
  }

  /** One family after the other, each by increasing source, success before error. */
  lemma AnswerInOrder(src: States, samples: seq<Sample>, i: nat, j: nat)
    requires Exposes(src, samples) && i < j < |samples|
    ensures var s, t := samples[i], samples[j];
            || Earlier(s.family, t.family)
            || (s.family == t.family &&
                ((exists n :: DiffersAt(s.source, t.source, n)) ||
                 (s.source == t.source && s.result == "success" && t.result == "error")))
  {
    assert Precedes(samples[i], samples[j]);
    LessExact(samples[i].source, samples[j].source);
  }

  // ----- what a reader reads

  /** The one sample of this family and label has this value. */
  ghost predicate Shows(samples: seq<Sample>, f: Family, n: string, result: string, value: real) {
    forall v :: Sample(f, n, result, v) in samples <==> v == value
  }

  /**
   What the answer shows of a source, family by family; the price sample is there
   exactly when the last successful check knew a price.
   */
  lemma EachFamilyShows(src: States, samples: seq<Sample>, n: string)
    requires Exposes(src, samples) && n in src
    ensures Shows(samples, Up, n, "", src[n].success as real)
    ensures Shows(samples, LastCheck, n, "", src[n].lastCheck as real)
    ensures Shows(samples, Available, n, "", src[n].available as real)
    ensures Shows(samples, Stock, n, "", src[n].stock as real)
    ensures Shows(samples, Checks, n, "success", src[n].checksSuccess as real)
    ensures Shows(samples, Checks, n, "error", src[n].checksError as real)
    ensures Shows(samples, Notifications, n, "", src[n].notifications as real)
    ensures if src[n].hasPrice then Shows(samples, MinPriceEuros, n, "", src[n].minPrice)
            else forall v :: Sample(MinPriceEuros, n, "", v) !in samples
  {
  }

  /** A source that was never seen shows nothing, and nothing else is shown of any source. */
  lemma NothingElseShows(src: States, samples: seq<Sample>, s: Sample)
    requires Exposes(src, samples) && s in samples
    ensures s.source in src
    ensures s.family == Checks ==> s.result == "success" || s.result == "error"
    ensures s.family != Checks ==> s.result == ""
  {
    assert s in SamplesOf(s.family, s.source, src[s.source]);
  }

  // ----- the answer is enough to rebuild the state

  /** A state without the price it hides. */
  function Visible(s: SourceState): SourceState {
    if s.hasPrice then s else s.(minPrice := 0.0)
  }

  /**
   Two states with one answer look the same to every reader: same sources, and
   each source's gauges and counters agree.
   */
  lemma AnswerDeterminesState(src: States, other: States, samples: seq<Sample>)
    requires Exposes(src, samples) && Exposes(other, samples)
    ensures src.Keys == other.Keys
    ensures forall n :: n in src ==> Visible(src[n]) == Visible(other[n])
  {
    forall n | n in src || n in other ensures n in src && n in other && Visible(src[n]) == Visible(other[n]) {
      SameSource(src, other, samples, n);
    }
  }

  lemma SameSource(src: States, other: States, samples: seq<Sample>, n: string)
    requires Exposes(src, samples) && Exposes(other, samples)
    requires n in src || n in other
    ensures n in src && n in other && Visible(src[n]) == Visible(other[n])
  {
    if n in src {
      SameField(src, other, samples, n);
    } else {
      SameField(other, src, samples, n);
    }
  }

  lemma SameField(src: States, other: States, samples: seq<Sample>, n: string)
    requires Exposes(src, samples) && Exposes(other, samples)
    requires n in src
    ensures n in other && Visible(src[n]) == Visible(other[n])
  {
    var s := src[n];
    assert SamplesOf(Up, n, s)[0] in samples;
    var t := other[n];
    assert SamplesOf(LastCheck, n, s)[0] in samples;
    assert SamplesOf(Available, n, s)[0] in samples;
    assert SamplesOf(Stock, n, s)[0] in samples;
    assert SamplesOf(Notifications, n, s)[0] in samples;
    assert SamplesOf(Checks, n, s)[0] in samples && SamplesOf(Checks, n, s)[1] in samples;
    if s.hasPrice {
      assert SamplesOf(MinPriceEuros, n, s)[0] in samples;
    }
    if t.hasPrice {
      assert SamplesOf(MinPriceEuros, n, t)[0] in samples;
    }
  }

  /** The answer itself is determined: order and content leave no choice. */
  lemma {:induction false} AnswerIsUnique(a: seq<Sample>, b: seq<Sample>)
    requires InOrder(a) && InOrder(b) && forall s :: s in a <==> s in b
    ensures a == b
    decreases |a|
  {
    HasMember(b);
    if a == [] {
    } else {
      assert a[0] in b;
      assert b[0] in a;
      var i :| 0 <= i < |b| && b[i] == a[0];
      var j :| 0 <= j < |a| && a[j] == b[0];
      LessOrders(a[0].source, b[0].source);
      assert a[0] == b[0];
      forall s ensures s in a[1..] <==> s in b[1..] {
        TailMembers(a, s);
        TailMembers(b, s);
      }
      AnswerIsUnique(a[1..], b[1..]);
      assert a == [a[0]] + a[1..] && b == [b[0]] + b[1..];
    }
  }

  lemma HasMember(b: seq<Sample>)
    ensures b != [] ==> exists s :: s in b
  {
    if b != [] {
      assert b[0] in b;
    }
  }

  lemma TailMembers(a: seq<Sample>, s: Sample)
    requires InOrder(a) && a != []
    ensures s in a[1..] <==> s in a && s != a[0]
  {
    assert a == [a[0]] + a[1..];
    LessOrders(a[0].source, a[0].source);
    if s in a[1..] {
      var i :| 0 <= i < |a[1..]| && a[1..][i] == s;
      assert a[i + 1] == s && Precedes(a[0], a[i + 1]);
    }
  }
}
