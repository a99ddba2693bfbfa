/**
 What sightings without a price do to the stored price, the baseline of price
 drops: when exactly drops are noticed, and when a pending drop survives.
 */
module Baseline {
  import opened Model
  import opened DedupStore
  import opened WithProduct
  import opened Tick
  import opened KeyTrace
  import opened Reconcile
  import opened RunLaw
  import opened FaultLaw

  // ----- ticks that see one offer, or none

  const NO_FAULTS := Faults(true, true, true)

  /** A tick whose only source returns the single offer `a`, handled with these faults. */
  function Visit(a: Offer, f: Faults): Round {
    Round([Poll(a.source, 0, Some([a]))], true, [], {}, [f])
  }

  function OneOffer(a: Offer): Round { Visit(a, NO_FAULTS) }

  const NOTHING := Round([], true, [], {}, [])

  /** The offer is local and within the cap of its product. */
  predicate Passes(prefixes: seq<string>, p: Product, a: Offer) {
    WithinBudget(Stamped(p, a)) && IsLocal(prefixes, a)
  }

  lemma VisitCurrent(prefixes: seq<string>, p: Product, a: Offer, f: Faults)
    requires Passes(prefixes, p, a)
    ensures Current(prefixes, p, Visit(a, f)) == [Stamped(p, a)]
  {
    var r, offers := Visit(a, f), Stamp(p, [a]);
    assert offers == [Stamped(p, a)];
    assert Admitted(prefixes, offers, 1) == [];
    assert Gathered(prefixes, p, r.polls, 1) == [];
  }

  lemma OneOfferIsFaultFree(a: Offer)
    ensures FaultFree(OneOffer(a))
  {
    forall i: nat ensures AllOk(OneOffer(a), i) {
    }
  }

  lemma OneSighting(a: Offer, p: Product)
    ensures TickSightings([Stamped(p, a)], a.key) == [Seen(a.price)]
  {
    var current := [Stamped(p, a)];
    assert current[0].key == a.key;
    assert SightingsIn(current, a.key, 1) == [];
  }

  // ----- drops below the last known price

  /** The last known price of the block of presence under way. */
  function LastKnown(s: seq<Sighting>): Option<real> {
    if s == [] || s[|s| - 1].Gap? then None
    else if s[|s| - 1].price.Some? then s[|s| - 1].price
    else LastKnown(s[..|s| - 1])
  }

  /** The sightings below the last known price of their block, whatever came in between. */
  function Drops(s: seq<Sighting>): nat {
    if s == [] then 0
    else
      var n := |s| - 1;
      Drops(s[..n]) + if s[n].Seen? && IsDrop(LastKnown(s[..n]), s[n].price) then 1 else 0
  }

  /** A priced sighting right after an unpriced one, in a block that has known a price. */
  predicate HoleAt(s: seq<Sighting>, n: int) {
    && 1 <= n < |s|
    && s[n].Seen? && s[n].price.Some?
    && s[n - 1].Seen? && s[n - 1].price.None?
    && LastKnown(s[..n]).Some?
  }

  ghost predicate Holed(s: seq<Sighting>) {
    exists n :: HoleAt(s, n)
  }

  /** Seen or not, priced or not: the same, whatever the prices. */
  predicate SameShape(x: Sighting, y: Sighting) {
    x.Gap? == y.Gap? && (x.Seen? ==> x.price.Some? == y.price.Some?)
  }

  predicate SamePattern(s: seq<Sighting>, t: seq<Sighting>) {
    |s| == |t| && forall i :: 0 <= i < |s| ==> SameShape(s[i], t[i])
  }

  lemma {:induction false} LastKnownPattern(s: seq<Sighting>, t: seq<Sighting>)
    requires SamePattern(s, t)
    ensures LastKnown(s).Some? <==> LastKnown(t).Some?
  {
    if s == [] {
    } else {
      var n := |s| - 1;
      assert SameShape(s[n], t[n]);
      assert forall i :: 0 <= i < n ==> SameShape(s[..n][i], t[..n][i]) by {
        assert forall i :: 0 <= i < n ==> s[..n][i] == s[i] && t[..n][i] == t[i];
      }
      LastKnownPattern(s[..n], t[..n]);
    }
  }

  lemma PrefixPattern(s: seq<Sighting>, t: seq<Sighting>, n: nat)
    requires SamePattern(s, t) && n <= |s|
    ensures SamePattern(s[..n], t[..n])
  {
    forall i | 0 <= i < n ensures SameShape(s[..n][i], t[..n][i]) {
      assert SameShape(s[i], t[i]);
    }
  }

  lemma HolePattern(s: seq<Sighting>, t: seq<Sighting>)
    requires SamePattern(s, t)
    ensures Holed(s) ==> Holed(t)
  {
    if n :| HoleAt(s, n) {
      assert SameShape(s[n], t[n]) && SameShape(s[n - 1], t[n - 1]);
      PrefixPattern(s, t, n);
      LastKnownPattern(s[..n], t[..n]);
      assert HoleAt(t, n);
    }
  }

  /** Every descent between neighbours is a drop, and without a hole every drop is one. */
  lemma {:induction false} DescentsAreDrops(s: seq<Sighting>)
    ensures Descents(s) <= Drops(s)
    ensures !Holed(s) ==> Descents(s) == Drops(s)
  {
    if s == [] {
    } else {
      var n := |s| - 1;
      DescentsAreDrops(s[..n]);
      if m :| HoleAt(s[..n], m) {
        assert s[..n][..m] == s[..m];
        assert HoleAt(s, m);
      }
      if n > 0 && !HoleAt(s, n) {
        assert s[..n][n - 1] == s[n - 1];
      }
    }
  }

  /** The same pattern, at one before position n and at one half from there on. */
  function Repriced(s: seq<Sighting>, n: int): seq<Sighting> {
    seq(|s|, i requires 0 <= i < |s| =>
      if s[i].Gap? || s[i].price.None? then s[i] else Seen(Some(if i < n then 1.0 else 0.5)))
  }

  lemma RepricedPattern(s: seq<Sighting>, n: int)
    ensures SamePattern(Repriced(s, n), s)
  {
  }

  lemma {:induction false} RepricedKnown(s: seq<Sighting>, n: int, m: nat)
    requires m <= |s| && m <= n
    ensures LastKnown(Repriced(s, n)[..m]) == None || LastKnown(Repriced(s, n)[..m]) == Some(1.0)
  {
    if m == 0 {
    } else {
      RepricedKnown(s, n, m - 1);
      assert Repriced(s, n)[..m][..m - 1] == Repriced(s, n)[..m - 1];
    }
  }

  /** No two neighbours of the repriced sequence descend, if the price falls inside a hole. */
  lemma {:induction false} RepricedDescents(s: seq<Sighting>, n: int, m: nat)
    requires HoleAt(s, n) && m <= |s|
    ensures Descents(Repriced(s, n)[..m]) == 0
  {
    var t := Repriced(s, n);
    if m < 2 {
    } else {
      RepricedDescents(s, n, m - 1);
      assert t[..m][..m - 1] == t[..m - 1];
      assert t[..m][m - 1] == t[m - 1] && t[..m][m - 2] == t[m - 2];
      assert t[n - 1] == s[n - 1];
    }
  }

  lemma {:induction false} DropsGrow(s: seq<Sighting>, m: nat)
    requires m <= |s|
    ensures Drops(s[..m]) <= Drops(s)
  {
    if m == |s| {
      assert s[..m] == s;
    } else {
      DropsGrow(s[..|s| - 1], m);
      assert s[..|s| - 1][..m] == s[..m];
    }
  }

  /** With the price falling inside a hole there is a drop, and no descent. */
  lemma HoleHidesDrop(s: seq<Sighting>, n: int)
    requires HoleAt(s, n)
    ensures Descents(Repriced(s, n)) == 0 < Drops(Repriced(s, n))
  {
    var t := Repriced(s, n);
    RepricedDescents(s, n, |s|);
    assert t[..|s|] == t;
    RepricedPattern(s, n);
    PrefixPattern(t, s, n);
    LastKnownPattern(t[..n], s[..n]);
    RepricedKnown(s, n, n);
    assert t[..n + 1][..n] == t[..n] && t[..n + 1][n] == Seen(Some(0.5));
    DropsGrow(t, n + 1);
  }

  // ----- the same over ticks

  /** A tick that sees just this, of an offer like `a`. */
  function RoundSeen(a: Offer, x: Sighting): Round {
    if x.Gap? then NOTHING else OneOffer(a.(price := x.price))
  }

  function RoundsSeen(a: Offer, s: seq<Sighting>): seq<Round> {
    if s == [] then []
    else
      RoundsSeen(a, s[..|s| - 1]) + [RoundSeen(a, s[|s| - 1])]
  }

  /** An offer like `a` passes the filters at every price in s. */
  ghost predicate AllPass(prefixes: seq<string>, p: Product, a: Offer, s: seq<Sighting>) {
    forall i :: 0 <= i < |s| && s[i].Seen? ==> Passes(prefixes, p, a.(price := s[i].price))
  }

  lemma OneRoundSeen(prefixes: seq<string>, p: Product, a: Offer, x: Sighting)
    requires x.Seen? ==> Passes(prefixes, p, a.(price := x.price))
    ensures FaultFree(RoundSeen(a, x)) && TickSightings(Current(prefixes, p, RoundSeen(a, x)), a.key) == [x]
  {
    if x.Gap? {
      forall i: nat ensures AllOk(NOTHING, i) {
      }
    } else {
      VisitCurrent(prefixes, p, a.(price := x.price), NO_FAULTS);
      OneOfferIsFaultFree(a.(price := x.price));
      OneSighting(a.(price := x.price), p);
    }
  }

  lemma SightingsSnoc(prefixes: seq<string>, p: Product, rounds: seq<Round>, r: Round, k: Key)
    ensures Sightings(prefixes, p, rounds + [r], k) ==
            Sightings(prefixes, p, rounds, k) + TickSightings(Current(prefixes, p, r), k)
  {
    assert (rounds + [r])[..|rounds|] == rounds;
  }

  lemma AllPassFront(prefixes: seq<string>, p: Product, a: Offer, s: seq<Sighting>)
    requires AllPass(prefixes, p, a, s) && s != []
    ensures AllPass(prefixes, p, a, s[..|s| - 1])
    ensures s[|s| - 1].Seen? ==> Passes(prefixes, p, a.(price := s[|s| - 1].price))
  {
    assert forall i :: 0 <= i < |s| - 1 ==> s[..|s| - 1][i] == s[i];
  }

  /** Every sequence of sightings is that of some run. */
  lemma {:induction false} RoundsShowSightings(prefixes: seq<string>, p: Product, a: Offer, s: seq<Sighting>)
    requires AllPass(prefixes, p, a, s)
    ensures AllFaultFree(RoundsSeen(a, s)) && Sightings(prefixes, p, RoundsSeen(a, s), a.key) == s
  {
    if s == [] {
    } else {
      var n := |s| - 1;
      AllPassFront(prefixes, p, a, s);
      RoundsShowSightings(prefixes, p, a, s[..n]);
      OneRoundSeen(prefixes, p, a, s[n]);
      SightingsSnoc(prefixes, p, RoundsSeen(a, s[..n]), RoundSeen(a, s[n]), a.key);
      assert s == s[..n] + [s[n]];
    }
  }

  /** A run in which the notifications for k are one per block and one per drop. */
  ghost predicate TellsDrops(prefixes: seq<string>, p: Product, rounds: seq<Round>, k: Key) {
    var seen := Sightings(prefixes, p, rounds, k);
    Notices(k, RunRounds(prefixes, p, map[], rounds).events) == Blocks(seen) + Drops(seen)
  }

  /** Some local offer with key k. */
  function SomeOffer(k: Key): Offer {
    Offer("", "", "", 1, None, "", "", Online, "", false, false, 0, k)
  }

  /**
   When drops are noticed. Take a pattern of sightings: when the key is seen and
   when with a price. In every fault-free run with that pattern the key is notified
   once per block and once per drop below the last known price, if and only if the
   pattern has no hole.
   */
  lemma DropsAreNoticedExactly(prefixes: seq<string>, p: Product, k: Key, s: seq<Sighting>)
    ensures (forall rounds :: AllFaultFree(rounds) && SamePattern(Sightings(prefixes, p, rounds, k), s) ==>
               TellsDrops(prefixes, p, rounds, k))
            <==> !Holed(s)
  {
    if n :| HoleAt(s, n) {
      var a, t := SomeOffer(k), Repriced(s, n);
      RepricedPattern(s, n);
      RoundsShowSightings(prefixes, p, a, t);
      WholeRunLaw(prefixes, p, RoundsSeen(a, t), k);
      HoleHidesDrop(s, n);
      assert !TellsDrops(prefixes, p, RoundsSeen(a, t), k);
    } else {
      forall rounds | AllFaultFree(rounds) && SamePattern(Sightings(prefixes, p, rounds, k), s)
        ensures TellsDrops(prefixes, p, rounds, k)
      {
        var seen := Sightings(prefixes, p, rounds, k);
        WholeRunLaw(prefixes, p, rounds, k);
        HolePattern(seen, s);
        DescentsAreDrops(seen);
      }
    }
  }

  /**
   The failing run: the price drops from x to y across one unpriced sighting, and
   only the first sighting is ever notified. Without it the drop is notified too.
   */
  lemma UnpricedSightingHidesDrop(prefixes: seq<string>, p: Product, a: Offer, x: real, y: real, s: seq<Sighting>,
                                  t: seq<Sighting>)
    requires y < x && Passes(prefixes, p, a.(price := Some(x)))
    requires s == [Seen(Some(x)), Seen(None), Seen(Some(y))] && t == [Seen(Some(x)), Seen(Some(y))]
    ensures Notices(a.key, RunRounds(prefixes, p, map[], RoundsSeen(a, s)).events) == 1
    ensures Notices(a.key, RunRounds(prefixes, p, map[], RoundsSeen(a, t)).events) == 2
  {
    DueOfDrop(x, y);
    assert Passes(prefixes, p, a.(price := None)) && Passes(prefixes, p, a.(price := Some(y)));
    assert AllPass(prefixes, p, a, s);
    assert AllPass(prefixes, p, a, t);
    SeenAreDue(prefixes, p, a, s);
    SeenAreDue(prefixes, p, a, t);
  }

  lemma SeenAreDue(prefixes: seq<string>, p: Product, a: Offer, s: seq<Sighting>)
    requires AllPass(prefixes, p, a, s)
    ensures Notices(a.key, RunRounds(prefixes, p, map[], RoundsSeen(a, s)).events) == Due(s)
  {
    RoundsShowSightings(prefixes, p, a, s);
    WholeRunLaw(prefixes, p, RoundsSeen(a, s), a.key);
  }

  lemma DueOfDrop(x: real, y: real)
    requires y < x
    ensures Due([Seen(Some(x)), Seen(None), Seen(Some(y))]) == 1
    ensures Due([Seen(Some(x)), Seen(Some(y))]) == 2
  {
    var first := [Seen(Some(x))];
    DueSnoc([], Seen(Some(x)));
    DueSnoc(first, Seen(None));
    DueSnoc(first + [Seen(None)], Seen(Some(y)));
    DueSnoc(first, Seen(Some(y)));
    assert [] + first == first;
    assert first + [Seen(None)] + [Seen(Some(y))] == [Seen(Some(x)), Seen(None), Seen(Some(y))];
    assert first + [Seen(Some(y))] == [Seen(Some(x)), Seen(Some(y))];
  }

  // ----- a pending drop, with faults

  /** A step without its price: whether there is one, and what fails. */
  datatype Try = Meets(priced: bool, faults: Faults) | Misses(removed: bool)

  function TryOf(x: Step): Try {
    match x
    case Met(price, f) => Meets(price.Some?, f)
    case Missed(removed) => Misses(removed)
  }

  function Tries(steps: seq<Step>): seq<Try> {
    seq(|steps|, i requires 0 <= i < |steps| => TryOf(steps[i]))
  }

  /** The offer is looked up and written. */
  predicate Writes(x: Try) { x.Meets? && x.faults.lookupOk && x.faults.writeOk }

  predicate Blank(x: Try) { Writes(x) && !x.priced }

  /** Before j the row is never removed, a sighting without a price is stored at i, one with a price at j. */
  ghost predicate Forgets(tries: seq<Try>, i: int, j: int) {
    && 0 <= i < j < |tries|
    && Blank(tries[i])
    && Writes(tries[j]) && tries[j].priced
    && forall x :: 0 <= x < j ==> tries[x] != Misses(true)
  }

  ghost predicate Forgetful(tries: seq<Try>) {
    exists i, j :: Forgets(tries, i, j)
  }

  lemma ForgetfulPrefix(tries: seq<Try>, n: nat)
    requires n <= |tries|
    ensures Forgetful(tries[..n]) ==> Forgetful(tries)
  {
    if i, j :| Forgets(tries[..n], i, j) {
      assert forall x :: 0 <= x < n ==> tries[..n][x] == tries[x];
      assert Forgets(tries, i, j);
    }
  }

  /** The row's price while nothing has been told since it was `base`. */
  ghost predicate Waiting(tries: seq<Try>, base: real, st: Stored) {
    st.Some? ==>
      && !Below(st, base)
      && (forall x :: 0 <= x < |tries| ==> tries[x] != Misses(true))
      && (st.value.None? ==> exists i :: 0 <= i < |tries| && Blank(tries[i]))
  }

  lemma WaitOn(tries: seq<Try>, base: real, st: Stored, x: Step)
    requires Waiting(tries, base, st) && !Told(st, x) && !Forgetful(tries + [TryOf(x)])
    ensures Waiting(tries + [TryOf(x)], base, RowAfterStep(st, x))
  {
    var n, all := |tries|, tries + [TryOf(x)];
    assert all[n] == TryOf(x) && forall i :: 0 <= i < n ==> all[i] == tries[i];
    if st.Some? && st.value.None? {
      var i :| 0 <= i < n && Blank(tries[i]);
      assert Blank(all[i]);
      assert !Forgets(all, i, n);
    }
    if Blank(TryOf(x)) {
      assert Blank(all[n]);
    }
  }

  lemma {:induction false} BaselineStays(steps: seq<Step>, base: real)
    requires !Forgetful(Tries(steps)) && CountTold(Some(Some(base)), steps) == 0
    ensures Waiting(Tries(steps), base, RowFold(Some(Some(base)), steps))
  {
    if steps == [] {
    } else {
      var n := |steps| - 1;
      assert Tries(steps) == Tries(steps[..n]) + [TryOf(steps[n])];
      assert Tries(steps)[..n] == Tries(steps[..n]);
      ForgetfulPrefix(Tries(steps), n);
      BaselineStays(steps[..n], base);
      WaitOn(Tries(steps[..n]), base, RowFold(Some(Some(base)), steps[..n]), steps[n]);
    }
  }

  /** Prices for the tries: `base` up to position i, half of it afterwards. */
  function Halved(tries: seq<Try>, i: int, base: real): seq<Step> {
    seq(|tries|, x requires 0 <= x < |tries| =>
      if tries[x].Misses? then Missed(tries[x].removed)
      else Met(if !tries[x].priced then None else Some(if x <= i then base else base / 2.0), tries[x].faults))
  }

  lemma HalvedTries(tries: seq<Try>, i: int, base: real)
    ensures Tries(Halved(tries, i, base)) == tries
  {
  }

  /** Before the unpriced sighting at i nothing is a drop; afterwards there is no baseline but the halved price. */
  lemma {:induction false} HalvedIsSilent(tries: seq<Try>, i: nat, base: real, n: nat)
    requires base > 0.0 && i < |tries| && Blank(tries[i])
    requires n <= |tries| && forall x :: 0 <= x < n ==> tries[x] != Misses(true)
    ensures var steps := Halved(tries, i, base)[..n];
            var st := RowFold(Some(Some(base)), steps);
            && CountTold(Some(Some(base)), steps) == 0
            && st.Some? && (st.value == None || st.value == Some(if n <= i then base else base / 2.0))
  {
    var steps := Halved(tries, i, base);
    if n == 0 {
    } else {
      HalvedIsSilent(tries, i, base, n - 1);
      FoldSnoc(Some(Some(base)), steps[..n - 1], steps[n - 1]);
      assert steps[..n] == steps[..n - 1] + [steps[n - 1]];
    }
  }

  lemma ForgettingSwallows(tries: seq<Try>, i: nat, j: nat, base: real)
    requires base > 0.0 && Forgets(tries, i, j)
    ensures var steps := Halved(tries, i, base)[..j + 1];
            CountTold(Some(Some(base)), steps) == 0 && RowFold(Some(Some(base)), steps) == Some(Some(base / 2.0))
  {
    var steps := Halved(tries, i, base);
    HalvedIsSilent(tries, i, base, j);
    FoldSnoc(Some(Some(base)), steps[..j], steps[j]);
    assert steps[..j + 1] == steps[..j] + [steps[j]];
  }

  // ----- ticks that take just these steps

  /** The product would pay this. */
  predicate Payable(p: Product, price: real) {
    price > 0.0 && (p.cap <= 0 || price <= p.cap as real)
  }

  predicate StepPayable(p: Product, x: Step) {
    x.Met? && x.price.Some? ==> Payable(p, x.price.value)
  }

  function RoundOf(k: Key, x: Step): Round {
    match x
    case Missed(removed) => Round([], removed, [], {}, [])
    case Met(price, f) => Visit(SomeOffer(k).(price := price), f)
  }

  function RoundsOf(k: Key, steps: seq<Step>): seq<Round> {
    if steps == [] then [] else RoundsOf(k, steps[..|steps| - 1]) + [RoundOf(k, steps[|steps| - 1])]
  }

  lemma RoundTakesStep(prefixes: seq<string>, p: Product, k: Key, x: Step)
    requires StepPayable(p, x)
    ensures TickSteps(prefixes, p, RoundOf(k, x), k) == [x]
  {
    var r := RoundOf(k, x);
    match x
    case Missed(_) =>
      assert Current(prefixes, p, r) == [];
    case Met(price, f) =>
      var a := SomeOffer(k).(price := price);
      VisitCurrent(prefixes, p, a, f);
      var current := [Stamped(p, a)];
      assert current[0].key == k;
      assert StepsIn(current, r, k, 1) == [];
  }

  lemma RunStepsSnoc(prefixes: seq<string>, p: Product, rounds: seq<Round>, r: Round, k: Key)
    ensures RunSteps(prefixes, p, rounds + [r], k) == RunSteps(prefixes, p, rounds, k) + TickSteps(prefixes, p, r, k)
  {
    assert (rounds + [r])[..|rounds|] == rounds;
  }

  /** Every sequence of payable steps is that of some run. */
  lemma {:induction false} RoundsTakeSteps(prefixes: seq<string>, p: Product, k: Key, steps: seq<Step>)
    requires forall x :: x in steps ==> StepPayable(p, x)
    ensures RunSteps(prefixes, p, RoundsOf(k, steps), k) == steps
  {
    if steps == [] {
    } else {
      var n := |steps| - 1;
      assert steps == steps[..n] + [steps[n]];
      RoundsTakeSteps(prefixes, p, k, steps[..n]);
      RoundTakesStep(prefixes, p, k, steps[n]);
      RunStepsSnoc(prefixes, p, RoundsOf(k, steps[..n]), RoundOf(k, steps[n]), k);
    }
  }

  /** The ticks take the stored price below `base`, and no notification has been delivered. */
  ghost predicate Swallows(prefixes: seq<string>, p: Product, rows: Table, rounds: seq<Round>, k: Key, base: real) {
    var t := RunRounds(prefixes, p, rows, rounds);
    Below(StoredAt(t.rows, k), base) && Notices(k, t.events) == 0
  }

  /** What a run makes of the key's row, read off its steps. */
  lemma SwallowsInFold(prefixes: seq<string>, p: Product, rows: Table, rounds: seq<Round>, k: Key, base: real)
    requires Mine(p, rows, k) && StoredAt(rows, k) == Some(Some(base))
    ensures var steps := RunSteps(prefixes, p, rounds, k);
            Swallows(prefixes, p, rows, rounds, k, base) <==>
            Below(RowFold(Some(Some(base)), steps), base) && CountTold(Some(Some(base)), steps) == 0
  {
    FaultyRunLaw(prefixes, p, rows, rounds, k);
  }

  lemma SurvivesUnlessForgotten(prefixes: seq<string>, p: Product, rows: Table, rounds: seq<Round>, k: Key, base: real)
    requires Mine(p, rows, k) && StoredAt(rows, k) == Some(Some(base))
    requires !Forgetful(Tries(RunSteps(prefixes, p, rounds, k)))
    ensures !Swallows(prefixes, p, rows, rounds, k, base)
  {
    var steps := RunSteps(prefixes, p, rounds, k);
    SwallowsInFold(prefixes, p, rows, rounds, k, base);
    if CountTold(Some(Some(base)), steps) == 0 {
      BaselineStays(steps, base);
    }
  }

  lemma ForgottenIsSwallowed(prefixes: seq<string>, p: Product, rows: Table, k: Key, base: real, tries: seq<Try>,
                             i: nat, j: nat)
    returns (rounds: seq<Round>)
    requires Mine(p, rows, k) && StoredAt(rows, k) == Some(Some(base)) && Payable(p, base)
    requires Forgets(tries, i, j)
    ensures Tries(RunSteps(prefixes, p, rounds, k)) == tries[..j + 1]
    ensures Swallows(prefixes, p, rows, rounds, k, base)
  {
    var steps := Halved(tries, i, base)[..j + 1];
    HalvedTries(tries, i, base);
    assert Tries(steps) == tries[..j + 1];
    forall x | x in steps ensures StepPayable(p, x) {
      assert Payable(p, base / 2.0);
    }
    rounds := RoundsOf(k, steps);
    RoundsTakeSteps(prefixes, p, k, steps);
    ForgettingSwallows(tries, i, j, base);
    SwallowsInFold(prefixes, p, rows, rounds, k, base);
  }

  /**
   When a pending drop survives. The key has its row at price `base`. Take any
   pattern of what ticks see of it: how often, when with a price and when not at
   all, and what fails. In no run that follows the pattern so far does the row
   ever get below `base` before a notification has been delivered, if and only if
   in the pattern no stored sighting without a price is followed by a stored one
   with a price before the row is removed.
   */
  lemma PendingDropSurvivesExactly(prefixes: seq<string>, p: Product, rows: Table, k: Key, base: real, tries: seq<Try>)
    requires Mine(p, rows, k) && StoredAt(rows, k) == Some(Some(base)) && Payable(p, base)
    ensures (forall rounds, n :: 0 <= n <= |tries| && Tries(RunSteps(prefixes, p, rounds, k)) == tries[..n] ==>
               !Swallows(prefixes, p, rows, rounds, k, base))
            <==> !Forgetful(tries)
  {
    if i, j :| Forgets(tries, i, j) {
      var rounds := ForgottenIsSwallowed(prefixes, p, rows, k, base, tries, i, j);
      assert Tries(RunSteps(prefixes, p, rounds, k)) == tries[..j + 1];
    } else {
      forall rounds, n | 0 <= n <= |tries| && Tries(RunSteps(prefixes, p, rounds, k)) == tries[..n]
        ensures !Swallows(prefixes, p, rows, rounds, k, base)
      {
        ForgetfulPrefix(tries, n);
        SurvivesUnlessForgotten(prefixes, p, rows, rounds, k, base);
      }
    }
  }

  /**
   The swallowing run: the notification of a drop fails, the next tick sees the
   key without a price, and the third stores the lower price in silence. Without
   the tick in between it is retried and delivered.
   */
  lemma UnpricedSightingSwallowsDrop(prefixes: seq<string>, p: Product, rows: Table, k: Key, base: real, q: real,
                                     long: seq<Step>, short: seq<Step>)
    requires Mine(p, rows, k) && StoredAt(rows, k) == Some(Some(base)) && Payable(p, q) && q < base
    requires long == [Met(Some(q), Faults(true, false, true)), Met(None, NO_FAULTS), Met(Some(q), NO_FAULTS)]
    requires short == [Met(Some(q), Faults(true, false, true)), Met(Some(q), NO_FAULTS)]
    ensures var t := RunRounds(prefixes, p, rows, RoundsOf(k, long));
            var u := RunRounds(prefixes, p, rows, RoundsOf(k, short));
            && StoredAt(t.rows, k) == StoredAt(u.rows, k) == Some(Some(q))
            && Notices(k, t.events) == 0 && Notices(k, u.events) == 1
  {
    SwallowInFold(base, q, long, short);
    RoundsTakeSteps(prefixes, p, k, long);
    RoundsTakeSteps(prefixes, p, k, short);
    FaultyRunLaw(prefixes, p, rows, RoundsOf(k, long), k);
    FaultyRunLaw(prefixes, p, rows, RoundsOf(k, short), k);
  }

  lemma SwallowInFold(base: real, q: real, long: seq<Step>, short: seq<Step>)
    requires q < base
    requires long == [Met(Some(q), Faults(true, false, true)), Met(None, NO_FAULTS), Met(Some(q), NO_FAULTS)]
    requires short == [Met(Some(q), Faults(true, false, true)), Met(Some(q), NO_FAULTS)]
    ensures Folds(Some(Some(base)), long, Some(Some(q)), 0) && Folds(Some(Some(base)), short, Some(Some(q)), 1)
  {
    var st := Some(Some(base));
    FoldOne(st, long[0]);
    FoldOne(st, long[1]);
    FoldOne(Some(None), long[2]);
    FoldOne(st, short[1]);
    FoldOn(st, [long[0]], st, 0, [long[1]], Some(None), 0);
    FoldOn(st, [long[0]] + [long[1]], Some(None), 0, [long[2]], Some(Some(q)), 0);
    FoldOn(st, [short[0]], st, 0, [short[1]], Some(Some(q)), 1);
    assert long == [long[0]] + [long[1]] + [long[2]] && short == [short[0]] + [short[1]];
  }
}
