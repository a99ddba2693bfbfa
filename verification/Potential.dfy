/**
 A bound on price-drop notifications over the life of one row, for prices on any
 grid with a least step.
 */
module Potential {
  import opened Model
  import opened Tick
  import opened Watchers
  import opened KeyTrace

  /** The prices a shop may ask. */
  type Grid = real -> bool

  /** Different prices are at least u apart. */
  ghost predicate Spaced(g: Grid, u: real) {
    u > 0.0 && forall x, y :: g(x) && g(y) && x < y ==> x + u <= y
  }

  predicate Whole(x: real) { x == x.Floor as real }

  /** Prices in whole cents. */
  function CentGrid(): Grid {
    (x: real) => Whole(x * 100.0)
  }

  lemma WholeGap(a: real, b: real)
    requires Whole(a) && Whole(b) && a < b
    ensures a + 1.0 <= b
  {
    var m, n := a.Floor, b.Floor;
    assert m < n;
    assert (m + 1) as real == a + 1.0;
  }

  lemma CentsStep()
    ensures Spaced(CentGrid(), 0.01)
  {
    forall x, y | CentGrid()(x) && CentGrid()(y) && x < y ensures x + 0.01 <= y {
      WholeGap(x * 100.0, y * 100.0);
    }
  }

  /** The last price a key was seen with; the row's first price before that. */
  function LastSeen(first: real, es: seq<Event>): real {
    if es == [] then first
    else
      var e := es[|es| - 1];
      if e.LookedUp? && e.offer.price.Some? then e.offer.price.value else LastSeen(first, es[..|es| - 1])
  }

  /** The sum of all rises between neighbouring observed prices. */
  function Rises(first: real, es: seq<Event>): real {
    if es == [] then 0.0
    else
      var before := es[..|es| - 1];
      var step := LastSeen(first, es) - LastSeen(first, before);
      Rises(first, before) + if step > 0.0 then step else 0.0
  }

  /** One row's life: never deleted, every observed price known and on the grid. */
  predicate PricedLife(g: Grid, es: seq<Event>) {
    forall i :: 0 <= i < |es| ==>
      && (es[i].Dropped? ==> !es[i].ok)
      && (es[i].LookedUp? ==> es[i].offer.price.Some? && g(es[i].offer.price.value))
  }

  function Max(a: real, b: real): real { if a < b then b else a }

  /** What n drops of at least u each are worth: n times u. */
  function Worth(u: real, n: nat): real {
    if n == 0 then 0.0 else Worth(u, n - 1) + u
  }

  lemma {:induction false} WorthIsProduct(u: real, n: nat)
    ensures Worth(u, n) == u * n as real
  {
    if n == 0 {
    } else {
      WorthIsProduct(u, n - 1);
      assert u * n as real == u * (n - 1) as real + u;
    }
  }

  /** What the notifications so far, the stored price and the last price owe each other. */
  ghost predicate Balanced(g: Grid, u: real, first: real, es: seq<Event>, st: KeyState) {
    && st.row.Some? && st.row.value.Some? && g(st.row.value.value)
    && g(LastSeen(first, es))
    && (!st.mode.Rest? ==> st.mode.offer.price == Some(LastSeen(first, es)))
    && (var sent := Worth(u, CountDelivered(es));
        sent + (if InFlight(es) == 1 then LastSeen(first, es) else Max(st.row.value.value, LastSeen(first, es)))
        <= first + Rises(first, es))
  }

  lemma {:induction false} LifeIsBalanced(g: Grid, u: real, first: real, es: seq<Event>)
    requires Spaced(g, u) && g(first) && PricedLife(g, es) && CountLost(es) == 0
    requires Spells(Some(Some(first)), es)
    ensures Balanced(g, u, first, es, ReadAll(KeyState(Some(Some(first)), Rest), es).value)
  {
    if es == [] {
    } else {
      var n := |es| - 1;
      var before := es[..n];
      assert CountLost(before) == 0;
      LifeIsBalanced(g, u, first, before);
      SpelledShape(Some(Some(first)), before);
      SpelledShape(Some(Some(first)), es);
      StepBalanced(g, u, first, before, es[n], ReadAll(KeyState(Some(Some(first)), Rest), before).value);
      assert es == before + [es[n]];
    }
  }

  lemma Unfold(first: real, before: seq<Event>, e: Event)
    ensures var es := before + [e];
            var seen := if e.LookedUp? && e.offer.price.Some? then e.offer.price.value else LastSeen(first, before);
            && CountDelivered(es) == CountDelivered(before) + (if Delivered(e) then 1 else 0)
            && InFlight(es) == (if Delivered(e) then 1 else 0)
            && LastSeen(first, es) == seen
            && Rises(first, es) == Rises(first, before) + Max(seen - LastSeen(first, before), 0.0)
  {
    assert (before + [e])[..|before|] == before;
  }

  lemma StepBalanced(g: Grid, u: real, first: real, before: seq<Event>, e: Event, st: KeyState)
    requires Spaced(g, u) && Balanced(g, u, first, before, st) && Shape(Some(Some(first)), before, st)
    requires Read(st, e).Some?
    requires e.Dropped? ==> !e.ok
    requires e.LookedUp? ==> e.offer.price.Some? && g(e.offer.price.value)
    requires before != [] ==> !LosesWrite(before[|before| - 1], e)
    ensures Balanced(g, u, first, before + [e], Read(st, e).value)
  {
    Unfold(first, before, e);
    match e
    case Sent(a, ok) => StepSent(g, u, first, before, a, ok, st);
    case Refreshed(a, ok) => StepRefreshed(g, u, first, before, a, ok, st);
    case _ =>
  }

  lemma StepSent(g: Grid, u: real, first: real, before: seq<Event>, a: Offer, ok: bool, st: KeyState)
    requires Spaced(g, u) && Balanced(g, u, first, before, st) && Shape(Some(Some(first)), before, st)
    requires Read(st, Sent(a, ok)).Some?
    ensures Balanced(g, u, first, before + [Sent(a, ok)], Read(st, Sent(a, ok)).value)
  {
    var seen := LastSeen(first, before);
    assert InFlight(before) == 0 && a.price == Some(seen);
    assert st.mode.known;
    assert seen + u <= st.row.value.value;
    Unfold(first, before, Sent(a, ok));
  }

  lemma StepRefreshed(g: Grid, u: real, first: real, before: seq<Event>, a: Offer, ok: bool, st: KeyState)
    requires Balanced(g, u, first, before, st) && Shape(Some(Some(first)), before, st)
    requires Read(st, Refreshed(a, ok)).Some?
    requires before != [] ==> !LosesWrite(before[|before| - 1], Refreshed(a, ok))
    ensures Balanced(g, u, first, before + [Refreshed(a, ok)], Read(st, Refreshed(a, ok)).value)
  {
    Unfold(first, before, Refreshed(a, ok));
    assert a.price == Some(LastSeen(first, before));
  }

  lemma {:induction false} ReadAllSplit(st: KeyState, a: seq<Event>, b: seq<Event>)
    requires ReadAll(st, a + b).Some?
    ensures ReadAll(st, a).Some? && ReadAll(ReadAll(st, a).value, b) == ReadAll(st, a + b)
  {
    if b == [] {
      assert a + b == a;
    } else {
      var n := |b| - 1;
      assert (a + b)[..|a + b| - 1] == a + b[..n];
      ReadAllSplit(st, a, b[..n]);
    }
  }

  /** After x events no offer with the key is being handled. */
  predicate AtRest(es: seq<Event>, x: nat)
    requires x <= |es|
  {
    x > 0 ==>
      match es[x - 1]
      case LookedUp(_, ok) => !ok
      case Sent(_, ok) => !ok
      case _ => true
  }

  /** At rest the word starts afresh, with the row there is. */
  lemma RestSpells(row: Stored, es: seq<Event>, x: nat, j: nat)
    requires Spells(row, es) && x <= j <= |es| && AtRest(es, x)
    ensures Spells(RowAfter(row, es[..x]), es[x..j])
  {
    PrefixSpells(row, es, j);
    PrefixSpells(row, es, x);
    SpelledShape(row, es[..x]);
    assert x > 0 ==> es[..x][x - 1] == es[x - 1];
    assert es[..j] == es[..x] + es[x..j];
    ReadAllSplit(KeyState(row, Rest), es[..x], es[x..j]);
  }

  lemma BalancedBound(g: Grid, u: real, first: real, es: seq<Event>, st: KeyState)
    requires Balanced(g, u, first, es, st)
    ensures Worth(u, CountDelivered(es)) <= first - LastSeen(first, es) + Rises(first, es)
  {
  }

  lemma SpelledLifeIsBalanced(g: Grid, u: real, row: Stored, es: seq<Event>, x: nat, j: nat, first: real)
    requires Spaced(g, u) && g(first)
    requires Spells(row, es) && x <= j <= |es| && AtRest(es, x)
    requires RowAfter(row, es[..x]) == Some(Some(first))
    requires PricedLife(g, es[x..j]) && CountLost(es[x..j]) == 0
    ensures Worth(u, CountDelivered(es[x..j])) <= first - LastSeen(first, es[x..j]) + Rises(first, es[x..j])
  {
    var life := es[x..j];
    RestSpells(row, es, x, j);
    LifeIsBalanced(g, u, first, life);
    BalancedBound(g, u, first, life, ReadAll(KeyState(Some(Some(first)), Rest), life).value);
  }

  /**
   The potential bound. Take a row at a known price, at any moment when its key is
   at rest: at the start, right after its insert, or later. From there on, while
   the row is not deleted, all observed prices are known and on a grid with least
   step u, and no delivered notification loses its write: its drop notifications,
   at u each, are at most that price minus the last observed one plus all observed
   rises. Lookups and notifications may fail at will.
   */
  lemma DropsAreBounded(g: Grid, u: real, c: Config, owner: Owner, s: System, acts: seq<Action>, k: Key,
                        x: nat, j: nat, first: real)
    requires Spaced(g, u) && g(first)
    requires Admissible(c, owner, s, acts) && owner(k) < |c.products|
    requires var es := KeyLog(k, Run(c, s, acts).log);
             && x <= j <= |es| && AtRest(es, x)
             && RowAfter(StoredAt(s.rows, k), es[..x]) == Some(Some(first))
             && PricedLife(g, es[x..j]) && CountLost(es[x..j]) == 0
    ensures var life := KeyLog(k, Run(c, s, acts).log)[x..j];
            Worth(u, CountDelivered(life)) <= first - LastSeen(first, life) + Rises(first, life)
  {
    EveryRunSpells(c, owner, s, acts, k);
    SpelledLifeIsBalanced(g, u, StoredAt(s.rows, k), KeyLog(k, Run(c, s, acts).log), x, j, first);
  }

  lemma {:induction false} CentsWorth(n: nat)
    ensures Worth(0.01, n) == n as real / 100.0
  {
    if n == 0 {
    } else {
      CentsWorth(n - 1);
    }
  }

  /** For prices in cents: the drop notifications are at most that bound counted in cents. */
  lemma CentDropsAreBounded(c: Config, owner: Owner, s: System, acts: seq<Action>, k: Key, x: nat, j: nat, first: real)
    requires Admissible(c, owner, s, acts) && owner(k) < |c.products|
    requires CentGrid()(first)
    requires var es := KeyLog(k, Run(c, s, acts).log);
             && x <= j <= |es| && AtRest(es, x)
             && RowAfter(StoredAt(s.rows, k), es[..x]) == Some(Some(first))
             && PricedLife(CentGrid(), es[x..j]) && CountLost(es[x..j]) == 0
    ensures var life := KeyLog(k, Run(c, s, acts).log)[x..j];
            CountDelivered(life) as real / 100.0 <= first - LastSeen(first, life) + Rises(first, life)
  {
    CentsStep();
    DropsAreBounded(CentGrid(), 0.01, c, owner, s, acts, k, x, j, first);
    CentsWorth(CountDelivered(KeyLog(k, Run(c, s, acts).log)[x..j]));
  }
}
