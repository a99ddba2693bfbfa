/** What one tick, and a sequence of ticks, leaves in the table. */
module Reconcile {
  import opened Model
  import opened DedupStore
  import opened WithProduct
  import opened Tick

  /** The i-th offer meets no failing lookup, notifier or write. */
  predicate AllOk(r: Round, i: nat) {
    FaultAt(r, i).lookupOk && FaultAt(r, i).notifyOk && FaultAt(r, i).writeOk
  }

  ghost predicate FaultFree(r: Round) {
    r.keysOk && r.deleteFails == {} && forall i: nat :: AllOk(r, i)
  }

  /** Some offer with key k, from index i on, is handled without a fault. */
  ghost predicate Succeeds(current: seq<Offer>, r: Round, i: nat, k: Key) {
    exists j: nat :: i <= j < |current| && current[j].key == k && AllOk(r, j)
  }

  lemma {:induction false} SweepExact(rows: Table, keep: set<Key>, fails: set<Key>, todo: seq<Key>)
    ensures var s := Sweep(rows, keep, fails, todo).rows;
            forall k ::
              && (k in s <==> k in rows && (k !in todo || k in keep || k in fails))
              && (k in s ==> s[k] == rows[k])
  {
    if todo == [] {
    } else {
      var k := todo[0];
      assert todo == [k] + todo[1..];
      SweepExact(if k in keep || k in fails then rows else Deleted(rows, k), keep, fails, todo[1..]);
    }
  }

  /** Rows are only added, and only stock and price of a row ever change. */
  ghost predicate Extends(before: Table, after: Table) {
    forall k :: k in before ==>
      k in after && after[k] == before[k].(stock := after[k].stock, price := after[k].price)
  }

  /** A row's columns are those of this offer. */
  predicate RowTells(row: Row, a: Offer) {
    && row.source == a.source && row.storeName == a.storeName && row.product == a.productName
    && row.url == a.url && row.location == a.location
    && row.stock == a.stock && row.price == a.price
  }

  /** Its identity columns are. */
  predicate Identifies(row: Row, a: Offer) {
    && row.source == a.source && row.storeName == a.storeName && row.product == a.productName
    && row.url == a.url && row.location == a.location
  }

  /** A known row takes over stock and price, unless an operation fails or a drop is not delivered. */
  function RefreshedRow(row: Row, a: Offer, f: Faults): Row {
    var drop := row.price.Some? && a.price.Some? && a.price.value < row.price.value;
    if f.lookupOk && f.writeOk && (drop ==> f.notifyOk) then row.(stock := a.stock, price := a.price) else row
  }

  lemma HandleExact(rows: Table, a: Offer, f: Faults)
    ensures var h := Handle(rows, a, f).rows;
            && Extends(rows, h)
            && (forall k :: k in h <==> k in rows || (k == a.key && f.lookupOk && f.notifyOk && f.writeOk))
            && (forall k :: k in rows && k != a.key ==> h[k] == rows[k])
            && (a.key in h && a.key !in rows ==> RowTells(h[a.key], a))
            && (a.key in rows ==> h[a.key] == RefreshedRow(rows[a.key], a, f))
  {
  }

  /** The j-th offer met no fault, has this key and gave the row its identity. */
  ghost predicate IsOrigin(current: seq<Offer>, r: Round, i: nat, j: int, k: Key, row: Row) {
    i <= j < |current| && current[j].key == k && AllOk(r, j) && Identifies(row, current[j])
  }

  lemma {:induction false} ProcessExact(rows: Table, current: seq<Offer>, r: Round, i: nat)
    ensures var done := Process(rows, current, r, i).rows;
            && Extends(rows, done)
            && (forall k :: k in done <==> k in rows || Succeeds(current, r, i, k))
            && (forall k :: k in rows && k !in KeySet(current) ==> done[k] == rows[k])
            && (forall k :: k in done && k !in rows ==> exists j :: IsOrigin(current, r, i, j, k, done[k]))
    decreases |current| - i
  {
    if i >= |current| {
    } else {
      var h := Handle(rows, current[i], FaultAt(r, i)).rows;
      HandleExact(rows, current[i], FaultAt(r, i));
      ProcessExact(h, current, r, i + 1);
      var done := Process(rows, current, r, i).rows;
      forall k | k in done && k !in rows ensures exists j :: IsOrigin(current, r, i, j, k, done[k]) {
        if k in h {
          assert IsOrigin(current, r, i, i, k, done[k]);
        } else {
          var j :| IsOrigin(current, r, i + 1, j, k, done[k]);
          assert IsOrigin(current, r, i, j, k, done[k]);
        }
      }
      forall k
        ensures Succeeds(current, r, i, k) <==>
                (current[i].key == k && AllOk(r, i)) || Succeeds(current, r, i + 1, k)
      {
        if Succeeds(current, r, i, k) {
          var j: nat :| i <= j < |current| && current[j].key == k && AllOk(r, j);
          assert j == i || i + 1 <= j;
        }
      }
    }
  }

  lemma SweptExact(p: Product, rows: Table, current: seq<Offer>, r: Round)
    ensures var s := Swept(p, rows, current, r).rows;
            forall k ::
              && (k in s <==>
                    k in rows && (rows[k].product != p.name || k in KeySet(current) || !r.keysOk || k in r.deleteFails))
              && (k in s ==> s[k] == rows[k])
  {
    var todo := Arrange(r.order, KeysOf(rows, p.name));
    ArrangeEnumerates(r.order, KeysOf(rows, p.name));
    SweepExact(rows, KeySet(current), r.deleteFails, todo);
  }

  /**
   Reconcile exactness. After any tick, with any faults:
   a stored key that is offered survives, with its identity columns untouched;
   a stored key that is not offered survives exactly when it is another product's,
   or the stored keys did not load, or its own delete failed, and then unchanged;
   a key without a row gets one exactly when some offer with it met no fault.
   */
  lemma ReconcileExact(prefixes: seq<string>, p: Product, rows: Table, r: Round, k: Key)
    ensures var current := Current(prefixes, p, r);
            var after := TickOutcome(prefixes, p, rows, r).rows;
            && (k in rows && k in KeySet(current) ==>
                  k in after && after[k] == rows[k].(stock := after[k].stock, price := after[k].price))
            && (k in rows && k !in KeySet(current) ==>
                  && (k in after <==> rows[k].product != p.name || !r.keysOk || k in r.deleteFails)
                  && (k in after ==> after[k] == rows[k]))
            && (k !in rows ==> (k in after <==> Succeeds(current, r, 0, k)))
            && (k !in rows && k in after ==> exists j :: IsOrigin(current, r, 0, j, k, after[k]))
  {
    var current := Current(prefixes, p, r);
    var s := Swept(p, rows, current, r).rows;
    SweptExact(p, rows, current, r);
    ProcessExact(s, current, r, 0);
    if Succeeds(current, r, 0, k) {
      var j: nat :| j < |current| && current[j].key == k && AllOk(r, j);
      assert k in KeySet(current);
    }
  }

  // ----- filters, both ways

  lemma {:induction false} AdmittedExact(prefixes: seq<string>, offers: seq<Offer>, i: nat, a: Offer)
    ensures a in Admitted(prefixes, offers, i) <==>
            WithinBudget(a) && IsLocal(prefixes, a) && exists j :: i <= j < |offers| && offers[j] == a
    decreases |offers| - i
  {
    if i >= |offers| {
    } else {
      AdmittedExact(prefixes, offers, i + 1, a);
      if exists j :: i <= j < |offers| && offers[j] == a {
        var j :| i <= j < |offers| && offers[j] == a;
        assert j == i || i + 1 <= j;
      }
    }
  }

  /** A poll that succeeded returned an offer that, stamped, is `a`. */
  ghost predicate ReturnedBy(p: Product, poll: Poll, a: Offer) {
    poll.result.Some? && exists i :: 0 <= i < |poll.result.value| && Stamped(p, poll.result.value[i]) == a
  }

  ghost predicate Returned(p: Product, polls: seq<Poll>, from: nat, a: Offer) {
    exists j :: from <= j < |polls| && ReturnedBy(p, polls[j], a)
  }

  lemma ContributionExact(prefixes: seq<string>, p: Product, poll: Poll, a: Offer)
    ensures a in Contribution(prefixes, p, poll) <==>
            WithinBudget(a) && IsLocal(prefixes, a) && ReturnedBy(p, poll, a)
  {
    if poll.result.Some? {
      var raw, stamped := poll.result.value, Stamp(p, poll.result.value);
      AdmittedExact(prefixes, stamped, 0, a);
      assert forall i :: 0 <= i < |raw| ==> stamped[i] == Stamped(p, raw[i]);
    }
  }

  lemma {:induction false} GatheredExact(prefixes: seq<string>, p: Product, polls: seq<Poll>, from: nat, a: Offer)
    ensures a in Gathered(prefixes, p, polls, from) <==>
            WithinBudget(a) && IsLocal(prefixes, a) && Returned(p, polls, from, a)
    decreases |polls| - from
  {
    if from >= |polls| {
    } else {
      ContributionExact(prefixes, p, polls[from], a);
      GatheredExact(prefixes, p, polls, from + 1, a);
      if Returned(p, polls, from, a) {
        var j :| from <= j < |polls| && ReturnedBy(p, polls[j], a);
        assert j == from || from + 1 <= j;
      }
    }
  }

  /**
   What a product wants to hear of: offers that carry its name and cap, within the
   cap or of unknown price, and online, targeted, unfiltered or near.
   */
  predicate Wants(prefixes: seq<string>, p: Product, a: Offer) {
    && a.productName == p.name
    && a.priceMax == p.cap
    && (p.cap <= 0 || a.price.None? || a.price.value <= p.cap as real)
    && (|| a.channel == Online
        || a.targeted
        || prefixes == []
        || exists i :: 0 <= i < |prefixes| && prefixes[i] <= a.plz)
  }

  lemma WantsExactly(prefixes: seq<string>, p: Product, raw: Offer)
    ensures var a := raw.(productName := p.name, priceMax := p.cap);
            Stamped(p, raw) == a && (Wants(prefixes, p, a) <==> WithinBudget(a) && IsLocal(prefixes, a))
  {
  }

  /**
   A tick's list is exactly the returned offers of its successful polls, stamped
   with name and cap, that the product wants: nothing else is taken, and nothing
   wanted is left out.
   */
  lemma CurrentExact(prefixes: seq<string>, p: Product, r: Round, a: Offer)
    ensures a in Current(prefixes, p, r) <==> Wants(prefixes, p, a) && Returned(p, r.polls, 0, a)
  {
    GatheredExact(prefixes, p, r.polls, 0, a);
    if Returned(p, r.polls, 0, a) {
      var j :| 0 <= j < |r.polls| && ReturnedBy(p, r.polls[j], a);
      var i :| 0 <= i < |r.polls[j].result.value| && Stamped(p, r.polls[j].result.value[i]) == a;
      WantsExactly(prefixes, p, r.polls[j].result.value[i]);
    }
  }

  // ----- and in order

  /** An offer's place: its poll, and its index among that poll's offers. */
  type Place = (nat, nat)

  predicate Before(x: Place, y: Place) {
    x.0 < y.0 || (x.0 == y.0 && x.1 < y.1)
  }

  predicate IsPlace(polls: seq<Poll>, x: Place) {
    x.0 < |polls| && polls[x.0].result.Some? && x.1 < |polls[x.0].result.value|
  }

  /** The offer returned there, under the product's name and cap. */
  function OfferAt(p: Product, polls: seq<Poll>, x: Place): Offer
    requires IsPlace(polls, x)
  {
    polls[x.0].result.value[x.1].(productName := p.name, priceMax := p.cap)
  }

  ghost predicate WantedAt(prefixes: seq<string>, p: Product, polls: seq<Poll>, x: Place) {
    IsPlace(polls, x) && Wants(prefixes, p, OfferAt(p, polls, x))
  }

  /** `current` has the wanted offers in the order of these places, poll by poll. */
  ghost predicate Lists(prefixes: seq<string>, p: Product, polls: seq<Poll>, current: seq<Offer>, pos: seq<Place>) {
    && |pos| == |current|
    && (forall m :: 0 <= m < |pos| ==> IsPlace(polls, pos[m]) && current[m] == OfferAt(p, polls, pos[m]))
    && (forall m, l :: 0 <= m < l < |pos| ==> Before(pos[m], pos[l]))
  }

  /** Every wanted offer of the polls from j on has its place. */
  ghost predicate Covers(prefixes: seq<string>, p: Product, polls: seq<Poll>, j: nat, pos: seq<Place>) {
    forall x: Place :: x.0 >= j && WantedAt(prefixes, p, polls, x) ==> x in pos
  }

  lemma {:induction false} AdmittedPlaces(prefixes: seq<string>, p: Product, polls: seq<Poll>, j: nat, i: nat)
    returns (pos: seq<Place>)
    requires j < |polls| && polls[j].result.Some?
    ensures Lists(prefixes, p, polls, Admitted(prefixes, Stamp(p, polls[j].result.value), i), pos)
    ensures forall x :: x in pos ==> x.0 == j && x.1 >= i
    ensures forall n: nat :: n >= i && WantedAt(prefixes, p, polls, (j, n)) ==> (j, n) in pos
    decreases |polls[j].result.value| - i
  {
    var raw := polls[j].result.value;
    if i >= |raw| {
      pos := [];
    } else {
      var rest := AdmittedPlaces(prefixes, p, polls, j, i + 1);
      var stamped := Stamp(p, raw);
      WantsExactly(prefixes, p, raw[i]);
      assert stamped[i] == OfferAt(p, polls, (j, i));
      if WithinBudget(stamped[i]) && IsLocal(prefixes, stamped[i]) {
        pos := [(j, i)] + rest;
        PlaceInFront(prefixes, p, polls, Admitted(prefixes, stamped, i + 1), (j, i), rest);
      } else {
        pos := rest;
        assert [] + Admitted(prefixes, stamped, i + 1) == Admitted(prefixes, stamped, i + 1);
      }
      forall n: nat | n >= i && WantedAt(prefixes, p, polls, (j, n)) ensures (j, n) in pos {
        if n > i {
          assert (j, n) in rest;
        }
      }
    }
  }

  lemma PlaceInFront(prefixes: seq<string>, p: Product, polls: seq<Poll>, rest: seq<Offer>, x: Place, pos: seq<Place>)
    requires Lists(prefixes, p, polls, rest, pos) && IsPlace(polls, x)
    requires forall y :: y in pos ==> Before(x, y)
    ensures Lists(prefixes, p, polls, [OfferAt(p, polls, x)] + rest, [x] + pos)
  {
    PlacesJoin(prefixes, p, polls, [OfferAt(p, polls, x)], [x], rest, pos);
  }

  lemma PlacesJoin(prefixes: seq<string>, p: Product, polls: seq<Poll>, a: seq<Offer>, x: seq<Place>,
                   b: seq<Offer>, y: seq<Place>)
    requires Lists(prefixes, p, polls, a, x) && Lists(prefixes, p, polls, b, y)
    requires forall u, v :: u in x && v in y ==> Before(u, v)
    ensures Lists(prefixes, p, polls, a + b, x + y)
  {
    forall m, l | 0 <= m < l < |x + y| ensures Before((x + y)[m], (x + y)[l]) {
      if m < |x| <= l {
        assert x[m] in x && y[l - |x|] in y;
      }
    }
  }

  lemma {:induction false} GatheredPlaces(prefixes: seq<string>, p: Product, polls: seq<Poll>, j: nat)
    returns (pos: seq<Place>)
    ensures Lists(prefixes, p, polls, Gathered(prefixes, p, polls, j), pos) && Covers(prefixes, p, polls, j, pos)
    ensures forall x :: x in pos ==> x.0 >= j
    decreases |polls| - j
  {
    if j >= |polls| {
      pos := [];
    } else {
      var here: seq<Place> := [];
      if polls[j].result.Some? {
        here := AdmittedPlaces(prefixes, p, polls, j, 0);
      }
      var rest := GatheredPlaces(prefixes, p, polls, j + 1);
      PlacesJoin(prefixes, p, polls, Contribution(prefixes, p, polls[j]), here,
                 Gathered(prefixes, p, polls, j + 1), rest);
      pos := here + rest;
      forall x: Place | x.0 >= j && WantedAt(prefixes, p, polls, x) ensures x in pos {
        if x.0 == j {
          assert x == (j, x.1) && x in here;
        } else {
          assert x in rest;
        }
      }
    }
  }

  /** A tick's list has exactly the wanted offers of its polls, each once, in the order they were returned. */
  lemma CurrentInOrder(prefixes: seq<string>, p: Product, r: Round) returns (pos: seq<Place>)
    ensures Lists(prefixes, p, r.polls, Current(prefixes, p, r), pos)
    ensures forall x: Place :: WantedAt(prefixes, p, r.polls, x) <==> x in pos
  {
    pos := GatheredPlaces(prefixes, p, r.polls, 0);
    forall x: Place ensures WantedAt(prefixes, p, r.polls, x) <==> x in pos {
      if x in pos {
        var m :| 0 <= m < |pos| && pos[m] == x;
        assert Current(prefixes, p, r)[m] in Current(prefixes, p, r);
        CurrentExact(prefixes, p, r, Current(prefixes, p, r)[m]);
      }
    }
  }

  // ----- the row of the last offer

  lemma {:induction false} ProcessKeepsLast(rows: Table, current: seq<Offer>, r: Round, i: nat, m: nat)
    requires FaultFree(r) && i <= |current| && m < |current|
    requires forall j :: m < j < |current| ==> current[j].key != current[m].key
    requires m < i ==> var k := current[m].key;
                       k in rows && rows[k].stock == current[m].stock && rows[k].price == current[m].price
    ensures var k := current[m].key;
            var done := Process(rows, current, r, i).rows;
            k in done && done[k].stock == current[m].stock && done[k].price == current[m].price
    decreases |current| - i
  {
    if i >= |current| {
    } else {
      assert AllOk(r, i);
      ProcessKeepsLast(Handle(rows, current[i], FaultAt(r, i)).rows, current, r, i + 1, m);
    }
  }

  /** No wanted offer with this key was returned after place x. */
  ghost predicate IsLastPlace(prefixes: seq<string>, p: Product, polls: seq<Poll>, x: Place, k: Key) {
    && WantedAt(prefixes, p, polls, x) && OfferAt(p, polls, x).key == k
    && forall y: Place :: WantedAt(prefixes, p, polls, y) && Before(x, y) ==> OfferAt(p, polls, y).key != k
  }

  lemma LastOfKey(current: seq<Offer>, i: nat) returns (m: nat)
    requires i < |current|
    ensures m < |current| && current[m].key == current[i].key
    ensures forall j :: m < j < |current| ==> current[j].key != current[i].key
  {
    m := i;
    for j := i to |current|
      invariant i <= m < |current| && current[m].key == current[i].key
      invariant forall x :: m < x < j ==> current[x].key != current[i].key
    {
      if current[j].key == current[i].key {
        m := j;
      }
    }
  }

  /**
   After a fault-free tick every offer the product wants, at whatever place it was
   returned, has a row, and the row holds stock and price of the last wanted offer
   that was returned with its key.
   */
  lemma LastOfferIsStored(prefixes: seq<string>, p: Product, rows: Table, r: Round, x: Place) returns (last: Place)
    requires FaultFree(r) && WantedAt(prefixes, p, r.polls, x)
    ensures var k := OfferAt(p, r.polls, x).key;
            var after := TickOutcome(prefixes, p, rows, r).rows;
            && IsLastPlace(prefixes, p, r.polls, last, k)
            && k in after
            && after[k].stock == r.polls[last.0].result.value[last.1].stock
            && after[k].price == r.polls[last.0].result.value[last.1].price
  {
    var current := Current(prefixes, p, r);
    var pos := CurrentInOrder(prefixes, p, r);
    assert x in pos;
    var i :| 0 <= i < |pos| && pos[i] == x;
    var m := LastOfKey(current, i);
    last := pos[m];
    assert last in pos;
    forall y: Place | WantedAt(prefixes, p, r.polls, y) && Before(last, y)
      ensures OfferAt(p, r.polls, y).key != current[i].key
    {
      assert y in pos;
      var l :| 0 <= l < |pos| && pos[l] == y;
      assert l > m;
    }
    ProcessKeepsLast(Swept(p, rows, current, r).rows, current, r, 0, m);
  }

  // ----- at least once, over ticks

  /** Key k is offered in every one of these ticks. */
  ghost predicate Present(prefixes: seq<string>, p: Product, rounds: seq<Round>, k: Key) {
    forall m :: 0 <= m < |rounds| ==> k in KeySet(Current(prefixes, p, rounds[m]))
  }

  lemma PresentPrefix(prefixes: seq<string>, p: Product, rounds: seq<Round>, k: Key, n: nat)
    requires Present(prefixes, p, rounds, k) && n <= |rounds|
    ensures Present(prefixes, p, rounds[..n], k)
  {
    forall m | 0 <= m < n ensures k in KeySet(Current(prefixes, p, rounds[..n][m])) {
      assert rounds[..n][m] == rounds[m];
    }
  }

  /** No offer with key k gets through a tick without a fault. */
  ghost predicate Thwarted(prefixes: seq<string>, p: Product, r: Round, k: Key) {
    !Succeeds(Current(prefixes, p, r), r, 0, k)
  }

  ghost predicate AllThwarted(prefixes: seq<string>, p: Product, rounds: seq<Round>, k: Key) {
    forall m :: 0 <= m < |rounds| ==> Thwarted(prefixes, p, rounds[m], k)
  }

  lemma AllThwartedSnoc(prefixes: seq<string>, p: Product, rounds: seq<Round>, k: Key, n: nat)
    requires n + 1 == |rounds| && AllThwarted(prefixes, p, rounds[..n], k) && Thwarted(prefixes, p, rounds[n], k)
    ensures AllThwarted(prefixes, p, rounds, k)
  {
    forall m | 0 <= m < |rounds| ensures Thwarted(prefixes, p, rounds[m], k) {
      if m < n {
        assert rounds[..n][m] == rounds[m];
      }
    }
  }

  /** A key that is offered but has no row after the tick had none before, and met faults only. */
  lemma RowlessTick(prefixes: seq<string>, p: Product, rows: Table, r: Round, k: Key)
    requires k in KeySet(Current(prefixes, p, r)) && k !in TickOutcome(prefixes, p, rows, r).rows
    ensures k !in rows && Thwarted(prefixes, p, r, k)
  {
    ReconcileExact(prefixes, p, rows, r, k);
  }

  /**
   At least once: a key offered in every tick, and still without a row at the
   end, met a failing lookup, notifier or write on every single offer.
   */
  lemma {:induction false} AtLeastOnce(prefixes: seq<string>, p: Product, rows: Table, rounds: seq<Round>, k: Key)
    requires Present(prefixes, p, rounds, k)
    requires k !in RunRounds(prefixes, p, rows, rounds).rows
    ensures k !in rows
    ensures AllThwarted(prefixes, p, rounds, k)
  {
    if rounds == [] {
    } else {
      var n := |rounds| - 1;
      RowlessTick(prefixes, p, RunRounds(prefixes, p, rows, rounds[..n]).rows, rounds[n], k);
      PresentPrefix(prefixes, p, rounds, k, n);
      AtLeastOnce(prefixes, p, rows, rounds[..n], k);
      AllThwartedSnoc(prefixes, p, rounds, k, n);
    }
  }
}
