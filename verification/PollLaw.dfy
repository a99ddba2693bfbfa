/**
 What the log says of the polls: in a tick, in a run of ticks, and in every
 interleaving. Nothing is logged, counted or notified that no poll returned.
 */
module PollLaw {
  import opened Model
  import opened DedupStore
  import opened WithProduct
  import opened Tick
  import opened Steps
  import opened Watchers
  import opened KeyTrace
  import opened Reconcile
  import opened RunLaw
  import opened Metrics
  import opened MetricsLaw
  import opened Exposition

  // ----- one poll

  /** The total stock is a sum: nothing for no offers, an offer's stock for one, and additive. */
  lemma {:induction false} StockAdds(a: seq<Offer>, b: seq<Offer>)
    ensures StockFrom([], 0) == 0
    ensures |a| == 1 ==> StockFrom(a, 0) == a[0].stock
    ensures StockFrom(a + b, 0) == StockFrom(a, 0) + StockFrom(b, 0)
  {
    StockSuffix(a, b, 0);
    StockShift(a, b, 0);
  }

  lemma {:induction false} StockShift(a: seq<Offer>, b: seq<Offer>, i: nat)
    ensures StockFrom(a + b, |a| + i) == StockFrom(b, i)
    decreases |b| - i
  {
    if i >= |b| {
    } else {
      StockShift(a, b, i + 1);
    }
  }

  lemma {:induction false} StockSuffix(a: seq<Offer>, b: seq<Offer>, i: nat)
    requires i <= |a|
    ensures StockFrom(a + b, i) == StockFrom(a, i) + StockFrom(a + b, |a|)
    decreases |a| - i
  {
    if i == |a| {
    } else {
      StockSuffix(a, b, i + 1);
    }
  }

  /**
   The event reports this poll: good exactly when the check succeeded, and then
   with the number of offers, their total stock and their least known price.
   */
  ghost predicate Reports(e: Event, poll: Poll) {
    && e.Polled? && e.source == poll.source && e.at == poll.at
    && (e.good <==> poll.result.Some?)
    && (poll.result.Some? ==>
          && e.available == |poll.result.value|
          && e.stock == StockFrom(poll.result.value, 0)
          && IsMinPrice(poll.result.value, e.minPrice))
  }

  lemma PollReports(poll: Poll)
    ensures Reports(PollEvent(poll), poll)
  {
  }

  lemma {:induction false} PollEventAt(polls: seq<Poll>, j: nat, i: nat)
    requires j <= i < |polls|
    ensures |PollEvents(polls, j)| == |polls| - j
    ensures PollEvents(polls, j)[i - j] == PollEvent(polls[i])
    decreases |polls| - j
  {
    var rest := PollEvents(polls, j + 1);
    assert PollEvents(polls, j) == [PollEvent(polls[j])] + rest;
    if j < i {
      PollEventAt(polls, j + 1, i);
    } else if j + 1 < |polls| {
      PollEventAt(polls, j + 1, j + 1);
    }
  }

  lemma PollsReport(polls: seq<Poll>)
    ensures |PollEvents(polls, 0)| == |polls|
    ensures forall i :: 0 <= i < |polls| ==> Reports(PollEvents(polls, 0)[i], polls[i])
  {
    if |polls| > 0 {
      PollEventAt(polls, 0, 0);
    }
    forall i | 0 <= i < |polls| ensures Reports(PollEvents(polls, 0)[i], polls[i]) {
      PollEventAt(polls, 0, i);
      PollReports(polls[i]);
    }
  }

  // ----- the events of one tick

  lemma {:induction false} SweepEvents(rows: Table, keep: set<Key>, fails: set<Key>, todo: seq<Key>, e: Event)
    ensures e in Sweep(rows, keep, fails, todo).events <==>
            e.Dropped? && e.key in todo && e.key !in keep && (e.ok <==> e.key !in fails)
  {
    if todo == [] {
    } else {
      var next := if todo[0] in keep || todo[0] in fails then rows else Deleted(rows, todo[0]);
      assert todo == [todo[0]] + todo[1..];
      SweepEvents(next, keep, fails, todo[1..], e);
    }
  }

  /** Events of handling offers: no polls, no deletes. */
  predicate Handling(e: Event) {
    !e.Polled? && !e.Dropped? && !e.Crashed?
  }

  lemma {:induction false} ProcessHandles(rows: Table, current: seq<Offer>, r: Round, i: nat)
    ensures forall e :: e in Process(rows, current, r, i).events ==> Handling(e)
    decreases |current| - i
  {
    if i >= |current| {
    } else {
      ProcessHandles(Handle(rows, current[i], FaultAt(r, i)).rows, current, r, i + 1);
    }
  }

  /** The three parts of a tick's log: its polls, then its deletes, then the handling of its offers. */
  ghost predicate InPhases(events: seq<Event>, polls: seq<Poll>, d: nat) {
    && |polls| <= d <= |events|
    && (forall i :: 0 <= i < |polls| ==> Reports(events[i], polls[i]))
    && (forall i :: |polls| <= i < d ==> events[i].Dropped?)
    && (forall i :: d <= i < |events| ==> Handling(events[i]))
  }

  /**
   What a tick logs before it handles offers: first, poll by poll, what each check
   returned; then a delete for exactly the product's stored keys that no poll
   offers any more, provided that the keys load.
   */
  lemma TickReports(prefixes: seq<string>, p: Product, rows: Table, r: Round) returns (d: nat)
    ensures InPhases(TickOutcome(prefixes, p, rows, r).events, r.polls, d)
    ensures forall k, ok :: Dropped(k, ok) in TickOutcome(prefixes, p, rows, r).events <==>
              && r.keysOk && k in rows && rows[k].product == p.name
              && k !in KeySet(Current(prefixes, p, r)) && (ok <==> k !in r.deleteFails)
  {
    var current := Current(prefixes, p, r);
    var polled, swept := PollEvents(r.polls, 0), Swept(p, rows, current, r);
    var done := Process(swept.rows, current, r, 0);
    PollsReport(r.polls);
    ProcessHandles(swept.rows, current, r, 0);
    var todo := Arrange(r.order, KeysOf(rows, p.name));
    SweepDelivers(rows, KeySet(current), r.deleteFails, todo);
    ArrangeEnumerates(r.order, KeysOf(rows, p.name));
    d := |polled| + |swept.events|;
    var events := polled + swept.events + done.events;
    PhasesJoin(polled, swept.events, done.events, r.polls);
    forall k, ok
      ensures Dropped(k, ok) in events <==>
              && r.keysOk && k in rows && rows[k].product == p.name
              && k !in KeySet(current) && (ok <==> k !in r.deleteFails)
    {
      SweepEvents(rows, KeySet(current), r.deleteFails, todo, Dropped(k, ok));
      assert Dropped(k, ok) !in polled;
    }
  }

  lemma PhasesJoin(a: seq<Event>, b: seq<Event>, c: seq<Event>, polls: seq<Poll>)
    requires |a| == |polls| && forall i :: 0 <= i < |polls| ==> Reports(a[i], polls[i])
    requires forall i :: 0 <= i < |b| ==> b[i].Dropped?
    requires forall e :: e in c ==> Handling(e)
    ensures InPhases(a + b + c, polls, |a| + |b|)
  {
    var all := a + b + c;
    forall i | |a| + |b| <= i < |all| ensures Handling(all[i]) {
      assert all[i] == c[i - |a| - |b|] && all[i] in c;
    }
  }

  // ----- counting polls

  /** The polls of this source with this outcome, from poll j on. */
  function PollsOf(n: string, good: bool, polls: seq<Poll>, j: nat): nat
    decreases |polls| - j
  {
    if j >= |polls| then 0
    else (if polls[j].source == n && polls[j].result.Some? == good then 1 else 0) + PollsOf(n, good, polls, j + 1)
  }

  function RoundsPolls(n: string, good: bool, rounds: seq<Round>): nat {
    if rounds == [] then 0
    else RoundsPolls(n, good, rounds[..|rounds| - 1]) + PollsOf(n, good, rounds[|rounds| - 1].polls, 0)
  }

  lemma PollsSnoc(n: string, good: bool, es: seq<Event>, e: Event)
    ensures Polls(n, good, es + [e]) ==
            Polls(n, good, es) + if e.Polled? && e.source == n && e.good == good then 1 else 0
  {
    assert (es + [e])[..|es|] == es;
  }

  lemma {:induction false} PollsConcat(n: string, good: bool, a: seq<Event>, b: seq<Event>)
    ensures Polls(n, good, a + b) == Polls(n, good, a) + Polls(n, good, b)
  {
    if b == [] {
      assert a + b == a;
    } else {
      var front, e := b[..|b| - 1], b[|b| - 1];
      PollsConcat(n, good, a, front);
      assert b == front + [e];
      Regroup(a, front, [e]);
      PollsSnoc(n, good, a + front, e);
    }
  }

  lemma {:induction false} PollEventsCount(n: string, good: bool, polls: seq<Poll>, j: nat)
    ensures Polls(n, good, PollEvents(polls, j)) == PollsOf(n, good, polls, j)
    decreases |polls| - j
  {
    if j >= |polls| {
    } else {
      PollEventsCount(n, good, polls, j + 1);
      PollsConcat(n, good, [PollEvent(polls[j])], PollEvents(polls, j + 1));
      PollsSnoc(n, good, [], PollEvent(polls[j]));
      assert [] + [PollEvent(polls[j])] == [PollEvent(polls[j])];
    }
  }

  lemma {:induction false} NoPolls(n: string, good: bool, es: seq<Event>)
    requires forall i :: 0 <= i < |es| ==> !es[i].Polled?
    ensures Polls(n, good, es) == 0
  {
    if es == [] {
    } else {
      NoPolls(n, good, es[..|es| - 1]);
    }
  }

  lemma TickPolls(prefixes: seq<string>, p: Product, rows: Table, r: Round, n: string, good: bool)
    ensures Polls(n, good, TickOutcome(prefixes, p, rows, r).events) == PollsOf(n, good, r.polls, 0)
  {
    var current := Current(prefixes, p, r);
    var polled, swept := PollEvents(r.polls, 0), Swept(p, rows, current, r);
    var done := Process(swept.rows, current, r, 0);
    SweepDelivers(rows, KeySet(current), r.deleteFails, Arrange(r.order, KeysOf(rows, p.name)));
    ProcessHandles(swept.rows, current, r, 0);
    NoPolls(n, good, swept.events);
    assert forall i :: 0 <= i < |done.events| ==> done.events[i] in done.events;
    NoPolls(n, good, done.events);
    PollsConcat(n, good, polled, swept.events);
    PollsConcat(n, good, polled + swept.events, done.events);
    PollEventsCount(n, good, r.polls, 0);
  }

  /** Over ticks the log has exactly the polls of the rounds, by source and outcome. */
  lemma {:induction false} TicksPolls(prefixes: seq<string>, p: Product, rows: Table, rounds: seq<Round>,
                                      n: string, good: bool)
    ensures Polls(n, good, RunRounds(prefixes, p, rows, rounds).events) == RoundsPolls(n, good, rounds)
  {
    if rounds == [] {
    } else {
      var m := |rounds| - 1;
      TicksPolls(prefixes, p, rows, rounds[..m], n, good);
      var mid := RunRounds(prefixes, p, rows, rounds[..m]);
      TickPolls(prefixes, p, mid.rows, rounds[m], n, good);
      PollsConcat(n, good, mid.events, TickOutcome(prefixes, p, mid.rows, rounds[m]).events);
    }
  }

  // ----- the check counters of the running process

  function Sum(d: seq<nat>): nat {
    if d == [] then 0 else Sum(d[..|d| - 1]) + d[|d| - 1]
  }

  lemma {:induction false} SumAdds(x: seq<nat>, y: seq<nat>, d: seq<nat>)
    requires |x| == |y| == |d| && forall i :: 0 <= i < |x| ==> y[i] == x[i] + d[i]
    ensures Sum(y) == Sum(x) + Sum(d)
  {
    if x == [] {
    } else {
      var n := |x| - 1;
      SumAdds(x[..n], y[..n], d[..n]);
    }
  }

  /** k at position v, if there is one, and nothing elsewhere. */
  function OneHot(m: nat, v: nat, k: nat): seq<nat> {
    seq(m, i => if i == v then k else 0)
  }

  lemma {:induction false} SumOneHot(m: nat, v: nat, k: nat)
    ensures Sum(OneHot(m, v, k)) == if v < m then k else 0
  {
    if m == 0 {
    } else {
      assert OneHot(m, v, k)[..m - 1] == OneHot(m - 1, v, k);
      SumOneHot(m - 1, v, k);
    }
  }

  /** The polls in the logs of the first m watchers. */
  function PollCounts(m: nat, log: seq<Entry>, n: string, good: bool): seq<nat> {
    seq(m, w requires 0 <= w < m => Polls(n, good, LogOf(w, log)))
  }

  function PollsIn(m: nat, log: seq<Entry>, n: string, good: bool): nat {
    Sum(PollCounts(m, log, n, good))
  }

  function PollsMade(e: Event, n: string, good: bool): nat {
    if e.Polled? && e.source == n && e.good == good then 1 else 0
  }

  lemma LogOfPolls(w: nat, log: seq<Entry>, v: nat, e: Event, n: string, good: bool)
    requires !e.Crashed?
    ensures Polls(n, good, LogOf(w, log + [Entry(v, e)])) ==
            Polls(n, good, LogOf(w, log)) + if v == w then PollsMade(e, n, good) else 0
  {
    assert (log + [Entry(v, e)])[..|log|] == log;
    if v == w {
      PollsSnoc(n, good, LogOf(w, log), e);
    } else {
      assert LogOf(w, log) + [] == LogOf(w, log);
    }
  }

  lemma PollsInGrow(m: nat, log: seq<Entry>, v: nat, e: Event, n: string, good: bool)
    requires !e.Crashed?
    ensures PollsIn(m, log + [Entry(v, e)], n, good) ==
            PollsIn(m, log, n, good) + if v < m then PollsMade(e, n, good) else 0
  {
    var x, y := PollCounts(m, log, n, good), PollCounts(m, log + [Entry(v, e)], n, good);
    var d := OneHot(m, v, PollsMade(e, n, good));
    forall w | 0 <= w < m ensures y[w] == x[w] + d[w] {
      LogOfPolls(w, log, v, e, n, good);
    }
    SumAdds(x, y, d);
    SumOneHot(m, v, PollsMade(e, n, good));
  }

  lemma SinceCrashGrows(log: seq<Entry>, v: nat, e: Event, n: string, good: bool)
    requires !e.Crashed?
    ensures Polls(n, good, SinceCrash(log + [Entry(v, e)])) == Polls(n, good, SinceCrash(log)) + PollsMade(e, n, good)
  {
    assert (log + [Entry(v, e)])[..|log|] == log;
    PollsSnoc(n, good, SinceCrash(log), e);
  }

  /** Without crashes the process has seen the polls of all its watchers. */
  lemma {:induction false} RunPolls(c: Config, s: System, acts: seq<Action>, n: string, good: bool)
    requires Fitting(c, s) && NoCrash(acts)
    ensures var t, m := Run(c, s, acts), |c.products|;
            Polls(n, good, SinceCrash(t.log)) - Polls(n, good, SinceCrash(s.log)) ==
            PollsIn(m, t.log, n, good) - PollsIn(m, s.log, n, good)
  {
    if acts == [] {
    } else {
      var l := |acts| - 1;
      RunPolls(c, s, acts[..l], n, good);
      StepPolls(c, Run(c, s, acts[..l]), acts[l], n, good);
    }
  }

  lemma StepPolls(c: Config, s: System, a: Action, n: string, good: bool)
    requires Fitting(c, s) && !a.Crash?
    ensures var t, m := Next(c, s, a), |c.products|;
            Polls(n, good, SinceCrash(t.log)) - Polls(n, good, SinceCrash(s.log)) ==
            PollsIn(m, t.log, n, good) - PollsIn(m, s.log, n, good)
  {
    if a.Go? && a.w < |s.pcs| {
      GoShape(c, s, a.w);
      StepOwes(c.prefixes, c.products[a.w], s.rows, s.pcs[a.w], n);
      var e := Emitted(s.rows, s.pcs[a.w]);
      if e == [] {
        assert s.log + Tagged(a.w, e) == s.log;
      } else {
        assert Tagged(a.w, e) == [Entry(a.w, e[0])];
        PollsInGrow(|c.products|, s.log, a.w, e[0], n, good);
        SinceCrashGrows(s.log, a.w, e[0], n, good);
      }
    }
  }

  /** The polls of the ticks that each watcher begins in a stretch. */
  ghost function BegunCounts(c: Config, owner: Owner, s: System, acts: seq<Action>, n: string, good: bool): seq<nat>
    requires Fitting(c, s)
  {
    seq(|c.products|, w requires 0 <= w < |c.products| => RoundsPolls(n, good, TicksOf(c, owner, s, acts, w)))
  }

  ghost function PollsBegun(c: Config, owner: Owner, s: System, acts: seq<Action>, n: string, good: bool): nat
    requires Fitting(c, s)
  {
    Sum(BegunCounts(c, owner, s, acts, n, good))
  }

  /** One watcher's share of them. */
  lemma WatcherPolls(c: Config, owner: Owner, s: System, acts: seq<Action>, w: nat, n: string, good: bool)
    requires Stretch(c, owner, s, acts, w)
    ensures Polls(n, good, LogOf(w, Run(c, s, acts).log)) ==
            Polls(n, good, LogOf(w, s.log)) + RoundsPolls(n, good, TicksOf(c, owner, s, acts, w))
  {
    var rounds, rows := TicksOf(c, owner, s, acts, w), Share(owner, w, s.rows);
    InterleavedTicks(c, owner, s, acts, w);
    TicksPolls(c.prefixes, c.products[w], rows, rounds, n, good);
    PollsConcat(n, good, LogOf(w, s.log), RunRounds(c.prefixes, c.products[w], rows, rounds).events);
  }

  lemma StretchPolls(c: Config, owner: Owner, s: System, acts: seq<Action>, n: string, good: bool)
    requires Fitting(c, s) && forall w :: 0 <= w < |c.products| ==> Stretch(c, owner, s, acts, w)
    ensures PollsIn(|c.products|, Run(c, s, acts).log, n, good) ==
            PollsIn(|c.products|, s.log, n, good) + PollsBegun(c, owner, s, acts, n, good)
  {
    var m, after := |c.products|, Run(c, s, acts).log;
    var x, y := PollCounts(m, s.log, n, good), PollCounts(m, after, n, good);
    var d := BegunCounts(c, owner, s, acts, n, good);
    forall w | 0 <= w < m ensures y[w] == x[w] + d[w] {
      WatcherPolls(c, owner, s, acts, w, n, good);
    }
    SumAdds(x, y, d);
  }

  /**
   Over any crash-free stretch, between two moments when all watchers are between
   ticks, a source's check counters go up by exactly the successful and the failed
   polls of it in the ticks that all watchers begin.
   */
  lemma ChecksAreCounted(c: Config, owner: Owner, s: System, acts: seq<Action>, n: string)
    requires Fitting(c, s) && NoCrash(acts)
    requires forall w :: 0 <= w < |c.products| ==> Stretch(c, owner, s, acts, w)
    ensures var before, after := Get(MetricsOf(s), n), Get(MetricsOf(Run(c, s, acts)), n);
            && after.checksSuccess == before.checksSuccess + PollsBegun(c, owner, s, acts, n, true)
            && after.checksError == before.checksError + PollsBegun(c, owner, s, acts, n, false)
  {
    MetricsAgree(SinceCrash(s.log), n);
    MetricsAgree(SinceCrash(Run(c, s, acts).log), n);
    RunPolls(c, s, acts, n, true);
    RunPolls(c, s, acts, n, false);
    StretchPolls(c, owner, s, acts, n, true);
    StretchPolls(c, owner, s, acts, n, false);
  }

  // ----- nothing is made up

  /** Watcher w was told to begin this tick. */
  ghost predicate BegunBy(acts: seq<Action>, w: nat, r: Round) {
    exists i :: 0 <= i < |acts| && acts[i] == Begin(w, r)
  }

  /** Some poll of a tick that w was told to begin is reported by this event. */
  ghost predicate RealPoll(acts: seq<Action>, w: nat, e: Event) {
    exists r, j :: IsRealPoll(acts, w, e, r, j)
  }

  ghost predicate IsRealPoll(acts: seq<Action>, w: nat, e: Event, r: Round, j: int) {
    BegunBy(acts, w, r) && 0 <= j < |r.polls| && Reports(e, r.polls[j])
  }

  /** It returned this offer, which the product wants and which carries its name and cap. */
  ghost predicate RealOffer(c: Config, acts: seq<Action>, w: nat, a: Offer)
    requires w < |c.products|
  {
    exists r, x :: IsRealOffer(c, acts, w, a, r, x)
  }

  ghost predicate IsRealOffer(c: Config, acts: seq<Action>, w: nat, a: Offer, r: Round, x: Place)
    requires w < |c.products|
  {
    && BegunBy(acts, w, r)
    && WantedAt(c.prefixes, c.products[w], r.polls, x) && a == OfferAt(c.products[w], r.polls, x)
  }

  /** The offer an event is about. */
  function About(e: Event): Option<Offer> {
    match e
    case LookedUp(a, _) => Some(a)
    case Sent(a, _) => Some(a)
    case Refreshed(a, _) => Some(a)
    case Inserted(a, _) => Some(a)
    case _ => None
  }

  ghost predicate RealEvent(c: Config, acts: seq<Action>, x: Entry) {
    && (x.event.Polled? ==> RealPoll(acts, x.who, x.event))
    && (About(x.event).Some? ==> x.who < |c.products| && RealOffer(c, acts, x.who, About(x.event).value))
  }

  ghost predicate RealPc(c: Config, acts: seq<Action>, w: nat, pc: Pc)
    requires w < |c.products|
  {
    pc.Idle? || (BegunBy(acts, w, pc.r) && forall i :: 0 <= i < |pc.current| ==> RealOffer(c, acts, w, pc.current[i]))
  }

  ghost predicate AllReal(c: Config, acts: seq<Action>, s: System)
    requires Fitting(c, s)
  {
    && (forall i :: 0 <= i < |s.log| ==> RealEvent(c, acts, s.log[i]))
    && (forall w :: 0 <= w < |s.pcs| ==> RealPc(c, acts, w, s.pcs[w]))
  }

  lemma BegunMore(acts: seq<Action>, more: seq<Action>, w: nat, r: Round)
    requires BegunBy(acts, w, r)
    ensures BegunBy(acts + more, w, r)
  {
    var i :| 0 <= i < |acts| && acts[i] == Begin(w, r);
    assert (acts + more)[i] == Begin(w, r);
  }

  lemma RealOfferMore(c: Config, acts: seq<Action>, more: seq<Action>, w: nat, a: Offer)
    requires w < |c.products| && RealOffer(c, acts, w, a)
    ensures RealOffer(c, acts + more, w, a)
  {
    var r, x :| IsRealOffer(c, acts, w, a, r, x);
    BegunMore(acts, more, w, r);
    assert IsRealOffer(c, acts + more, w, a, r, x);
  }

  lemma RealEventMore(c: Config, acts: seq<Action>, more: seq<Action>, x: Entry)
    requires RealEvent(c, acts, x)
    ensures RealEvent(c, acts + more, x)
  {
    if x.event.Polled? {
      var r, j :| IsRealPoll(acts, x.who, x.event, r, j);
      BegunMore(acts, more, x.who, r);
      assert IsRealPoll(acts + more, x.who, x.event, r, j);
    } else if About(x.event).Some? {
      RealOfferMore(c, acts, more, x.who, About(x.event).value);
    }
  }

  lemma AllRealMore(c: Config, acts: seq<Action>, more: seq<Action>, s: System)
    requires Fitting(c, s) && AllReal(c, acts, s)
    ensures AllReal(c, acts + more, s)
  {
    forall i | 0 <= i < |s.log| ensures RealEvent(c, acts + more, s.log[i]) {
      RealEventMore(c, acts, more, s.log[i]);
    }
    forall w | 0 <= w < |s.pcs| ensures RealPc(c, acts + more, w, s.pcs[w]) {
      if !s.pcs[w].Idle? {
        BegunMore(acts, more, w, s.pcs[w].r);
        forall i | 0 <= i < |s.pcs[w].current| ensures RealOffer(c, acts + more, w, s.pcs[w].current[i]) {
          RealOfferMore(c, acts, more, w, s.pcs[w].current[i]);
        }
      }
    }
  }

  /** What a poll contributes is wanted, and was returned at some place of it. */
  lemma ContributionIsReal(c: Config, acts: seq<Action>, w: nat, r: Round, j: nat)
    requires w < |c.products| && BegunBy(acts, w, r) && j < |r.polls|
    ensures forall a :: a in Contribution(c.prefixes, c.products[w], r.polls[j]) ==> RealOffer(c, acts, w, a)
  {
    var p := c.products[w];
    forall a | a in Contribution(c.prefixes, p, r.polls[j]) ensures RealOffer(c, acts, w, a) {
      ContributionExact(c.prefixes, p, r.polls[j], a);
      var raw := r.polls[j].result.value;
      var i :| 0 <= i < |raw| && Stamped(p, raw[i]) == a;
      WantsExactly(c.prefixes, p, raw[i]);
      assert IsRealOffer(c, acts, w, a, r, (j, i));
    }
  }

  lemma GoIsRealPc(c: Config, acts: seq<Action>, w: nat, rows: Table, pc: Pc)
    requires w < |c.products| && pc.Fits() && RealPc(c, acts, w, pc)
    ensures RealPc(c, acts, w, NextPc(c.prefixes, c.products[w], rows, pc))
  {
    if pc.Polling? && pc.j < |pc.r.polls| {
      ContributionIsReal(c, acts, w, pc.r, pc.j);
      var more := Contribution(c.prefixes, c.products[w], pc.r.polls[pc.j]);
      forall i | 0 <= i < |pc.current + more| ensures RealOffer(c, acts, w, (pc.current + more)[i]) {
        if i >= |pc.current| {
          assert (pc.current + more)[i] in more;
        }
      }
    }
  }

  lemma GoIsRealEvent(c: Config, acts: seq<Action>, w: nat, rows: Table, pc: Pc)
    requires w < |c.products| && pc.Fits() && RealPc(c, acts, w, pc)
    ensures forall i :: 0 <= i < |Emitted(rows, pc)| ==> RealEvent(c, acts, Entry(w, Emitted(rows, pc)[i]))
  {
    if pc.Polling? && pc.j < |pc.r.polls| {
      PollReports(pc.r.polls[pc.j]);
      assert IsRealPoll(acts, w, PollEvent(pc.r.polls[pc.j]), pc.r, pc.j);
    }
  }

  lemma NextIsReal(c: Config, acts: seq<Action>, s: System, a: Action)
    requires Fitting(c, s) && AllReal(c, acts, s)
    requires a.Begin? ==> BegunBy(acts, a.w, a.r)
    ensures AllReal(c, acts, Next(c, s, a))
  {
    if a.Go? && a.w < |s.pcs| {
      GoShape(c, s, a.w);
      GoIsRealPc(c, acts, a.w, s.rows, s.pcs[a.w]);
      GoIsRealEvent(c, acts, a.w, s.rows, s.pcs[a.w]);
    }
  }

  /**
   Nothing is made up. In every run from a start, with any faults and crashes:
   every poll event reports a poll of a tick its watcher was told to begin, and
   every lookup, notification and write is for an offer that such a poll returned,
   under the product's name and cap, and that the product wants.
   */
  lemma {:induction false} NothingIsMadeUp(c: Config, s: System, acts: seq<Action>)
    requires Fitting(c, s) && Fresh(s)
    ensures AllReal(c, acts, Run(c, s, acts))
  {
    if acts == [] {
    } else {
      var n := |acts| - 1;
      NothingIsMadeUp(c, s, acts[..n]);
      assert acts == acts[..n] + [acts[n]];
      AllRealMore(c, acts[..n], [acts[n]], Run(c, s, acts[..n]));
      NextIsReal(c, acts, Run(c, s, acts[..n]), acts[n]);
    }
  }

  // ----- from a poll to the endpoint

  lemma {:induction false} LastPollIsLogged(log: seq<Entry>, n: string, onlyGood: bool) returns (i: nat)
    requires LastPoll(n, onlyGood, SinceCrash(log)).Some?
    ensures i < |log| && Some(log[i].event) == LastPoll(n, onlyGood, SinceCrash(log))
    ensures log[i].event.Polled? && log[i].event.source == n && (onlyGood ==> log[i].event.good)
  {
    var m := |log| - 1;
    var es := SinceCrash(log[..m]);
    assert (es + [log[m].event])[..|es|] == es;
    var e := log[m].event;
    if e.Polled? && e.source == n && (e.good || !onlyGood) {
      i := m;
    } else {
      i := LastPollIsLogged(log[..m], n, onlyGood);
    }
  }

  /**
   From a poll to the endpoint. In every reachable state of every interleaving, once
   a source has been polled successfully since the process started, what the
   endpoint shows of it is the number, the total stock and the least known price of
   the offers that its last successful poll returned.
   */
  lemma EndpointShowsLastPoll(c: Config, s: System, acts: seq<Action>, n: string, samples: seq<Sample>)
    returns (w: nat, r: Round, j: nat)
    requires Fitting(c, s) && Fresh(s)
    requires Exposes(MetricsOf(Run(c, s, acts)), samples)
    requires LastPoll(n, true, SinceCrash(Run(c, s, acts).log)).Some?
    ensures IsRealPoll(acts, w, LastPoll(n, true, SinceCrash(Run(c, s, acts).log)).value, r, j)
    ensures r.polls[j].source == n && r.polls[j].result.Some?
    ensures var offers := r.polls[j].result.value;
            && Shows(samples, Available, n, "", |offers| as real)
            && Shows(samples, Stock, n, "", StockFrom(offers, 0) as real)
            && (forall v :: Sample(MinPriceEuros, n, "", v) in samples <==> IsMinPrice(offers, Some(v)))
  {
    var t := Run(c, s, acts);
    var e := LastPoll(n, true, SinceCrash(t.log)).value;
    NothingIsMadeUp(c, s, acts);
    var i := LastPollIsLogged(t.log, n, true);
    assert RealEvent(c, acts, t.log[i]);
    w := t.log[i].who;
    r, j :| IsRealPoll(acts, w, e, r, j);
    MetricsAgree(SinceCrash(t.log), n);
    SomePoll(n, SinceCrash(t.log));
    EachFamilyShows(MetricsOf(t), samples, n);
    LeastIsUnique(r.polls[j].result.value, e.minPrice);
  }

  lemma {:induction false} SomePoll(n: string, es: seq<Event>)
    ensures LastPoll(n, true, es).Some? ==> LastPoll(n, false, es).Some?
  {
    if es == [] {
    } else {
      SomePoll(n, es[..|es| - 1]);
    }
  }

  lemma LeastIsUnique(offers: seq<Offer>, m: Option<real>)
    requires IsMinPrice(offers, m)
    ensures forall v :: IsMinPrice(offers, Some(v)) <==> m == Some(v)
  {
  }
}
