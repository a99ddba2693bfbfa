/**
 When products do not interfere, exactly: their names are distinct and no key
 can be reported to two of them.
 */
module Isolation {
  import opened Model
  import opened DedupStore
  import opened WithProduct
  import opened Tick
  import opened Steps
  import opened Watchers
  import opened KeyTrace
  import opened RunLaw
  import opened Baseline
  import opened Interference

  /** Which keys the sources of a product can report. */
  type Reports = (nat, Key) -> bool

  ghost predicate OnlyReports(reports: Reports, w: nat, r: Round) {
    forall j, i :: 0 <= j < |r.polls| && r.polls[j].result.Some? && 0 <= i < |r.polls[j].result.value| ==>
      reports(w, r.polls[j].result.value[i].key)
  }

  ghost predicate Reported(c: Config, reports: Reports, acts: seq<Action>) {
    forall i :: 0 <= i < |acts| && acts[i].Begin? ==>
      acts[i].w < |c.products| && OnlyReports(reports, acts[i].w, acts[i].r)
  }

  ghost predicate HasKey(reports: Reports, w: nat) {
    exists k :: reports(w, k)
  }

  /** An empty table and every watcher idle. */
  ghost function Initial(c: Config): (s: System)
    ensures Fitting(c, s) && Fresh(s)
  {
    System(map[], seq(|c.products|, _ => Idle), [])
  }

  const ALONE := Local(map[], Idle, [])

  /** The rows of the keys w can report. */
  ghost function RowsFor(reports: Reports, w: nat, rows: Table): Table {
    map k | k in rows && reports(w, k) :: rows[k]
  }

  /** In this run w has the rows, the position and the events it would have with the table to itself. */
  ghost predicate AsAlone(c: Config, reports: Reports, acts: seq<Action>, w: nat)
    requires w < |c.products|
  {
    var n := Run(c, Initial(c), acts);
    SoloRun(c.prefixes, c.products[w], ALONE, ActsOf(w, acts)) ==
    Local(RowsFor(reports, w, n.rows), n.pcs[w], LogOf(w, n.log))
  }

  ghost predicate DisjointKeys(c: Config, reports: Reports) {
    forall v: nat, w: nat, k :: v < w < |c.products| && reports(v, k) ==> !reports(w, k)
  }

  // ----- separate products are isolated

  /** The one product that can report k, if there is one. */
  ghost function OwnerBy(c: Config, reports: Reports): Owner {
    (k: Key) =>
      if exists w: nat :: w < |c.products| && reports(w, k)
      then var w: nat :| w < |c.products| && reports(w, k); w
      else |c.products|
  }

  lemma OwnerIsReporter(c: Config, reports: Reports, w: nat, k: Key)
    requires DisjointKeys(c, reports) && w < |c.products| && reports(w, k)
    ensures OwnerBy(c, reports)(k) == w
  {
    var v := OwnerBy(c, reports)(k);
    assert v < |c.products| && reports(v, k);
  }

  lemma SeparateIsAsAlone(c: Config, reports: Reports, acts: seq<Action>, w: nat)
    requires DistinctNames(c) && DisjointKeys(c, reports)
    requires Reported(c, reports, acts) && w < |c.products|
    ensures AsAlone(c, reports, acts, w)
  {
    var owner, s := OwnerBy(c, reports), Initial(c);
    ActsAreOwned(c, reports, acts);
    StartIsAdmissible(c, owner, map[], acts);
    NonInterference(c, owner, s, acts, w);
    assert View(owner, s, w) == ALONE;
    var rows := Run(c, s, acts).rows;
    forall k ensures owner(k) == w <==> reports(w, k) {
      if reports(w, k) {
        OwnerIsReporter(c, reports, w, k);
      }
    }
    assert Share(owner, w, rows) == RowsFor(reports, w, rows);
  }

  lemma ActsAreOwned(c: Config, reports: Reports, acts: seq<Action>)
    requires DisjointKeys(c, reports) && Reported(c, reports, acts)
    ensures ActsOwned(OwnerBy(c, reports), acts)
  {
    var owner := OwnerBy(c, reports);
    forall i | 0 <= i < |acts| && acts[i].Begin? ensures RoundOwned(owner, acts[i].w, acts[i].r) {
      var r := acts[i].r;
      forall j | 0 <= j < |r.polls| && r.polls[j].result.Some?
        ensures OffersOwned(owner, acts[i].w, r.polls[j].result.value)
      {
        forall x | 0 <= x < |r.polls[j].result.value|
          ensures owner(r.polls[j].result.value[x].key) == acts[i].w
        {
          OwnerIsReporter(c, reports, acts[i].w, r.polls[j].result.value[x].key);
        }
      }
    }
  }

  // ----- running one tick to its end, alone and in company

  function Moves(n: nat): seq<Solo> {
    if n == 0 then [] else Moves(n - 1) + [Move]
  }

  function Gos(v: nat, n: nat): seq<Action> {
    if n == 0 then [] else Gos(v, n - 1) + [Go(v)]
  }

  ghost function StepsLeft(prefixes: seq<string>, p: Product, l: Local): nat
    requires l.pc.Fits()
    decreases Rank(l.pc), Remaining(l.pc), Stage(l.pc)
  {
    if l.pc.Idle? then 0 else 1 + StepsLeft(prefixes, p, Advance(prefixes, p, l))
  }

  ghost function After(prefixes: seq<string>, p: Product, l: Local, n: nat): (r: Local)
    requires l.pc.Fits()
    ensures r.pc.Fits()
  {
    if n == 0 then l else Advance(prefixes, p, After(prefixes, p, l, n - 1))
  }

  lemma AfterMore(prefixes: seq<string>, p: Product, l: Local, n: nat, m: nat)
    requires l.pc.Fits() && n == m + 1
    ensures After(prefixes, p, l, n) == Advance(prefixes, p, After(prefixes, p, l, m))
  {
  }

  lemma {:induction false} MovesLength(n: nat)
    ensures |Moves(n)| == n
  {
    if n == 0 {
    } else {
      MovesLength(n - 1);
    }
  }

  /** Running one more move. */
  lemma SoloMove(prefixes: seq<string>, p: Product, l: Local, acts: seq<Solo>)
    requires l.pc.Fits()
    ensures SoloRun(prefixes, p, l, acts + [Move]) == Advance(prefixes, p, SoloRun(prefixes, p, l, acts))
  {
    assert (acts + [Move])[..|acts|] == acts;
  }

  lemma {:induction false} MovesAreAfter(prefixes: seq<string>, p: Product, l: Local, n: nat)
    requires l.pc.Fits()
    ensures SoloRun(prefixes, p, l, Moves(n)) == After(prefixes, p, l, n)
  {
    if n == 0 {
    } else {
      var m := n - 1;
      MovesAreAfter(prefixes, p, l, m);
      SoloMove(prefixes, p, l, Moves(m));
      AfterMore(prefixes, p, l, n, m);
    }
  }

  lemma {:induction false} AfterFirst(prefixes: seq<string>, p: Product, l: Local, n: nat)
    requires l.pc.Fits() && n > 0
    ensures After(prefixes, p, l, n) == After(prefixes, p, Advance(prefixes, p, l), n - 1)
  {
    if n == 1 {
    } else {
      AfterFirst(prefixes, p, l, n - 1);
    }
  }

  /** One step nearer to the end. */
  lemma OneStep(prefixes: seq<string>, p: Product, l: Local, next: Local)
    requires l.pc.Fits() && next == Advance(prefixes, p, l)
    ensures StepsLeft(prefixes, p, next) <= if StepsLeft(prefixes, p, l) == 0 then 0 else StepsLeft(prefixes, p, l) - 1
    ensures Finish(prefixes, p, next) == Finish(prefixes, p, l)
  {
    if l.pc.Idle? {
      IdleStays(prefixes, p, l);
    }
  }

  lemma {:induction false} EnoughStepsFinish(prefixes: seq<string>, p: Product, l: Local, n: nat)
    requires l.pc.Fits() && StepsLeft(prefixes, p, l) <= n
    ensures After(prefixes, p, l, n) == Finish(prefixes, p, l)
    decreases n
  {
    if n == 0 {
    } else {
      AfterFirst(prefixes, p, l, n);
      var next := Advance(prefixes, p, l);
      OneStep(prefixes, p, l, next);
      EnoughStepsFinish(prefixes, p, next, n - 1);
    }
  }

  lemma IdleStays(prefixes: seq<string>, p: Product, l: Local)
    requires l.pc.Idle?
    ensures Advance(prefixes, p, l) == l
  {
    assert l.log + [] == l.log;
  }

  /** How many steps a tick needs at most, from this table. */
  ghost function Enough(prefixes: seq<string>, p: Product, rows: Table, r: Round): nat {
    StepsLeft(prefixes, p, Local(rows, Polling(r, 0, []), []))
  }

  lemma TickAlone(prefixes: seq<string>, p: Product, rows: Table, r: Round, n: nat)
    requires Enough(prefixes, p, rows, r) <= n
    ensures var t := TickOutcome(prefixes, p, rows, r);
            SoloRun(prefixes, p, Local(rows, Polling(r, 0, []), []), Moves(n)) == Local(t.rows, Idle, t.events)
  {
    var t := TickOutcome(prefixes, p, rows, r);
    MovesAreAfter(prefixes, p, Local(rows, Polling(r, 0, []), []), n);
    EnoughStepsFinish(prefixes, p, Local(rows, Polling(r, 0, []), []), n);
    FinishIsTick(prefixes, p, rows, r, []);
    assert [] + t.events == t.events;
  }

  lemma TaggedConcat(v: nat, a: seq<Event>, b: seq<Event>)
    ensures Tagged(v, a + b) == Tagged(v, a) + Tagged(v, b)
  {
  }

  lemma GosMore(c: Config, s: System, v: nat, n: nat)
    requires Fitting(c, s) && n > 0
    ensures Run(c, s, Gos(v, n)) == Next(c, Run(c, s, Gos(v, n - 1)), Go(v))
  {
    GosLength(v, n - 1);
    assert Gos(v, n)[..n - 1] == Gos(v, n - 1) && Gos(v, n)[n - 1] == Go(v);
  }

  /** The system when v has got from where s has it to l. */
  ghost function Moved(s: System, v: nat, l: Local): System
    requires v < |s.pcs|
  {
    System(l.rows, s.pcs[v := l.pc], s.log + Tagged(v, l.log))
  }

  lemma GoOnce(c: Config, s: System, v: nat, l: Local)
    requires Fitting(c, s) && v < |s.pcs| && l.pc.Fits()
    ensures Fitting(c, Moved(s, v, l))
    ensures Next(c, Moved(s, v, l), Go(v)) == Moved(s, v, Advance(c.prefixes, c.products[v], l))
  {
    var e := Emitted(l.rows, l.pc);
    assert [] + e == e;
    TaggedConcat(v, l.log, e);
    Regroup(s.log, Tagged(v, l.log), Tagged(v, e));
    var n := Advance(c.prefixes, c.products[v], l);
    assert s.pcs[v := l.pc][v := n.pc] == s.pcs[v := n.pc];
  }

  lemma NotMoved(s: System, v: nat)
    requires v < |s.pcs|
    ensures Moved(s, v, Local(s.rows, s.pcs[v], [])) == s
  {
    assert s.pcs[v := s.pcs[v]] == s.pcs;
    assert s.log + Tagged(v, []) == s.log;
  }

  lemma GosStep(c: Config, s: System, v: nat, n: nat, l: Local, next: Local)
    requires Fitting(c, s) && v < |s.pcs| && n > 0 && l.pc.Fits()
    requires Run(c, s, Gos(v, n - 1)) == Moved(s, v, l)
    requires next == Advance(c.prefixes, c.products[v], l)
    ensures Run(c, s, Gos(v, n)) == Moved(s, v, next)
  {
    GosMore(c, s, v, n);
    GoOnce(c, s, v, l);
  }

  /** A watcher that moves while the others rest moves as it would alone on this table. */
  lemma {:induction false} GosAreMoves(c: Config, s: System, v: nat, n: nat)
    requires Fitting(c, s) && v < |s.pcs|
    ensures Run(c, s, Gos(v, n)) == Moved(s, v, After(c.prefixes, c.products[v], Local(s.rows, s.pcs[v], []), n))
  {
    var start := Local(s.rows, s.pcs[v], []);
    if n == 0 {
      NotMoved(s, v);
    } else {
      var m := n - 1;
      GosAreMoves(c, s, v, m);
      AfterMore(c.prefixes, c.products[v], start, n, m);
      GosStep(c, s, v, n, After(c.prefixes, c.products[v], start, m), After(c.prefixes, c.products[v], start, n));
    }
  }

  lemma {:induction false} GosLength(v: nat, n: nat)
    ensures |Gos(v, n)| == n
  {
    if n == 0 {
    } else {
      GosLength(v, n - 1);
    }
  }

  /** A tick of v that nobody disturbs. */
  function WholeTick(v: nat, r: Round, n: nat): seq<Action> {
    [Begin(v, r)] + Gos(v, n)
  }

  lemma TickInCompany(c: Config, s: System, v: nat, r: Round, n: nat)
    requires Fitting(c, s) && v < |s.pcs| && s.pcs[v].Idle?
    requires Enough(c.prefixes, c.products[v], s.rows, r) <= n
    ensures var t := TickOutcome(c.prefixes, c.products[v], s.rows, r);
            Run(c, s, WholeTick(v, r, n)) == System(t.rows, s.pcs, s.log + Tagged(v, t.events))
  {
    var begun := s.(pcs := s.pcs[v := Polling(r, 0, [])]);
    assert [Begin(v, r)][..0] == [];
    assert Run(c, s, [Begin(v, r)]) == begun;
    RunSplit(c, s, [Begin(v, r)], Gos(v, n));
    GosAreMoves(c, begun, v, n);
    TickAlone(c.prefixes, c.products[v], s.rows, r, n);
    MovesAreAfter(c.prefixes, c.products[v], Local(s.rows, Polling(r, 0, []), []), n);
    assert begun.pcs[v := Idle] == s.pcs;
  }

  lemma ActsOfSnoc(w: nat, acts: seq<Action>, a: Action)
    ensures ActsOf(w, acts + [a]) == ActsOf(w, acts) + SoloOf(w, a)
  {
    assert (acts + [a])[..|acts|] == acts;
  }

  lemma {:induction false} ActsOfConcat(w: nat, a: seq<Action>, b: seq<Action>)
    ensures ActsOf(w, a + b) == ActsOf(w, a) + ActsOf(w, b)
  {
    if b == [] {
      assert a + b == a;
    } else {
      var front, x := b[..|b| - 1], b[|b| - 1];
      ActsOfConcat(w, a, front);
      assert b == front + [x];
      Regroup(a, front, [x]);
      ActsOfSnoc(w, a + front, x);
      Regroup(ActsOf(w, a), ActsOf(w, front), SoloOf(w, x));
    }
  }

  lemma {:induction false} ActsOfGos(w: nat, v: nat, n: nat)
    ensures ActsOf(w, Gos(v, n)) == if v == w then Moves(n) else []
  {
    if n == 0 {
    } else {
      GosLength(v, n - 1);
      assert Gos(v, n)[..n - 1] == Gos(v, n - 1);
      ActsOfGos(w, v, n - 1);
    }
  }

  lemma ActsOfTick(w: nat, v: nat, r: Round, n: nat)
    ensures ActsOf(w, WholeTick(v, r, n)) == if v == w then [Start(r)] + Moves(n) else []
  {
    ActsOfConcat(w, [Begin(v, r)], Gos(v, n));
    ActsOfGos(w, v, n);
    assert [Begin(v, r)][..0] == [];
  }

  predicate CrashesNot(es: seq<Event>) {
    forall i :: 0 <= i < |es| ==> !es[i].Crashed?
  }

  lemma LogOfSnoc(w: nat, log: seq<Entry>, x: Entry)
    ensures LogOf(w, log + [x]) == LogOf(w, log) + (if x.who == w || x.event.Crashed? then [x.event] else [])
  {
    assert (log + [x])[..|log|] == log;
  }

  lemma TaggedSnoc(v: nat, es: seq<Event>)
    requires es != []
    ensures Tagged(v, es) == Tagged(v, es[..|es| - 1]) + [Entry(v, es[|es| - 1])]
  {
  }

  lemma {:induction false} LogOfMany(w: nat, v: nat, log: seq<Entry>, es: seq<Event>)
    requires CrashesNot(es)
    ensures LogOf(w, log + Tagged(v, es)) == LogOf(w, log) + (if v == w then es else [])
  {
    if es == [] {
      assert log + Tagged(v, es) == log;
      assert LogOf(w, log) + [] == LogOf(w, log);
    } else {
      var front, e := es[..|es| - 1], es[|es| - 1];
      LogOfMany(w, v, log, front);
      TaggedSnoc(v, es);
      Regroup(log, Tagged(v, front), [Entry(v, e)]);
      LogOfSnoc(w, log + Tagged(v, front), Entry(v, e));
      assert es == front + [e];
      Regroup(LogOf(w, log), front, [e]);
      assert LogOf(w, log) + [] + [] == LogOf(w, log) + [];
    }
  }

  lemma {:induction false} ProcessCrashesNot(rows: Table, current: seq<Offer>, r: Round, i: nat)
    ensures CrashesNot(Process(rows, current, r, i).events)
    decreases |current| - i
  {
    if i >= |current| {
    } else {
      ProcessCrashesNot(Handle(rows, current[i], FaultAt(r, i)).rows, current, r, i + 1);
    }
  }

  lemma TickCrashesNot(prefixes: seq<string>, p: Product, rows: Table, r: Round)
    ensures CrashesNot(TickOutcome(prefixes, p, rows, r).events)
  {
    var current := Current(prefixes, p, r);
    PollsDeliver(r.polls, 0);
    SweepDelivers(rows, KeySet(current), r.deleteFails, Arrange(r.order, KeysOf(rows, p.name)));
    ProcessCrashesNot(Swept(p, rows, current, r).rows, current, r, 0);
  }

  // ----- products that share a name or a key are not

  /** A tick of v and one of w, with room for either to run to its end, alone or not. */
  ghost function Both(c: Config, v: nat, w: nat, r: Round, q: Round): (acts: seq<Action>)
    requires v < |c.products| && w < |c.products|
  {
    var n := EnoughForBoth(c, v, w, r, q);
    WholeTick(v, r, n) + WholeTick(w, q, n)
  }

  ghost function EnoughForBoth(c: Config, v: nat, w: nat, r: Round, q: Round): nat
    requires v < |c.products| && w < |c.products|
  {
    var first := TickOutcome(c.prefixes, c.products[v], map[], r).rows;
    Enough(c.prefixes, c.products[v], map[], r)
    + Enough(c.prefixes, c.products[w], first, q) + Enough(c.prefixes, c.products[w], map[], q)
  }

  lemma BothTogether(c: Config, v: nat, w: nat, r: Round, q: Round)
    requires v < |c.products| && w < |c.products|
    ensures var t := TickOutcome(c.prefixes, c.products[v], map[], r);
            var u := TickOutcome(c.prefixes, c.products[w], t.rows, q);
            Run(c, Initial(c), Both(c, v, w, r, q)).log == Tagged(v, t.events) + Tagged(w, u.events)
  {
    var s, n := Initial(c), EnoughForBoth(c, v, w, r, q);
    var t := TickOutcome(c.prefixes, c.products[v], map[], r);
    TickInCompany(c, s, v, r, n);
    TickInCompany(c, System(t.rows, s.pcs, s.log + Tagged(v, t.events)), w, q, n);
    RunSplit(c, s, WholeTick(v, r, n), WholeTick(w, q, n));
    assert [] + Tagged(v, t.events) == Tagged(v, t.events);
  }

  lemma LogOfBoth(v: nat, w: nat, a: seq<Event>, b: seq<Event>)
    requires v != w && CrashesNot(a) && CrashesNot(b)
    ensures LogOf(w, Tagged(v, a) + Tagged(w, b)) == b
  {
    LogOfMany(w, v, [], a);
    LogOfMany(w, w, Tagged(v, a), b);
    assert [] + Tagged(v, a) == Tagged(v, a) && [] + b == b;
  }

  lemma ActsOfBoth(c: Config, v: nat, w: nat, r: Round, q: Round)
    requires v < |c.products| && w < |c.products| && v != w
    ensures ActsOf(w, Both(c, v, w, r, q)) == [Start(q)] + Moves(EnoughForBoth(c, v, w, r, q))
  {
    var n := EnoughForBoth(c, v, w, r, q);
    ActsOfConcat(w, WholeTick(v, r, n), WholeTick(w, q, n));
    ActsOfTick(w, v, r, n);
    ActsOfTick(w, w, q, n);
  }

  /** One tick of v, then one of w; what w does after it, and would do alone. */
  lemma TwoTicks(c: Config, v: nat, w: nat, r: Round, q: Round) returns (acts: seq<Action>)
    requires v < |c.products| && w < |c.products| && v != w
    ensures forall i :: 0 <= i < |acts| && acts[i].Begin? ==> acts[i] == Begin(v, r) || acts[i] == Begin(w, q)
    ensures var first := TickOutcome(c.prefixes, c.products[v], map[], r).rows;
            && LogOf(w, Run(c, Initial(c), acts).log) == TickOutcome(c.prefixes, c.products[w], first, q).events
            && SoloRun(c.prefixes, c.products[w], ALONE, ActsOf(w, acts)).log ==
               TickOutcome(c.prefixes, c.products[w], map[], q).events
  {
    acts := Both(c, v, w, r, q);
    var t := TickOutcome(c.prefixes, c.products[v], map[], r);
    OnlyBegins(v, r, EnoughForBoth(c, v, w, r, q));
    OnlyBegins(w, q, EnoughForBoth(c, v, w, r, q));
    BothTogether(c, v, w, r, q);
    TickCrashesNot(c.prefixes, c.products[v], map[], r);
    TickCrashesNot(c.prefixes, c.products[w], t.rows, q);
    LogOfBoth(v, w, t.events, TickOutcome(c.prefixes, c.products[w], t.rows, q).events);
    ActsOfBoth(c, v, w, r, q);
    SoloTick(c.prefixes, c.products[w], q, EnoughForBoth(c, v, w, r, q));
  }

  lemma SoloTick(prefixes: seq<string>, p: Product, q: Round, n: nat)
    requires Enough(prefixes, p, map[], q) <= n
    ensures SoloRun(prefixes, p, ALONE, [Start(q)] + Moves(n)).log == TickOutcome(prefixes, p, map[], q).events
  {
    SoloRunSplit(prefixes, p, ALONE, [Start(q)], Moves(n));
    assert [Start(q)][..0] == [];
    TickAlone(prefixes, p, map[], q, n);
  }

  lemma {:induction false} OnlyBegins(v: nat, r: Round, n: nat)
    ensures forall i :: 0 <= i < |WholeTick(v, r, n)| && WholeTick(v, r, n)[i].Begin? ==>
              WholeTick(v, r, n)[i] == Begin(v, r)
  {
    GosBegin(v, n);
  }

  lemma {:induction false} GosBegin(v: nat, n: nat)
    ensures forall i :: 0 <= i < |Gos(v, n)| ==> Gos(v, n)[i] == Go(v)
  {
    if n == 0 {
    } else {
      GosBegin(v, n - 1);
    }
  }

  lemma ReportsOnly(reports: Reports, w: nat, a: Offer)
    requires reports(w, a.key)
    ensures OnlyReports(reports, w, OneOffer(a))
  {
  }

  /** Two ticks that both see just this offer. */
  lemma TwoOffers(c: Config, reports: Reports, v: nat, w: nat, a: Offer) returns (acts: seq<Action>)
    requires v < w < |c.products| && reports(v, a.key) && reports(w, a.key)
    ensures Reported(c, reports, acts)
    ensures var first := TickOutcome(c.prefixes, c.products[v], map[], OneOffer(a)).rows;
            && LogOf(w, Run(c, Initial(c), acts).log) ==
               TickOutcome(c.prefixes, c.products[w], first, OneOffer(a)).events
            && SoloRun(c.prefixes, c.products[w], ALONE, ActsOf(w, acts)).log ==
               TickOutcome(c.prefixes, c.products[w], map[], OneOffer(a)).events
  {
    acts := TwoTicks(c, v, w, OneOffer(a), OneOffer(a));
    ReportsOnly(reports, v, a);
    ReportsOnly(reports, w, a);
  }

  /** Two products that can report one key: the second is silenced by the first. */
  lemma SharedKeyInterferes(c: Config, reports: Reports, v: nat, w: nat, k: Key) returns (acts: seq<Action>)
    requires v < w < |c.products| && reports(v, k) && reports(w, k)
    ensures Reported(c, reports, acts) && !AsAlone(c, reports, acts, w)
  {
    acts := TwoOffers(c, reports, v, w, SomeOffer(k));
    SharedKeyIsTakenOver(c.prefixes, c.products[v], c.products[w], SomeOffer(k));
  }

  /** Two products with one name: the second deletes a row of the first. */
  lemma SharedNameInterferes(c: Config, reports: Reports, v: nat, w: nat, k: Key) returns (acts: seq<Action>)
    requires v < w < |c.products| && reports(v, k) && c.products[v].name == c.products[w].name
    ensures Reported(c, reports, acts) && !AsAlone(c, reports, acts, w)
  {
    var a := SomeOffer(k);
    acts := TwoTicks(c, v, w, OneOffer(a), NOTHING);
    ReportsOnly(reports, v, a);
    FirstRow(c.prefixes, c.products[v], a);
    NothingDeletes(c.prefixes, c.products[w], TickOutcome(c.prefixes, c.products[v], map[], OneOffer(a)).rows, k);
    NothingAlone(c.prefixes, c.products[w]);
  }

  lemma FirstRow(prefixes: seq<string>, p: Product, a: Offer)
    requires Passes(prefixes, p, a)
    ensures var rows := TickOutcome(prefixes, p, map[], OneOffer(a)).rows;
            a.key in rows && rows[a.key].product == p.name
  {
    TickStaysPure(prefixes, p, map[], OneOffer(a));
    NewKeyIsTold(prefixes, p, map[], a);
  }

  lemma NothingDeletes(prefixes: seq<string>, q: Product, rows: Table, k: Key)
    requires k in rows && rows[k].product == q.name
    ensures TickOutcome(prefixes, q, rows, NOTHING).events != []
  {
    var todo := Arrange([], KeysOf(rows, q.name));
    ArrangeEnumerates([], KeysOf(rows, q.name));
    assert k in todo;
    assert Current(prefixes, q, NOTHING) == [] && KeySet([]) == {};
    assert Swept(q, rows, [], NOTHING) == Sweep(rows, {}, {}, todo);
  }

  lemma NothingAlone(prefixes: seq<string>, q: Product)
    ensures TickOutcome(prefixes, q, map[], NOTHING).events == []
  {
    assert KeysOf(map[], q.name) == {};
  }

  /**
   Isolation, exactly. Let every product have a key that it can report. Then each
   product does in every run, in any interleaving and with any faults and crashes,
   just what it would do with the table to itself, if and only if the names are
   distinct and no key can be reported to two products.
   */
  lemma IsolatedExactly(c: Config, reports: Reports)
    requires forall w :: 0 <= w < |c.products| ==> HasKey(reports, w)
    ensures (forall acts, w: nat :: Reported(c, reports, acts) && w < |c.products| ==> AsAlone(c, reports, acts, w))
            <==> DistinctNames(c) && DisjointKeys(c, reports)
  {
    if !DistinctNames(c) {
      var v, w :| 0 <= v < w < |c.products| && c.products[v].name == c.products[w].name;
      assert HasKey(reports, v);
      var k :| reports(v, k);
      var acts := SharedNameInterferes(c, reports, v, w, k);
    } else if !DisjointKeys(c, reports) {
      var v: nat, w: nat, k :| v < w < |c.products| && reports(v, k) && reports(w, k);
      var acts := SharedKeyInterferes(c, reports, v, w, k);
    } else {
      forall acts, w: nat | Reported(c, reports, acts) && w < |c.products| ensures AsAlone(c, reports, acts, w) {
        SeparateIsAsAlone(c, reports, acts, w);
      }
    }
  }
}
