/** The metrics agree with what happened, in every interleaving. */
module MetricsLaw {
  import opened Model
  import opened DedupStore
  import opened WithProduct
  import opened Tick
  import opened Steps
  import opened Watchers
  import opened KeyTrace
  import opened Metrics

  /** What the process has seen since it last started. */
  function SinceCrash(log: seq<Entry>): seq<Event> {
    if log == [] then []
    else
      var n := |log| - 1;
      if log[n].event.Crashed? then [] else SinceCrash(log[..n]) + [log[n].event]
  }

  /** The metrics of the running process: they live in memory. */
  function MetricsOf(s: System): States {
    ObservedAll(map[], SinceCrash(s.log))
  }

  // ----- what the events say

  function Deliveries(n: string, es: seq<Event>): nat {
    if es == [] then 0
    else
      var e := es[|es| - 1];
      Deliveries(n, es[..|es| - 1]) + if Delivered(e) && e.offer.source == n then 1 else 0
  }

  function Polls(n: string, good: bool, es: seq<Event>): nat {
    if es == [] then 0
    else
      var e := es[|es| - 1];
      Polls(n, good, es[..|es| - 1]) + if e.Polled? && e.source == n && e.good == good then 1 else 0
  }

  /** The latest poll of a source that satisfies the test. */
  function LastPoll(n: string, onlyGood: bool, es: seq<Event>): Option<Event> {
    if es == [] then None
    else
      var e := es[|es| - 1];
      if e.Polled? && e.source == n && (e.good || !onlyGood) then Some(e) else LastPoll(n, onlyGood, es[..|es| - 1])
  }

  function Counts(n: string, es: seq<Event>): nat {
    if es == [] then 0
    else
      var e := es[|es| - 1];
      Counts(n, es[..|es| - 1]) + if e == Counted(n) then 1 else 0
  }

  /** A state that agrees with the events, gauge by gauge and counter by counter. */
  ghost predicate Agrees(st: SourceState, n: string, es: seq<Event>) {
    && st.checksSuccess == Polls(n, true, es)
    && st.checksError == Polls(n, false, es)
    && st.notifications == Counts(n, es)
    && (match LastPoll(n, false, es)
        case None => st.success == 0 && st.lastCheck == 0
        case Some(e) => e.Polled? && st.success == (if e.good then 1 else 0) && st.lastCheck == e.at)
    && (match LastPoll(n, true, es)
        case None => st.available == 0 && st.stock == 0 && !st.hasPrice
        case Some(e) =>
          && e.Polled? && st.available == e.available && st.stock == e.stock
          && (st.hasPrice <==> e.minPrice.Some?)
          && (st.hasPrice ==> st.minPrice == e.minPrice.value))
  }

  lemma {:induction false} MetricsAgree(es: seq<Event>, n: string)
    ensures Agrees(Get(ObservedAll(map[], es), n), n, es)
    ensures n in ObservedAll(map[], es) <==> LastPoll(n, false, es).Some? || Counts(n, es) > 0
  {
    if es == [] {
    } else {
      MetricsAgree(es[..|es| - 1], n);
    }
  }

  // ----- deliveries not yet counted

  /** This watcher has delivered a notification of source n and not counted it yet. */
  function Owes(pc: Pc, n: string): nat
    requires pc.Fits()
  {
    if (pc.CountingDrop? || pc.Recording? || pc.CountingNew?) && pc.current[pc.i].source == n then 1 else 0
  }

  ghost function Owed(pcs: seq<Pc>, n: string): nat
    requires forall w :: 0 <= w < |pcs| ==> pcs[w].Fits()
  {
    if pcs == [] then 0 else Owed(pcs[..|pcs| - 1], n) + Owes(pcs[|pcs| - 1], n)
  }

  lemma {:induction false} OwedUpdate(pcs: seq<Pc>, n: string, w: nat, pc: Pc)
    requires w < |pcs| && pc.Fits() && forall v :: 0 <= v < |pcs| ==> pcs[v].Fits()
    ensures Owed(pcs[w := pc], n) == Owed(pcs, n) - Owes(pcs[w], n) + Owes(pc, n)
  {
    var m := |pcs| - 1;
    if w < m {
      assert pcs[w := pc][..m] == pcs[..m][w := pc];
      OwedUpdate(pcs[..m], n, w, pc);
    } else {
      assert pcs[w := pc][..m] == pcs[..m];
    }
  }

  lemma {:induction false} IdleOwesNothing(pcs: seq<Pc>, n: string)
    requires forall w :: 0 <= w < |pcs| ==> pcs[w].Idle?
    ensures Owed(pcs, n) == 0
  {
    if pcs == [] {
    } else {
      IdleOwesNothing(pcs[..|pcs| - 1], n);
    }
  }

  ghost predicate Settled(s: System, n: string)
    requires forall w :: 0 <= w < |s.pcs| ==> s.pcs[w].Fits()
  {
    Deliveries(n, SinceCrash(s.log)) == Counts(n, SinceCrash(s.log)) + Owed(s.pcs, n)
  }

  /** A delivery is owed from its step on until the step that counts it. */
  lemma StepOwes(prefixes: seq<string>, p: Product, rows: Table, pc: Pc, n: string)
    requires pc.Fits()
    ensures var e := Emitted(rows, pc);
            && |e| <= 1
            && (e != [] ==> !e[0].Crashed?)
            && Owes(NextPc(prefixes, p, rows, pc), n) ==
               Owes(pc, n)
               + (if e != [] && Delivered(e[0]) && e[0].offer.source == n then 1 else 0)
               - (if e != [] && e[0] == Counted(n) then 1 else 0)
  {
  }

  lemma LogGrows(log: seq<Entry>, w: nat, events: seq<Event>, n: string)
    requires |events| <= 1 && (events != [] ==> !events[0].Crashed?)
    ensures var es, grown := SinceCrash(log), SinceCrash(log + Tagged(w, events));
            && Deliveries(n, grown) ==
               Deliveries(n, es)
               + (if events != [] && Delivered(events[0]) && events[0].offer.source == n then 1 else 0)
            && Counts(n, grown) == Counts(n, es) + (if events != [] && events[0] == Counted(n) then 1 else 0)
  {
    var es := SinceCrash(log);
    if events == [] {
      assert log + Tagged(w, events) == log;
    } else {
      assert (log + Tagged(w, events))[..|log|] == log;
      assert (es + [events[0]])[..|es|] == es;
    }
  }

  lemma GoSettles(c: Config, s: System, w: nat, n: string)
    requires Fitting(c, s) && Settled(s, n) && w < |s.pcs|
    ensures Settled(Next(c, s, Go(w)), n)
  {
    GoShape(c, s, w);
    StepOwes(c.prefixes, c.products[w], s.rows, s.pcs[w], n);
    OwedUpdate(s.pcs, n, w, Next(c, s, Go(w)).pcs[w]);
    LogGrows(s.log, w, Emitted(s.rows, s.pcs[w]), n);
  }

  lemma {:induction false} RunsSettle(c: Config, s: System, acts: seq<Action>, n: string)
    requires Fitting(c, s) && Settled(s, n)
    ensures Settled(Run(c, s, acts), n)
  {
    if acts == [] {
    } else {
      var m := |acts| - 1;
      RunsSettle(c, s, acts[..m], n);
      var mid := Run(c, s, acts[..m]);
      match acts[m]
      case Begin(w, r) =>
        if w < |mid.pcs| && mid.pcs[w].Idle? {
          OwedUpdate(mid.pcs, n, w, Polling(r, 0, []));
        }
      case Go(w) =>
        if w < |mid.pcs| {
          GoSettles(c, mid, w, n);
        }
      case Crash =>
        var end := Next(c, mid, Crash);
        IdleOwesNothing(end.pcs, n);
        assert SinceCrash(end.log) == [];
    }
  }

  /**
   In every reachable state of every interleaving, with faults and crashes: a
   source's notification counter is its deliveries since the process started,
   less those a watcher is about to count (so it counts deliveries whose write
   failed); its check counters are its polls; and its gauges are those of its
   last poll, the offer gauges those of its last successful one.
   */
  lemma MetricsTellTheTruth(c: Config, s: System, acts: seq<Action>, n: string)
    requires Fitting(c, s) && Fresh(s)
    ensures var t := Run(c, s, acts);
            var es := SinceCrash(t.log);
            && Agrees(Get(MetricsOf(t), n), n, es)
            && Get(MetricsOf(t), n).notifications == Deliveries(n, es) - Owed(t.pcs, n)
            && (Fresh(t.(log := [])) ==> Get(MetricsOf(t), n).notifications == Deliveries(n, es))
  {
    IdleOwesNothing(s.pcs, n);
    RunsSettle(c, s, acts, n);
    var t := Run(c, s, acts);
    MetricsAgree(SinceCrash(t.log), n);
    if Fresh(t.(log := [])) {
      IdleOwesNothing(t.pcs, n);
    }
  }
}
