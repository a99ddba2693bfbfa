/**
 All product watchers on one table, in any interleaving, with crashes.
 Products with distinct names and disjoint key spaces do not interfere.
 */
module Watchers {
  import opened Model
  import opened DedupStore
  import opened WithProduct
  import opened Tick
  import opened Steps

  datatype Config = Config(prefixes: seq<string>, products: seq<Product>)

  /** A log entry and the watcher it belongs to; a crash belongs to all. */
  datatype Entry = Entry(who: nat, event: Event)

  datatype System = System(rows: Table, pcs: seq<Pc>, log: seq<Entry>)

  /** A watcher starts a tick, a watcher moves one step, or the process dies and restarts. */
  datatype Action = Begin(w: nat, r: Round) | Go(w: nat) | Crash

  ghost predicate Fitting(c: Config, s: System) {
    && |s.pcs| == |c.products|
    && forall w :: 0 <= w < |s.pcs| ==> s.pcs[w].Fits()
  }

  function Tagged(w: nat, events: seq<Event>): seq<Entry> {
    seq(|events|, i requires 0 <= i < |events| => Entry(w, events[i]))
  }

  ghost function Next(c: Config, s: System, a: Action): (n: System)
    requires Fitting(c, s)
    ensures Fitting(c, n)
  {
    match a
    case Begin(w, r) =>
      if w < |s.pcs| && s.pcs[w].Idle? then s.(pcs := s.pcs[w := Polling(r, 0, [])]) else s
    case Go(w) =>
      if w < |s.pcs| then
        var l := Advance(c.prefixes, c.products[w], Local(s.rows, s.pcs[w], []));
        System(l.rows, s.pcs[w := l.pc], s.log + Tagged(w, l.log))
      else s
    case Crash =>
      System(s.rows, seq(|s.pcs|, _ => Idle), s.log + [Entry(0, Crashed)])
  }

  ghost function Run(c: Config, s: System, acts: seq<Action>): (n: System)
    requires Fitting(c, s)
    ensures Fitting(c, n)
  {
    if acts == [] then s
    else Next(c, Run(c, s, acts[..|acts| - 1]), acts[|acts| - 1])
  }

  // ----- assumptions the configuration does not check

  /** `owner(k)` is the only product whose sources ever report key k. */
  type Owner = Key -> nat

  ghost predicate DistinctNames(c: Config) {
    forall v, w :: 0 <= v < w < |c.products| ==> c.products[v].name != c.products[w].name
  }

  ghost predicate OffersOwned(owner: Owner, w: nat, offers: seq<Offer>) {
    forall i :: 0 <= i < |offers| ==> owner(offers[i].key) == w
  }

  ghost predicate RoundOwned(owner: Owner, w: nat, r: Round) {
    forall j :: 0 <= j < |r.polls| && r.polls[j].result.Some? ==> OffersOwned(owner, w, r.polls[j].result.value)
  }

  /** Disjoint key spaces: every poll of w reports only keys that w owns. */
  ghost predicate ActsOwned(owner: Owner, acts: seq<Action>) {
    forall i :: 0 <= i < |acts| && acts[i].Begin? ==> RoundOwned(owner, acts[i].w, acts[i].r)
  }

  /** Each stored row carries the name of the product that owns its key. */
  ghost predicate RowsOwned(c: Config, owner: Owner, rows: Table) {
    forall k :: k in rows ==> owner(k) < |c.products| && rows[k].product == c.products[owner(k)].name
  }

  // ----- what is kept

  ghost predicate Stamps(c: Config, owner: Owner, w: nat, offers: seq<Offer>)
    requires w < |c.products|
  {
    forall i :: 0 <= i < |offers| ==>
      && owner(offers[i].key) == w
      && offers[i].productName == c.products[w].name
      && offers[i].priceMax == c.products[w].cap
  }

  ghost predicate PcOwned(c: Config, owner: Owner, w: nat, pc: Pc)
    requires w < |c.products|
  {
    && (!pc.Idle? ==> RoundOwned(owner, w, pc.r) && Stamps(c, owner, w, pc.current))
    && (pc.Sweeping? ==> forall i :: 0 <= i < |pc.todo| ==> owner(pc.todo[i]) == w)
  }

  ghost predicate LogOwned(owner: Owner, log: seq<Entry>) {
    forall i, k :: 0 <= i < |log| && k in Mentions(log[i].event) ==> owner(k) == log[i].who
  }

  ghost predicate Inv(c: Config, owner: Owner, s: System) {
    && Fitting(c, s)
    && RowsOwned(c, owner, s.rows)
    && LogOwned(owner, s.log)
    && (forall w :: 0 <= w < |s.pcs| ==> PcOwned(c, owner, w, s.pcs[w]))
  }

  // ----- one watcher's share of the system

  function Share(owner: Owner, w: nat, rows: Table): Table {
    map k | k in rows && owner(k) == w :: rows[k]
  }

  function LogOf(w: nat, log: seq<Entry>): seq<Event> {
    if log == [] then []
    else
      var n := |log| - 1;
      LogOf(w, log[..n]) + (if log[n].who == w || log[n].event.Crashed? then [log[n].event] else [])
  }

  ghost function View(owner: Owner, s: System, w: nat): Local
    requires w < |s.pcs|
  {
    Local(Share(owner, w, s.rows), s.pcs[w], LogOf(w, s.log))
  }

  /** What an action is to watcher w alone: nothing, if it is another's. */
  function SoloOf(w: nat, a: Action): seq<Solo> {
    match a
    case Begin(v, r) => if v == w then [Start(r)] else []
    case Go(v) => if v == w then [Move] else []
    case Crash => [Halt]
  }

  function ActsOf(w: nat, acts: seq<Action>): seq<Solo> {
    if acts == [] then []
    else
      var n := |acts| - 1;
      ActsOf(w, acts[..n]) + SoloOf(w, acts[n])
  }

  // ----- supporting facts

  lemma {:induction false} LogOfTagged(w: nat, v: nat, log: seq<Entry>, events: seq<Event>)
    requires |events| <= 1 && (v == w || events == [] || !events[0].Crashed?)
    ensures LogOf(w, log + Tagged(v, events)) == LogOf(w, log) + (if v == w then events else [])
  {
    if events == [] {
      assert log + Tagged(v, events) == log;
    } else {
      assert (log + Tagged(v, events))[..|log|] == log;
      assert events == [events[0]];
    }
  }

  lemma {:induction false} AdmittedOwned(c: Config, owner: Owner, w: nat, offers: seq<Offer>, i: nat)
    requires w < |c.products| && Stamps(c, owner, w, offers)
    ensures Stamps(c, owner, w, Admitted(c.prefixes, offers, i))
    decreases |offers| - i
  {
    if i >= |offers| {
    } else {
      AdmittedOwned(c, owner, w, offers, i + 1);
    }
  }

  lemma ContributionOwned(c: Config, owner: Owner, w: nat, poll: Poll)
    requires w < |c.products|
    requires poll.result.Some? ==> OffersOwned(owner, w, poll.result.value)
    ensures Stamps(c, owner, w, Contribution(c.prefixes, c.products[w], poll))
  {
    if poll.result.Some? {
      AdmittedOwned(c, owner, w, Stamp(c.products[w], poll.result.value), 0);
    }
  }

  /** By name or by owner: with distinct names these are the same rows. */
  lemma SameKeys(c: Config, owner: Owner, w: nat, rows: Table)
    requires w < |c.products| && DistinctNames(c) && RowsOwned(c, owner, rows)
    ensures KeysOf(rows, c.products[w].name) == KeysOf(Share(owner, w, rows), c.products[w].name)
    ensures forall k :: k in KeysOf(rows, c.products[w].name) ==> owner(k) == w
  {
  }

  /** Table updates at a key of v, seen by w. */
  lemma ShareOfUpdate(owner: Owner, w: nat, rows: Table, k: Key, row: Row)
    ensures Share(owner, w, rows[k := row]) ==
            if owner(k) == w then Share(owner, w, rows)[k := row] else Share(owner, w, rows)
    ensures Share(owner, w, Deleted(rows, k)) ==
            if owner(k) == w then Deleted(Share(owner, w, rows), k) else Share(owner, w, rows)
  {
  }

  /** A step of v touches only v's share, and there it acts as it would alone. */
  lemma RowsStep(c: Config, owner: Owner, v: nat, w: nat, rows: Table, pc: Pc)
    requires v < |c.products| && pc.Fits() && PcOwned(c, owner, v, pc)
    ensures Share(owner, w, NextRows(rows, pc)) ==
            if v == w then NextRows(Share(owner, w, rows), pc) else Share(owner, w, rows)
  {
    match pc
    case Sweeping(_, _, todo) =>
      if todo != [] {
        ShareOfUpdate(owner, w, rows, todo[0], Row("", "", "", 0, None, "", ""));
      }
    case Touching(_, current, i) =>
      var a := current[i];
      if a.key in rows {
        ShareOfUpdate(owner, w, rows, a.key, rows[a.key].(stock := a.stock, price := a.price));
      }
    case Recording(_, current, i) =>
      ShareOfUpdate(owner, w, rows, current[i].key, RowOf(current[i]));
    case _ =>
  }

  lemma LoadingStep(c: Config, owner: Owner, w: nat, rows: Table, pc: Pc)
    requires w < |c.products| && DistinctNames(c) && RowsOwned(c, owner, rows)
    requires pc.Loading? && PcOwned(c, owner, w, pc)
    ensures NextPc(c.prefixes, c.products[w], rows, pc) == NextPc(c.prefixes, c.products[w], Share(owner, w, rows), pc)
    ensures PcOwned(c, owner, w, NextPc(c.prefixes, c.products[w], rows, pc))
  {
    SameKeys(c, owner, w, rows);
    var todo := Arrange(pc.r.order, KeysOf(rows, c.products[w].name));
    ArrangeEnumerates(pc.r.order, KeysOf(rows, c.products[w].name));
    forall i | 0 <= i < |todo| ensures owner(todo[i]) == w {
      assert todo[i] in todo;
    }
  }

  lemma PcStep(c: Config, owner: Owner, w: nat, rows: Table, pc: Pc)
    requires w < |c.products| && DistinctNames(c) && RowsOwned(c, owner, rows)
    requires pc.Fits() && PcOwned(c, owner, w, pc)
    ensures NextPc(c.prefixes, c.products[w], rows, pc) == NextPc(c.prefixes, c.products[w], Share(owner, w, rows), pc)
    ensures PcOwned(c, owner, w, NextPc(c.prefixes, c.products[w], rows, pc))
  {
    match pc
    case Polling(r, j, current) =>
      if j < |r.polls| {
        ContributionOwned(c, owner, w, r.polls[j]);
      }
    case Loading(_, _) => LoadingStep(c, owner, w, rows, pc);
    case _ =>
  }

  lemma EmittedStep(c: Config, owner: Owner, w: nat, rows: Table, pc: Pc)
    requires w < |c.products| && pc.Fits() && PcOwned(c, owner, w, pc)
    ensures Emitted(rows, pc) == Emitted(Share(owner, w, rows), pc)
  {
  }

  lemma RowsStayOwned(c: Config, owner: Owner, w: nat, rows: Table, pc: Pc)
    requires w < |c.products| && RowsOwned(c, owner, rows)
    requires pc.Fits() && PcOwned(c, owner, w, pc)
    ensures RowsOwned(c, owner, NextRows(rows, pc))
  {
  }

  lemma EventsOwned(c: Config, owner: Owner, w: nat, rows: Table, pc: Pc)
    requires w < |c.products| && pc.Fits() && PcOwned(c, owner, w, pc)
    ensures forall i, k :: 0 <= i < |Emitted(rows, pc)| && k in Mentions(Emitted(rows, pc)[i]) ==> owner(k) == w
    ensures |Emitted(rows, pc)| <= 1
    ensures forall i :: 0 <= i < |Emitted(rows, pc)| ==> !Emitted(rows, pc)[i].Crashed?
  {
  }

  /** What a step of v makes of the system. */
  lemma GoShape(c: Config, s: System, v: nat)
    requires Fitting(c, s) && v < |s.pcs|
    ensures Next(c, s, Go(v)) ==
            System(NextRows(s.rows, s.pcs[v]),
                   s.pcs[v := NextPc(c.prefixes, c.products[v], s.rows, s.pcs[v])],
                   s.log + Tagged(v, Emitted(s.rows, s.pcs[v])))
  {
    assert [] + Emitted(s.rows, s.pcs[v]) == Emitted(s.rows, s.pcs[v]);
  }

  lemma LogStaysOwned(owner: Owner, log: seq<Entry>, v: nat, events: seq<Event>)
    requires LogOwned(owner, log)
    requires forall i, k :: 0 <= i < |events| && k in Mentions(events[i]) ==> owner(k) == v
    ensures LogOwned(owner, log + Tagged(v, events))
  {
  }

  lemma GoKeeps(c: Config, owner: Owner, s: System, v: nat)
    requires DistinctNames(c) && Inv(c, owner, s) && v < |s.pcs|
    ensures Inv(c, owner, Next(c, s, Go(v)))
  {
    var pc := s.pcs[v];
    GoShape(c, s, v);
    PcStep(c, owner, v, s.rows, pc);
    RowsStayOwned(c, owner, v, s.rows, pc);
    EventsOwned(c, owner, v, s.rows, pc);
    LogStaysOwned(owner, s.log, v, Emitted(s.rows, pc));
  }

  lemma GoStep(c: Config, owner: Owner, s: System, v: nat, w: nat)
    requires DistinctNames(c) && Inv(c, owner, s) && v < |s.pcs| && w < |s.pcs|
    ensures View(owner, Next(c, s, Go(v)), w) ==
            if w == v then Advance(c.prefixes, c.products[w], View(owner, s, w)) else View(owner, s, w)
  {
    var pc := s.pcs[v];
    var events := Emitted(s.rows, pc);
    GoShape(c, s, v);
    PcStep(c, owner, v, s.rows, pc);
    EmittedStep(c, owner, v, s.rows, pc);
    EventsOwned(c, owner, v, s.rows, pc);
    RowsStep(c, owner, v, w, s.rows, pc);
    LogOfTagged(w, v, s.log, events);
    assert LogOf(w, s.log) + [] == LogOf(w, s.log);
  }

  lemma CrashStep(c: Config, owner: Owner, s: System)
    requires Inv(c, owner, s)
    ensures Inv(c, owner, Next(c, s, Crash))
    ensures forall w :: 0 <= w < |s.pcs| ==>
              View(owner, Next(c, s, Crash), w) == SoloNext(c.prefixes, c.products[w], View(owner, s, w), Halt)
  {
    var n := Next(c, s, Crash);
    assert n.log[..|s.log|] == s.log;
  }

  lemma BeginStep(c: Config, owner: Owner, s: System, v: nat, r: Round, w: nat)
    requires Inv(c, owner, s) && RoundOwned(owner, v, r) && w < |s.pcs|
    ensures Inv(c, owner, Next(c, s, Begin(v, r)))
    ensures View(owner, Next(c, s, Begin(v, r)), w) ==
            if v == w then SoloNext(c.prefixes, c.products[w], View(owner, s, w), Start(r)) else View(owner, s, w)
  {
  }

  /** What watcher w makes of its part of an action. */
  ghost function Taken(prefixes: seq<string>, p: Product, l: Local, solo: seq<Solo>): Local
    requires l.pc.Fits() && |solo| <= 1
  {
    if solo == [] then l else SoloNext(prefixes, p, l, solo[0])
  }

  lemma NextStep(c: Config, owner: Owner, s: System, a: Action, w: nat)
    requires DistinctNames(c) && Inv(c, owner, s) && w < |s.pcs|
    requires a.Begin? ==> RoundOwned(owner, a.w, a.r)
    ensures Inv(c, owner, Next(c, s, a))
    ensures View(owner, Next(c, s, a), w) == Taken(c.prefixes, c.products[w], View(owner, s, w), SoloOf(w, a))
  {
    match a
    case Begin(v, r) => BeginStep(c, owner, s, v, r, w);
    case Go(v) =>
      if v < |s.pcs| {
        GoKeeps(c, owner, s, v);
        GoStep(c, owner, s, v, w);
      }
    case Crash => CrashStep(c, owner, s);
  }

  lemma SoloRunMore(prefixes: seq<string>, p: Product, l: Local, acts: seq<Solo>, solo: seq<Solo>)
    requires l.pc.Fits() && |solo| <= 1
    ensures SoloRun(prefixes, p, l, acts + solo) == Taken(prefixes, p, SoloRun(prefixes, p, l, acts), solo)
  {
    if solo == [] {
      assert acts + solo == acts;
    } else {
      assert (acts + solo)[..|acts|] == acts;
    }
  }

  lemma {:induction false} SoloRunSplit(prefixes: seq<string>, p: Product, l: Local, a: seq<Solo>, b: seq<Solo>)
    requires l.pc.Fits()
    ensures SoloRun(prefixes, p, l, a + b) == SoloRun(prefixes, p, SoloRun(prefixes, p, l, a), b)
  {
    if b == [] {
      assert a + b == a;
    } else {
      assert (a + b)[..|a + b| - 1] == a + b[..|b| - 1];
      SoloRunSplit(prefixes, p, l, a, b[..|b| - 1]);
    }
  }

  /**
   Non-interference: whatever the interleaving, with whatever faults and
   crashes, each product ends with the rows, the program counter and the events
   it would have had running its own steps alone on its own rows.
   */
  lemma {:induction false} NonInterference(c: Config, owner: Owner, s: System, acts: seq<Action>, w: nat)
    requires DistinctNames(c) && ActsOwned(owner, acts)
    requires Inv(c, owner, s)
    requires w < |s.pcs|
    ensures Inv(c, owner, Run(c, s, acts))
    ensures View(owner, Run(c, s, acts), w) == SoloRun(c.prefixes, c.products[w], View(owner, s, w), ActsOf(w, acts))
  {
    if acts == [] {
    } else {
      var n := |acts| - 1;
      var a := acts[n];
      NonInterference(c, owner, s, acts[..n], w);
      var mid := Run(c, s, acts[..n]);
      assert a.Begin? ==> RoundOwned(owner, a.w, a.r);
      NextStep(c, owner, mid, a, w);
      SoloRunMore(c.prefixes, c.products[w], View(owner, s, w), ActsOf(w, acts[..n]), SoloOf(w, a));
    }
  }
}
