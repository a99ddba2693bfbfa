/**
 One product watcher as a small-step machine: every poll, every store
 operation, every notification and every metrics update is a step of its own,
 so that other watchers (and a crash) can come in between.
 */
module Steps {
  import opened Model
  import opened DedupStore
  import opened WithProduct
  import opened Tick

  /** The program counter of a watcher inside its tick. */
  datatype Pc =
    | Idle
    | Polling(r: Round, j: nat, current: seq<Offer>)
    | Loading(r: Round, current: seq<Offer>)
    | Sweeping(r: Round, current: seq<Offer>, todo: seq<Key>)
    | Looking(r: Round, current: seq<Offer>, i: nat)
    | Sending(r: Round, current: seq<Offer>, i: nat, known: bool)
    | CountingDrop(r: Round, current: seq<Offer>, i: nat)
    | Touching(r: Round, current: seq<Offer>, i: nat)
    | Recording(r: Round, current: seq<Offer>, i: nat)
    | CountingNew(r: Round, current: seq<Offer>, i: nat)
  {
    /** An offer is being handled. */
    predicate AtWork() {
      Looking? || Sending? || CountingDrop? || Touching? || Recording? || CountingNew?
    }

    /** The counter points into the list it walks. */
    predicate Fits() {
      && (AtWork() ==> i < |current|)
      && (Polling? ==> j <= |r.polls|)
    }
  }

  /** The table, one watcher, and what that watcher has done. */
  datatype Local = Local(rows: Table, pc: Pc, log: seq<Event>)

  function AtOffer(r: Round, current: seq<Offer>, i: nat): Pc {
    if i < |current| then Looking(r, current, i) else Idle
  }

  /** The effect of one step on the table. */
  function NextRows(rows: Table, pc: Pc): Table
    requires pc.Fits()
  {
    match pc
    case Sweeping(r, current, todo) =>
      if todo != [] && todo[0] !in KeySet(current) && todo[0] !in r.deleteFails
      then Deleted(rows, todo[0]) else rows
    case Touching(r, current, i) => if FaultAt(r, i).writeOk then Touched(rows, current[i]) else rows
    case Recording(r, current, i) => if FaultAt(r, i).writeOk then Recorded(rows, current[i]) else rows
    case _ => rows
  }

  /** Where the watcher stands after one step. */
  ghost function NextPc(prefixes: seq<string>, p: Product, rows: Table, pc: Pc): Pc
    requires pc.Fits()
  {
    match pc
    case Idle => Idle
    case Polling(r, j, current) =>
      if j < |r.polls| then Polling(r, j + 1, current + Contribution(prefixes, p, r.polls[j]))
      else Loading(r, current)
    case Loading(r, current) =>
      if r.keysOk then Sweeping(r, current, Arrange(r.order, KeysOf(rows, p.name)))
      else AtOffer(r, current, 0)
    case Sweeping(r, current, todo) =>
      if todo == [] then AtOffer(r, current, 0) else Sweeping(r, current, todo[1..])
    case Looking(r, current, i) =>
      var a := current[i];
      if !FaultAt(r, i).lookupOk then AtOffer(r, current, i + 1)
      else if a.key !in rows then Sending(r, current, i, false)
      else if IsDrop(rows[a.key].price, a.price) then Sending(r, current, i, true)
      else Touching(r, current, i)
    case Sending(r, current, i, known) =>
      if !FaultAt(r, i).notifyOk then AtOffer(r, current, i + 1)
      else if known then CountingDrop(r, current, i)
      else Recording(r, current, i)
    case CountingDrop(r, current, i) => Touching(r, current, i)
    case Touching(r, current, i) => AtOffer(r, current, i + 1)
    case Recording(r, current, i) => CountingNew(r, current, i)
    case CountingNew(r, current, i) => AtOffer(r, current, i + 1)
  }

  /** What one step leaves in the log: at most one event. */
  function Emitted(rows: Table, pc: Pc): seq<Event>
    requires pc.Fits()
  {
    match pc
    case Idle => []
    case Polling(r, j, current) => if j < |r.polls| then [PollEvent(r.polls[j])] else []
    case Loading(r, current) => []
    case Sweeping(r, current, todo) =>
      if todo == [] || todo[0] in KeySet(current) then [] else [Dropped(todo[0], todo[0] !in r.deleteFails)]
    case Looking(r, current, i) => [LookedUp(current[i], FaultAt(r, i).lookupOk)]
    case Sending(r, current, i, known) => [Sent(current[i], FaultAt(r, i).notifyOk)]
    case CountingDrop(r, current, i) => [Counted(current[i].source)]
    case Touching(r, current, i) => [Refreshed(current[i], FaultAt(r, i).writeOk)]
    case Recording(r, current, i) =>
      // The primary key refuses a second row.
      [Inserted(current[i], FaultAt(r, i).writeOk && current[i].key !in rows)]
    case CountingNew(r, current, i) => [Counted(current[i].source)]
  }

  ghost function Advance(prefixes: seq<string>, p: Product, l: Local): (n: Local)
    requires l.pc.Fits()
    ensures n.pc.Fits()
  {
    Local(NextRows(l.rows, l.pc), NextPc(prefixes, p, l.rows, l.pc), l.log + Emitted(l.rows, l.pc))
  }

  // ----- a watcher alone on the table

  /** Start a tick (ignored while one is under way), move one step, or die and restart. */
  datatype Solo = Start(r: Round) | Move | Halt

  ghost function SoloNext(prefixes: seq<string>, p: Product, l: Local, a: Solo): (n: Local)
    requires l.pc.Fits()
    ensures n.pc.Fits()
  {
    match a
    case Start(r) => if l.pc.Idle? then l.(pc := Polling(r, 0, [])) else l
    case Move => Advance(prefixes, p, l)
    case Halt => Local(l.rows, Idle, l.log + [Crashed])
  }

  ghost function SoloRun(prefixes: seq<string>, p: Product, l: Local, acts: seq<Solo>): (n: Local)
    requires l.pc.Fits()
    ensures n.pc.Fits()
  {
    if acts == [] then l
    else
      var n := |acts| - 1;
      SoloNext(prefixes, p, SoloRun(prefixes, p, l, acts[..n]), acts[n])
  }

  // ----- letting a tick run to its end

  function Rank(pc: Pc): nat {
    match pc
    case Idle => 0
    case Polling(_, _, _) => 4
    case Loading(_, _) => 3
    case Sweeping(_, _, _) => 2
    case _ => 1
  }

  function Remaining(pc: Pc): nat
    requires pc.Fits()
  {
    match pc
    case Polling(r, j, _) => |r.polls| - j
    case Sweeping(_, _, todo) => |todo|
    case _ => if pc.AtWork() then |pc.current| - pc.i else 0
  }

  function Stage(pc: Pc): nat {
    match pc
    case Looking(_, _, _) => 5
    case Sending(_, _, _, _) => 4
    case CountingDrop(_, _, _) => 3
    case Recording(_, _, _) => 3
    case Touching(_, _, _) => 2
    case CountingNew(_, _, _) => 2
    case _ => 0
  }

  /** The state once the tick under way has run to its end undisturbed. */
  ghost function Finish(prefixes: seq<string>, p: Product, l: Local): (n: Local)
    requires l.pc.Fits()
    ensures n.pc.Idle?
    decreases Rank(l.pc), Remaining(l.pc), Stage(l.pc)
  {
    if l.pc.Idle? then l else Finish(prefixes, p, Advance(prefixes, p, l))
  }

  /** One step on the way to the end. */
  lemma FinishStep(prefixes: seq<string>, p: Product, rows: Table, pc: Pc, log: seq<Event>, rows': Table, pc': Pc,
                   e: Event)
    requires pc.Fits() && !pc.Idle?
    requires NextRows(rows, pc) == rows' && NextPc(prefixes, p, rows, pc) == pc' && Emitted(rows, pc) == [e]
    ensures Finish(prefixes, p, Local(rows, pc, log)) == Finish(prefixes, p, Local(rows', pc', log + [e]))
  {
  }

  lemma FinishTouching(prefixes: seq<string>, p: Product, rows: Table, r: Round, current: seq<Offer>, i: nat,
                       log: seq<Event>)
    requires i < |current|
    ensures Finish(prefixes, p, Local(rows, Touching(r, current, i), log)) ==
            Finish(prefixes, p, Local(if FaultAt(r, i).writeOk then Touched(rows, current[i]) else rows,
                                      AtOffer(r, current, i + 1), log + [Refreshed(current[i], FaultAt(r, i).writeOk)]))
  {
  }

  lemma FinishDrop(prefixes: seq<string>, p: Product, rows: Table, r: Round, current: seq<Offer>, i: nat,
                   log: seq<Event>)
    requires i < |current| && current[i].key in rows && IsDrop(rows[current[i].key].price, current[i].price)
    ensures var h := HandleKnown(rows, current[i], FaultAt(r, i));
            Finish(prefixes, p, Local(rows, Sending(r, current, i, true), log)) ==
            Finish(prefixes, p, Local(h.rows, AtOffer(r, current, i + 1), log + h.events))
  {
    var a, f := current[i], FaultAt(r, i);
    if !f.notifyOk {
      FinishStep(prefixes, p, rows, Sending(r, current, i, true), log, rows, AtOffer(r, current, i + 1),
                 Sent(a, false));
    } else {
      var log1 := log + [Sent(a, true)];
      var log2 := log1 + [Counted(a.source)];
      FinishStep(prefixes, p, rows, Sending(r, current, i, true), log, rows, CountingDrop(r, current, i),
                 Sent(a, true));
      FinishStep(prefixes, p, rows, CountingDrop(r, current, i), log1, rows, Touching(r, current, i),
                 Counted(a.source));
      FinishTouching(prefixes, p, rows, r, current, i, log2);
      assert log2 + [Refreshed(a, f.writeOk)] == log + [Sent(a, true), Counted(a.source), Refreshed(a, f.writeOk)];
    }
  }

  lemma FinishRecording(prefixes: seq<string>, p: Product, rows: Table, r: Round, current: seq<Offer>, i: nat,
                        log: seq<Event>)
    requires i < |current| && current[i].key !in rows
    ensures var a, f := current[i], FaultAt(r, i);
            Finish(prefixes, p, Local(rows, Recording(r, current, i), log)) ==
            Finish(prefixes, p, Local(if f.writeOk then Recorded(rows, a) else rows, AtOffer(r, current, i + 1),
                                      log + [Inserted(a, f.writeOk), Counted(a.source)]))
  {
    var a, f := current[i], FaultAt(r, i);
    var rows', log1 := if f.writeOk then Recorded(rows, a) else rows, log + [Inserted(a, f.writeOk)];
    FinishStep(prefixes, p, rows, Recording(r, current, i), log, rows', CountingNew(r, current, i),
               Inserted(a, f.writeOk));
    FinishStep(prefixes, p, rows', CountingNew(r, current, i), log1, rows', AtOffer(r, current, i + 1),
               Counted(a.source));
    assert log1 + [Counted(a.source)] == log + [Inserted(a, f.writeOk), Counted(a.source)];
  }

  lemma FinishNew(prefixes: seq<string>, p: Product, rows: Table, r: Round, current: seq<Offer>, i: nat,
                  log: seq<Event>)
    requires i < |current| && current[i].key !in rows
    ensures var h := HandleNew(rows, current[i], FaultAt(r, i));
            Finish(prefixes, p, Local(rows, Sending(r, current, i, false), log)) ==
            Finish(prefixes, p, Local(h.rows, AtOffer(r, current, i + 1), log + h.events))
  {
    var a, f := current[i], FaultAt(r, i);
    if !f.notifyOk {
      FinishStep(prefixes, p, rows, Sending(r, current, i, false), log, rows, AtOffer(r, current, i + 1),
                 Sent(a, false));
    } else {
      var log1 := log + [Sent(a, true)];
      FinishStep(prefixes, p, rows, Sending(r, current, i, false), log, rows, Recording(r, current, i), Sent(a, true));
      FinishRecording(prefixes, p, rows, r, current, i, log1);
      assert log1 + [Inserted(a, f.writeOk), Counted(a.source)] ==
             log + [Sent(a, true), Inserted(a, f.writeOk), Counted(a.source)];
    }
  }

  /** Handling one offer step by step is `Handle`. */
  lemma FinishOffer(prefixes: seq<string>, p: Product, rows: Table, r: Round, current: seq<Offer>, i: nat,
                    log: seq<Event>)
    requires i < |current|
    ensures var h := Handle(rows, current[i], FaultAt(r, i));
            Finish(prefixes, p, Local(rows, Looking(r, current, i), log)) ==
            Finish(prefixes, p, Local(h.rows, AtOffer(r, current, i + 1), log + h.events))
  {
    var a, f := current[i], FaultAt(r, i);
    var looked := [LookedUp(a, f.lookupOk)];
    var pc := NextPc(prefixes, p, rows, Looking(r, current, i));
    FinishStep(prefixes, p, rows, Looking(r, current, i), log, rows, pc, LookedUp(a, f.lookupOk));
    if f.lookupOk {
      var rest := if a.key in rows then HandleKnown(rows, a, f) else HandleNew(rows, a, f);
      Regroup(log, looked, rest.events);
      if pc.Touching? {
        FinishTouching(prefixes, p, rows, r, current, i, log + looked);
      } else if a.key in rows {
        FinishDrop(prefixes, p, rows, r, current, i, log + looked);
      } else {
        FinishNew(prefixes, p, rows, r, current, i, log + looked);
      }
    }
  }

  lemma {:induction false} FinishOffers(prefixes: seq<string>, p: Product, rows: Table, r: Round, current: seq<Offer>,
                                        i: nat, log: seq<Event>)
    ensures var done := Process(rows, current, r, i);
            Finish(prefixes, p, Local(rows, AtOffer(r, current, i), log)) == Local(done.rows, Idle, log + done.events)
    decreases |current| - i
  {
    if i >= |current| {
    } else {
      var h := Handle(rows, current[i], FaultAt(r, i));
      FinishOffer(prefixes, p, rows, r, current, i, log);
      FinishOffers(prefixes, p, h.rows, r, current, i + 1, log + h.events);
      Regroup(log, h.events, Process(h.rows, current, r, i + 1).events);
    }
  }

  lemma {:induction false} FinishSweep(prefixes: seq<string>, p: Product, rows: Table, r: Round, current: seq<Offer>,
                                       todo: seq<Key>, log: seq<Event>)
    ensures var s := Sweep(rows, KeySet(current), r.deleteFails, todo);
            Finish(prefixes, p, Local(rows, Sweeping(r, current, todo), log)) ==
            Finish(prefixes, p, Local(s.rows, AtOffer(r, current, 0), log + s.events))
    decreases |todo|
  {
    var l := Local(rows, Sweeping(r, current, todo), log);
    var n := Advance(prefixes, p, l);
    assert Finish(prefixes, p, l) == Finish(prefixes, p, n);
    if todo != [] {
      FinishSweep(prefixes, p, n.rows, r, current, todo[1..], n.log);
      var rest := Sweep(n.rows, KeySet(current), r.deleteFails, todo[1..]);
      Regroup(log, Emitted(rows, l.pc), rest.events);
      if todo[0] in KeySet(current) {
        assert n.log == log;
      }
    } else {
      assert n.log == log;
    }
  }

  lemma {:induction false} FinishPolls(prefixes: seq<string>, p: Product, rows: Table, r: Round, j: nat,
                                       current: seq<Offer>, log: seq<Event>)
    requires j <= |r.polls|
    ensures Finish(prefixes, p, Local(rows, Polling(r, j, current), log)) ==
            Finish(prefixes, p,
                   Local(rows, Loading(r, current + Gathered(prefixes, p, r.polls, j)), log + PollEvents(r.polls, j)))
    decreases |r.polls| - j
  {
    var l := Local(rows, Polling(r, j, current), log);
    var n := Advance(prefixes, p, l);
    assert Finish(prefixes, p, l) == Finish(prefixes, p, n);
    if j < |r.polls| {
      FinishPolls(prefixes, p, rows, r, j + 1, n.pc.current, n.log);
      Regroup(log, [PollEvent(r.polls[j])], PollEvents(r.polls, j + 1));
      Regroup(current, Contribution(prefixes, p, r.polls[j]), Gathered(prefixes, p, r.polls, j + 1));
    } else {
      assert current + [] == current && log + [] == log;
    }
  }

  lemma FinishLoading(prefixes: seq<string>, p: Product, rows: Table, r: Round, current: seq<Offer>, log: seq<Event>)
    ensures var swept := Swept(p, rows, current, r);
            Finish(prefixes, p, Local(rows, Loading(r, current), log)) ==
            Finish(prefixes, p, Local(swept.rows, AtOffer(r, current, 0), log + swept.events))
  {
    var l := Local(rows, Loading(r, current), log);
    assert Finish(prefixes, p, l) == Finish(prefixes, p, Advance(prefixes, p, l));
    assert log + [] == log;
    if r.keysOk {
      FinishSweep(prefixes, p, rows, r, current, Arrange(r.order, KeysOf(rows, p.name)), log);
    }
  }

  /** A tick run step by step, undisturbed, is the tick of `TickOutcome`. */
  lemma FinishIsTick(prefixes: seq<string>, p: Product, rows: Table, r: Round, log: seq<Event>)
    ensures var t := TickOutcome(prefixes, p, rows, r);
            Finish(prefixes, p, Local(rows, Polling(r, 0, []), log)) == Local(t.rows, Idle, log + t.events)
  {
    var current, polled := Current(prefixes, p, r), PollEvents(r.polls, 0);
    var swept := Swept(p, rows, current, r);
    var done := Process(swept.rows, current, r, 0);
    FinishPolls(prefixes, p, rows, r, 0, [], log);
    assert [] + current == current;
    FinishLoading(prefixes, p, rows, r, current, log + polled);
    FinishOffers(prefixes, p, swept.rows, r, current, 0, log + polled + swept.events);
    Regroup(log, polled, swept.events);
    Regroup(log, polled + swept.events, done.events);
  }

  // ----- whole runs without a crash are ticks in sequence

  ghost predicate CrashFree(acts: seq<Solo>) {
    forall i :: 0 <= i < |acts| ==> !acts[i].Halt?
  }

  /** The ticks a run of steps really begins: a start inside a tick is ignored. */
  ghost function Begun(prefixes: seq<string>, p: Product, l: Local, acts: seq<Solo>): seq<Round>
    requires l.pc.Fits()
  {
    if acts == [] then []
    else
      var n := |acts| - 1;
      var before := Begun(prefixes, p, l, acts[..n]);
      if acts[n].Start? && SoloRun(prefixes, p, l, acts[..n]).pc.Idle? then before + [acts[n].r] else before
  }

  /**
   A watcher alone, from any moment between two ticks and whatever steps it is
   given: once the tick under way is complete, the table and the log are those of
   the begun ticks in sequence.
   */
  lemma {:induction false} AloneIsTicks(prefixes: seq<string>, p: Product, start: Local, acts: seq<Solo>)
    requires start.pc.Idle? && CrashFree(acts)
    ensures var t := RunRounds(prefixes, p, start.rows, Begun(prefixes, p, start, acts));
            Finish(prefixes, p, SoloRun(prefixes, p, start, acts)) == Local(t.rows, Idle, start.log + t.events)
  {
    if acts == [] {
      assert start.log + [] == start.log;
    } else {
      var n := |acts| - 1;
      AloneIsTicks(prefixes, p, start, acts[..n]);
      var l := SoloRun(prefixes, p, start, acts[..n]);
      if acts[n].Start? && l.pc.Idle? {
        var before := Begun(prefixes, p, start, acts[..n]);
        var all := Begun(prefixes, p, start, acts);
        assert all[..|all| - 1] == before;
        FinishIsTick(prefixes, p, l.rows, acts[n].r, l.log);
        var t := RunRounds(prefixes, p, start.rows, before);
        Regroup(start.log, t.events, TickOutcome(prefixes, p, l.rows, acts[n].r).events);
      }
    }
  }
}
